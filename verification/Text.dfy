/** Text shared by the parsers, printers and listings. */
module Text {

  lemma Associate<T>(a: seq<T>, b: seq<T>, c: seq<T>)
    ensures a + (b + c) == (a + b) + c
  {
  }

  /** The position of the first occurrence, or the length. */
  function Find(c: char, s: string): (at: nat)
    ensures at <= |s| && c !in s[..at] && (at < |s| ==> s[at] == c)
  {
    if s == [] || s[0] == c then 0
    else
      var rest := Find(c, s[1..]);
      assert s[..1 + rest] == [s[0]] + s[1..][..rest];
      1 + rest
  }

  lemma FindAfter(prefix: string, c: char, rest: string)
    requires c !in prefix
    ensures Find(c, prefix + ([c] + rest)) == |prefix|
  {
    var s := prefix + ([c] + rest);
    assert forall k :: 0 <= k < |prefix| ==> s[k] == prefix[k] && prefix[k] in prefix;
    assert s[|prefix|] == c;
    assert forall k :: |prefix| < k <= |s| ==> s[..k][|prefix|] == c;
  }

  lemma {:induction false} FoundBy(c: char, s: string, i: nat)
    requires i < |s| && s[i] == c
    ensures Find(c, s) <= i
  {
    if s[0] != c { FoundBy(c, s[1..], i - 1); }
  }

  lemma SplitAfter(a: string, c: char, rest: string)
    ensures
      var s := a + ([c] + rest);
      s[..|a|] == a && s[|a| + 1..] == rest
  {
  }

  /** What follows the first `c` after `a` does not move the first one. */
  lemma FindBefore(a: string, c: char, rest: string)
    ensures Find(c, a + ([c] + rest)) == Find(c, a)
  {
    if Find(c, a) == |a| {
      assert a[..|a|] == a;
      FindAfter(a, c, rest);
    } else {
      var s := a + ([c] + rest);
      FoundBy(c, s, Find(c, a));
      FoundBy(c, a, Find(c, s));
    }
  }

  lemma FindBehind(prefix: string, c: char, s: string)
    requires c !in prefix
    ensures Find(c, prefix + s) == |prefix| + Find(c, s)
  {
    var whole, at := prefix + s, Find(c, s);
    var found := Find(c, whole);
    if at < |s| { FoundBy(c, whole, |prefix| + at); }
    if found < |whole| { FoundBy(c, s, found - |prefix|); }
  }

  predicate IsUpper(c: char) { 'A' <= c <= 'Z' }

  function LowerChar(c: char): char {
    if IsUpper(c) then (c as int + 32) as char else c
  }

  function Lower(s: string): string {
    seq(|s|, i requires 0 <= i < |s| => LowerChar(s[i]))
  }

  const CAPITALS := "ABCDEFGHIJKLMNOPQRSTUVWXYZ"
  const LETTERS := "abcdefghijklmnopqrstuvwxyz"

  /** `d` is what `c` becomes in lower case. */
  ghost predicate Folds(c: char, d: char) {
    if c in CAPITALS then exists k :: 0 <= k < 26 && CAPITALS[k] == c && LETTERS[k] == d else d == c
  }

  /** `t` is `s` with its capital letters, and nothing else, replaced by small ones. */
  ghost predicate InLowerCase(s: string, t: string) {
    |s| == |t| && forall i :: 0 <= i < |s| ==> Folds(s[i], t[i])
  }

  lemma CharFolds(c: char, d: char)
    ensures Folds(c, d) <==> d == LowerChar(c)
  {
    assert forall k :: 0 <= k < 26 ==> CAPITALS[k] as int == 65 + k && LETTERS[k] as int == 97 + k;
    if IsUpper(c) {
      var k := c as int - 65;
      assert CAPITALS[k] == c && LETTERS[k] == LowerChar(c);
    }
  }

  lemma LowerIsLowerCase(s: string, t: string)
    ensures InLowerCase(s, t) <==> t == Lower(s)
  {
    forall i | 0 <= i < |s| && i < |t| ensures Folds(s[i], t[i]) <==> t[i] == Lower(s)[i] { CharFolds(s[i], t[i]); }
  }

  /** A mount source without the subvolume that `findmnt` puts behind it in brackets. */
  function MountSource(source: string): string {
    var at := Find('[', source);
    if at < |source| && source[|source| - 1] == ']' then source[..at] else source
  }

  /** The source is a device, or a device with a path in brackets behind it. */
  ghost predicate IsDevice(source: string, device: string) {
    || ('[' !in device && exists path :: source == device + "[" + path + "]")
    || (device == source && ('[' !in source || !exists front :: source == front + "]"))
  }

  lemma MountSourceOf(device: string, path: string)
    requires '[' !in device
    ensures MountSource(device + "[" + path + "]") == device
  {
    var source := device + "[" + path + "]";
    assert source == device + (['['] + (path + "]"));
    FindAfter(device, '[', path + "]");
  }

  lemma MountSourceIsDevice(source: string, device: string)
    ensures IsDevice(source, device) <==> device == MountSource(source)
  {
    var at := Find('[', source);
    if at == |source| { assert source[..at] == source; }
    if source != [] && source[|source| - 1] == ']' {
      assert source == source[..|source| - 1] + "]";
      if at < |source| {
        FoundBy('[', source, at);
        var path := source[at + 1..|source| - 1];
        assert source == source[..at] + "[" + path + "]";
        assert '[' in source by { assert source[at] == '['; }
      }
    }
    if '[' !in device && exists path :: source == device + "[" + path + "]" {
      var path :| source == device + "[" + path + "]";
      MountSourceOf(device, path);
    }
  }

  /** `std::string` comparison. */
  predicate StringLess(a: string, b: string) {
    if b == [] then false
    else if a == [] then true
    else a[0] < b[0] || (a[0] == b[0] && StringLess(a[1..], b[1..]))
  }

  /** `a` comes first in a dictionary: it is cut short, or smaller at the first difference at `n`. */
  ghost predicate LessAt(a: string, b: string, n: nat) {
    n <= |a| && n < |b| && a[..n] == b[..n] && (n == |a| || a[n] < b[n])
  }

  lemma {:induction false} LessIsLexicographic(a: string, b: string)
    ensures StringLess(a, b) <==> exists n: nat :: LessAt(a, b, n)
  {
    if a == [] || b == [] || a[0] != b[0] {
      if StringLess(a, b) { assert LessAt(a, b, 0); }
      if n: nat :| LessAt(a, b, n) {
        if n > 0 { assert a[..n][0] == b[..n][0]; }
      }
    } else {
      LessIsLexicographic(a[1..], b[1..]);
      if n: nat :| LessAt(a[1..], b[1..], n) {
        assert a[..n + 1] == [a[0]] + a[1..][..n] && b[..n + 1] == [b[0]] + b[1..][..n];
        assert LessAt(a, b, n + 1);
      }
      if n: nat :| LessAt(a, b, n) {
        assert n > 0;
        assert a[1..][..n - 1] == a[..n][1..] && b[1..][..n - 1] == b[..n][1..];
        assert LessAt(a[1..], b[1..], n - 1);
      }
    }
  }

  lemma {:induction false} LessIsIrreflexive(a: string)
    ensures !StringLess(a, a)
  {
    if a != [] { LessIsIrreflexive(a[1..]); }
  }

  lemma {:induction false} LessIsTransitive(a: string, b: string, c: string)
    requires StringLess(a, b) && StringLess(b, c)
    ensures StringLess(a, c)
  {
    if a != [] && a[0] == b[0] && b[0] == c[0] { LessIsTransitive(a[1..], b[1..], c[1..]); }
  }

  lemma {:induction false} LessIsTotal(a: string, b: string)
    ensures StringLess(a, b) || StringLess(b, a) || a == b
  {
    if a != [] && b != [] && a[0] == b[0] {
      LessIsTotal(a[1..], b[1..]);
      assert a == [a[0]] + a[1..] && b == [b[0]] + b[1..];
    }
  }

  /** The lines of a text; a final line end does not begin another line. */
  function Lines(text: string): seq<string>
    decreases |text|
  {
    if text == [] then []
    else
      var end := Find('\n', text);
      if end == |text| then [text]
      else [text[..end]] + Lines(text[end + 1..])
  }

  lemma {:induction false} LinesHaveNoLineEnd(text: string)
    ensures forall line :: line in Lines(text) ==> '\n' !in line
    decreases |text|
  {
    if text != [] {
      var end := Find('\n', text);
      assert end == |text| ==> text[..end] == text;
      if end < |text| { LinesHaveNoLineEnd(text[end + 1..]); }
    }
  }

  /** Every line followed by a line end. */
  function Join(lines: seq<string>): string {
    if lines == [] then [] else lines[0] + ['\n'] + Join(lines[1..])
  }

  lemma {:induction false} LinesOfJoin(lines: seq<string>)
    requires forall line :: line in lines ==> '\n' !in line
    ensures Lines(Join(lines)) == lines
  {
    if lines != [] {
      var text := Join(lines);
      FindAfter(lines[0], '\n', Join(lines[1..]));
      assert text == lines[0] + (['\n'] + Join(lines[1..]));
      assert text[..|lines[0]|] == lines[0] && text[|lines[0]| + 1..] == Join(lines[1..]);
      LinesOfJoin(lines[1..]);
    }
  }

  /** Text behind the last line end is a line as well. */
  lemma {:induction false} LinesOfRest(lines: seq<string>, rest: string)
    requires rest != [] && '\n' !in rest && forall line :: line in lines ==> '\n' !in line
    ensures Lines(Join(lines) + rest) == lines + [rest]
  {
    if lines == [] {
      assert Join(lines) + rest == rest && rest[..|rest|] == rest;
    } else {
      var line, tail := lines[0], Join(lines[1..]) + rest;
      Associate(line, ['\n'], Join(lines[1..]));
      Associate(line, ['\n'] + Join(lines[1..]), rest);
      Associate(['\n'], Join(lines[1..]), rest);
      FindAfter(line, '\n', tail);
      SplitAfter(line, '\n', tail);
      LinesOfRest(lines[1..], rest);
      assert [line] + (lines[1..] + [rest]) == lines + [rest];
    }
  }

  lemma JoinOne(line: string, rest: seq<string>)
    ensures Join([line] + rest) == line + ['\n'] + Join(rest)
  {
    assert ([line] + rest)[1..] == rest;
  }

  lemma JoinThree(a: string, b: string, c: string, rest: seq<string>)
    ensures Join([a, b, c] + rest) == a + "\n" + b + "\n" + c + "\n" + Join(rest)
  {
    assert [a, b, c] + rest == [a] + ([b] + ([c] + rest));
    JoinOne(c, rest);
    JoinOne(b, [c] + rest);
    JoinOne(a, [b] + ([c] + rest));
  }

  lemma CutAt(text: string, end: nat)
    requires end < |text| && text[end] == '\n'
    ensures text == text[..end] + ['\n'] + text[end + 1..]
  {
  }

  lemma EndsBefore(text: string, end: nat)
    requires text != [] && text[|text| - 1] == '\n' && end <= |text| && '\n' !in text[..end]
    ensures end < |text|
  {
    assert text[..|text|][|text| - 1] == '\n';
  }

  lemma {:induction false} JoinOfLines(text: string)
    requires text != [] ==> text[|text| - 1] == '\n'
    ensures Join(Lines(text)) == text
    decreases |text|
  {
    if text != [] {
      var end := Find('\n', text);
      EndsBefore(text, end);
      var rest := text[end + 1..];
      assert rest != [] ==> rest[|rest| - 1] == text[|text| - 1];
      JoinOfLines(rest);
      JoinOne(text[..end], Lines(rest));
      CutAt(text, end);
    }
  }

  lemma {:induction false} JoinConcat(a: seq<string>, b: seq<string>)
    ensures Join(a + b) == Join(a) + Join(b)
  {
    if a == [] {
      assert a + b == b;
    } else {
      JoinConcat(a[1..], b);
      assert (a + b)[1..] == a[1..] + b;
      Associate(a[0] + ['\n'], Join(a[1..]), Join(b));
    }
  }

  lemma {:induction false} JoinAppend(lines: seq<string>, line: string)
    ensures Join(lines + [line]) == Join(lines) + line + ['\n']
  {
    if lines == [] {
      assert [line][1..] == [];
    } else {
      JoinAppend(lines[1..], line);
      assert (lines + [line])[1..] == lines[1..] + [line];
    }
  }

  predicate IsDigit(c: char) { '0' <= c <= '9' }

  predicate AllDigits(s: string) { forall c :: c in s ==> IsDigit(c) }

  function DigitValue(c: char): nat
    requires IsDigit(c)
  {
    c as int - '0' as int
  }

  function DigitChar(d: nat): (c: char)
    requires d < 10
    ensures IsDigit(c) && DigitValue(c) == d
  {
    "0123456789"[d]
  }

  /** The value of a string of decimal digits. */
  function NumberOf(s: string): nat
    requires AllDigits(s)
  {
    if s == [] then 0
    else
      assert s[|s| - 1] in s;
      NumberOf(s[..|s| - 1]) * 10 + DigitValue(s[|s| - 1])
  }

  /** `std::to_string` of a natural number. */
  function Decimal(n: nat): (s: string)
    ensures s != [] && AllDigits(s) && NumberOf(s) == n && (s[0] == '0' ==> n == 0 && |s| == 1)
  {
    if n < 10 then [DigitChar(n)]
    else
      var s := Decimal(n / 10) + [DigitChar(n % 10)];
      assert s[..|s| - 1] == Decimal(n / 10);
      s
  }
}
