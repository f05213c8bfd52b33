/** `kernel_cmdline.cpp`: the tokenizer and quoter of the kernel command line. */
module KernelCommandLine {
  import opened Wrappers
  import Text

  /** `std::isspace` in the C locale; Dafny has no escapes for vertical tab and form feed. */
  predicate IsSpace(c: char) {
    c == ' ' || c == '\t' || c == '\n' || c == '\U{0B}' || c == '\U{0C}' || c == '\r'
  }

  /** The tokenizer between two characters; `quote` is the delimiter of the open quotation. */
  datatype Scan = Scan(arguments: seq<string>, current: string, escaped: bool, quote: Option<char>) {
    function Flush(): Scan {
      if current == [] then this else this.(arguments := arguments + [current], current := [])
    }

    function Next(c: char): Scan {
      if escaped then this.(current := current + [c], escaped := false)
      else if c == '\\' then this.(escaped := true)
      else if quote.Some? then
        if c == quote.value then this.(quote := None) else this.(current := current + [c])
      else if c == '\'' || c == '\"' then this.(quote := Some(c))
      else if IsSpace(c) then Flush()
      else this.(current := current + [c])
    }

    function Run(text: string): Scan
      decreases |text|
    {
      if text == [] then this else Next(text[0]).Run(text[1..])
    }
  }

  const START := Scan([], [], false, None)

  /** The arguments of a text, or the exception for a dangling escape or an open quotation. */
  function Parsed(text: string): Option<seq<string>> {
    var end := START.Run(text);
    if end.escaped || end.quote.Some? then None else Some(end.Flush().arguments)
  }

  /** `KernelCommandLine::parse`. */
  method Parse(text: string) returns (result: Option<seq<string>>)
    ensures result == Parsed(text)
  {
    var arguments: seq<string> := [];
    var current: string := [];
    var escaped := false;
    var quote: Option<char> := None;
    assert text[0..] == text;
    for i := 0 to |text|
      invariant Scan(arguments, current, escaped, quote).Run(text[i..]) == START.Run(text)
    {
      var c := text[i];
      assert text[i..][0] == c && text[i..][1..] == text[i + 1..];
      if escaped {
        current, escaped := current + [c], false;
        continue;
      }
      if c == '\\' {
        escaped := true;
        continue;
      }
      if quote.Some? {
        if c == quote.value { quote := None; } else { current := current + [c]; }
        continue;
      }
      if c == '\'' || c == '\"' {
        quote := Some(c);
        continue;
      }
      if IsSpace(c) {
        if current != [] {
          arguments, current := arguments + [current], [];
        }
        continue;
      }
      current := current + [c];
    }
    if escaped || quote.Some? { return None; }
    if current != [] { arguments := arguments + [current]; }
    result := Some(arguments);
  }

  predicate Quotable(c: char) { c in " \t\r\n\"\\" }

  predicate NeedsQuotes(argument: string) { exists c :: c in argument && Quotable(c) }

  function Escape(argument: string): string {
    if argument == [] then []
    else
      var unit := if argument[0] == '\"' || argument[0] == '\\' then ['\\', argument[0]] else [argument[0]];
      unit + Escape(argument[1..])
  }

  /** `quote_argument`. */
  function Quote(argument: string): string {
    if !NeedsQuotes(argument) then argument else ['\"'] + Escape(argument) + ['\"']
  }

  /** The text `render` has built after some of the arguments. */
  function Rendered(arguments: seq<string>): string {
    if arguments == [] then []
    else
      var n := |arguments| - 1;
      var text := Rendered(arguments[..n]);
      (if text == [] then [] else text + [' ']) + Quote(arguments[n])
  }

  /** `KernelCommandLine::render`. */
  method Render(arguments: seq<string>) returns (result: string)
    ensures result == Rendered(arguments)
  {
    result := [];
    for i := 0 to |arguments|
      invariant result == Rendered(arguments[..i])
    {
      if result != [] { result := result + [' ']; }
      result := result + Quote(arguments[i]);
      assert arguments[..i + 1][..i] == arguments[..i];
    }
    assert arguments[..|arguments|] == arguments;
  }

  lemma {:induction false} RunAppend(scan: Scan, a: string, b: string)
    ensures scan.Run(a + b) == scan.Run(a).Run(b)
    decreases |a|
  {
    if a == [] {
      assert a + b == b;
    } else {
      assert (a + b)[1..] == a[1..] + b;
      RunAppend(scan.Next(a[0]), a[1..], b);
    }
  }

  /** Characters that end up in the current argument when read outside quotations. */
  predicate Plain(c: char) {
    c != '\\' && c != '\'' && c != '\"' && !IsSpace(c)
  }

  lemma {:induction false} RunPlain(scan: Scan, a: string)
    requires !scan.escaped && scan.quote.None?
    requires forall c :: c in a ==> Plain(c)
    ensures scan.Run(a) == scan.(current := scan.current + a)
    decreases |a|
  {
    if a == [] {
      assert scan.current + a == scan.current;
    } else {
      assert Plain(a[0]) by { assert a[0] in a; }
      RunPlain(scan.Next(a[0]), a[1..]);
      assert scan.current + a == (scan.current + [a[0]]) + a[1..];
    }
  }

  lemma {:induction false} RunEscaped(scan: Scan, a: string)
    requires !scan.escaped && scan.quote == Some('\"')
    ensures scan.Run(Escape(a)) == scan.(current := scan.current + a)
    decreases |a|
  {
    if a == [] {
      assert scan.current + a == scan.current;
    } else {
      var unit := if a[0] == '\"' || a[0] == '\\' then ['\\', a[0]] else [a[0]];
      RunAppend(scan, unit, Escape(a[1..]));
      var next := scan.(current := scan.current + [a[0]]);
      if |unit| == 2 {
        assert unit[1..] == [a[0]] && [a[0]][1..] == [];
        assert scan.Run(unit) == scan.Next('\\').Run([a[0]]);
      } else {
        assert unit[1..] == [];
      }
      RunEscaped(next, a[1..]);
      assert scan.current + a == next.current + a[1..];
    }
  }

  /** Characters that `quote_argument` does not know but `parse` gives a meaning. */
  predicate Stray(c: char) { c == '\'' || c == '\U{0B}' || c == '\U{0C}' }

  /** The exact domain of the round trip, argument by argument. */
  predicate Faithful(argument: string) {
    && argument != []
    && ((exists c :: c in argument && (c in " \t\r\n" || c == '\"' || c == '\\'))
        || ('\'' !in argument && '\U{0B}' !in argument && '\U{0C}' !in argument))
  }

  /** From between two arguments, a faithful argument is read back as itself. */
  lemma RunQuoted(scan: Scan, a: string)
    requires !scan.escaped && scan.quote.None? && scan.current == [] && Faithful(a)
    ensures scan.Run(Quote(a)) == scan.(current := a)
  {
    if NeedsQuotes(a) {
      var open := scan.(quote := Some('\"'));
      RunAppend(scan, ['\"'] + Escape(a), ['\"']);
      RunAppend(scan, ['\"'], Escape(a));
      assert scan.Run(['\"']) == open;
      RunEscaped(open, a);
      assert open.(current := a).Run(['\"']) == scan.(current := a);
    } else {
      forall c | c in a ensures Plain(c) {
        assert !Quotable(c) && !Stray(c);
      }
      RunPlain(scan, a);
    }
  }

  /** Reading back faithful arguments leaves the tokenizer inside the last of them. */
  lemma {:induction false} RunRendered(arguments: seq<string>)
    requires forall a :: a in arguments ==> Faithful(a)
    ensures
      var end := START.Run(Rendered(arguments));
      end == (if arguments == [] then START
              else Scan(arguments[..|arguments| - 1], arguments[|arguments| - 1], false, None))
    ensures arguments != [] ==> Rendered(arguments) != []
  {
    if arguments != [] {
      var n := |arguments| - 1;
      var front, last := arguments[..n], arguments[n];
      RunRendered(front);
      var text := Rendered(front);
      var before := if text == [] then [] else text + [' '];
      RunAppend(START, before, Quote(last));
      if front != [] {
        RunAppend(START, text, [' ']);
        var end := START.Run(text);
        assert end.Run([' ']) == end.Next(' ') by { assert [' '][1..] == []; }
        assert front[|front| - 1] in front;
        assert front[..|front| - 1] + [front[|front| - 1]] == front;
      }
      RunQuoted(Scan(front, [], false, None), last);
      assert Quote(last) != [];
    }
  }

  /** The arguments survive printing and parsing when each of them is faithful. */
  lemma RoundTrip(arguments: seq<string>)
    requires forall a :: a in arguments ==> Faithful(a)
    ensures Parsed(Rendered(arguments)) == Some(arguments)
  {
    RunRendered(arguments);
    if arguments != [] {
      var n := |arguments| - 1;
      assert arguments[n] in arguments && arguments[..n] + [arguments[n]] == arguments;
    }
  }

  /** Occurrences of a character. */
  function Count(c: char, s: string): nat {
    if s == [] then 0 else (if s[0] == c then 1 else 0) + Count(c, s[1..])
  }

  function CountAll(c: char, arguments: seq<string>): nat {
    if arguments == [] then 0
    else CountAll(c, arguments[..|arguments| - 1]) + Count(c, arguments[|arguments| - 1])
  }

  lemma {:induction false} CountAppend(c: char, a: string, b: string)
    ensures Count(c, a + b) == Count(c, a) + Count(c, b)
    decreases |a|
  {
    if a == [] {
      assert a + b == b;
    } else {
      assert (a + b)[1..] == a[1..] + b;
      CountAppend(c, a[1..], b);
    }
  }

  ghost function Held(c: char, scan: Scan): nat {
    CountAll(c, scan.arguments) + Count(c, scan.current)
  }

  lemma FlushHolds(c: char, scan: Scan)
    ensures Held(c, scan.Flush()) == Held(c, scan)
  {
    assert (scan.arguments + [scan.current])[..|scan.arguments|] == scan.arguments;
  }

  /** Parsing never invents a character. */
  lemma {:induction false} RunHolds(c: char, scan: Scan, text: string)
    ensures Held(c, scan.Run(text)) <= Held(c, scan) + Count(c, text)
    decreases |text|
  {
    if text != [] {
      FlushHolds(c, scan);
      CountAppend(c, scan.current, [text[0]]);
      assert Count(c, [text[0]]) == if text[0] == c then 1 else 0;
      RunHolds(c, scan.Next(text[0]), text[1..]);
    }
  }

  /** Quoting and joining add only blanks, double quotes and backslashes. */
  lemma {:induction false} EscapeCount(c: char, a: string)
    requires c != '\"' && c != '\\'
    ensures Count(c, Escape(a)) == Count(c, a)
  {
    if a != [] {
      var unit := if a[0] == '\"' || a[0] == '\\' then ['\\', a[0]] else [a[0]];
      CountAppend(c, unit, Escape(a[1..]));
      assert unit[1..] == [] || unit[1..][1..] == [];
      EscapeCount(c, a[1..]);
    }
  }

  lemma {:induction false} RenderedCount(c: char, arguments: seq<string>)
    requires Stray(c)
    ensures Count(c, Rendered(arguments)) == CountAll(c, arguments)
  {
    if arguments != [] {
      var n := |arguments| - 1;
      RenderedCount(c, arguments[..n]);
      var text, last := Rendered(arguments[..n]), arguments[n];
      CountAppend(c, text, [' ']);
      CountAppend(c, if text == [] then [] else text + [' '], Quote(last));
      EscapeCount(c, last);
      CountAppend(c, ['\"'], Escape(last));
      CountAppend(c, ['\"'] + Escape(last), ['\"']);
    }
  }

  lemma {:induction false} RenderedPrefix(arguments: seq<string>, k: nat) returns (rest: string)
    requires k <= |arguments|
    ensures Rendered(arguments) == Rendered(arguments[..k]) + rest
    decreases |arguments| - k
  {
    if k == |arguments| {
      assert arguments[..k] == arguments;
      rest := [];
    } else {
      var tail := RenderedPrefix(arguments, k + 1);
      assert arguments[..k + 1][..k] == arguments[..k];
      var text := Rendered(arguments[..k]);
      var unit := (if text == [] then [] else [' ']) + Quote(arguments[k]);
      assert Rendered(arguments[..k + 1]) == text + unit;
      Text.Associate(text, unit, tail);
      rest := unit + tail;
    }
  }

  /** A stray character read outside quotations disappears. */
  lemma StrayIsLost(arguments: seq<string>, before: string, c: char, after: string)
    requires Rendered(arguments) == before + [c] + after && Stray(c)
    requires !START.Run(before).escaped && START.Run(before).quote.None?
    ensures Parsed(Rendered(arguments)) != Some(arguments)
  {
    var scan := START.Run(before);
    RunAppend(START, before + [c], after);
    RunAppend(START, before, [c]);
    assert scan.Run([c]) == scan.Next(c) by { assert [c][1..] == []; }
    FlushHolds(c, scan);
    RunHolds(c, START, before);
    RunHolds(c, scan.Next(c), after);
    FlushHolds(c, scan.Next(c).Run(after));
    RenderedCount(c, arguments);
    CountAppend(c, before, [c]);
    CountAppend(c, before + [c], after);
    assert Count(c, [c]) == 1;
  }

  lemma FirstStray(a: string) returns (p: nat)
    requires exists c :: c in a && Stray(c)
    ensures p < |a| && Stray(a[p]) && forall c :: c in a[..p] ==> !Stray(c)
  {
    p := 0;
    while !Stray(a[p])
      invariant p < |a| && forall c :: c in a[..p] ==> !Stray(c)
      invariant exists c :: c in a[p..] && Stray(c)
      decreases |a| - p
    {
      var c :| c in a[p..] && Stray(c);
      assert a[p..] == [a[p]] + a[p + 1..] && c in a[p + 1..];
      assert a[..p + 1] == a[..p] + [a[p]];
      p := p + 1;
    }
  }

  lemma {:induction false} RunNonEmpty(scan: Scan, text: string)
    requires [] !in scan.arguments
    ensures [] !in scan.Run(text).Flush().arguments
    decreases |text|
  {
    if text != [] { RunNonEmpty(scan.Next(text[0]), text[1..]); }
  }

  /** After faithful arguments and the harmless start of another one, no quotation is open. */
  lemma ScanStaysOutside(front: seq<string>, sep: string, start: string)
    requires forall a :: a in front ==> Faithful(a)
    requires sep == if Rendered(front) == [] then [] else Rendered(front) + [' ']
    requires forall c :: c in start ==> Plain(c)
    ensures var scan := START.Run(sep + start); !scan.escaped && scan.quote.None?
  {
    var text := Rendered(front);
    RunRendered(front);
    RunAppend(START, text, [' ']);
    assert START.Run(text).Run([' ']) == START.Run(text).Next(' ') by { assert [' '][1..] == []; }
    RunAppend(START, sep, start);
    RunPlain(START.Run(sep), start);
  }

  lemma Regroup(before: string, a: string, rest: string, p: nat)
    requires p < |a|
    ensures before + a + rest == (before + a[..p]) + [a[p]] + (a[p + 1..] + rest)
  {
  }

  /** The printed text around one argument that stays unquoted. */
  lemma RenderedAround(arguments: seq<string>, k: nat) returns (sep: string, rest: string)
    requires k < |arguments| && !NeedsQuotes(arguments[k])
    ensures sep == if Rendered(arguments[..k]) == [] then [] else Rendered(arguments[..k]) + [' ']
    ensures Rendered(arguments) == sep + arguments[k] + rest
  {
    rest := RenderedPrefix(arguments, k + 1);
    sep := if Rendered(arguments[..k]) == [] then [] else Rendered(arguments[..k]) + [' '];
    assert arguments[..k + 1][..k] == arguments[..k];
  }

  lemma StrayArgumentIsLost(arguments: seq<string>, k: nat)
    requires k < |arguments| && !NeedsQuotes(arguments[k]) && exists c :: c in arguments[k] && Stray(c)
    requires forall i :: 0 <= i < k ==> Faithful(arguments[i])
    ensures Parsed(Rendered(arguments)) != Some(arguments)
  {
    var a, front := arguments[k], arguments[..k];
    var p := FirstStray(a);
    var sep, rest := RenderedAround(arguments, k);
    forall c | c in a[..p] ensures Plain(c) {
      assert c in a && !Quotable(c);
    }
    ScanStaysOutside(front, sep, a[..p]);
    Regroup(sep, a, rest, p);
    StrayIsLost(arguments, sep + a[..p], a[p], a[p + 1..] + rest);
  }

  /** With the first unfaithful argument the text no longer says what was meant. */
  lemma UnfaithfulIsLost(arguments: seq<string>, k: nat)
    requires k < |arguments| && !Faithful(arguments[k])
    requires forall i :: 0 <= i < k ==> Faithful(arguments[i])
    ensures Parsed(Rendered(arguments)) != Some(arguments)
  {
    var a := arguments[k];
    if a == [] {
      RunNonEmpty(START, Rendered(arguments));
      assert [] in arguments;
    } else {
      StrayArgumentIsLost(arguments, k);
    }
  }

  /** The round trip and its exact domain. */
  lemma RoundTripExactly(arguments: seq<string>)
    ensures Parsed(Rendered(arguments)) == Some(arguments) <==> forall a :: a in arguments ==> Faithful(a)
  {
    if forall a :: a in arguments ==> Faithful(a) {
      RoundTrip(arguments);
    } else {
      var k := 0;
      while Faithful(arguments[k])
        invariant k < |arguments| && forall i :: 0 <= i < k ==> Faithful(arguments[i])
        invariant exists i :: k <= i < |arguments| && !Faithful(arguments[i])
        decreases |arguments| - k
      {
        k := k + 1;
      }
      UnfaithfulIsLost(arguments, k);
    }
  }

  /** The single quote is the simplest argument the printer gets wrong. */
  lemma SingleQuoteIsLost()
    ensures Parsed(Rendered(["'"])) == None
  {
    assert ["'"][..0] == [] && Rendered([]) == [];
    assert Rendered(["'"]) == "'";
    assert "'"[1..] == [];
    assert START.Run("'") == START.Next('\'').Run([]);
  }

  // ---- plain text with blanks, as the generator writes it ----

  /** Arguments separated by single blanks. */
  function Spaced(arguments: seq<string>): string {
    if arguments == [] then []
    else if |arguments| == 1 then arguments[0]
    else Spaced(arguments[..|arguments| - 1]) + " " + arguments[|arguments| - 1]
  }

  lemma SpacedAppend(arguments: seq<string>, last: string)
    requires arguments != []
    ensures Spaced(arguments + [last]) == Spaced(arguments) + " " + last
  {
    assert (arguments + [last])[..|arguments|] == arguments;
  }

  /** The length of arguments, each with a blank behind it. */
  function Weight(arguments: seq<string>): nat {
    if arguments == [] then 0
    else Weight(arguments[..|arguments| - 1]) + |arguments[|arguments| - 1]| + 1
  }

  lemma {:induction false} SpacedWeight(arguments: seq<string>)
    requires arguments != []
    ensures Weight(arguments) == |Spaced(arguments)| + 1
  {
    var n := |arguments| - 1;
    if n > 0 { SpacedWeight(arguments[..n]); } else { assert arguments[..n] == []; }
  }

  ghost function Gathered(scan: Scan): nat { Weight(scan.arguments) + |scan.current| }

  predicate AllPlain(a: string) { forall c :: c in a ==> Plain(c) }

  ghost predicate Outside(scan: Scan) {
    && !scan.escaped && scan.quote.None? && (forall c :: c in scan.current ==> Plain(c))
    && forall a :: a in scan.arguments ==> AllPlain(a)
  }

  /** No character gathers more than itself. */
  lemma NextGathers(scan: Scan, c: char)
    ensures Gathered(scan.Next(c)) <= Gathered(scan) + 1
    ensures Outside(scan) && Gathered(scan.Next(c)) == Gathered(scan) + 1 ==> Outside(scan.Next(c))
  {
    assert (scan.arguments + [scan.current])[..|scan.arguments|] == scan.arguments;
  }

  lemma {:induction false} RunGathers(scan: Scan, text: string)
    ensures Gathered(scan.Run(text)) <= Gathered(scan) + |text|
    ensures Outside(scan) && Gathered(scan.Run(text)) == Gathered(scan) + |text| ==> Outside(scan.Run(text))
    decreases |text|
  {
    if text != [] {
      NextGathers(scan, text[0]);
      RunGathers(scan.Next(text[0]), text[1..]);
    }
  }

  lemma {:induction false} SpacedIsRendered(arguments: seq<string>)
    requires forall a :: a in arguments ==> a != [] && !NeedsQuotes(a)
    ensures Rendered(arguments) == Spaced(arguments)
    ensures arguments != [] ==> Spaced(arguments) != []
  {
    if arguments != [] {
      var n := |arguments| - 1;
      var front, last := arguments[..n], arguments[n];
      assert last in arguments && forall a :: a in front ==> a in arguments;
      SpacedIsRendered(front);
      assert Quote(last) == last;
      if n == 0 {
        assert front == [] && [] + last == last;
      } else {
        assert Rendered(arguments) == Rendered(front) + [' '] + last;
      }
    }
  }

  lemma PlainIsFaithful(a: string)
    requires a != [] && AllPlain(a)
    ensures !NeedsQuotes(a) && Faithful(a)
  {
    forall c | c in a ensures !Quotable(c) && !Stray(c) {
      assert Plain(c);
    }
  }

  /** Arguments written with single blanks between them and no quotation are read back exactly when
      none is empty and none contains white space or a quoting character. */
  lemma SpacedReadBack(arguments: seq<string>)
    ensures Parsed(Spaced(arguments)) == Some(arguments) <==> forall a :: a in arguments ==> a != [] && AllPlain(a)
  {
    var text := Spaced(arguments);
    if forall a :: a in arguments ==> a != [] && AllPlain(a) {
      forall a | a in arguments ensures !NeedsQuotes(a) && Faithful(a) { PlainIsFaithful(a); }
      SpacedIsRendered(arguments);
      RoundTrip(arguments);
    }
    if Parsed(text) == Some(arguments) && arguments != [] {
      var end := START.Run(text);
      SpacedWeight(arguments);
      RunGathers(START, text);
      assert (end.arguments + [end.current])[..|end.arguments|] == end.arguments;
      RunNonEmpty(START, text);
    }
  }

  // ---- the argument list ----

  predicate HasValue(argument: string, key: string) {
    |argument| > |key| && argument[..|key|] == key && argument[|key|] == '='
  }

  predicate IsKey(argument: string, key: string) {
    argument == key || HasValue(argument, key)
  }

  /** `value`: of the first `key=` argument. */
  function Value(arguments: seq<string>, key: string): Option<string> {
    if arguments == [] then None
    else if HasValue(arguments[0], key) then Some(arguments[0][|key| + 1..])
    else Value(arguments[1..], key)
  }

  /** `values`: of all `key=` arguments, in order. */
  function Values(arguments: seq<string>, key: string): seq<string> {
    if arguments == [] then []
    else (if HasValue(arguments[0], key) then [arguments[0][|key| + 1..]] else []) + Values(arguments[1..], key)
  }

  /** The key part `set` compares: what stands before the first `=`. */
  function KeyPart(replacement: string): string {
    if replacement == [] || replacement[0] == '=' then [] else [replacement[0]] + KeyPart(replacement[1..])
  }

  /** `set` on the argument list: the first argument with the key is replaced, or one is added. */
  function Replaced(arguments: seq<string>, replacement: string): seq<string> {
    if arguments == [] then [replacement]
    else if IsKey(arguments[0], KeyPart(replacement)) then [replacement] + arguments[1..]
    else [arguments[0]] + Replaced(arguments[1..], replacement)
  }

  function Without(arguments: seq<string>, key: string): seq<string> {
    if arguments == [] then []
    else (if IsKey(arguments[0], key) then [] else [arguments[0]]) + Without(arguments[1..], key)
  }

  /** The class: its argument list, changed in place by `set` and `erase`. */
  class CommandLine {
    var arguments: seq<string>

    constructor (arguments: seq<string>)
      ensures this.arguments == arguments
    {
      this.arguments := arguments;
    }

    method Set(key: string, value: string)
      modifies this
      ensures arguments == Replaced(old(arguments), key + ['='] + value)
    {
      var replacement := key + ['='] + value;
      var original := arguments;
      for i := 0 to |original|
        invariant arguments == original
        invariant Replaced(original, replacement) == original[..i] + Replaced(original[i..], replacement)
      {
        if IsKey(arguments[i], KeyPart(replacement)) {
          arguments := arguments[i := replacement];
          assert original[i..][1..] == original[i + 1..];
          assert arguments == original[..i] + ([replacement] + original[i + 1..]);
          return;
        }
        assert original[i..][1..] == original[i + 1..];
        assert original[..i + 1] == original[..i] + [original[i]];
      }
      arguments := arguments + [replacement];
    }

    method Erase(key: string)
      modifies this
      ensures arguments == Without(old(arguments), key)
    {
      var kept: seq<string> := [];
      for i := 0 to |arguments|
        invariant arguments == old(arguments)
        invariant kept + Without(arguments[i..], key) == Without(arguments, key)
      {
        assert arguments[i..][1..] == arguments[i + 1..];
        ghost var rest := Without(arguments[i + 1..], key);
        if !IsKey(arguments[i], key) {
          assert kept + ([arguments[i]] + rest) == (kept + [arguments[i]]) + rest;
          kept := kept + [arguments[i]];
        } else {
          assert [] + rest == rest;
        }
      }
      arguments := kept;
    }
  }

  lemma {:induction false} KeyPartOf(key: string, value: string)
    requires '=' !in key
    ensures KeyPart(key + ['='] + value) == key
  {
    if key == [] {
      assert (key + ['='] + value)[0] == '=';
    } else {
      assert (key + ['='] + value)[1..] == key[1..] + ['='] + value;
      KeyPartOf(key[1..], value);
    }
  }

  lemma BareKeyHasNoValue(key: string, other: string)
    requires '=' !in key
    ensures !HasValue(key, other)
  {
    assert forall i :: 0 <= i < |key| ==> key[i] in key;
  }

  /** An argument has at most one key without an equals sign. */
  lemma KeyIsUnique(argument: string, key: string, other: string)
    requires '=' !in key && '=' !in other && HasValue(argument, key)
    ensures HasValue(argument, other) ==> other == key
  {
    assert forall i :: 0 <= i < |key| ==> key[i] == argument[i] && key[i] in key;
    if HasValue(argument, other) {
      assert forall i :: 0 <= i < |other| ==> other[i] == argument[i] && other[i] in other;
    }
  }

  /** A value that was set is read back, and no other key is affected. */
  lemma {:induction false} SetThenValue(arguments: seq<string>, key: string, value: string, other: string)
    requires '=' !in key && '=' !in other
    ensures
      var changed := Replaced(arguments, key + ['='] + value);
      Value(changed, other) == if other == key then Some(value) else Value(arguments, other)
  {
    var replacement := key + ['='] + value;
    KeyPartOf(key, value);
    assert replacement[..|key|] == key && replacement[|key|] == '=' && replacement[|key| + 1..] == value;
    KeyIsUnique(replacement, key, other);
    if arguments != [] {
      if IsKey(arguments[0], key) {
        assert ([replacement] + arguments[1..])[1..] == arguments[1..];
        if HasValue(arguments[0], key) { KeyIsUnique(arguments[0], key, other); }
        BareKeyHasNoValue(key, other);
      } else {
        SetThenValue(arguments[1..], key, value, other);
        assert ([arguments[0]] + Replaced(arguments[1..], replacement))[1..] == Replaced(arguments[1..], replacement);
      }
    }
  }

  /** Nothing of an erased key is left, and every other key keeps its values. */
  lemma {:induction false} EraseThenValues(arguments: seq<string>, key: string, other: string)
    requires '=' !in key && '=' !in other
    ensures Values(Without(arguments, key), other) == if other == key then [] else Values(arguments, other)
  {
    if arguments != [] {
      EraseThenValues(arguments[1..], key, other);
      if IsKey(arguments[0], key) {
        if HasValue(arguments[0], key) { KeyIsUnique(arguments[0], key, other); }
        BareKeyHasNoValue(key, other);
        assert Without(arguments, key) == Without(arguments[1..], key);
      } else {
        assert ([arguments[0]] + Without(arguments[1..], key))[1..] == Without(arguments[1..], key);
      }
    }
  }

  lemma {:induction false} ValueAppend(a: seq<string>, b: seq<string>, key: string)
    ensures Value(a + b, key) == if Value(a, key).Some? then Value(a, key) else Value(b, key)
    ensures Values(a + b, key) == Values(a, key) + Values(b, key)
    decreases |a|
  {
    if a == [] {
      assert a + b == b;
    } else {
      assert (a + b)[1..] == a[1..] + b;
      ValueAppend(a[1..], b, key);
    }
  }

  lemma ValueOfOne(a: string, key: string)
    ensures Value([a], key) == if HasValue(a, key) then Some(a[|key| + 1..]) else None
    ensures Values([a], key) == if HasValue(a, key) then [a[|key| + 1..]] else []
  {
    assert [a][1..] == [];
  }

  lemma KeyIsSpelled(argument: string, key: string)
    ensures HasValue(argument, key) <==> exists v :: argument == key + "=" + v
    ensures IsKey(argument, key) <==> argument == key || exists v :: argument == key + "=" + v
  {
    if HasValue(argument, key) { assert argument == key + "=" + argument[|key| + 1..]; }
    forall v | argument == key + "=" + v ensures HasValue(argument, key) {}
  }

  /** Erasing a key drops exactly the arguments `key` and `key=...`, however often each occurs. */
  lemma {:induction false} ErasedExactly(arguments: seq<string>, key: string, a: string)
    ensures multiset(Without(arguments, key))[a] ==
      if a == key || exists v :: a == key + "=" + v then 0 else multiset(arguments)[a]
  {
    if arguments != [] {
      ErasedExactly(arguments[1..], key, a);
      assert arguments == [arguments[0]] + arguments[1..];
      KeyIsSpelled(arguments[0], key);
    }
  }

  /** Setting a key replaces its first argument and nothing else, or adds one at the end. */
  lemma {:induction false} SetExactly(arguments: seq<string>, key: string, value: string)
    requires '=' !in key
    ensures
      var changed := Replaced(arguments, key + ['='] + value);
      || ((forall a :: a in arguments ==> !IsKey(a, key)) && changed == arguments + [key + "=" + value])
      || exists i :: 0 <= i < |arguments| && IsKey(arguments[i], key)
                  && (forall j :: 0 <= j < i ==> !IsKey(arguments[j], key))
                  && changed == arguments[i := key + "=" + value]
  {
    var replacement := key + ['='] + value;
    KeyPartOf(key, value);
    if arguments != [] {
      if IsKey(arguments[0], key) {
        assert Replaced(arguments, replacement) == arguments[0 := replacement];
      } else {
        var rest := arguments[1..];
        SetExactly(rest, key, value);
        assert arguments == [arguments[0]] + rest;
        if i :| 0 <= i < |rest| && IsKey(rest[i], key) && (forall j :: 0 <= j < i ==> !IsKey(rest[j], key))
                && Replaced(rest, replacement) == rest[i := replacement] {
          assert [arguments[0]] + rest[i := replacement] == arguments[i + 1 := replacement];
          assert IsKey(arguments[i + 1], key) && forall j :: 0 <= j < i + 1 ==> !IsKey(arguments[j], key);
        } else {
          assert [arguments[0]] + (rest + [replacement]) == arguments + [replacement];
        }
      }
    }
  }
}
