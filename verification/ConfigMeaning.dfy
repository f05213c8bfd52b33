/** What the lines of a configuration file mean, told by their text: how each kind of line may be
    written, and which field each section and key sets to what (`config_loader.cpp`). */
module ConfigMeaning {
  import opened Wrappers
  import opened Text
  import opened ConfigLoader
  import opened ConfigRoundTrip
  import KernelCommandLine

  // ---- how lines are written ----

  /** Blanks, tabs, carriage returns. */
  predicate OnlyBlanks(s: string) { forall c :: c in s ==> c in " \t\r\n" }

  /** A text without blanks on either side. */
  predicate Core(s: string) { s != "" ==> s[0] !in " \t\r\n" && s[|s| - 1] !in " \t\r\n" }

  ghost predicate Around(text: string, core: string) {
    Core(core) && exists a, b :: OnlyBlanks(a) && OnlyBlanks(b) && text == a + core + b
  }

  ghost predicate WrittenAs(line: string, key: string, value: string, left: string, name: string, right: string) {
    && line == left + "=" + right && '=' !in left && Around(left, name) && Around(right, value)
    && name != "" && name[0] !in "#;" && InLowerCase(name, key)
    && (name[0] == '[' && value != "" ==> value[|value| - 1] != ']')
  }

  /** `key = value`, the key in any case, blanks anywhere around the two. */
  ghost predicate WritesPair(line: string, key: string, value: string) {
    exists left, name, right :: WrittenAs(line, key, value, left, name, right)
  }

  /** `[section]`, in any case, blanks anywhere around brackets and name. */
  ghost predicate WritesHeader(line: string, section: string) {
    exists inner, name ::
      Around(line, "[" + inner + "]") && Around(inner, name) && name != "" && InLowerCase(name, section)
  }

  /** A blank line, or one whose first character is `#` or `;`. */
  ghost predicate WritesNothing(line: string) {
    OnlyBlanks(line) || exists a, sign, rest :: OnlyBlanks(a) && sign in "#;" && line == a + [sign] + rest
  }

  lemma {:induction false} TrimLeftOf(a: string, rest: string)
    requires OnlyBlanks(a) && (rest == "" || rest[0] !in " \t\r\n")
    ensures TrimLeft(a + rest) == rest
  {
    if a == "" {
      assert a + rest == rest;
    } else {
      assert (a + rest)[1..] == a[1..] + rest;
      TrimLeftOf(a[1..], rest);
    }
  }

  lemma {:induction false} TrimRightOf(core: string, b: string)
    requires OnlyBlanks(b) && (core == "" || core[|core| - 1] !in " \t\r\n")
    ensures TrimRight(core + b) == core
  {
    if b == "" {
      assert core + b == core;
    } else {
      assert (core + b)[..|core + b| - 1] == core + b[..|b| - 1];
      TrimRightOf(core, b[..|b| - 1]);
    }
  }

  lemma TrimAround(text: string, core: string)
    requires Around(text, core)
    ensures Trim(text) == core
  {
    var a, b :| OnlyBlanks(a) && OnlyBlanks(b) && text == a + core + b;
    if core == "" {
      assert text == a + b + "";
      assert OnlyBlanks(a + b);
      TrimLeftOf(a + b, "");
    } else {
      assert text == a + (core + b);
      TrimLeftOf(a, core + b);
      TrimRightOf(core, b);
    }
  }

  lemma {:induction false} LeftBlanks(s: string) returns (a: string)
    ensures OnlyBlanks(a) && s == a + TrimLeft(s)
  {
    a := "";
    if s != "" && Blank(s[0]) {
      var rest := LeftBlanks(s[1..]);
      a := [s[0]] + rest;
    }
  }

  lemma {:induction false} RightBlanks(s: string) returns (b: string)
    ensures OnlyBlanks(b) && s == TrimRight(s) + b
  {
    b := "";
    if s != "" && Blank(s[|s| - 1]) {
      var rest := RightBlanks(s[..|s| - 1]);
      b := rest + [s[|s| - 1]];
    }
  }

  lemma AroundTrim(text: string)
    ensures Around(text, Trim(text))
  {
    var a := LeftBlanks(text);
    var b := RightBlanks(TrimLeft(text));
    TrimIsTrimmed(text);
    assert text == a + Trim(text) + b;
  }

  lemma MakeAround(text: string, a: string, core: string, b: string)
    requires text == a + core + b && OnlyBlanks(a) && OnlyBlanks(b) && Core(core)
    ensures Around(text, core)
  {
  }

  /** The trimmed line ends with the value, or with the equals sign. */
  function PairText(name: string, b: string, c: string, value: string): string {
    name + b + (['='] + if value == "" then "" else c + value)
  }

  lemma PairCore(line: string, left: string, right: string, a: string, name: string, b: string, c: string,
                 value: string, d: string)
    requires line == left + "=" + right && left == a + name + b && right == c + value + d
    requires OnlyBlanks(a) && OnlyBlanks(b) && OnlyBlanks(c) && OnlyBlanks(d) && Core(name) && Core(value) && name != ""
    ensures Trim(line) == PairText(name, b, c, value)
  {
    var text := PairText(name, b, c, value);
    assert text[0] == name[0];
    if value == "" {
      assert text[|text| - 1] == '=' && OnlyBlanks(c + d);
      MakeAround(line, a, text, c + d);
    } else {
      assert text[|text| - 1] == value[|value| - 1];
      MakeAround(line, a, text, d);
    }
    TrimAround(line, text);
  }

  lemma BehindName(name: string, b: string, c: string, value: string)
    requires '=' !in name + b && OnlyBlanks(b) && OnlyBlanks(c) && Core(name) && Core(value) && name != ""
    ensures
      var text := PairText(name, b, c, value);
      var equal := Find('=', text);
      && equal < |text| && text[0] == name[0]
      && text[|text| - 1] == (if value == "" then '=' else value[|value| - 1])
      && Trim(text[..equal]) == name && Trim(text[equal + 1..]) == value
  {
    var rest := if value == "" then "" else c + value;
    var text := PairText(name, b, c, value);
    FindAfter(name + b, '=', rest);
    SplitAfter(name + b, '=', rest);
    assert text[0] == name[0];
    assert "" + name + b == name + b && Around(name + b, name);
    TrimAround(name + b, name);
    if value == "" {
      assert "" + "" + "" == "" && Around("", "");
    } else {
      assert c + value + "" == c + value && Around(c + value, value);
    }
    TrimAround(rest, value);
  }

  lemma NotInPart(x: char, whole: string, a: string, name: string, b: string)
    requires x !in whole && whole == a + name + b
    ensures x !in name + b
  {
    assert whole == a + (name + b);
    assert x in name + b ==> x in a + (name + b);
  }

  lemma ParsedPair(line: string, name: string, value: string)
    requires
      var text := Trim(line);
      var equal := Find('=', text);
      && equal < |text| && text[0] !in "#;" && !(text[0] == '[' && text[|text| - 1] == ']') && name != ""
      && Trim(text[..equal]) == name && Trim(text[equal + 1..]) == value
    ensures ParseLine(line) == Pair(Lower(name), value)
  {
  }

  lemma PairRead(line: string, key: string, value: string, name: string, b: string, c: string)
    requires OnlyBlanks(b) && OnlyBlanks(c) && Core(name) && Core(value) && name != "" && '=' !in name + b
    requires Trim(line) == PairText(name, b, c, value)
    requires name[0] !in "#;" && key == Lower(name) && (name[0] == '[' && value != "" ==> value[|value| - 1] != ']')
    ensures ParseLine(line) == Pair(key, value)
  {
    BehindName(name, b, c, value);
    ParsedPair(line, name, value);
  }

  lemma PairIsRead(line: string, key: string, value: string, left: string, name: string, right: string)
    requires WrittenAs(line, key, value, left, name, right)
    ensures ParseLine(line) == Pair(key, value)
  {
    var a, b :| OnlyBlanks(a) && OnlyBlanks(b) && left == a + name + b;
    var c, d :| OnlyBlanks(c) && OnlyBlanks(d) && right == c + value + d;
    PairCore(line, left, right, a, name, b, c, value, d);
    NotInPart('=', left, a, name, b);
    LowerIsLowerCase(name, key);
    PairRead(line, key, value, name, b, c);
  }

  lemma HeaderIsRead(line: string, section: string)
    requires WritesHeader(line, section)
    ensures ParseLine(line) == Header(section)
  {
    var inner, name :|
      Around(line, "[" + inner + "]") && Around(inner, name) && name != "" && InLowerCase(name, section);
    var text := "[" + inner + "]";
    TrimAround(line, text);
    assert text[0] == '[' && text[|text| - 1] == ']' && text[1..|text| - 1] == inner;
    TrimAround(inner, name);
    LowerIsLowerCase(name, section);
  }

  lemma NothingIsRead(line: string)
    requires WritesNothing(line)
    ensures ParseLine(line) == Skipped
  {
    if OnlyBlanks(line) {
      assert line == "" + "" + line;
      MakeAround(line, "", "", line);
      TrimAround(line, "");
    } else {
      var a, sign, rest :| OnlyBlanks(a) && sign in "#;" && line == a + [sign] + rest;
      var b := RightBlanks([sign] + rest);
      assert line == a + ([sign] + rest);
      TrimLeftOf(a, [sign] + rest);
      var text := Trim(line);
      assert [sign] + rest == text + b;
      assert sign == (text + b)[0];
    }
  }

  lemma AroundMore(a: string, text: string, b: string, core: string)
    requires Around(text, core) && OnlyBlanks(a) && OnlyBlanks(b)
    ensures Around(a + text + b, core)
  {
    var x, y :| OnlyBlanks(x) && OnlyBlanks(y) && text == x + core + y;
    assert OnlyBlanks(a + x) && OnlyBlanks(y + b);
    MakeAround(a + text + b, a + x, core, y + b);
  }

  lemma EndsOfCore(text: string, core: string)
    requires Around(text, core) && text != ""
    ensures text[0] !in " \t\r\n" ==> core != "" && core[0] == text[0]
    ensures text[|text| - 1] !in " \t\r\n" ==> core != "" && core[|core| - 1] == text[|text| - 1]
  {
    var a, b :| OnlyBlanks(a) && OnlyBlanks(b) && text == a + core + b;
    assert a != "" ==> text[0] == a[0];
    assert b != "" ==> text[|text| - 1] == b[|b| - 1];
    if core == "" { assert OnlyBlanks(a + b) && text == a + b; }
  }

  lemma PairUnfolded(line: string, text: string)
    requires ParseLine(line).Pair? && text == Trim(line)
    ensures Find('=', text) < |text| && text[0] !in "#;" && !(text[0] == '[' && text[|text| - 1] == ']')
    ensures Trim(text[..Find('=', text)]) != "" && Lower(Trim(text[..Find('=', text)])) == ParseLine(line).key
    ensures Trim(text[Find('=', text) + 1..]) == ParseLine(line).value
  {
  }

  lemma PairParts(line: string, text: string, front: string, rest: string)
    requires ParseLine(line).Pair? && text == Trim(line)
    requires front == text[..Find('=', text)] && Find('=', text) < |text| && rest == text[Find('=', text) + 1..]
    ensures
      var name, value := Trim(front), Trim(rest);
      && name != "" && name[0] !in "#;" && Lower(name) == ParseLine(line).key && value == ParseLine(line).value
      && (name[0] == '[' && value != "" ==> value[|value| - 1] != ']')
  {
    PairUnfolded(line, text);
    TrimIsTrimmed(line);
    AroundTrim(front);
    AroundTrim(rest);
    if front == "" { TrimAround(front, ""); }
    EndsOfCore(front, Trim(front));
    if rest == "" {
      TrimAround(rest, "");
    } else {
      assert rest[|rest| - 1] == text[|text| - 1];
      EndsOfCore(rest, Trim(rest));
    }
  }

  lemma SplitEqual(a: string, text: string, b: string, at: nat)
    requires at < |text| && text[at] == '=' && '=' !in text[..at] && OnlyBlanks(a)
    ensures a + text + b == (a + text[..at] + "") + "=" + ("" + text[at + 1..] + b)
    ensures '=' !in a + text[..at] + ""
  {
    assert text == text[..at] + "=" + text[at + 1..];
  }

  lemma PairIsWritten(line: string) returns (left: string, right: string)
    requires ParseLine(line).Pair?
    ensures WrittenAs(line, ParseLine(line).key, ParseLine(line).value, left, Trim(left), right)
  {
    var text := Trim(line);
    AroundTrim(line);
    var a, b :| OnlyBlanks(a) && OnlyBlanks(b) && line == a + text + b;
    var equal := Find('=', text);
    var front, rest := text[..equal], text[equal + 1..];
    left, right := a + front + "", "" + rest + b;
    SplitEqual(a, text, b, equal);
    PairParts(line, text, front, rest);
    AroundTrim(front);
    AroundTrim(rest);
    AroundMore(a, front, "", Trim(front));
    AroundMore("", rest, b, Trim(rest));
    TrimAround(left, Trim(front));
    LowerIsLowerCase(Trim(front), Lower(Trim(front)));
  }

  lemma HeaderIsWritten(line: string)
    requires ParseLine(line).Header?
    ensures WritesHeader(line, ParseLine(line).section)
  {
    var text := Trim(line);
    AroundTrim(line);
    var inner := text[1..|text| - 1];
    assert text == "[" + inner + "]";
    AroundTrim(inner);
    LowerIsLowerCase(Trim(inner), Lower(Trim(inner)));
  }

  lemma NothingIsWritten(line: string)
    requires ParseLine(line).Skipped?
    ensures WritesNothing(line)
  {
    var text := Trim(line);
    AroundTrim(line);
    var a, b :| OnlyBlanks(a) && OnlyBlanks(b) && line == a + text + b;
    if text != "" { assert line == a + [text[0]] + (text[1..] + b); }
  }

  /** The three ways a line may be written, exactly; every other line is an error. */
  lemma LineForms(line: string, key: string, value: string)
    ensures ParseLine(line) == Skipped <==> WritesNothing(line)
    ensures ParseLine(line) == Header(key) <==> WritesHeader(line, key)
    ensures ParseLine(line) == Pair(key, value) <==> WritesPair(line, key, value)
    ensures ParseLine(line) == Malformed <==>
      !WritesNothing(line) && (forall s :: !WritesHeader(line, s)) && forall k, v :: !WritesPair(line, k, v)
  {
    if ParseLine(line).Skipped? { NothingIsWritten(line); }
    if ParseLine(line).Header? { HeaderIsWritten(line); }
    if ParseLine(line).Pair? { var left, right := PairIsWritten(line); }
    if WritesNothing(line) { NothingIsRead(line); }
    forall s | WritesHeader(line, s) ensures ParseLine(line) == Header(s) { HeaderIsRead(line, s); }
    forall k, v | WritesPair(line, k, v) ensures ParseLine(line) == Pair(k, v) {
      var left, name, right :| WrittenAs(line, k, v, left, name, right);
      PairIsRead(line, k, v, left, name, right);
    }
  }

  // ---- what the words of a value mean ----

  datatype Value = Switch(on: bool) | Number(n: nat) | Plain(text: string) | Items(items: seq<string>)

  ghost predicate WritesSwitch(word: string, on: bool) {
    exists t :: InLowerCase(word, t) && t in (if on then {"true", "yes", "1"} else {"false", "no", "0"})
  }

  lemma SwitchIsRead(word: string, on: bool)
    requires Core(word)
    ensures ParseBool(word) == Some(on) <==> WritesSwitch(word, on)
  {
    TrimOfTrimmed(word);
    LowerIsLowerCase(word, Lower(word));
    forall t | InLowerCase(word, t) ensures t == Lower(word) { LowerIsLowerCase(word, t); }
  }

  /** `std::isspace` in the C locale. */
  predicate OnlySpace(s: string) { forall c :: c in s ==> c == ' ' || 0x09 <= c as int <= 0x0D }

  /** Decimal digits of a number that fits 64 bits, a sign before them or none; the minus sign negates
      modulo the width. */
  ghost predicate Digits(sign: string, digits: string, n: nat) {
    && digits != "" && AllDigits(digits) && NumberOf(digits) < 0x1_0000_0000_0000_0000 && n < 0x1_0000_0000_0000_0000
    && sign in {"", "+", "-"}
    && if sign == "-" then (n + NumberOf(digits)) % 0x1_0000_0000_0000_0000 == 0 else n == NumberOf(digits)
  }

  ghost predicate WritesNumber(word: string, n: nat) {
    exists front, sign, digits :: word == front + (sign + digits) && OnlySpace(front) && Digits(sign, digits, n)
  }

  lemma {:induction false} SkipOnlySpace(front: string, rest: string)
    requires OnlySpace(front) && rest != "" && rest[0] != ' ' && !(0x09 <= rest[0] as int <= 0x0D)
    ensures SkipSpace(front + rest) == rest
  {
    if front == "" {
      assert front + rest == rest;
    } else {
      assert front[0] in front && (front + rest)[1..] == front[1..] + rest;
      assert forall c :: c in front[1..] ==> c in front;
      SkipOnlySpace(front[1..], rest);
    }
  }

  lemma {:induction false} SkippedSpace(s: string) returns (front: string)
    ensures OnlySpace(front) && s == front + SkipSpace(s)
  {
    front := "";
    if s != "" && KernelCommandLine.IsSpace(s[0]) {
      var rest := SkippedSpace(s[1..]);
      front := [s[0]] + rest;
    }
  }

  lemma WrittenNumber(word: string, front: string, sign: string, digits: string, n: nat)
    requires Core(word) && word == front + (sign + digits) && OnlySpace(front) && Digits(sign, digits, n)
    ensures ParseSize(word) == Some(n)
  {
    var rest := sign + digits;
    TrimOfTrimmed(word);
    assert digits[0] in digits;
    SkipOnlySpace(front, rest);
    assert sign != "" ==> rest[0] == sign[0] && rest[1..] == digits;
    assert sign == "" ==> rest == digits;
  }

  lemma ReadNumber(word: string, n: nat)
    requires Core(word) && ParseSize(word) == Some(n)
    ensures WritesNumber(word, n)
  {
    TrimOfTrimmed(word);
    var front := SkippedSpace(word);
    var rest := SkipSpace(word);
    var sign := if rest[0] == '-' then "-" else if rest[0] == '+' then "+" else "";
    var digits := if sign == "" then rest else rest[1..];
    assert rest == sign + digits;
    assert Digits(sign, digits, n);
  }

  lemma NumberIsRead(word: string, n: nat)
    requires Core(word)
    ensures ParseSize(word) == Some(n) <==> WritesNumber(word, n)
  {
    if WritesNumber(word, n) {
      var front, sign, digits :| word == front + (sign + digits) && OnlySpace(front) && Digits(sign, digits, n);
      WrittenNumber(word, front, sign, digits, n);
    }
    if ParseSize(word) == Some(n) { ReadNumber(word, n); }
  }

  function Commas(pieces: seq<string>): string {
    if pieces == [] then ""
    else if |pieces| == 1 then pieces[0]
    else pieces[0] + ("," + Commas(pieces[1..]))
  }

  function NonEmptyOnes(items: seq<string>): seq<string> {
    if items == [] then [] else (if items[0] == "" then [] else [items[0]]) + NonEmptyOnes(items[1..])
  }

  ghost predicate Pieces(word: string, pieces: seq<string>, cores: seq<string>) {
    && pieces != [] && |cores| == |pieces| && word == Commas(pieces)
    && forall i :: 0 <= i < |pieces| ==> ',' !in pieces[i] && Around(pieces[i], cores[i])
  }

  /** The items are what stands between the commas, blanks around it dropped, without the empty ones. */
  ghost predicate WritesList(word: string, items: seq<string>) {
    exists pieces, cores :: Pieces(word, pieces, cores) && items == NonEmptyOnes(cores)
  }

  lemma OtherPieces(word: string, pieces: seq<string>, cores: seq<string>)
    requires Pieces(word, pieces, cores) && |pieces| > 1
    ensures Pieces(Commas(pieces[1..]), pieces[1..], cores[1..])
    ensures Find(',', word) == |pieces[0]| < |word|
    ensures word[..|pieces[0]|] == pieces[0] && word[|pieces[0]| + 1..] == Commas(pieces[1..])
  {
    FindAfter(pieces[0], ',', Commas(pieces[1..]));
    SplitAfter(pieces[0], ',', Commas(pieces[1..]));
    forall i | 0 <= i < |pieces[1..]| ensures ',' !in pieces[1..][i] && Around(pieces[1..][i], cores[1..][i]) {
      assert pieces[1..][i] == pieces[i + 1] && cores[1..][i] == cores[i + 1];
    }
  }

  lemma {:induction false} PiecesAreRead(word: string, pieces: seq<string>, cores: seq<string>)
    requires Pieces(word, pieces, cores)
    ensures ListOf(word) == NonEmptyOnes(cores)
    decreases |pieces|
  {
    TrimAround(pieces[0], cores[0]);
    assert cores == [cores[0]] + cores[1..];
    if |pieces| == 1 {
      assert word[..|word|] == word;
      assert cores[1..] == [] && Item(word) + [] == Item(word);
    } else {
      OtherPieces(word, pieces, cores);
      PiecesAreRead(Commas(pieces[1..]), pieces[1..], cores[1..]);
    }
  }

  lemma {:induction false} ListPieces(word: string) returns (pieces: seq<string>, cores: seq<string>)
    ensures Pieces(word, pieces, cores)
    decreases |word|
  {
    var end := Find(',', word);
    AroundTrim(word[..end]);
    pieces, cores := [word[..end]], [Trim(word[..end])];
    if end == |word| {
      assert word[..end] == word;
    } else {
      var more, moreCores := ListPieces(word[end + 1..]);
      pieces, cores := pieces + more, cores + moreCores;
      assert pieces[1..] == more && word == word[..end] + ("," + word[end + 1..]);
    }
  }

  lemma ListIsWritten(word: string, items: seq<string>)
    ensures ListOf(word) == items <==> WritesList(word, items)
  {
    var pieces, cores := ListPieces(word);
    PiecesAreRead(word, pieces, cores);
    forall p, c | Pieces(word, p, c) ensures ListOf(word) == NonEmptyOnes(c) { PiecesAreRead(word, p, c); }
  }

  // ---- which setting a section and key name, and which field it is ----

  /** The section and key a setting goes by in the file. */
  predicate Names(section: string, name: string, key: Key) {
    match key
    case SchemaVersion => section == "manager" && name == "schema_version"
    case BootMount => section == "system" && name == "boot_mount"
    case LimineConfig => section == "system" && name == "limine_config"
    case KernelCmdlineFile => section == "system" && name == "kernel_cmdline_file"
    case ModulesRoot => section == "system" && name == "modules_root"
    case Cpuinfo => section == "system" && name == "cpuinfo"
    case MkinitcpioConfig => section == "system" && name == "mkinitcpio_config"
    case SnapperConfig => section == "snapper" && name == "config"
    case SnapshotsSubvolume => section == "snapper" && name == "snapshots_subvolume"
    case SnapshotsDirectory => section == "snapper" && name == "snapshots_directory"
    case MaxSnapshots => section == "snapper" && name == "max_snapshots"
    case IncludeReadWrite => section == "snapper" && name == "include_read_write"
    case Retain => section == "backups" && name == "retain"
    case RootTitle => section == "menu" && name == "root_title"
    case SnapshotsTitle => section == "menu" && name == "snapshots_title"
    case RootExpanded => section == "menu" && name == "root_expanded"
    case SnapshotsExpanded => section == "menu" && name == "snapshots_expanded"
    case Include => section == "kernels" && name == "include"
    case Exclude => section == "kernels" && name == "exclude"
    case Order => section == "kernels" && name == "order"
    case ThemeName => section == "theme" && name == "name"
    case Enabled => section == "automation" && name == "enabled"
    case SnapperEvents => section == "automation" && name == "snapper"
    case PacmanEvents => section == "automation" && name == "pacman"
    case DebounceSeconds => section == "automation" && name == "debounce_seconds"
    case RuntimeDirectory => section == "automation" && name == "runtime_directory"
    case ProtectConfig => section == "secure_boot" && name == "protect_config"
    case AutomaticApply => section == "secure_boot" && name == "automatic_apply"
    case EfiExecutable => section == "secure_boot" && name == "efi_executable"
    case LimineOption(option) => section == "limine" && name == option
  }

  lemma FirstNames(section: string, name: string, key: Key)
    requires KeyOf(section, name) == Some(key) && section in {"manager", "system", "backups", "theme", "limine"}
    ensures Names(section, name, key)
  {
  }

  lemma OtherNames(section: string, name: string, key: Key)
    requires KeyOf(section, name) == Some(key) && section in {"snapper", "menu", "kernels"}
    ensures Names(section, name, key)
  {
  }

  lemma LastNames(section: string, name: string, key: Key)
    requires KeyOf(section, name) == Some(key) && section in {"automation", "secure_boot"}
    ensures Names(section, name, key)
  {
  }

  lemma ReadAsNamed(section: string, name: string, key: Key)
    requires KeyOf(section, name) == Some(key)
    ensures Names(section, name, key)
  {
    if section in {"snapper", "menu", "kernels"} { OtherNames(section, name, key); }
    else if section in {"automation", "secure_boot"} { LastNames(section, name, key); }
    else { FirstNames(section, name, key); }
  }

  lemma NamedAsRead(section: string, name: string, key: Key)
    requires Names(section, name, key)
    ensures KeyOf(section, name) == Some(key)
  {
    assert section == SectionName(SectionOf(key)) && name == Name(key);
    NamesAreRead(key);
  }

  /** What a setting is. */
  function Field(c: AppConfig, key: Key): Option<Value> {
    match key
    case SchemaVersion => Some(Number(c.schemaVersion))
    case BootMount => Some(Plain(c.system.bootMount))
    case LimineConfig => Some(Plain(c.system.limineConfig))
    case KernelCmdlineFile => Some(Plain(c.system.kernelCmdlineFile))
    case ModulesRoot => Some(Plain(c.system.modulesRoot))
    case Cpuinfo => Some(Plain(c.system.cpuinfo))
    case MkinitcpioConfig => Some(Plain(c.system.mkinitcpioConfig))
    case SnapperConfig => Some(Plain(c.snapper.config))
    case SnapshotsSubvolume => Some(Plain(c.snapper.subvolume))
    case SnapshotsDirectory => Some(Plain(c.snapper.directory))
    case MaxSnapshots => Some(Number(c.snapper.maxSnapshots))
    case IncludeReadWrite => Some(Switch(c.snapper.includeReadWrite))
    case Retain => Some(Number(c.retention))
    case RootTitle => Some(Plain(c.menu.rootTitle))
    case SnapshotsTitle => Some(Plain(c.menu.snapshotsTitle))
    case RootExpanded => Some(Switch(c.menu.rootExpanded))
    case SnapshotsExpanded => Some(Switch(c.menu.snapshotsExpanded))
    case Include => Some(Items(c.kernels.included))
    case Exclude => Some(Items(c.kernels.excluded))
    case Order => Some(Items(c.kernels.order))
    case ThemeName => Some(Plain(c.theme))
    case Enabled => Some(Switch(c.automation.enabled))
    case SnapperEvents => Some(Switch(c.automation.snapper))
    case PacmanEvents => Some(Switch(c.automation.pacman))
    case DebounceSeconds => Some(Number(c.automation.debounceSeconds))
    case RuntimeDirectory => Some(Plain(c.automation.runtimeDirectory))
    case ProtectConfig => Some(Switch(c.secureBoot.protectConfig))
    case AutomaticApply => Some(Switch(c.secureBoot.automaticApply))
    case EfiExecutable => Some(Plain(c.secureBoot.efiExecutable))
    case LimineOption(option) => if option in c.limine then Some(Plain(c.limine[option])) else None
  }

  /** What a value means for a setting: a theme name is taken in lower case, and the EFI path `auto`
      is the empty one. */
  ghost predicate Means(key: Key, word: string, v: Value) {
    if key in {RootExpanded, SnapshotsExpanded, IncludeReadWrite, Enabled, SnapperEvents, PacmanEvents, ProtectConfig,
               AutomaticApply} then
      v.Switch? && WritesSwitch(word, v.on)
    else if key in {SchemaVersion, MaxSnapshots, Retain, DebounceSeconds} then v.Number? && WritesNumber(word, v.n)
    else if key in {Include, Exclude, Order} then v.Items? && WritesList(word, v.items)
    else if key == ThemeName then v.Plain? && InLowerCase(word, v.text)
    else v.Plain? && v.text == if key == EfiExecutable && word == "auto" then "" else word
  }

  /** `d` is `c` with this setting changed and no other one; the system profile copies the EFI path. */
  ghost predicate Changed(c: AppConfig, d: AppConfig, key: Key, v: Value) {
    && (forall k :: Field(d, k) == if k == key then Some(v) else Field(c, k))
    && d.system.limineEfiExecutable ==
         if key == EfiExecutable then d.secureBoot.efiExecutable else c.system.limineEfiExecutable
  }

  lemma SystemFields(c: AppConfig, d: AppConfig)
    requires forall k :: Field(c, k) == Field(d, k)
    requires c.system.limineEfiExecutable == d.system.limineEfiExecutable
    ensures c.system == d.system
  {
    assert Field(c, BootMount) == Field(d, BootMount);
    assert Field(c, LimineConfig) == Field(d, LimineConfig);
    assert Field(c, KernelCmdlineFile) == Field(d, KernelCmdlineFile);
    assert Field(c, ModulesRoot) == Field(d, ModulesRoot);
    assert Field(c, Cpuinfo) == Field(d, Cpuinfo);
    assert Field(c, MkinitcpioConfig) == Field(d, MkinitcpioConfig);
  }

  lemma SnapperFields(c: AppConfig, d: AppConfig)
    requires forall k :: Field(c, k) == Field(d, k)
    ensures c.snapper == d.snapper
  {
    assert Field(c, SnapperConfig) == Field(d, SnapperConfig);
    assert Field(c, SnapshotsSubvolume) == Field(d, SnapshotsSubvolume);
    assert Field(c, SnapshotsDirectory) == Field(d, SnapshotsDirectory);
    assert Field(c, MaxSnapshots) == Field(d, MaxSnapshots);
    assert Field(c, IncludeReadWrite) == Field(d, IncludeReadWrite);
  }

  lemma MenuFields(c: AppConfig, d: AppConfig)
    requires forall k :: Field(c, k) == Field(d, k)
    ensures c.menu == d.menu && c.kernels == d.kernels
  {
    assert Field(c, RootTitle) == Field(d, RootTitle);
    assert Field(c, SnapshotsTitle) == Field(d, SnapshotsTitle);
    assert Field(c, RootExpanded) == Field(d, RootExpanded);
    assert Field(c, SnapshotsExpanded) == Field(d, SnapshotsExpanded);
    assert Field(c, Include) == Field(d, Include);
    assert Field(c, Exclude) == Field(d, Exclude);
    assert Field(c, Order) == Field(d, Order);
  }

  lemma AutomationFields(c: AppConfig, d: AppConfig)
    requires forall k :: Field(c, k) == Field(d, k)
    ensures c.automation == d.automation && c.secureBoot == d.secureBoot
  {
    assert Field(c, Enabled) == Field(d, Enabled);
    assert Field(c, SnapperEvents) == Field(d, SnapperEvents);
    assert Field(c, PacmanEvents) == Field(d, PacmanEvents);
    assert Field(c, DebounceSeconds) == Field(d, DebounceSeconds);
    assert Field(c, RuntimeDirectory) == Field(d, RuntimeDirectory);
    assert Field(c, ProtectConfig) == Field(d, ProtectConfig);
    assert Field(c, AutomaticApply) == Field(d, AutomaticApply);
    assert Field(c, EfiExecutable) == Field(d, EfiExecutable);
  }

  lemma OptionFields(c: AppConfig, d: AppConfig)
    requires forall k :: Field(c, k) == Field(d, k)
    ensures c.limine == d.limine
  {
    forall o ensures o in c.limine <==> o in d.limine {
      assert Field(c, LimineOption(o)) == Field(d, LimineOption(o));
    }
    forall o | o in c.limine ensures c.limine[o] == d.limine[o] {
      assert Field(c, LimineOption(o)) == Field(d, LimineOption(o));
    }
  }

  /** The settings and that copy are the whole configuration. */
  lemma FieldsAreAll(c: AppConfig, d: AppConfig)
    requires forall k :: Field(c, k) == Field(d, k)
    requires c.system.limineEfiExecutable == d.system.limineEfiExecutable
    ensures c == d
  {
    SystemFields(c, d);
    SnapperFields(c, d);
    MenuFields(c, d);
    AutomationFields(c, d);
    OptionFields(c, d);
    assert Field(c, SchemaVersion) == Field(d, SchemaVersion);
    assert Field(c, Retain) == Field(d, Retain);
    assert Field(c, ThemeName) == Field(d, ThemeName);
  }

  /** A word has one meaning. */
  lemma MeansOne(key: Key, word: string, v: Value, w: Value)
    requires Core(word) && Means(key, word, v) && Means(key, word, w)
    ensures v == w
  {
    if v.Switch? { SwitchIsRead(word, v.on); SwitchIsRead(word, w.on); }
    else if v.Number? { NumberIsRead(word, v.n); NumberIsRead(word, w.n); }
    else if v.Items? { ListIsWritten(word, v.items); ListIsWritten(word, w.items); }
    else if key == ThemeName { LowerIsLowerCase(word, v.text); LowerIsLowerCase(word, w.text); }
  }

  lemma MenuSwitch(c: AppConfig, key: Key, word: string, on: bool)
    requires ParseBool(word) == Some(on) && key in {RootExpanded, SnapshotsExpanded, IncludeReadWrite}
    ensures AssignKey(c, key, word).Some? && Changed(c, AssignKey(c, key, word).value, key, Switch(on))
  {
  }

  lemma AutomationSwitch(c: AppConfig, key: Key, word: string, on: bool)
    requires ParseBool(word) == Some(on) && key in {Enabled, SnapperEvents, PacmanEvents}
    ensures AssignKey(c, key, word).Some? && Changed(c, AssignKey(c, key, word).value, key, Switch(on))
  {
  }

  lemma SecureBootSwitch(c: AppConfig, key: Key, word: string, on: bool)
    requires ParseBool(word) == Some(on) && key in {ProtectConfig, AutomaticApply}
    ensures AssignKey(c, key, word).Some? && Changed(c, AssignKey(c, key, word).value, key, Switch(on))
  {
  }

  /** An assignment sets the field to what the word means, and is an error if it means nothing. */
  lemma SwitchAssigned(c: AppConfig, key: Key, word: string)
    requires Core(word) && IsFlag(key)
    ensures AssignKey(c, key, word).Some? ==>
      exists v :: Means(key, word, v) && Changed(c, AssignKey(c, key, word).value, key, v)
    ensures AssignKey(c, key, word).None? ==> forall v :: !Means(key, word, v)
  {
    SwitchIsRead(word, true);
    SwitchIsRead(word, false);
    var on := ParseBool(word);
    if on.Some? {
      assert Means(key, word, Switch(on.value));
      if key in {RootExpanded, SnapshotsExpanded, IncludeReadWrite} { MenuSwitch(c, key, word, on.value); }
      else if key in {Enabled, SnapperEvents, PacmanEvents} { AutomationSwitch(c, key, word, on.value); }
      else { SecureBootSwitch(c, key, word, on.value); }
    }
  }

  lemma NumberAssigned(c: AppConfig, key: Key, word: string)
    requires Core(word) && IsNumber(key)
    ensures AssignKey(c, key, word).Some? ==>
      exists v :: Means(key, word, v) && Changed(c, AssignKey(c, key, word).value, key, v)
    ensures AssignKey(c, key, word).None? ==> forall v :: !Means(key, word, v)
  {
    var n := ParseSize(word);
    if n.Some? {
      NumberIsRead(word, n.value);
      assert Means(key, word, Number(n.value));
      assert Changed(c, AssignKey(c, key, word).value, key, Number(n.value));
    } else {
      forall v ensures !Means(key, word, v) { if v.Number? { NumberIsRead(word, v.n); } }
    }
  }

  lemma SystemText(c: AppConfig, key: Key, word: string)
    requires key in {BootMount, LimineConfig, KernelCmdlineFile, ModulesRoot, Cpuinfo, MkinitcpioConfig}
    ensures AssignKey(c, key, word).Some? && Changed(c, AssignKey(c, key, word).value, key, Plain(word))
  {
  }

  lemma OtherText(c: AppConfig, key: Key, word: string)
    requires key in {SnapperConfig, SnapshotsSubvolume, SnapshotsDirectory, RootTitle, SnapshotsTitle, RuntimeDirectory}
    ensures AssignKey(c, key, word).Some? && Changed(c, AssignKey(c, key, word).value, key, Plain(word))
  {
  }

  lemma SpecialText(c: AppConfig, key: Key, word: string)
    requires key == ThemeName || key == EfiExecutable || key.LimineOption?
    ensures
      var v := Plain(
        if key == ThemeName then Lower(word) else if key == EfiExecutable && word == "auto" then "" else word);
      AssignKey(c, key, word).Some? && Changed(c, AssignKey(c, key, word).value, key, v)
  {
  }

  lemma ListAssigned(c: AppConfig, key: Key, word: string)
    requires IsList(key)
    ensures AssignKey(c, key, word).Some? && Changed(c, AssignKey(c, key, word).value, key, Items(ListOf(word)))
  {
  }

  lemma TextAssigned(c: AppConfig, key: Key, word: string)
    requires Core(word) && !IsFlag(key) && !IsNumber(key)
    ensures AssignKey(c, key, word).Some?
    ensures exists v :: Means(key, word, v) && Changed(c, AssignKey(c, key, word).value, key, v)
  {
    if IsList(key) {
      ListIsWritten(word, ListOf(word));
      ListAssigned(c, key, word);
      assert Means(key, word, Items(ListOf(word)));
    } else if key == ThemeName || key == EfiExecutable || key.LimineOption? {
      LowerIsLowerCase(word, Lower(word));
      SpecialText(c, key, word);
      assert Means(key, word, Plain(if key == ThemeName then Lower(word)
                                    else if key == EfiExecutable && word == "auto" then "" else word));
    } else {
      if key in {BootMount, LimineConfig, KernelCmdlineFile, ModulesRoot, Cpuinfo, MkinitcpioConfig} {
        SystemText(c, key, word);
      } else {
        OtherText(c, key, word);
      }
      assert Means(key, word, Plain(word));
    }
  }

  ghost predicate Sets(c: AppConfig, d: AppConfig, section: string, name: string, word: string) {
    exists key, v :: Names(section, name, key) && Means(key, word, v) && Changed(c, d, key, v)
  }

  /** The loader's assignment, exactly. */
  lemma AssignedExactly(c: AppConfig, section: string, name: string, word: string, d: AppConfig)
    requires Core(word)
    ensures Assign(c, section, name, word) == Some(d) <==> Sets(c, d, section, name, word)
  {
    forall key | Names(section, name, key) ensures KeyOf(section, name) == Some(key) {
      NamedAsRead(section, name, key);
    }
    if KeyOf(section, name).Some? {
      var key := KeyOf(section, name).value;
      ReadAsNamed(section, name, key);
      if IsFlag(key) { SwitchAssigned(c, key, word); }
      else if IsNumber(key) { NumberAssigned(c, key, word); }
      else { TextAssigned(c, key, word); }
      if Sets(c, d, section, name, word) {
        var v :| Means(key, word, v) && Changed(c, d, key, v);
        var e := Assign(c, section, name, word).value;
        var w :| Means(key, word, w) && Changed(c, e, key, w);
        MeansOne(key, word, v, w);
        assert forall k :: Field(d, k) == Field(e, k);
        assert Field(d, EfiExecutable) == Field(e, EfiExecutable);
        FieldsAreAll(d, e);
      }
    }
  }

  // ---- whole files ----

  /** `preset` is `t` with dashes for its underscores. */
  ghost predicate Dashed(t: string, preset: string) {
    |preset| == |t| && forall i :: 0 <= i < |t| ==> preset[i] == if t[i] == '_' then '-' else t[i]
  }

  /** The name of a theme, in any case, with `_` for `-` as well. */
  ghost predicate IsTheme(name: string) {
    exists t, preset ::
      && InLowerCase(name, t) && Dashed(t, preset)
      && preset in {"none", "tokyo-night", "catppuccin", "nord", "dracula", "gruvbox"}
  }

  ghost predicate Admissible(c: AppConfig) {
    && c.schemaVersion == 1 && c.automation.debounceSeconds <= 3600 && IsTheme(c.theme)
    && "" !in {c.system.bootMount, c.system.limineConfig, c.snapper.config, c.snapper.subvolume, c.snapper.directory,
               c.menu.rootTitle, c.menu.snapshotsTitle, c.automation.runtimeDirectory}
    && !exists kernel :: kernel in c.kernels.included && kernel in c.kernels.excluded
  }

  lemma NormalizedOnly(name: string, t: string, preset: string)
    requires InLowerCase(name, t)
    ensures Dashed(t, preset) <==> preset == NormalizedTheme(name)
  {
    LowerIsLowerCase(name, t);
  }

  lemma ThemeExactly(name: string)
    ensures NormalizedTheme(name) in THEMES <==> IsTheme(name)
  {
    LowerIsLowerCase(name, Lower(name));
    NormalizedOnly(name, Lower(name), NormalizedTheme(name));
    forall t, preset | InLowerCase(name, t) && Dashed(t, preset) ensures preset == NormalizedTheme(name) {
      NormalizedOnly(name, t, preset);
    }
  }

  /** What the loader checks at the end. */
  lemma AcceptedExactly(c: AppConfig)
    ensures Accepted(c) <==> Admissible(c)
  {
    ThemeExactly(c.theme);
  }

  const START_READING := Reading(DEFAULT, [])

  lemma SectionIsNamed(header: string, section: string)
    requires WritesHeader(header, section)
    ensures section != ""
  {
  }

  lemma ValueIsCore(line: string, name: string, word: string)
    requires WritesPair(line, name, word)
    ensures Core(word)
  {
  }

  lemma {:induction false} TwoLines(lines: seq<string>, header: string, section: string, line: string, name: string,
                                    word: string)
    requires OneLineEach(lines + [header] + [line]) && WritesHeader(header, section) && WritesPair(line, name, word)
    requires LoadLines(START_READING, lines).Some?
    ensures Core(word)
    ensures
      Loaded(Join(lines + [header] + [line])) ==
        match Assign(LoadLines(START_READING, lines).value.config, section, name, word)
        case None => None
        case Some(d) => if Accepted(d) then Some(d) else None
  {
    LinesOfJoin(lines + [header] + [line]);
    LoadOneMore(START_READING, lines, header);
    LoadOneMore(START_READING, lines + [header], line);
    HeaderIsRead(header, section);
    var left, key, right :| WrittenAs(line, name, word, left, key, right);
    PairIsRead(line, name, word, left, key, right);
    SectionIsNamed(header, section);
    ValueIsCore(line, name, word);
  }

  /** A section and one of its settings behind lines that are read without an error: what the file means
      is what it meant with this setting changed, if the word means something for it and the result is
      admissible, and an error otherwise. */
  lemma SettingInFile(lines: seq<string>, header: string, section: string, line: string, name: string, word: string,
                      d: AppConfig)
    requires OneLineEach(lines + [header] + [line]) && WritesHeader(header, section) && WritesPair(line, name, word)
    requires LoadLines(START_READING, lines).Some?
    ensures
      var c := LoadLines(START_READING, lines).value.config;
      Loaded(Join(lines + [header] + [line])) == Some(d) <==> Sets(c, d, section, name, word) && Admissible(d)
  {
    TwoLines(lines, header, section, line, name, word);
    AssignedExactly(LoadLines(START_READING, lines).value.config, section, name, word, d);
    AcceptedExactly(d);
  }

  lemma ProtectionAssigned(c: AppConfig, word: string)
    ensures
      Assign(c, "secure_boot", "protect_config", word) ==
        match ParseBool(word)
        case None => None
        case Some(on) => Some(c.(secureBoot := c.secureBoot.(protectConfig := on)))
    ensures forall on :: Accepted(c.(secureBoot := c.secureBoot.(protectConfig := on))) <==> Accepted(c)
  {
    NamedAsRead("secure_boot", "protect_config", ProtectConfig);
  }

  /** Behind any accepted file, the switch that turns the Secure Boot transaction on or off. */
  lemma ProtectionInFile(lines: seq<string>, header: string, line: string, word: string)
    requires OneLineEach(lines + [header] + [line]) && Loaded(Join(lines)).Some?
    requires WritesHeader(header, "secure_boot") && WritesPair(line, "protect_config", word)
    ensures
      var c := Loaded(Join(lines)).value;
      Loaded(Join(lines + [header] + [line])) ==
        if WritesSwitch(word, true) then Some(c.(secureBoot := c.secureBoot.(protectConfig := true)))
        else if WritesSwitch(word, false) then Some(c.(secureBoot := c.secureBoot.(protectConfig := false)))
        else None
  {
    assert OneLineEach(lines) by { assert forall x :: x in lines ==> x in lines + [header] + [line]; }
    LinesOfJoin(lines);
    TwoLines(lines, header, "secure_boot", line, "protect_config", word);
    ProtectionAssigned(Loaded(Join(lines)).value, word);
    SwitchIsRead(word, true);
    SwitchIsRead(word, false);
  }

  /** The other lines: comments and blank lines change nothing, nor does a section on its own, and a line
      that is none of the three kinds is an error. */
  lemma OtherLinesInFile(lines: seq<string>, line: string)
    requires OneLineEach(lines + [line]) && LoadLines(START_READING, lines).Some?
    ensures WritesNothing(line) || (exists s :: WritesHeader(line, s)) ==>
      Loaded(Join(lines + [line])) == Loaded(Join(lines))
    ensures !WritesNothing(line) && (forall s :: !WritesHeader(line, s)) && (forall k, v :: !WritesPair(line, k, v)) ==>
      Loaded(Join(lines + [line])) == None
  {
    assert OneLineEach(lines) by { assert forall x :: x in lines ==> x in lines + [line]; }
    LinesOfJoin(lines);
    LinesOfJoin(lines + [line]);
    LoadOneMore(START_READING, lines, line);
    LineForms(line, "", "");
    forall s | WritesHeader(line, s) ensures ParseLine(line) == Header(s) { LineForms(line, s, ""); }
  }

  lemma {:induction false} NothingRead(lines: seq<string>)
    requires forall x :: x in lines ==> WritesNothing(x)
    ensures LoadLines(START_READING, lines) == Some(START_READING)
  {
    if lines != [] {
      var n := |lines| - 1;
      NothingRead(lines[..n]);
      LineForms(lines[n], "", "");
    }
  }

  /** A setting before the first section is an error. */
  lemma {:induction false} SettingNeedsSection(lines: seq<string>, line: string, name: string, word: string)
    requires OneLineEach(lines + [line]) && WritesPair(line, name, word)
    requires forall x :: x in lines ==> WritesNothing(x)
    ensures Loaded(Join(lines + [line])) == None
  {
    NothingRead(lines);
    LinesOfJoin(lines + [line]);
    LoadOneMore(START_READING, lines, line);
    LineForms(line, name, word);
  }

  /** The last line needs no line end. */
  lemma LastLineInFile(lines: seq<string>, last: string)
    requires OneLineEach(lines + [last]) && last != ""
    ensures Loaded(Join(lines) + last) == Loaded(Join(lines + [last]))
  {
    assert last in lines + [last] && forall x :: x in lines ==> x in lines + [last];
    LinesOfRest(lines, last);
    LinesOfJoin(lines + [last]);
  }

  /** An empty file: protected applies and no automatic ones, five backups, all read-only snapshots. */
  lemma EmptyFile() returns (c: AppConfig)
    ensures Loaded("") == Some(c)
    ensures c.secureBoot == SecureBoot(true, false, "") && c.retention == 5
    ensures c.snapper.maxSnapshots == 0 && !c.snapper.includeReadWrite && c.snapper.subvolume == "@snapshots"
    ensures c.kernels == Kernels([], [], []) && c.automation.enabled && c.automation.debounceSeconds == 3
  {
    c := DEFAULT;
    DefaultIsAccepted();
  }

  // ---- what is printed ----

  /** How a value is printed. */
  ghost predicate Prints(word: string, key: Key, v: Value) {
    match v
    case Switch(on) => word == if on then "true" else "false"
    case Number(n) => word != "" && AllDigits(word) && NumberOf(word) == n && (word[0] == '0' ==> |word| == 1)
    case Items(items) => word == Joined(items)
    case Plain(text) => word == if key == EfiExecutable && text == "" then "auto" else text
  }

  lemma OneName(s: string, name: string, t: string, other: string, key: Key)
    requires Names(s, name, key) && Names(t, other, key)
    ensures s == t && name == other
  {
  }

  /** A setting is printed as its key, an equals sign between blanks, and its value. */
  lemma PrintedSetting(c: AppConfig, section: string, name: string, key: Key)
    requires Names(section, name, key) && (key.LimineOption? ==> key.name in c.limine)
    ensures exists word, v ::
      Field(c, key) == Some(v) && Prints(word, key, v) && SettingLine(c, key) == name + " = " + word
  {
    assert Names(SectionName(SectionOf(key)), Name(key), key);
    OneName(section, name, SectionName(SectionOf(key)), Name(key), key);
    assert Prints(ValueOf(c, key), key, Field(c, key).value);
  }

  /** The sections and their keys in the order they are printed; the options follow in `limine`. */
  const LAYOUT: seq<(string, seq<string>)> := [
    ("manager", ["schema_version"]),
    ("system", ["boot_mount", "limine_config", "kernel_cmdline_file", "modules_root", "cpuinfo"]),
    ("snapper", ["config", "snapshots_subvolume", "snapshots_directory", "max_snapshots", "include_read_write"]),
    ("backups", ["retain"]),
    ("menu", ["root_title", "snapshots_title", "root_expanded", "snapshots_expanded"]),
    ("kernels", ["include", "exclude", "order"]),
    ("theme", ["name"]),
    ("automation", ["enabled", "snapper", "pacman", "debounce_seconds", "runtime_directory"]),
    ("secure_boot", ["protect_config", "automatic_apply", "efi_executable"])]

  lemma {:induction false} SettingCount(c: AppConfig, keys: seq<Key>)
    requires forall k :: k in keys ==> !k.LimineOption?
    ensures |SettingLines(c, keys)| == |keys|
  {
    if keys != [] { SettingCount(c, keys[..|keys| - 1]); }
  }

  lemma {:induction false} LineOfSetting(c: AppConfig, keys: seq<Key>, j: nat)
    requires j < |keys| && forall k :: k in keys ==> !k.LimineOption?
    ensures |SettingLines(c, keys)| == |keys| && SettingLines(c, keys)[j] == SettingLine(c, keys[j])
    decreases |keys|
  {
    var n := |keys| - 1;
    SettingCount(c, keys[..n]);
    if j < n { LineOfSetting(c, keys[..n], j); }
  }

  lemma FirstLayout(i: nat)
    requires i < 4
    ensures |SECTIONS| == |LAYOUT| == 9 && SectionName(SECTIONS[i]) == LAYOUT[i].0
    ensures |KeysOf(SECTIONS[i])| == |LAYOUT[i].1|
    ensures forall j :: 0 <= j < |LAYOUT[i].1| ==> Names(LAYOUT[i].0, LAYOUT[i].1[j], KeysOf(SECTIONS[i])[j])
  {
  }

  lemma LastLayout(i: nat)
    requires 4 <= i < 9
    ensures |SECTIONS| == |LAYOUT| == 9 && SectionName(SECTIONS[i]) == LAYOUT[i].0
    ensures |KeysOf(SECTIONS[i])| == |LAYOUT[i].1|
    ensures forall j :: 0 <= j < |LAYOUT[i].1| ==> Names(LAYOUT[i].0, LAYOUT[i].1[j], KeysOf(SECTIONS[i])[j])
  {
  }

  lemma LayoutOfSection(i: nat)
    requires i < 9
    ensures |SECTIONS| == |LAYOUT| == 9 && SectionName(SECTIONS[i]) == LAYOUT[i].0
    ensures |KeysOf(SECTIONS[i])| == |LAYOUT[i].1|
    ensures forall j :: 0 <= j < |LAYOUT[i].1| ==> Names(LAYOUT[i].0, LAYOUT[i].1[j], KeysOf(SECTIONS[i])[j])
  {
    if i < 4 { FirstLayout(i); } else { LastLayout(i); }
  }

  lemma SectionShape(c: AppConfig, section: Section, j: nat)
    requires j < |KeysOf(section)|
    ensures !KeysOf(section)[j].LimineOption?
    ensures
      var lines := SectionLines(c, section);
      && |lines| == |KeysOf(section)| + 2 && lines[0] == "[" + SectionName(section) + "]" && lines[|lines| - 1] == ""
      && lines[j + 1] == SettingLine(c, KeysOf(section)[j])
  {
    assert forall k :: k in KeysOf(section) ==> !k.LimineOption?;
    LineOfSetting(c, KeysOf(section), j);
  }

  /** The printed text is section after section; */
  lemma SectionsInOrder(c: AppConfig, i: nat)
    requires i < 9
    ensures |SECTIONS| == 9
    ensures AllSections(c, SECTIONS[..i + 1]) == AllSections(c, SECTIONS[..i]) + SectionLines(c, SECTIONS[i])
  {
    assert SECTIONS[..i + 1][..i] == SECTIONS[..i];
  }

  /** and each is a header, its settings in their order, and a blank line. */
  lemma PrintedSection(c: AppConfig, i: nat, j: nat)
    requires i < 9 && j < |LAYOUT[i].1| && |SECTIONS| == 9
    ensures
      var lines := SectionLines(c, SECTIONS[i]);
      && |lines| == |LAYOUT[i].1| + 2 && lines[0] == "[" + LAYOUT[i].0 + "]" && lines[|lines| - 1] == ""
      && exists key, v, word ::
           && Names(LAYOUT[i].0, LAYOUT[i].1[j], key) && Field(c, key) == Some(v) && Prints(word, key, v)
           && lines[j + 1] == LAYOUT[i].1[j] + " = " + word
  {
    LayoutOfSection(i);
    SectionShape(c, SECTIONS[i], j);
    PrintedSetting(c, LAYOUT[i].0, LAYOUT[i].1[j], KeysOf(SECTIONS[i])[j]);
  }
}
