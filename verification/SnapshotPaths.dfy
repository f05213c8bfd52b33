/** The path of a snapshot: written to its menu entry (`preview_service.cpp`), seen again in the mount
    options (`system_detector.cpp`), and parsed by the planner (`rollback_planner.cpp`). */
module SnapshotPaths {
  import opened Wrappers
  import opened Text
  import KernelCommandLine
  import ConfigLoader

  const ULONG_MAX: nat := 0xFFFF_FFFF_FFFF_FFFF
  const MAX_SIZE: nat := 0x7FFF_FFFF_FFFF_FFFF   // no string is longer (std::string::max_size)

  function SkipSlashes(s: string): string {
    if s != [] && s[0] == '/' then SkipSlashes(s[1..]) else s
  }

  function DropSlashes(s: string): string {
    if s != [] && s[|s| - 1] == '/' then DropSlashes(s[..|s| - 1]) else s
  }

  predicate OnlySlashes(s: string) { forall c :: c in s ==> c == '/' }

  /** `core` is the path without the slashes around it. */
  ghost predicate Stripped(path: string, core: string) {
    && (core != "" ==> core[0] != '/' && core[|core| - 1] != '/')
    && exists before, after :: OnlySlashes(before) && OnlySlashes(after) && path == before + core + after
  }

  lemma {:induction false} SkippedAreSlashes(s: string) returns (before: string)
    ensures s == before + SkipSlashes(s) && OnlySlashes(before)
    ensures SkipSlashes(s) != "" ==> SkipSlashes(s)[0] != '/'
  {
    before := "";
    if s != [] && s[0] == '/' {
      var rest := SkippedAreSlashes(s[1..]);
      before := "/" + rest;
    }
  }

  lemma {:induction false} DroppedAreSlashes(s: string) returns (after: string)
    ensures s == DropSlashes(s) + after && OnlySlashes(after)
    ensures DropSlashes(s) != "" ==> DropSlashes(s)[|DropSlashes(s)| - 1] != '/'
  {
    after := "";
    if s != [] && s[|s| - 1] == '/' {
      var rest := DroppedAreSlashes(s[..|s| - 1]);
      after := rest + "/";
    }
  }

  lemma StrippedBySlashes(path: string)
    ensures Stripped(path, DropSlashes(SkipSlashes(path)))
  {
    var before := SkippedAreSlashes(path);
    var after := DroppedAreSlashes(SkipSlashes(path));
    assert path == before + DropSlashes(SkipSlashes(path)) + after;
    var core := DropSlashes(SkipSlashes(path));
    if core != "" { assert core[0] == SkipSlashes(path)[0]; }
  }

  /** `snapshot_prefix`: both loops of the function. */
  method SnapshotPrefix(value: string) returns (result: string)
    ensures result == DropSlashes(SkipSlashes(value)) && Stripped(value, result)
  {
    StrippedBySlashes(value);
    result := value;
    while result != [] && result[0] == '/'
      invariant SkipSlashes(result) == SkipSlashes(value)
    {
      result := result[1..];
    }
    while result != [] && result[|result| - 1] == '/'
      invariant DropSlashes(result) == DropSlashes(SkipSlashes(value))
    {
      result := result[..|result| - 1];
    }
  }

  const SUFFIX := "/snapshot"

  /** No number, a number, or the `out_of_range` exception of `std::stoul`. */
  datatype SnapshotNumber = NoNumber | Number(n: nat) | OutOfRange

  /** `size_t` subtraction, which wraps. */
  function WrappingSub(a: nat, b: nat): nat {
    if a >= b then a - b else (a + ULONG_MAX + 1) - b % (ULONG_MAX + 1)
  }

  /** `std::string::substr`. */
  function Substr(s: string, from: nat, length: nat): string
    requires from <= |s|
  {
    if length >= |s| - from then s[from..] else s[from..from + length]
  }

  /** `parse_snapshot_number` on the stripped snapshot directory. */
  function ParseSnapshotNumber(current: string, directory: string): SnapshotNumber {
    var prefix := directory + "/";
    if !(prefix <= current) || !(|current| >= |SUFFIX| && current[|current| - |SUFFIX|..] == SUFFIX) then NoNumber
    else
      var value := Substr(current, |prefix|, WrappingSub(WrappingSub(|current|, |prefix|), |SUFFIX|));
      if value == [] || !AllDigits(value) then NoNumber
      else if NumberOf(value) > ULONG_MAX then OutOfRange
      else Number(NumberOf(value))
  }

  ghost predicate IsSnapshotPath(current: string, directory: string, digits: string) {
    && current == directory + "/" + digits + SUFFIX
    && digits != [] && AllDigits(digits)
  }

  /** A number is read from `directory/digits/snapshot`. */
  lemma PathIsParsed(current: string, directory: string, digits: string)
    requires |current| <= MAX_SIZE && IsSnapshotPath(current, directory, digits)
    ensures ParseSnapshotNumber(current, directory) ==
      if NumberOf(digits) > ULONG_MAX then OutOfRange else Number(NumberOf(digits))
  {
    var prefix := directory + "/";
    assert current[..|prefix|] == prefix;
    assert current[|current| - |SUFFIX|..] == SUFFIX;
    assert current[|prefix|..|prefix| + |digits|] == digits;
  }

  lemma OverlapIsNoNumber(current: string, prefix: string)
    requires prefix != [] && prefix[|prefix| - 1] == '/' && prefix <= current && |current| <= MAX_SIZE
    requires |current| >= |SUFFIX| && current[|current| - |SUFFIX|..] == SUFFIX
    requires |current| < |prefix| + |SUFFIX|
    ensures !AllDigits(Substr(current, |prefix|, WrappingSub(WrappingSub(|current|, |prefix|), |SUFFIX|)))
  {
    assert current[|current| - 1] == SUFFIX[|SUFFIX| - 1] == 't';
    assert current[|prefix| - 1] == '/';
    var value := Substr(current, |prefix|, WrappingSub(WrappingSub(|current|, |prefix|), |SUFFIX|));
    assert value == current[|prefix|..];
    assert value[|value| - 1] == 't';
    assert 't' in value;
  }

  /** Nothing else is read as a number: where prefix and suffix overlap, the length wraps around
      and what is cut out is not made of digits. */
  lemma OnlyPathsAreParsed(current: string, directory: string) returns (digits: string)
    requires |current| <= MAX_SIZE && !ParseSnapshotNumber(current, directory).NoNumber?
    ensures IsSnapshotPath(current, directory, digits)
    ensures ParseSnapshotNumber(current, directory) ==
      if NumberOf(digits) > ULONG_MAX then OutOfRange else Number(NumberOf(digits))
  {
    var prefix := directory + "/";
    if |current| < |prefix| + |SUFFIX| {
      OverlapIsNoNumber(current, prefix);
      digits := [];
    } else {
      digits := current[|prefix|..|current| - |SUFFIX|];
      assert current == prefix + digits + SUFFIX;
    }
  }

  // ---- what the menu writes for a snapshot, and what the planner reads ----

  const SUBVOL := "subvol="

  /** The path in the snapshot entry's `rootflags` (`snapshot_cmdline`). */
  function SnapshotPath(subvolume: string, n: nat): string {
    subvolume + "/" + Decimal(n) + SUFFIX
  }

  /** `rootflags_subvolume`. */
  function RootflagsSubvolume(arguments: seq<string>): string {
    match KernelCommandLine.Value(arguments, "rootflags")
    case None => []
    case Some(flags) => if SUBVOL <= flags then SkipSlashes(flags[|SUBVOL|..]) else []
  }

  /** The subvolume that `rootflags=subvol=` names, without slashes in front; none without that flag. */
  ghost predicate IsRoot(arguments: seq<string>, root: string) {
    var flags := KernelCommandLine.Value(arguments, "rootflags");
    if flags.Some? && "subvol=" <= flags.value then
      && (root != "" ==> root[0] != '/')
      && exists slashes :: OnlySlashes(slashes) && flags.value == "subvol=" + (slashes + root)
    else root == ""
  }

  lemma RootflagsSubvolumeIsRoot(arguments: seq<string>)
    ensures IsRoot(arguments, RootflagsSubvolume(arguments))
  {
    var flags := KernelCommandLine.Value(arguments, "rootflags");
    if flags.Some? && "subvol=" <= flags.value {
      var slashes := SkippedAreSlashes(flags.value[7..]);
      assert flags.value == "subvol=" + (slashes + RootflagsSubvolume(arguments));
    }
  }

  lemma {:induction false} SkipSlashesAppend(s: string, t: string)
    requires t != [] && t[0] != '/'
    ensures SkipSlashes(s + t) == SkipSlashes(s) + t
    decreases |s|
  {
    if s != [] && s[0] == '/' {
      assert (s + t)[1..] == s[1..] + t;
      SkipSlashesAppend(s[1..], t);
    } else if s == [] {
      assert s + t == t;
    }
  }

  lemma {:induction false} SkipSlashesTail(s: string)
    ensures |SkipSlashes(s)| <= |s| && SkipSlashes(s) == s[|s| - |SkipSlashes(s)|..]
    ensures SkipSlashes(s) != [] ==> SkipSlashes(s)[0] != '/'
    ensures SkipSlashes(s) == [] ==> s == [] || s[|s| - 1] == '/'
    decreases |s|
  {
    if s != [] && s[0] == '/' {
      SkipSlashesTail(s[1..]);
      if s[1..] != [] { assert s[1..][|s[1..]| - 1] == s[|s| - 1]; }
    }
  }

  lemma {:induction false} DropSlashesTail(s: string)
    ensures DropSlashes(s) <= s
    ensures s != [] && s[|s| - 1] == '/' ==> |DropSlashes(s)| < |s|
    ensures forall i :: |DropSlashes(s)| <= i < |s| ==> s[i] == '/'
    decreases |s|
  {
    if s != [] && s[|s| - 1] == '/' {
      DropSlashesTail(s[..|s| - 1]);
    }
  }

  lemma {:induction false} SkipSlashesMiddle(s: string, t: string)
    requires SkipSlashes(s) != []
    ensures SkipSlashes(s + t) == SkipSlashes(s) + t
    decreases |s|
  {
    if s[0] == '/' {
      assert (s + t)[1..] == s[1..] + t;
      SkipSlashesMiddle(s[1..], t);
    }
  }

  lemma {:induction false} SkipSlashesAll(s: string, t: string)
    requires SkipSlashes(s) == []
    ensures SkipSlashes(s + t) == SkipSlashes(t)
    decreases |s|
  {
    if s == [] {
      assert s + t == t;
    } else {
      assert (s + t)[1..] == s[1..] + t;
      SkipSlashesAll(s[1..], t);
    }
  }

  lemma DigitAfterDirectory(current: string, directory: string, digits: string)
    requires IsSnapshotPath(current, directory, digits)
    ensures |current| > |directory| + 1 && IsDigit(current[|directory| + 1])
  {
    assert current[|directory| + 1] == digits[0];
    assert digits[0] in digits;
  }

  lemma TrailingSlashIsLost(current: string, stripped: string, directory: string, tail: string)
    requires current == stripped + tail && |current| <= MAX_SIZE && tail != [] && tail[0] == '/'
    requires directory <= stripped && |directory| < |stripped|
    requires forall i :: |directory| <= i < |stripped| ==> stripped[i] == '/'
    ensures !ParseSnapshotNumber(current, directory).Number?
  {
    assert current[|directory| + 1] == '/';
    if ParseSnapshotNumber(current, directory).Number? {
      var digits := OnlyPathsAreParsed(current, directory);
      DigitAfterDirectory(current, directory, digits);
    }
  }

  lemma AllSlashesAreLost(subvolume: string, n: nat)
    requires SkipSlashes(subvolume) == []
    ensures ParseSnapshotNumber(SkipSlashes(SnapshotPath(subvolume, n)), []).NoNumber?
  {
    var rest := Decimal(n) + SUFFIX;
    assert SnapshotPath(subvolume, n) == subvolume + ("/" + rest);
    SkipSlashesAll(subvolume, "/" + rest);
    assert ("/" + rest)[1..] == rest;
    assert Decimal(n)[0] in Decimal(n) && rest[0] == Decimal(n)[0];
    assert SkipSlashes(rest) == rest;
  }

  lemma AppendedReadBack(stripped: string, n: nat)
    requires n <= ULONG_MAX && stripped != [] && |stripped + ("/" + Decimal(n) + SUFFIX)| <= MAX_SIZE
    ensures ParseSnapshotNumber(stripped + ("/" + Decimal(n) + SUFFIX), DropSlashes(stripped)) == Number(n)
       <==> stripped[|stripped| - 1] != '/'
  {
    var tail := "/" + Decimal(n) + SUFFIX;
    DropSlashesTail(stripped);
    if stripped[|stripped| - 1] == '/' {
      TrailingSlashIsLost(stripped + tail, stripped, DropSlashes(stripped), tail);
    } else {
      assert IsSnapshotPath(stripped + tail, stripped, Decimal(n));
      PathIsParsed(stripped + tail, stripped, Decimal(n));
    }
  }

  lemma WrittenPath(subvolume: string, n: nat)
    requires SkipSlashes(subvolume) != []
    ensures SkipSlashes(SnapshotPath(subvolume, n)) == SkipSlashes(subvolume) + ("/" + Decimal(n) + SUFFIX)
    ensures |SkipSlashes(SnapshotPath(subvolume, n))| <= |SnapshotPath(subvolume, n)|
  {
    var tail := "/" + Decimal(n) + SUFFIX;
    SkipSlashesMiddle(subvolume, tail);
    assert SnapshotPath(subvolume, n) == subvolume + tail;
    SkipSlashesTail(SnapshotPath(subvolume, n));
  }

  lemma StrippedReadBack(subvolume: string, n: nat)
    requires n <= ULONG_MAX && |SnapshotPath(subvolume, n)| <= MAX_SIZE && SkipSlashes(subvolume) != []
    ensures
      var path, directory := SkipSlashes(SnapshotPath(subvolume, n)), DropSlashes(SkipSlashes(subvolume));
      ParseSnapshotNumber(path, directory) == Number(n) <==> subvolume[|subvolume| - 1] != '/'
  {
    WrittenPath(subvolume, n);
    SkipSlashesTail(subvolume);
    AppendedReadBack(SkipSlashes(subvolume), n);
  }

  /** The number of a snapshot is read back from the path written for it exactly when the
      configured directory is not empty and does not end in a slash. */
  lemma SnapshotPathReadBack(subvolume: string, n: nat)
    requires n <= ULONG_MAX && |SnapshotPath(subvolume, n)| <= MAX_SIZE
    ensures
      var path, directory := SkipSlashes(SnapshotPath(subvolume, n)), DropSlashes(SkipSlashes(subvolume));
      ParseSnapshotNumber(path, directory) == Number(n) <==> subvolume != [] && subvolume[|subvolume| - 1] != '/'
  {
    SkipSlashesTail(subvolume);
    if SkipSlashes(subvolume) == [] {
      AllSlashesAreLost(subvolume, n);
    } else {
      StrippedReadBack(subvolume, n);
    }
  }

  /** The arguments of `snapshot_cmdline` before they are printed. */
  function Snapshot(arguments: seq<string>, subvolume: string, n: nat): seq<string> {
    KernelCommandLine.Replaced(arguments, "rootflags" + ['='] + (SUBVOL + SnapshotPath(subvolume, n)))
  }

  /** The `rootflags` the menu sets for snapshot `n` name `n` exactly when the configured directory is
      not empty and does not end in a slash; and the printed command line parses back to them, and to
      everything else in it, exactly when every argument survives the printer. */
  lemma SnapshotCommandLineReadBack(arguments: seq<string>, subvolume: string, n: nat)
    requires n <= ULONG_MAX && |SnapshotPath(subvolume, n)| <= MAX_SIZE
    ensures
      var snapshot := Snapshot(arguments, subvolume, n);
      && (ParseSnapshotNumber(RootflagsSubvolume(snapshot), DropSlashes(SkipSlashes(subvolume))) == Number(n) <==>
            subvolume != [] && subvolume[|subvolume| - 1] != '/')
      && (KernelCommandLine.Parsed(KernelCommandLine.Rendered(snapshot)) == Some(snapshot) <==>
            forall a :: a in snapshot ==> KernelCommandLine.Faithful(a))
  {
    KernelCommandLine.RoundTripExactly(Snapshot(arguments, subvolume, n));
    var flags := SUBVOL + SnapshotPath(subvolume, n);
    KernelCommandLine.SetThenValue(arguments, "rootflags", flags, "rootflags");
    assert flags[|SUBVOL|..] == SnapshotPath(subvolume, n);
    SnapshotPathReadBack(subvolume, n);
  }

  // ---- what the detector sees of the booted root ----

  /** `option_value`: the value of the first mount option with that key. */
  function OptionValue(options: string, key: string): string
    decreases |options|
  {
    var end := Find(',', options);
    if key + "=" <= options[..end] then options[|key| + 1..end]
    else if end == |options| then []
    else OptionValue(options[end + 1..], key)
  }

  /** The loop of `option_value`; `rest` is the text from `begin` on. */
  method FindOption(options: string, key: string) returns (value: string)
    ensures value == OptionValue(options, key)
  {
    var rest := options;
    while true
      invariant OptionValue(rest, key) == OptionValue(options, key)
      decreases |rest|
    {
      var end := Find(',', rest);
      if key + "=" <= rest[..end] { return rest[|key| + 1..end]; }
      if end == |rest| { return []; }
      rest := rest[end + 1..];
    }
  }

  /** `root_subvolume`: the mounted subvolume, without one leading slash. */
  function DetectedSubvolume(options: string): string {
    var value := OptionValue(options, "subvol");
    if value != [] && value[0] == '/' then value[1..] else value
  }

  /** Mount options as they are listed. */
  function Listed(items: seq<string>): string {
    if items == [] then []
    else if |items| == 1 then items[0]
    else items[0] + "," + Listed(items[1..])
  }

  lemma OptionAt(options: string, end: nat, key: string)
    requires end == Find(',', options) && key + "=" <= options[..end]
    ensures OptionValue(options, key) == options[..end][|key| + 1..]
  {
  }

  lemma ItemHere(key: string, item: string, rest: string)
    requires ',' !in item && key + "=" <= item && (rest == [] || rest[0] == ',')
    ensures OptionValue(item + rest, key) == item[|key| + 1..]
  {
    var options := item + rest;
    if rest == [] {
      assert options == item;
    } else {
      assert rest == [','] + rest[1..];
      FindAfter(item, ',', rest[1..]);
    }
    assert Find(',', options) == |item|;
    assert options[..|item|] == item;
    OptionAt(options, |item|, key);
  }

  lemma OptionHere(key: string, value: string, tail: string)
    requires ',' !in key && (tail == [] || tail[0] == ',')
    ensures OptionValue(key + "=" + value + tail, key) == value[..Find(',', value)]
  {
    var end := Find(',', value);
    var item, rest := key + "=" + value[..end], value[end..] + tail;
    assert key + "=" + value + tail == item + rest;
    assert item[|key| + 1..] == value[..end] && item[..|key| + 1] == key + "=";
    ItemHere(key, item, rest);
  }

  lemma {:induction false} FirstOption(before: seq<string>, key: string, value: string, after: seq<string>)
    requires forall item :: item in before ==> ',' !in item && !(key + "=" <= item)
    requires ',' !in key
    ensures OptionValue(Listed(before + [key + "=" + value] + after), key) == value[..Find(',', value)]
    decreases |before|
  {
    var items := before + [key + "=" + value] + after;
    if before == [] {
      assert items[0] == key + "=" + value && items[1..] == after;
      var tail := if after == [] then [] else "," + Listed(after);
      assert Listed(items) == key + "=" + value + tail;
      OptionHere(key, value, tail);
    } else {
      assert before[0] in before && items[0] == before[0];
      assert items[1..] == before[1..] + [key + "=" + value] + after;
      FindAfter(items[0], ',', Listed(items[1..]));
      assert Listed(items) == items[0] + ("," + Listed(items[1..]));
      assert Listed(items)[..|items[0]|] == items[0] && Listed(items)[|items[0]| + 1..] == Listed(items[1..]);
      FirstOption(before[1..], key, value, after);
    }
  }

  /** Of a mounted path one leading slash is dropped, and only one. */
  lemma DetectedPath(before: seq<string>, path: string, after: seq<string>)
    requires forall item :: item in before ==> ',' !in item && !("subvol" + "=" <= item)
    requires ',' !in path
    ensures
      DetectedSubvolume(Listed(before + ["subvol" + "=" + path] + after)) ==
        if "/" <= path then path[1..] else path
  {
    FirstOption(before, "subvol", path, after);
    assert path[..|path|] == path;
  }

  // ---- the name of the mounted subvolume ----

  /** The parts of a path between its slashes. */
  function Components(path: string): seq<string>
    decreases |path|
  {
    var end := Find('/', path);
    if end == |path| then [path] else [path[..end]] + Components(path[end + 1..])
  }

  function Slashed(parts: seq<string>): string {
    if parts == [] then []
    else if |parts| == 1 then parts[0]
    else parts[0] + ("/" + Slashed(parts[1..]))
  }

  predicate Normal(part: string) { part != "" && part != "." && part != ".." }

  function Enter(at: seq<string>, part: string): seq<string> {
    if part == "" || part == "." then at
    else if part == ".." then (if at == [] then [] else at[..|at| - 1])
    else at + [part]
  }

  /** Where a path leads from a place, part by part. */
  function Resolved(at: seq<string>, parts: seq<string>): seq<string>
    decreases |parts|
  {
    if parts == [] then at else Resolved(Enter(at, parts[0]), parts[1..])
  }

  /** The name of the subvolume a path leads to. */
  function OwnName(path: string): string { Slashed(Resolved([], Components(path))) }

  lemma ComponentsFirst(front: string, rest: string)
    requires '/' !in front
    ensures Components(front + ("/" + rest)) == [front] + Components(rest)
  {
    var path := front + ("/" + rest);
    FindAfter(front, '/', rest);
    assert path[..|front|] == front && path[|front| + 1..] == rest;
  }

  lemma {:induction false} ComponentsAppend(a: string, b: string)
    ensures Components(a + ("/" + b)) == Components(a) + Components(b)
    decreases |a|
  {
    var end := Find('/', a);
    if end == |a| {
      assert a[..end] == a;
      ComponentsFirst(a, b);
    } else {
      var front, rest := a[..end], a[end + 1..];
      assert a == front + ("/" + rest);
      Associate(front, "/" + rest, "/" + b);
      Associate("/", rest, "/" + b);
      ComponentsAppend(rest, b);
      ComponentsFirst(front, rest + ("/" + b));
      Associate([front], Components(rest), Components(b));
    }
  }

  lemma ComponentsOfOne(part: string)
    requires '/' !in part
    ensures Components(part) == [part]
  {
    assert part[..|part|] == part;
  }

  /** Splitting loses nothing, and the parts consist of the characters of the path but slashes. */
  lemma {:induction false} SlashedComponents(path: string)
    ensures Components(path) != [] && Slashed(Components(path)) == path
    ensures forall part :: part in Components(path) ==> '/' !in part && forall c :: c in part ==> c in path
    decreases |path|
  {
    var end := Find('/', path);
    if end == |path| {
      assert path[..end] == path;
    } else {
      var rest := path[end + 1..];
      SlashedComponents(rest);
      assert path == path[..end] + ("/" + rest);
      assert ([path[..end]] + Components(rest))[1..] == Components(rest);
    }
  }

  lemma {:induction false} ComponentsOfSlashed(parts: seq<string>)
    requires parts != [] && forall part :: part in parts ==> '/' !in part
    ensures Components(Slashed(parts)) == parts
  {
    var front, rest := parts[0], parts[1..];
    assert parts == [front] + rest && front in parts;
    if rest == [] {
      ComponentsOfOne(front);
    } else {
      assert forall part :: part in rest ==> part in parts;
      ComponentsOfSlashed(rest);
      ComponentsFirst(front, Slashed(rest));
    }
  }

  lemma {:induction false} SlashedHolds(parts: seq<string>, c: char)
    requires c != '/' && forall part :: part in parts ==> c !in part
    ensures c !in Slashed(parts)
  {
    if parts != [] {
      assert parts[0] in parts;
      SlashedHolds(parts[1..], c);
    }
  }

  lemma {:induction false} ResolvedAppend(at: seq<string>, a: seq<string>, b: seq<string>)
    ensures Resolved(at, a + b) == Resolved(Resolved(at, a), b)
    decreases |a|
  {
    if a == [] {
      assert a + b == b;
    } else {
      assert (a + b)[1..] == a[1..] + b;
      ResolvedAppend(Enter(at, a[0]), a[1..], b);
    }
  }

  lemma {:induction false} ResolvedNormal(at: seq<string>, parts: seq<string>)
    requires forall part :: part in parts ==> Normal(part)
    ensures Resolved(at, parts) == at + parts
    decreases |parts|
  {
    if parts == [] {
      assert at + parts == at;
    } else {
      assert parts[0] in parts;
      ResolvedNormal(at + [parts[0]], parts[1..]);
      assert at + parts == (at + [parts[0]]) + parts[1..];
    }
  }

  /** Where a path leads has only normal parts, all of them from the path. */
  lemma {:induction false} ResolvedIsNormal(at: seq<string>, parts: seq<string>)
    requires forall part :: part in at ==> Normal(part)
    ensures forall part :: part in Resolved(at, parts) ==> Normal(part) && (part in at || part in parts)
    decreases |parts|
  {
    if parts != [] {
      ResolvedIsNormal(Enter(at, parts[0]), parts[1..]);
      assert parts[0] in parts;
    }
  }

  lemma {:induction false} LeadingSlashes(path: string)
    ensures Resolved([], Components(SkipSlashes(path))) == Resolved([], Components(path))
    decreases |path|
  {
    if path != [] && path[0] == '/' {
      LeadingSlashes(path[1..]);
      assert path == "" + ("/" + path[1..]);
      ComponentsFirst("", path[1..]);
      assert ([""] + Components(path[1..]))[1..] == Components(path[1..]);
    }
  }

  lemma {:induction false} TrailingSlashes(path: string)
    ensures Resolved([], Components(DropSlashes(path))) == Resolved([], Components(path))
    decreases |path|
  {
    if path != [] && path[|path| - 1] == '/' {
      var front := path[..|path| - 1];
      TrailingSlashes(front);
      assert path == front + ("/" + "");
      ComponentsAppend(front, "");
      ComponentsOfOne("");
      ResolvedAppend([], Components(front), [""]);
      assert [""][1..] == [];
    }
  }

  lemma NumberComponents(digits: string)
    requires AllDigits(digits)
    ensures Components(digits + SUFFIX) == [digits, "snapshot"]
  {
    assert SUFFIX == "/" + "snapshot";
    assert '/' !in digits && '/' !in "snapshot";
    ComponentsFirst(digits, "snapshot");
    ComponentsOfOne("snapshot");
  }

  /** The parts of the path of snapshot `n`. */
  lemma SnapshotComponents(directory: string, digits: string)
    requires AllDigits(digits)
    ensures Components(directory + "/" + digits + SUFFIX) == Components(directory) + [digits, "snapshot"]
  {
    var tail := digits + SUFFIX;
    NumberComponents(digits);
    Associate(directory + "/", digits, SUFFIX);
    Associate(directory, "/", tail);
    ComponentsAppend(directory, tail);
  }

  /** The name of snapshot `n` is what the configured directory leads to, then `n` and `snapshot`. */
  lemma SnapshotOwnName(subvolume: string, n: nat)
    ensures
      var parts := Resolved([], Components(subvolume)) + [Decimal(n), "snapshot"];
      && Resolved([], Components(SnapshotPath(subvolume, n))) == parts
      && OwnName(SnapshotPath(subvolume, n)) == Slashed(parts)
      && Components(Slashed(parts)) == parts
      && forall part :: part in parts ==> Normal(part)
  {
    var digits, at := Decimal(n), Resolved([], Components(subvolume));
    SnapshotComponents(subvolume, digits);
    ResolvedAppend([], Components(subvolume), [digits, "snapshot"]);
    assert digits[0] in digits && IsDigit(digits[0]) && Normal(digits) && Normal("snapshot");
    ResolvedNormal(at, [digits, "snapshot"]);
    ResolvedIsNormal([], Components(subvolume));
    SlashedComponents(subvolume);
    assert '/' !in digits && '/' !in "snapshot";
    ComponentsOfSlashed(at + [digits, "snapshot"]);
  }

  /** A configured directory that is a name itself, but for outer slashes. */
  predicate IsName(directory: string) {
    forall part :: part in Components(directory) ==> Normal(part)
  }

  lemma NameIsParsed(directory: string, n: nat)
    requires n <= ULONG_MAX
    requires |Slashed([] + Components(directory) + [Decimal(n), "snapshot"])| <= MAX_SIZE
    ensures ParseSnapshotNumber(Slashed([] + Components(directory) + [Decimal(n), "snapshot"]), directory) == Number(n)
  {
    var digits := Decimal(n);
    var path := directory + "/" + digits + SUFFIX;
    SnapshotComponents(directory, digits);
    SlashedComponents(path);
    assert [] + Components(directory) == Components(directory);
    assert IsSnapshotPath(path, directory, digits);
    PathIsParsed(path, directory, digits);
  }

  /** The name of snapshot `n` is recognised exactly when the configured directory, stripped of outer
      slashes, has no empty part (so is not empty), and no part `.` or `..`. */
  lemma OwnNameReadBack(subvolume: string, n: nat)
    requires n <= ULONG_MAX && |OwnName(SnapshotPath(subvolume, n))| <= MAX_SIZE
    ensures
      var directory := DropSlashes(SkipSlashes(subvolume));
      ParseSnapshotNumber(OwnName(SnapshotPath(subvolume, n)), directory) == Number(n) <==> IsName(directory)
  {
    var directory, digits := DropSlashes(SkipSlashes(subvolume)), Decimal(n);
    var shown := OwnName(SnapshotPath(subvolume, n));
    SnapshotOwnName(subvolume, n);
    LeadingSlashes(subvolume);
    TrailingSlashes(SkipSlashes(subvolume));
    if IsName(directory) {
      ResolvedNormal([], Components(directory));
      NameIsParsed(directory, n);
    }
    if ParseSnapshotNumber(shown, directory) == Number(n) {
      var read := OnlyPathsAreParsed(shown, directory);
      SnapshotComponents(directory, read);
      assert forall part :: part in Components(directory) ==> part in Components(directory) + [read, "snapshot"];
    }
  }

  /** The mount options of a root booted from snapshot `n`: among others, the name of the mounted
      subvolume with a slash in front, however its path was written. */
  function MountedSnapshot(before: seq<string>, subvolume: string, n: nat, after: seq<string>): string {
    Listed(before + ["subvol" + "=" + ("/" + OwnName(SnapshotPath(subvolume, n)))] + after)
  }

  lemma NoCommaInTail(n: nat)
    ensures forall part :: part in [Decimal(n), "snapshot"] ==> ',' !in part
  {
    assert ',' !in Decimal(n) && ',' !in "snapshot";
  }

  lemma NoCommaInName(subvolume: string, n: nat)
    requires ',' !in subvolume
    ensures Find(',', "/" + OwnName(SnapshotPath(subvolume, n))) == |"/" + OwnName(SnapshotPath(subvolume, n))|
  {
    var at, tail := Resolved([], Components(subvolume)), [Decimal(n), "snapshot"];
    SnapshotOwnName(subvolume, n);
    ResolvedIsNormal([], Components(subvolume));
    SlashedComponents(subvolume);
    NoCommaInTail(n);
    assert forall part :: part in at + tail ==> part in at || part in tail;
    SlashedHolds(at + tail, ',');
    assert ',' !in "/" + OwnName(SnapshotPath(subvolume, n));
  }

  /** Booted from the menu entry of snapshot `n`, the planner recognises `n` exactly when the configured
      directory is a name itself, but for outer slashes. */
  lemma BootedSnapshotReadBack(before: seq<string>, subvolume: string, n: nat, after: seq<string>)
    requires n <= ULONG_MAX && |OwnName(SnapshotPath(subvolume, n))| <= MAX_SIZE && ',' !in subvolume
    requires forall item :: item in before ==> ',' !in item && !("subvol" + "=" <= item)
    ensures
      var detected := DetectedSubvolume(MountedSnapshot(before, subvolume, n, after));
      var directory := DropSlashes(SkipSlashes(subvolume));
      ParseSnapshotNumber(detected, directory) == Number(n) <==> IsName(directory)
  {
    var shown := OwnName(SnapshotPath(subvolume, n));
    FirstOption(before, "subvol", "/" + shown, after);
    NoCommaInName(subvolume, n);
    assert ("/" + shown)[..|"/" + shown|] == "/" + shown && ("/" + shown)[1..] == shown;
    OwnNameReadBack(subvolume, n);
  }

  lemma FindAt(c: char, s: string, i: nat)
    requires i < |s| && s[i] == c && c !in s[..i]
    ensures Find(c, s) == i
  {
    assert s == s[..i] + ([c] + s[i + 1..]);
    FindAfter(s[..i], c, s[i + 1..]);
  }

  /** Nothing the loader checks rules the other directories out. */
  lemma AcceptedSnapshotReadBack(c: ConfigLoader.AppConfig, before: seq<string>, n: nat, after: seq<string>)
    requires ConfigLoader.Accepted(c) && ',' !in c.snapper.subvolume
    requires n <= ULONG_MAX && |OwnName(SnapshotPath(c.snapper.subvolume, n))| <= MAX_SIZE
    requires forall item :: item in before ==> ',' !in item && !("subvol" + "=" <= item)
    ensures
      var detected := DetectedSubvolume(MountedSnapshot(before, c.snapper.subvolume, n, after));
      var directory := DropSlashes(SkipSlashes(c.snapper.subvolume));
      ParseSnapshotNumber(detected, directory) == Number(n) <==> IsName(directory)
    ensures forall other :: other != [] ==> ConfigLoader.Accepted(c.(snapper := c.snapper.(subvolume := other)))
  {
    BootedSnapshotReadBack(before, c.snapper.subvolume, n, after);
  }

  /** With a comma in the directory the `rootflags` are two mount options, and the first one names
      another path. */
  lemma CommaSplitsOption(subvolume: string, n: nat)
    requires ',' in subvolume
    ensures OptionValue("subvol" + "=" + SnapshotPath(subvolume, n), "subvol") == subvolume[..Find(',', subvolume)]
    ensures subvolume[..Find(',', subvolume)] != SnapshotPath(subvolume, n)
  {
    var path, end := SnapshotPath(subvolume, n), Find(',', subvolume);
    OptionHere("subvol", path, []);
    assert "subvol" + "=" + path + [] == "subvol" + "=" + path;
    var i :| 0 <= i < |subvolume| && subvolume[i] == ',';
    FoundBy(',', subvolume, i);
    assert path[..end] == subvolume[..end] && path[end] == ',';
    FindAt(',', path, end);
  }

  lemma RwIsAnOption()
    ensures forall item :: item in ["rw"] ==> ',' !in item && !("subvol" + "=" <= item)
  {
  }

  lemma DoubledSlashComponents()
    ensures Components("a//b") == ["a", "", "b"] && Resolved([], ["a", "", "b"]) == ["a", "b"]
  {
    assert "a//b" == "a" + ("/" + "/b") && "/b" == "" + ("/" + "b");
    ComponentsFirst("a", "/b");
    ComponentsFirst("", "b");
    ComponentsOfOne("b");
    assert ["a"] + ([""] + ["b"]) == ["a", "", "b"];
    ResolvedAppend([], ["a"], ["", "b"]);
    ResolvedAppend(["a"], [""], ["b"]);
    ResolvedNormal([], ["a"]);
    ResolvedNormal(["a"], ["b"]);
    assert ["a"] + ["", "b"] == ["a", "", "b"] && [""] + ["b"] == ["", "b"] && [""][1..] == [];
    assert [] + ["a"] == ["a"] && ["a"] + ["b"] == ["a", "b"];
  }

  lemma DoubledSlashShown(n: nat)
    ensures OwnName(SnapshotPath("a//b", n)) == Slashed(["a", "b", Decimal(n), "snapshot"])
  {
    DoubledSlashComponents();
    SnapshotOwnName("a//b", n);
    assert ["a", "b"] + [Decimal(n), "snapshot"] == ["a", "b", Decimal(n), "snapshot"];
  }

  lemma DoubledSlashIsNoName()
    ensures ',' !in "a//b" && !IsName(DropSlashes(SkipSlashes("a//b")))
  {
    DoubledSlashComponents();
    assert SkipSlashes("a//b") == "a//b" && DropSlashes("a//b") == "a//b";
    assert "" in ["a", "", "b"] && !Normal("");
  }

  /** Such configurations are accepted: this one writes menu entries that can be booted, and whose
      booted systems are never recognised. */
  lemma DoubledSlashIsAccepted(n: nat) returns (c: ConfigLoader.AppConfig)
    requires n <= ULONG_MAX && |OwnName(SnapshotPath("a//b", n))| <= MAX_SIZE
    ensures ConfigLoader.Accepted(c) && c.snapper.subvolume == "a//b"
    ensures OwnName(SnapshotPath("a//b", n)) == Slashed(["a", "b", Decimal(n), "snapshot"])
    ensures ParseSnapshotNumber(DetectedSubvolume(MountedSnapshot(["rw"], "a//b", n, [])),
                                DropSlashes(SkipSlashes("a//b"))) != Number(n)
  {
    c := ConfigLoader.DEFAULT.(snapper := ConfigLoader.DEFAULT.snapper.(subvolume := "a//b"));
    ConfigLoader.DefaultIsAccepted();
    DoubledSlashIsNoName();
    DoubledSlashShown(n);
    RwIsAnOption();
    BootedSnapshotReadBack(["rw"], "a//b", n, []);
  }
}
