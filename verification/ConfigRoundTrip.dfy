/** Loading what `render` printed gives the same configuration. */
module ConfigRoundTrip {
  import opened Wrappers
  import opened Text
  import opened ConfigLoader

  // ---- trimming ----

  lemma {:induction false} LeftTrimmed(s: string)
    ensures TrimLeft(s) != [] ==> !Blank(TrimLeft(s)[0])
    ensures forall c :: c in TrimLeft(s) ==> c in s
    decreases |s|
  {
    if s != [] && Blank(s[0]) { LeftTrimmed(s[1..]); }
  }

  lemma {:induction false} RightTrimmed(s: string)
    requires s != [] ==> !Blank(s[0])
    ensures Trimmed(TrimRight(s)) && forall c :: c in TrimRight(s) ==> c in s
    decreases |s|
  {
    if s != [] && Blank(s[|s| - 1]) { RightTrimmed(s[..|s| - 1]); }
  }

  lemma {:induction false} TrimIsTrimmed(s: string)
    ensures Trimmed(Trim(s)) && forall c :: c in Trim(s) ==> c in s
  {
    LeftTrimmed(s);
    RightTrimmed(TrimLeft(s));
  }

  lemma TrimOfTrimmed(s: string)
    requires Trimmed(s)
    ensures Trim(s) == s
  {
  }

  lemma TrimOneRight(s: string)
    requires Trimmed(s) && s != []
    ensures Trim(s + " ") == s
  {
    var t := s + " ";
    assert t[0] == s[0] && t[|t| - 1] == ' ' && t[..|t| - 1] == s;
    assert TrimLeft(t) == t;
    assert TrimRight(t) == TrimRight(s) == s;
  }

  lemma TrimOneLeft(s: string)
    requires Trimmed(s)
    ensures Trim(" " + s) == s
  {
    assert (" " + s)[0] == ' ' && (" " + s)[1..] == s;
    assert TrimLeft(" " + s) == TrimLeft(s);
    if s == [] { assert TrimLeft(s) == []; } else { assert TrimLeft(s) == s; }
  }

  // ---- one printed line ----

  /** A key as the loader stores it, which can be printed at the start of a line. */
  predicate GoodKey(key: string) {
    && key != [] && Trimmed(key) && (forall c :: c in key ==> !IsUpper(c) && c != '=' && c != '\n')
    && key[0] != '#' && key[0] != ';'
  }

  /** A value as the loader stores it. */
  predicate GoodValue(value: string) {
    Trimmed(value) && '\n' !in value
  }

  /** A pair is not taken for a section header. */
  predicate GoodPair(key: string, value: string) {
    GoodKey(key) && GoodValue(value) && (key[0] == '[' && value != [] ==> value[|value| - 1] != ']')
  }

  lemma LowerOfLower(s: string)
    requires forall c :: c in s ==> !IsUpper(c)
    ensures Lower(s) == s
  {
    assert forall i :: 0 <= i < |s| ==> s[i] in s;
  }

  lemma PairText(line: string, key: string, rest: string, value: string)
    requires GoodKey(key) && Trim(line) == key + " " + ("=" + rest) && Trim(rest) == value
    requires key[0] == '[' ==> Trim(line)[|Trim(line)| - 1] != ']'
    ensures ParseLine(line) == Pair(key, value)
  {
    var front, text := key + " ", Trim(line);
    FindAfter(front, '=', rest);
    assert text[0] == key[0];
    assert text[..|front|] == front && text[|front| + 1..] == rest;
    TrimOneRight(key);
    LowerOfLower(key);
  }

  lemma TrimBlankValue(key: string)
    requires GoodKey(key)
    ensures Trim(KeyLine(key, [])) == key + " " + "="
  {
    var t := key + " " + "=";
    assert KeyLine(key, []) == t + " ";
    assert t[0] == key[0] && t[|t| - 1] == '=';
    TrimOneRight(t);
  }

  lemma TrimPair(key: string, value: string)
    requires GoodKey(key) && Trimmed(value) && value != []
    ensures Trim(KeyLine(key, value)) == KeyLine(key, value)
  {
    var t := KeyLine(key, value);
    assert t[0] == key[0] && t[|t| - 1] == value[|value| - 1];
  }

  /** A printed pair is read back as that pair. */
  lemma PairLine(key: string, value: string)
    requires GoodPair(key, value)
    ensures ParseLine(KeyLine(key, value)) == Pair(key, value)
  {
    TrimOneLeft(value);
    if value == [] {
      TrimBlankValue(key);
      assert key + " " + "=" == key + " " + ("=" + []);
      PairText(KeyLine(key, value), key, [], value);
    } else {
      TrimPair(key, value);
      assert KeyLine(key, value) == key + " " + ("=" + (" " + value));
      PairText(KeyLine(key, value), key, " " + value, value);
    }
  }

  lemma HeaderLine(name: string)
    requires GoodKey(name)
    ensures ParseLine("[" + name + "]") == Header(name)
  {
    var t := "[" + name + "]";
    assert t[0] == '[' && t[|t| - 1] == ']' && t[1..|t| - 1] == name;
    LowerOfLower(name);
  }

  // ---- sections ----

  lemma LoadOneMore(r: Reading, lines: seq<string>, line: string)
    ensures LoadLines(r, lines + [line]) ==
      match LoadLines(r, lines) case None => None case Some(next) => LoadLine(next, line)
  {
    assert (lines + [line])[..|lines|] == lines;
  }

  lemma {:induction false} LoadAppend(r: Reading, a: seq<string>, b: seq<string>)
    requires LoadLines(r, a).Some?
    ensures LoadLines(r, a + b) == LoadLines(LoadLines(r, a).value, b)
    decreases |b|
  {
    if b == [] {
      assert a + b == a;
    } else {
      var front, last := b[..|b| - 1], b[|b| - 1];
      assert b == front + [last] && a + b == (a + front) + [last];
      LoadAppend(r, a, front);
      LoadOneMore(r, a + front, last);
      LoadOneMore(LoadLines(r, a).value, front, last);
    }
  }

  /** The section a setting is printed in. */
  function SectionOf(key: Key): Section {
    match key
    case SchemaVersion => InManager
    case BootMount => InSystem
    case LimineConfig => InSystem
    case KernelCmdlineFile => InSystem
    case ModulesRoot => InSystem
    case Cpuinfo => InSystem
    case MkinitcpioConfig => InSystem
    case SnapperConfig => InSnapper
    case SnapshotsSubvolume => InSnapper
    case SnapshotsDirectory => InSnapper
    case MaxSnapshots => InSnapper
    case IncludeReadWrite => InSnapper
    case Retain => InBackups
    case RootTitle => InMenu
    case SnapshotsTitle => InMenu
    case RootExpanded => InMenu
    case SnapshotsExpanded => InMenu
    case Include => InKernels
    case Exclude => InKernels
    case Order => InKernels
    case ThemeName => InTheme
    case Enabled => InAutomation
    case SnapperEvents => InAutomation
    case PacmanEvents => InAutomation
    case DebounceSeconds => InAutomation
    case RuntimeDirectory => InAutomation
    case ProtectConfig => InSecureBoot
    case AutomaticApply => InSecureBoot
    case EfiExecutable => InSecureBoot
    case LimineOption(_) => InLimine
  }

  // ---- printed values ----

  lemma FlagIsRead(b: bool)
    ensures GoodValue(Flag(b)) && ParseBool(Flag(b)) == Some(b)
  {
    TrimOfTrimmed(Flag(b));
    LowerOfLower(Flag(b));
  }

  lemma NumberIsRead(n: nat)
    requires n <= SIZE_MAX
    ensures GoodValue(Decimal(n)) && ParseSize(Decimal(n)) == Some(n)
  {
    var s := Decimal(n);
    assert s[0] in s && s[|s| - 1] in s;
    assert IsDigit(s[0]) && IsDigit(s[|s| - 1]);
    TrimOfTrimmed(s);
    assert SkipSpace(s) == s;
  }

  predicate GoodItem(item: string) {
    item != [] && GoodValue(item) && ',' !in item
  }

  predicate GoodList(items: seq<string>) { forall item :: item in items ==> GoodItem(item) }

  lemma CommaBlank(space: string, item: string, rest: string)
    ensures space + (item + ", " + rest) == space + item + ("," + (" " + rest))
  {
  }

  lemma JoinedStep(items: seq<string>, space: string)
    requires |items| > 1
    ensures space + Joined(items) == space + items[0] + ("," + (" " + Joined(items[1..])))
  {
    assert Joined(items) == items[0] + ", " + Joined(items[1..]);
    CommaBlank(space, items[0], Joined(items[1..]));
  }

  lemma SpaceItem(space: string, item: string)
    requires space in {"", " "} && GoodItem(item)
    ensures Trim(space + item) == item
  {
    if space == " " {
      TrimOneLeft(item);
    } else {
      assert space + item == item;
      TrimOfTrimmed(item);
    }
  }

  lemma LastItem(space: string, item: string)
    requires space in {"", " "} && GoodItem(item)
    ensures ListOf(space + item) == [item]
  {
    var text := space + item;
    assert ',' !in text;
    assert text[..|text|] == text;
    SpaceItem(space, item);
  }

  lemma FirstItem(space: string, item: string, rest: string)
    requires space in {"", " "} && GoodItem(item)
    ensures ListOf(space + item + ("," + (" " + rest))) == [item] + ListOf(" " + rest)
  {
    var front, tail := space + item, " " + rest;
    var text := front + ("," + tail);
    assert ',' !in front;
    FindAfter(front, ',', tail);
    SplitAfter(front, ',', tail);
    SpaceItem(space, item);
  }

  lemma EmptyList(space: string)
    requires space in {"", " "}
    ensures ListOf(space) == []
  {
    assert ',' !in space;
    assert space[..|space|] == space;
    if space == " " { TrimOneLeft(""); assert " " + "" == " "; }
  }

  /** Blank space in front of a printed list does not matter. */
  lemma {:induction false} ListIsRead(items: seq<string>, space: string)
    requires GoodList(items) && space in {"", " "}
    ensures ListOf(space + Joined(items)) == items
    decreases |items|
  {
    if items == [] {
      assert space + Joined(items) == space;
      EmptyList(space);
    } else {
      assert items[0] in items;
      if |items| == 1 {
        LastItem(space, items[0]);
        assert items == [items[0]];
      } else {
        ListIsRead(items[1..], " ");
        FirstItem(space, items[0], Joined(items[1..]));
        JoinedStep(items, space);
        assert items == [items[0]] + items[1..];
      }
    }
  }

  lemma {:induction false} JoinedIsGood(items: seq<string>)
    requires GoodList(items)
    ensures GoodValue(Joined(items)) && (items != [] ==> Joined(items) != [])
  {
    if items != [] {
      assert items[0] in items;
      if |items| > 1 {
        JoinedIsGood(items[1..]);
        var tail := Joined(items[1..]);
        var s := items[0] + ", " + tail;
        assert items[1] in items;
        assert s[0] == items[0][0] && s[|s| - 1] == tail[|tail| - 1];
      }
    }
  }

  // ---- what the loader stores ----

  predicate StoredSystem(c: System) {
    && GoodValue(c.bootMount) && GoodValue(c.limineConfig) && GoodValue(c.kernelCmdlineFile)
    && GoodValue(c.modulesRoot) && GoodValue(c.cpuinfo)
  }

  predicate StoredSnapper(c: Snapper) {
    GoodValue(c.config) && GoodValue(c.subvolume) && GoodValue(c.directory) && c.maxSnapshots <= SIZE_MAX
  }

  predicate StoredMenu(c: Menu) { GoodValue(c.rootTitle) && GoodValue(c.snapshotsTitle) }

  predicate StoredKernels(c: Kernels) { GoodList(c.included) && GoodList(c.excluded) && GoodList(c.order) }

  predicate StoredTheme(theme: string) { GoodValue(theme) && forall x :: x in theme ==> !IsUpper(x) }

  predicate StoredAutomation(c: Automation) { GoodValue(c.runtimeDirectory) && c.debounceSeconds <= SIZE_MAX }

  predicate StoredSecureBoot(c: SecureBoot) { GoodValue(c.efiExecutable) && c.efiExecutable != "auto" }

  predicate StoredOptions(limine: map<string, string>) {
    && (forall k :: k in limine ==> GoodPair(k, limine[k]))
    && "remember_last_entry" in limine && "timeout" in limine
  }

  /** Every configuration the loader can build, accepted or not. */
  predicate Stored(c: AppConfig) {
    && c.schemaVersion <= SIZE_MAX && c.retention <= SIZE_MAX
    && StoredSystem(c.system) && StoredSnapper(c.snapper) && StoredMenu(c.menu)
    && StoredKernels(c.kernels) && StoredTheme(c.theme) && StoredAutomation(c.automation)
    && StoredSecureBoot(c.secureBoot) && c.system.limineEfiExecutable == c.secureBoot.efiExecutable
    && StoredOptions(c.limine)
  }

  lemma DefaultPathsAreGood()
    ensures GoodValue("/etc/kernel/cmdline") && GoodValue("/usr/lib/modules") && GoodValue("/proc/cpuinfo")
  {
  }

  lemma DefaultSystemIsStored()
    ensures StoredSystem(DEFAULT.system)
  {
    assert GoodValue("/boot") && GoodValue("/boot/limine.conf");
    DefaultPathsAreGood();
  }

  lemma DefaultSnapperIsStored()
    ensures StoredSnapper(DEFAULT.snapper)
  {
    assert GoodValue("@snapshots") && GoodValue("/.snapshots");
  }

  lemma DefaultMenuIsStored()
    ensures StoredMenu(DEFAULT.menu)
  {
  }

  lemma DefaultAutomationIsStored()
    ensures StoredAutomation(DEFAULT.automation)
  {
  }

  lemma DefaultRestIsStored()
    ensures StoredTheme(DEFAULT.theme) && StoredSecureBoot(DEFAULT.secureBoot) && StoredKernels(DEFAULT.kernels)
  {
  }

  lemma DefaultOptionsAreGood()
    ensures StoredOptions(DEFAULT.limine)
  {
    assert GoodPair("remember_last_entry", "yes");
    assert GoodPair("timeout", "5");
  }

  lemma DefaultIsStored()
    ensures Stored(DEFAULT)
  {
    DefaultSystemIsStored();
    DefaultSnapperIsStored();
    DefaultMenuIsStored();
    DefaultAutomationIsStored();
    DefaultRestIsStored();
    DefaultOptionsAreGood();
  }

  lemma {:induction false} LastCharStays(s: string)
    requires s != [] && !Blank(s[|s| - 1])
    ensures Trim(s) != [] && Trim(s)[|Trim(s)| - 1] == s[|s| - 1]
    decreases |s|
  {
    if Blank(s[0]) {
      assert s[1..] != [] && s[1..][|s[1..]| - 1] == s[|s| - 1];
      LastCharStays(s[1..]);
    }
  }

  lemma {:induction false} FirstStaysRight(s: string)
    requires s != [] && !Blank(s[0])
    ensures TrimRight(s) != [] && TrimRight(s)[0] == s[0]
    decreases |s|
  {
    if Blank(s[|s| - 1]) { FirstStaysRight(s[..|s| - 1]); }
  }

  lemma FirstCharStays(s: string)
    requires s != [] && !Blank(s[0])
    ensures Trim(s) != [] && Trim(s)[0] == s[0]
  {
    FirstStaysRight(s);
  }

  lemma LowerKeepsTrim(s: string)
    ensures Trimmed(s) ==> Trimmed(Lower(s))
    ensures forall c :: c in Lower(s) ==> !IsUpper(c)
    ensures forall c :: c in Lower(s) ==> c in s || exists d :: d in s && IsUpper(d) && c == LowerChar(d)
  {
    forall c | c in Lower(s) ensures c in s || exists d :: d in s && IsUpper(d) && c == LowerChar(d) {
      var i :| 0 <= i < |s| && Lower(s)[i] == c;
      assert s[i] in s;
    }
  }

  lemma KeyIsGood(text: string, equal: nat)
    requires equal <= |text| && '=' !in text[..equal] && '\n' !in text
    requires text != [] && !Blank(text[0]) && text[0] != '#' && text[0] != ';'
    requires Lower(Trim(text[..equal])) != []
    ensures GoodKey(Lower(Trim(text[..equal]))) && Lower(Trim(text[..equal]))[0] == LowerChar(text[0])
  {
    var left := text[..equal];
    TrimIsTrimmed(left);
    assert Trim([]) == [] && Lower([]) == [];
    FirstCharStays(left);
    var key := Trim(left);
    LowerKeepsTrim(key);
    forall c | c in key ensures c != '\n' && c != '=' {
      assert c in left && c in text;
    }
  }

  /** A pair read from a line can be printed again. */
  lemma ReadPairIsGood(line: string)
    requires '\n' !in line && ParseLine(line).Pair?
    ensures GoodPair(ParseLine(line).key, ParseLine(line).value)
  {
    var text := Trim(line);
    TrimIsTrimmed(line);
    var equal := Find('=', text);
    var left, right := text[..equal], text[equal + 1..];
    TrimIsTrimmed(left);
    TrimIsTrimmed(right);
    KeyIsGood(text, equal);
    if right != [] && Trim(right) != [] {
      assert right[|right| - 1] == text[|text| - 1];
      LastCharStays(right);
    }
  }

  lemma ItemIsGood(text: string)
    requires '\n' !in text && ',' !in text
    ensures GoodList(Item(text))
  {
    TrimIsTrimmed(text);
  }

  lemma {:induction false} ListIsGood(value: string)
    requires '\n' !in value
    ensures GoodList(ListOf(value))
    decreases |value|
  {
    var end := Find(',', value);
    ItemIsGood(value[..end]);
    if end < |value| { ListIsGood(value[end + 1..]); }
  }

  lemma LowerIsStored(value: string)
    requires GoodValue(value)
    ensures StoredTheme(Lower(value))
  {
    LowerKeepsTrim(value);
  }

  lemma SizeIsStored(value: string)
    ensures ParseSize(value).Some? ==> ParseSize(value).value <= SIZE_MAX
  {
  }

  lemma OptionsStore(limine: map<string, string>, key: string, value: string)
    requires StoredOptions(limine) && GoodPair(key, value)
    ensures StoredOptions(limine[key := value])
  {
  }

  lemma AssignStores(c: AppConfig, key: Key, value: string)
    requires Stored(c) && GoodValue(value) && (key.LimineOption? ==> GoodPair(key.name, value))
    requires AssignKey(c, key, value).Some?
    ensures Stored(AssignKey(c, key, value).value)
  {
    SizeIsStored(value);
    if key.Include? || key.Exclude? || key.Order? { ListIsGood(value); }
    if key.ThemeName? { LowerIsStored(value); }
    if key.LimineOption? { OptionsStore(c.limine, key.name, value); }
  }

  lemma OptionKeysAreNames(section: string, key: string)
    ensures KeyOf(section, key).Some? && KeyOf(section, key).value.LimineOption? ==>
      KeyOf(section, key).value.name == key
  {
  }

  lemma {:induction false} LoadStores(lines: seq<string>)
    requires forall line :: line in lines ==> '\n' !in line
    requires LoadLines(Reading(DEFAULT, []), lines).Some?
    ensures Stored(LoadLines(Reading(DEFAULT, []), lines).value.config)
  {
    if lines == [] {
      DefaultIsStored();
    } else {
      var n := |lines| - 1;
      LoadStores(lines[..n]);
      var r := LoadLines(Reading(DEFAULT, []), lines[..n]).value;
      assert lines[n] in lines;
      if ParseLine(lines[n]).Pair? {
        ReadPairIsGood(lines[n]);
        OptionKeysAreNames(r.section, ParseLine(lines[n]).key);
        AssignStores(r.config, KeyOf(r.section, ParseLine(lines[n]).key).value, ParseLine(lines[n]).value);
      }
    }
  }

  // ---- names ----

  /** The name of a setting is a good key, and in its section it means that setting. */
  predicate NameIsRead(key: Key) {
    && KeyOf(SectionName(SectionOf(key)), Name(key)) == Some(key)
    && (!key.LimineOption? ==> GoodKey(Name(key)) && Name(key)[0] != '[')
  }

  lemma System1Names(key: Key)
    requires key.BootMount? || key.LimineConfig? || key.Cpuinfo?
    ensures NameIsRead(key)
  {
  }

  lemma System2Names(key: Key)
    requires key.KernelCmdlineFile? || key.ModulesRoot? || key.MkinitcpioConfig?
    ensures NameIsRead(key)
  {
  }

  lemma Snapper1Names(key: Key)
    requires key.SnapperConfig? || key.SnapshotsSubvolume?
    ensures NameIsRead(key)
  {
  }

  lemma Snapper2Names(key: Key)
    requires key.SnapshotsDirectory? || key.MaxSnapshots? || key.IncludeReadWrite?
    ensures NameIsRead(key)
  {
  }

  lemma MenuNames(key: Key)
    requires key.RootTitle? || key.SnapshotsTitle?
    ensures NameIsRead(key)
  {
  }

  lemma MenuFlagNames(key: Key)
    requires key.RootExpanded? || key.SnapshotsExpanded?
    ensures NameIsRead(key)
  {
  }

  lemma KernelNames(key: Key)
    requires key.Include? || key.Exclude? || key.Order?
    ensures NameIsRead(key)
  {
  }

  lemma SingleNames(key: Key)
    requires key.SchemaVersion? || key.Retain? || key.ThemeName?
    ensures NameIsRead(key)
  {
  }

  lemma Automation1Names(key: Key)
    requires key.Enabled? || key.SnapperEvents? || key.PacmanEvents?
    ensures NameIsRead(key)
  {
    assert SectionName(InAutomation) == "automation";
  }

  lemma Automation2Names(key: Key)
    requires key.DebounceSeconds? || key.RuntimeDirectory?
    ensures NameIsRead(key)
  {
  }

  lemma SecureBootNames(key: Key)
    requires key.ProtectConfig? || key.AutomaticApply? || key.EfiExecutable?
    ensures NameIsRead(key)
  {
  }

  lemma OptionName(key: string)
    ensures KeyOf("limine", key) == Some(LimineOption(key))
  {
  }

  lemma NamesAreRead(key: Key)
    ensures NameIsRead(key)
  {
    match key
    case BootMount => System1Names(key);
    case LimineConfig => System1Names(key);
    case Cpuinfo => System1Names(key);
    case KernelCmdlineFile => System2Names(key);
    case ModulesRoot => System2Names(key);
    case MkinitcpioConfig => System2Names(key);
    case SnapperConfig => Snapper1Names(key);
    case SnapshotsSubvolume => Snapper1Names(key);
    case SnapshotsDirectory => Snapper2Names(key);
    case MaxSnapshots => Snapper2Names(key);
    case IncludeReadWrite => Snapper2Names(key);
    case RootTitle => MenuNames(key);
    case SnapshotsTitle => MenuNames(key);
    case RootExpanded => MenuFlagNames(key);
    case SnapshotsExpanded => MenuFlagNames(key);
    case Include => KernelNames(key);
    case Exclude => KernelNames(key);
    case Order => KernelNames(key);
    case SchemaVersion => SingleNames(key);
    case Retain => SingleNames(key);
    case ThemeName => SingleNames(key);
    case Enabled => Automation1Names(key);
    case SnapperEvents => Automation1Names(key);
    case PacmanEvents => Automation1Names(key);
    case DebounceSeconds => Automation2Names(key);
    case RuntimeDirectory => Automation2Names(key);
    case ProtectConfig => SecureBootNames(key);
    case AutomaticApply => SecureBootNames(key);
    case EfiExecutable => SecureBootNames(key);
    case LimineOption(name) => OptionName(name);
  }

  lemma SomeSectionNames(section: Section)
    requires section.InSystem? || section.InSnapper? || section.InMenu? || section.InManager? || section.InBackups?
    ensures GoodKey(SectionName(section))
  {
  }

  lemma OtherSectionNames(section: Section)
    requires
      || section.InKernels? || section.InTheme? || section.InAutomation? || section.InSecureBoot?
      || section.InLimine?
    ensures GoodKey(SectionName(section))
  {
  }

  lemma SectionNameIsRead(section: Section)
    ensures GoodKey(SectionName(section))
  {
    if section.InSystem? || section.InSnapper? || section.InMenu? || section.InManager? || section.InBackups? {
      SomeSectionNames(section);
    } else {
      OtherSectionNames(section);
    }
  }

  lemma ReadBack(items: seq<string>)
    requires GoodList(items)
    ensures GoodValue(Joined(items)) && ListOf(Joined(items)) == items
  {
    JoinedIsGood(items);
    ListIsRead(items, "");
    assert "" + Joined(items) == Joined(items);
  }

  // ---- one setting after the other ----

  /** `d` with one setting taken from `c`. */
  function Copy(d: AppConfig, c: AppConfig, key: Key): AppConfig
    requires key.LimineOption? ==> key.name in c.limine
  {
    match key
    case SchemaVersion => d.(schemaVersion := c.schemaVersion)
    case BootMount => d.(system := d.system.(bootMount := c.system.bootMount))
    case LimineConfig => d.(system := d.system.(limineConfig := c.system.limineConfig))
    case KernelCmdlineFile => d.(system := d.system.(kernelCmdlineFile := c.system.kernelCmdlineFile))
    case ModulesRoot => d.(system := d.system.(modulesRoot := c.system.modulesRoot))
    case Cpuinfo => d.(system := d.system.(cpuinfo := c.system.cpuinfo))
    case MkinitcpioConfig => d.(system := d.system.(mkinitcpioConfig := c.system.mkinitcpioConfig))
    case SnapperConfig => d.(snapper := d.snapper.(config := c.snapper.config))
    case SnapshotsSubvolume => d.(snapper := d.snapper.(subvolume := c.snapper.subvolume))
    case SnapshotsDirectory => d.(snapper := d.snapper.(directory := c.snapper.directory))
    case MaxSnapshots => d.(snapper := d.snapper.(maxSnapshots := c.snapper.maxSnapshots))
    case IncludeReadWrite => d.(snapper := d.snapper.(includeReadWrite := c.snapper.includeReadWrite))
    case Retain => d.(retention := c.retention)
    case RootTitle => d.(menu := d.menu.(rootTitle := c.menu.rootTitle))
    case SnapshotsTitle => d.(menu := d.menu.(snapshotsTitle := c.menu.snapshotsTitle))
    case RootExpanded => d.(menu := d.menu.(rootExpanded := c.menu.rootExpanded))
    case SnapshotsExpanded => d.(menu := d.menu.(snapshotsExpanded := c.menu.snapshotsExpanded))
    case Include => d.(kernels := d.kernels.(included := c.kernels.included))
    case Exclude => d.(kernels := d.kernels.(excluded := c.kernels.excluded))
    case Order => d.(kernels := d.kernels.(order := c.kernels.order))
    case ThemeName => d.(theme := c.theme)
    case Enabled => d.(automation := d.automation.(enabled := c.automation.enabled))
    case SnapperEvents => d.(automation := d.automation.(snapper := c.automation.snapper))
    case PacmanEvents => d.(automation := d.automation.(pacman := c.automation.pacman))
    case DebounceSeconds => d.(automation := d.automation.(debounceSeconds := c.automation.debounceSeconds))
    case RuntimeDirectory => d.(automation := d.automation.(runtimeDirectory := c.automation.runtimeDirectory))
    case ProtectConfig => d.(secureBoot := d.secureBoot.(protectConfig := c.secureBoot.protectConfig))
    case AutomaticApply => d.(secureBoot := d.secureBoot.(automaticApply := c.secureBoot.automaticApply))
    case EfiExecutable =>
      d.(secureBoot := d.secureBoot.(efiExecutable := c.secureBoot.efiExecutable),
         system := d.system.(limineEfiExecutable := c.secureBoot.efiExecutable))
    case LimineOption(name) => d.(limine := d.limine[name := c.limine[name]])
  }

  predicate IsFlag(key: Key) {
    || key.IncludeReadWrite? || key.RootExpanded? || key.SnapshotsExpanded? || key.Enabled? || key.SnapperEvents?
    || key.PacmanEvents? || key.ProtectConfig? || key.AutomaticApply?
  }

  predicate IsNumber(key: Key) {
    key.SchemaVersion? || key.MaxSnapshots? || key.Retain? || key.DebounceSeconds?
  }

  predicate IsList(key: Key) { key.Include? || key.Exclude? || key.Order? }

  lemma FlagIsCopied(d: AppConfig, c: AppConfig, key: Key)
    requires IsFlag(key)
    ensures AssignKey(d, key, ValueOf(c, key)) == Some(Copy(d, c, key)) && GoodValue(ValueOf(c, key))
  {
    FlagIsRead(true);
    FlagIsRead(false);
  }

  lemma NumberIsCopied(d: AppConfig, c: AppConfig, key: Key)
    requires IsNumber(key) && Stored(c)
    ensures AssignKey(d, key, ValueOf(c, key)) == Some(Copy(d, c, key)) && GoodValue(ValueOf(c, key))
  {
    match key
    case SchemaVersion => NumberIsRead(c.schemaVersion);
    case MaxSnapshots => NumberIsRead(c.snapper.maxSnapshots);
    case Retain => NumberIsRead(c.retention);
    case DebounceSeconds => NumberIsRead(c.automation.debounceSeconds);
  }

  lemma ListIsCopied(d: AppConfig, c: AppConfig, key: Key)
    requires IsList(key) && StoredKernels(c.kernels)
    ensures AssignKey(d, key, ValueOf(c, key)) == Some(Copy(d, c, key)) && GoodValue(ValueOf(c, key))
  {
    ReadBack(c.kernels.included);
    ReadBack(c.kernels.excluded);
    ReadBack(c.kernels.order);
  }

  lemma TextIsCopied(d: AppConfig, c: AppConfig, key: Key)
    requires Stored(c) && !IsFlag(key) && !IsNumber(key) && !IsList(key) && !key.MkinitcpioConfig?
    requires key.LimineOption? ==> key.name in c.limine
    ensures AssignKey(d, key, ValueOf(c, key)) == Some(Copy(d, c, key)) && GoodValue(ValueOf(c, key))
  {
    if key.ThemeName? { LowerOfLower(c.theme); }
    if key.EfiExecutable? { assert GoodValue("auto"); }
  }

  /** Printing a setting of a stored configuration and assigning what was printed copies it. */
  lemma SettingIsCopied(d: AppConfig, c: AppConfig, key: Key)
    requires Stored(c) && !key.MkinitcpioConfig? && (key.LimineOption? ==> key.name in c.limine)
    ensures AssignKey(d, key, ValueOf(c, key)) == Some(Copy(d, c, key)) && GoodPair(Name(key), ValueOf(c, key))
  {
    NamesAreRead(key);
    if IsFlag(key) { FlagIsCopied(d, c, key); }
    else if IsNumber(key) { NumberIsCopied(d, c, key); }
    else if IsList(key) { ListIsCopied(d, c, key); }
    else { TextIsCopied(d, c, key); }
  }

  lemma LoadPair(r: Reading, line: string, name: string, value: string, key: Key, next: AppConfig)
    requires ParseLine(line) == Pair(name, value) && r.section != []
    requires KeyOf(r.section, name) == Some(key) && AssignKey(r.config, key, value) == Some(next)
    ensures LoadLine(r, line) == Some(r.(config := next))
  {
  }

  lemma LoadSetting(r: Reading, c: AppConfig, section: Section, key: Key)
    requires r.section == SectionName(section) && SectionOf(key) == section
    requires Stored(c) && !key.MkinitcpioConfig? && (key.LimineOption? ==> key.name in c.limine)
    ensures LoadLine(r, SettingLine(c, key)) == Some(r.(config := Copy(r.config, c, key)))
  {
    SectionNameIsRead(section);
    NamesAreRead(key);
    SettingIsCopied(r.config, c, key);
    PairLine(Name(key), ValueOf(c, key));
    LoadPair(r, SettingLine(c, key), Name(key), ValueOf(c, key), key, Copy(r.config, c, key));
  }

  /** `d` with several settings taken from `c`. */
  function CopyAll(d: AppConfig, c: AppConfig, keys: seq<Key>): AppConfig
    requires forall k :: k in keys && k.LimineOption? ==> k.name in c.limine
  {
    if keys == [] then d
    else
      var n := |keys| - 1;
      Copy(CopyAll(d, c, keys[..n]), c, keys[n])
  }

  lemma {:induction false} LoadSettings(r: Reading, c: AppConfig, section: Section, keys: seq<Key>)
    requires r.section == SectionName(section) && Stored(c)
    requires forall k :: k in keys ==>
      SectionOf(k) == section && !k.MkinitcpioConfig? && (k.LimineOption? ==> k.name in c.limine)
    ensures LoadLines(r, SettingLines(c, keys)) == Some(r.(config := CopyAll(r.config, c, keys)))
  {
    if keys != [] {
      var n := |keys| - 1;
      assert keys[n] in keys && forall k :: k in keys[..n] ==> k in keys;
      LoadSettings(r, c, section, keys[..n]);
      LoadOneMore(r, SettingLines(c, keys[..n]), SettingLine(c, keys[n]));
      LoadSetting(r.(config := CopyAll(r.config, c, keys[..n])), c, section, keys[n]);
    }
  }

  lemma LoadHeader(r: Reading, section: Section)
    ensures LoadLines(r, [HeaderText(section)]) == Some(r.(section := SectionName(section)))
  {
    SectionNameIsRead(section);
    HeaderLine(SectionName(section));
    assert [HeaderText(section)][..0] == [];
  }

  predicate IsKeyOf(section: Section, k: Key) {
    SectionOf(k) == section && !k.MkinitcpioConfig? && !k.LimineOption?
  }

  lemma LongSectionKey(section: Section, k: Key)
    requires section.InSystem? || section.InSnapper? || section.InMenu? || section.InAutomation?
    requires k in KeysOf(section)
    ensures IsKeyOf(section, k)
  {
    match section
    case InSystem => assert k in [BootMount, LimineConfig, KernelCmdlineFile, ModulesRoot, Cpuinfo];
    case InSnapper =>
      assert k in [SnapperConfig, SnapshotsSubvolume, SnapshotsDirectory, MaxSnapshots, IncludeReadWrite];
    case InMenu => assert k in [RootTitle, SnapshotsTitle, RootExpanded, SnapshotsExpanded];
    case InAutomation => assert k in [Enabled, SnapperEvents, PacmanEvents, DebounceSeconds, RuntimeDirectory];
  }

  lemma ShortSectionKey(section: Section, k: Key)
    requires !section.InSystem? && !section.InSnapper? && !section.InMenu? && !section.InAutomation?
    requires k in KeysOf(section)
    ensures IsKeyOf(section, k)
  {
    match section
    case InManager => assert k in [SchemaVersion];
    case InBackups => assert k in [Retain];
    case InKernels => assert k in [Include, Exclude, Order];
    case InTheme => assert k in [ThemeName];
    case InSecureBoot => assert k in [ProtectConfig, AutomaticApply, EfiExecutable];
    case InLimine =>
  }

  lemma SectionKeys(section: Section)
    ensures forall k :: k in KeysOf(section) ==> IsKeyOf(section, k)
  {
    forall k | k in KeysOf(section) ensures IsKeyOf(section, k) {
      if section.InSystem? || section.InSnapper? || section.InMenu? || section.InAutomation? {
        LongSectionKey(section, k);
      } else {
        ShortSectionKey(section, k);
      }
    }
  }

  /** A printed section, whatever was read before it. */
  lemma LoadSection(r: Reading, c: AppConfig, section: Section)
    requires Stored(c)
    ensures (forall k :: k in KeysOf(section) ==> !k.LimineOption?)
    ensures LoadLines(r, SectionLines(c, section)) ==
      Some(Reading(CopyAll(r.config, c, KeysOf(section)), SectionName(section)))
  {
    SectionKeys(section);
    var header, lines := [HeaderText(section)], SettingLines(c, KeysOf(section));
    LoadHeader(r, section);
    LoadSettings(r.(section := SectionName(section)), c, section, KeysOf(section));
    LoadAppend(r, header, lines);
    LoadOneMore(r, header + lines, "");
  }

  /** `d` with whole sections taken from `c`. */
  function CopySections(d: AppConfig, c: AppConfig, sections: seq<Section>): AppConfig {
    if sections == [] then d
    else
      var n := |sections| - 1;
      SectionKeys(sections[n]);
      CopyAll(CopySections(d, c, sections[..n]), c, KeysOf(sections[n]))
  }

  lemma {:induction false} LoadSections(r: Reading, c: AppConfig, sections: seq<Section>)
    requires Stored(c)
    ensures
      var s := if sections == [] then r.section else SectionName(sections[|sections| - 1]);
      LoadLines(r, AllSections(c, sections)) == Some(Reading(CopySections(r.config, c, sections), s))
  {
    if sections != [] {
      var n := |sections| - 1;
      LoadSections(r, c, sections[..n]);
      var front := LoadLines(r, AllSections(c, sections[..n])).value;
      LoadAppend(r, AllSections(c, sections[..n]), SectionLines(c, sections[n]));
      LoadSection(front, c, sections[n]);
    }
  }

  // ---- what the sections amount to ----

  lemma CopyMore(d: AppConfig, c: AppConfig, keys: seq<Key>, key: Key)
    requires forall k :: k in keys ==> !k.LimineOption?
    requires !key.LimineOption?
    ensures CopyAll(d, c, keys + [key]) == Copy(CopyAll(d, c, keys), c, key)
  {
    assert (keys + [key])[..|keys|] == keys;
  }

  lemma CopyOne(d: AppConfig, c: AppConfig, key: Key)
    requires !key.LimineOption?
    ensures CopyAll(d, c, [key]) == Copy(d, c, key)
  {
    CopyMore(d, c, [], key);
    assert [] + [key] == [key];
  }

  lemma CopyThree(d: AppConfig, c: AppConfig, k0: Key, k1: Key, k2: Key)
    requires !k0.LimineOption? && !k1.LimineOption? && !k2.LimineOption?
    ensures CopyAll(d, c, [k0, k1, k2]) == Copy(Copy(Copy(d, c, k0), c, k1), c, k2)
  {
    CopyOne(d, c, k0);
    CopyMore(d, c, [k0], k1);
    assert [k0] + [k1] == [k0, k1];
    CopyMore(d, c, [k0, k1], k2);
    assert [k0, k1] + [k2] == [k0, k1, k2];
  }

  lemma CopyFive(d: AppConfig, c: AppConfig, k0: Key, k1: Key, k2: Key, k3: Key, k4: Key)
    requires !k0.LimineOption? && !k1.LimineOption? && !k2.LimineOption? && !k3.LimineOption? && !k4.LimineOption?
    ensures CopyAll(d, c, [k0, k1, k2, k3]) == Copy(Copy(Copy(Copy(d, c, k0), c, k1), c, k2), c, k3)
    ensures CopyAll(d, c, [k0, k1, k2, k3, k4]) == Copy(CopyAll(d, c, [k0, k1, k2, k3]), c, k4)
  {
    CopyThree(d, c, k0, k1, k2);
    CopyMore(d, c, [k0, k1, k2], k3);
    assert [k0, k1, k2] + [k3] == [k0, k1, k2, k3];
    CopyMore(d, c, [k0, k1, k2, k3], k4);
    assert [k0, k1, k2, k3] + [k4] == [k0, k1, k2, k3, k4];
  }

  /** `d` with everything a section prints taken from `c`: of the fields only `mkinitcpio_config` is
      missing, and the EFI path of the system profile comes with section `secure_boot`. */
  function Taken(d: AppConfig, c: AppConfig, section: Section): AppConfig {
    match section
    case InManager => d.(schemaVersion := c.schemaVersion)
    case InSystem =>
      d.(system := c.system.(mkinitcpioConfig := d.system.mkinitcpioConfig,
                             limineEfiExecutable := d.system.limineEfiExecutable))
    case InSnapper => d.(snapper := c.snapper)
    case InBackups => d.(retention := c.retention)
    case InMenu => d.(menu := c.menu)
    case InKernels => d.(kernels := c.kernels)
    case InTheme => d.(theme := c.theme)
    case InAutomation => d.(automation := c.automation)
    case InSecureBoot =>
      d.(secureBoot := c.secureBoot, system := d.system.(limineEfiExecutable := c.secureBoot.efiExecutable))
    case InLimine => d
  }

  lemma SystemIsCopied(d: AppConfig, c: AppConfig)
    ensures
      Copy(Copy(Copy(Copy(Copy(d, c, BootMount), c, LimineConfig), c, KernelCmdlineFile), c, ModulesRoot), c, Cpuinfo)
      == Taken(d, c, InSystem)
  {
  }

  lemma SystemIsTaken(d: AppConfig, c: AppConfig)
    ensures CopyAll(d, c, [BootMount, LimineConfig, KernelCmdlineFile, ModulesRoot, Cpuinfo]) == Taken(d, c, InSystem)
  {
    CopyFive(d, c, BootMount, LimineConfig, KernelCmdlineFile, ModulesRoot, Cpuinfo);
    SystemIsCopied(d, c);
  }

  lemma SnapperIsCopied(d: AppConfig, c: AppConfig)
    ensures
      Copy(Copy(Copy(Copy(Copy(d, c, SnapperConfig), c, SnapshotsSubvolume), c, SnapshotsDirectory), c, MaxSnapshots),
           c, IncludeReadWrite)
      == Taken(d, c, InSnapper)
  {
  }

  lemma SnapperIsTaken(d: AppConfig, c: AppConfig)
    ensures CopyAll(d, c, [SnapperConfig, SnapshotsSubvolume, SnapshotsDirectory, MaxSnapshots, IncludeReadWrite]) ==
      Taken(d, c, InSnapper)
  {
    CopyFive(d, c, SnapperConfig, SnapshotsSubvolume, SnapshotsDirectory, MaxSnapshots, IncludeReadWrite);
    SnapperIsCopied(d, c);
  }

  lemma MenuIsCopied(d: AppConfig, c: AppConfig)
    ensures Copy(Copy(Copy(Copy(d, c, RootTitle), c, SnapshotsTitle), c, RootExpanded), c, SnapshotsExpanded)
      == Taken(d, c, InMenu)
  {
  }

  lemma MenuIsTaken(d: AppConfig, c: AppConfig)
    ensures CopyAll(d, c, [RootTitle, SnapshotsTitle, RootExpanded, SnapshotsExpanded]) == Taken(d, c, InMenu)
  {
    CopyFive(d, c, RootTitle, SnapshotsTitle, RootExpanded, SnapshotsExpanded, Retain);
    MenuIsCopied(d, c);
  }

  lemma SwitchesAreTaken(d: AppConfig, c: AppConfig)
    ensures Copy(Copy(Copy(d, c, Enabled), c, SnapperEvents), c, PacmanEvents) ==
      d.(automation := c.automation.(debounceSeconds := d.automation.debounceSeconds,
                                     runtimeDirectory := d.automation.runtimeDirectory))
  {
  }

  lemma TimesAreTaken(d: AppConfig, c: AppConfig)
    ensures Copy(Copy(d, c, DebounceSeconds), c, RuntimeDirectory) ==
      d.(automation := d.automation.(debounceSeconds := c.automation.debounceSeconds,
                                     runtimeDirectory := c.automation.runtimeDirectory))
  {
  }

  lemma AutomationIsCopied(d: AppConfig, c: AppConfig)
    ensures
      Copy(Copy(Copy(Copy(Copy(d, c, Enabled), c, SnapperEvents), c, PacmanEvents), c, DebounceSeconds), c,
           RuntimeDirectory)
      == Taken(d, c, InAutomation)
  {
    SwitchesAreTaken(d, c);
    TimesAreTaken(Copy(Copy(Copy(d, c, Enabled), c, SnapperEvents), c, PacmanEvents), c);
  }

  lemma AutomationIsTaken(d: AppConfig, c: AppConfig)
    ensures CopyAll(d, c, [Enabled, SnapperEvents, PacmanEvents, DebounceSeconds, RuntimeDirectory]) ==
      Taken(d, c, InAutomation)
  {
    CopyFive(d, c, Enabled, SnapperEvents, PacmanEvents, DebounceSeconds, RuntimeDirectory);
    AutomationIsCopied(d, c);
  }

  lemma SecureBootIsCopied(d: AppConfig, c: AppConfig)
    ensures Copy(Copy(Copy(d, c, ProtectConfig), c, AutomaticApply), c, EfiExecutable)
      == Taken(d, c, InSecureBoot)
  {
  }

  lemma SecureBootIsTaken(d: AppConfig, c: AppConfig)
    ensures CopyAll(d, c, [ProtectConfig, AutomaticApply, EfiExecutable]) == Taken(d, c, InSecureBoot)
  {
    CopyThree(d, c, ProtectConfig, AutomaticApply, EfiExecutable);
    SecureBootIsCopied(d, c);
  }

  lemma KernelsAreCopied(d: AppConfig, c: AppConfig)
    ensures Copy(Copy(Copy(d, c, Include), c, Exclude), c, Order)
      == Taken(d, c, InKernels)
  {
  }

  lemma KernelsAreTaken(d: AppConfig, c: AppConfig)
    ensures CopyAll(d, c, [Include, Exclude, Order]) == Taken(d, c, InKernels)
  {
    CopyThree(d, c, Include, Exclude, Order);
    KernelsAreCopied(d, c);
  }

  lemma ShortSectionIsTaken(d: AppConfig, c: AppConfig, section: Section)
    requires section.InManager? || section.InBackups? || section.InTheme? || section.InLimine?
    ensures forall k :: k in KeysOf(section) ==> !k.LimineOption?
    ensures CopyAll(d, c, KeysOf(section)) == Taken(d, c, section)
  {
    SectionKeys(section);
    match section
    case InManager => CopyOne(d, c, SchemaVersion);
    case InBackups => CopyOne(d, c, Retain);
    case InTheme => CopyOne(d, c, ThemeName);
    case InLimine =>
  }

  lemma SectionIsTaken(d: AppConfig, c: AppConfig, section: Section)
    ensures forall k :: k in KeysOf(section) ==> !k.LimineOption?
    ensures CopyAll(d, c, KeysOf(section)) == Taken(d, c, section)
  {
    SectionKeys(section);
    if section.InSystem? { SystemIsTaken(d, c); }
    else if section.InSnapper? { SnapperIsTaken(d, c); }
    else if section.InMenu? { MenuIsTaken(d, c); }
    else if section.InAutomation? { AutomationIsTaken(d, c); }
    else if section.InSecureBoot? { SecureBootIsTaken(d, c); }
    else if section.InKernels? { KernelsAreTaken(d, c); }
    else { ShortSectionIsTaken(d, c, section); }
  }

  /** `d` with the first `n` sections taken from `c`, field by field. */
  function TakenSections(d: AppConfig, c: AppConfig, n: nat): AppConfig {
    AppConfig(
      if n > 0 then c.schemaVersion else d.schemaVersion,
      (if n > 1 then c.system else d.system).(
        mkinitcpioConfig := d.system.mkinitcpioConfig,
        limineEfiExecutable := if n > 8 then c.secureBoot.efiExecutable else d.system.limineEfiExecutable),
      if n > 2 then c.snapper else d.snapper,
      if n > 3 then c.retention else d.retention,
      if n > 4 then c.menu else d.menu,
      if n > 5 then c.kernels else d.kernels,
      if n > 6 then c.theme else d.theme,
      if n > 7 then c.automation else d.automation,
      if n > 8 then c.secureBoot else d.secureBoot,
      d.limine)
  }

  lemma TakenStep(d: AppConfig, c: AppConfig, n: nat)
    requires n < |SECTIONS|
    ensures TakenSections(d, c, n + 1) == Taken(TakenSections(d, c, n), c, SECTIONS[n])
  {
  }

  lemma {:induction false} SectionsAreTaken(d: AppConfig, c: AppConfig, n: nat)
    requires n <= |SECTIONS|
    ensures CopySections(d, c, SECTIONS[..n]) == TakenSections(d, c, n)
  {
    if n > 0 {
      SectionsAreTaken(d, c, n - 1);
      assert SECTIONS[..n][..n - 1] == SECTIONS[..n - 1];
      SectionIsTaken(CopySections(d, c, SECTIONS[..n - 1]), c, SECTIONS[n - 1]);
      TakenStep(d, c, n - 1);
    }
  }

  /** `c` with the default `mkinitcpio_config`, and the given options. */
  function Printed(c: AppConfig, limine: map<string, string>): AppConfig {
    c.(limine := limine, system := c.system.(mkinitcpioConfig := DEFAULT.system.mkinitcpioConfig))
  }

  lemma AllSectionsTaken(c: AppConfig)
    requires c.system.limineEfiExecutable == c.secureBoot.efiExecutable
    ensures CopySections(DEFAULT, c, SECTIONS) == Printed(c, DEFAULT.limine)
  {
    SectionsAreTaken(DEFAULT, c, 9);
    assert SECTIONS[..9] == SECTIONS;
  }

  // ---- options ----

  /** Copying options leaves everything else alone and makes exactly the named options those of `c`. */
  lemma {:induction false} OptionsAreCopied(d: AppConfig, c: AppConfig, names: seq<string>)
    requires forall name :: name in names ==> name in c.limine
    ensures
      var e := CopyAll(d, c, OptionKeys(names));
      && e == d.(limine := e.limine)
      && (forall name :: name in e.limine <==> name in d.limine || name in names)
      && (forall name :: name in e.limine ==>
            e.limine[name] == if name in names then c.limine[name] else d.limine[name])
  {
    if names == [] {
      assert OptionKeys(names) == [];
    } else {
      var n := |names| - 1;
      var keys := OptionKeys(names);
      assert keys[..n] == OptionKeys(names[..n]) && keys[n] == LimineOption(names[n]);
      assert names == names[..n] + [names[n]];
      assert forall name :: name in names[..n] ==> name in names;
      OptionsAreCopied(d, c, names[..n]);
    }
  }

  // ---- the whole file ----

  lemma CommentLine(r: Reading, line: string)
    requires line != [] && line[0] == '#'
    ensures LoadLines(r, [line]) == Some(r)
  {
    FirstCharStays(line);
    assert [line][..0] == [];
  }

  lemma LoadComments(r: Reading, source: string)
    ensures LoadLines(r, ["# Effective limine-manager configuration"] + ["# Source: " + source] + [""]) == Some(r)
  {
    var first, second := "# Effective limine-manager configuration", "# Source: " + source;
    CommentLine(r, first);
    CommentLine(r, second);
    LoadAppend(r, [first], [second]);
    assert [""][..0] == [] && LoadLines(r, [""]) == Some(r);
    LoadAppend(r, [first] + [second], [""]);
  }

  /** No default option can be removed by a configuration file, so none survives that is not printed. */
  lemma AllOptionsAreCopied(d: AppConfig, c: AppConfig, names: seq<string>)
    requires StoredOptions(c.limine) && Enumerates(names, c.limine) && d.limine == DEFAULT.limine
    ensures CopyAll(d, c, OptionKeys(names)) == d.(limine := c.limine)
  {
    OptionsAreCopied(d, c, names);
    var e := CopyAll(d, c, OptionKeys(names));
    assert e.limine == c.limine;
  }

  lemma LoadOptions(r: Reading, c: AppConfig, names: seq<string>)
    requires Stored(c) && Enumerates(names, c.limine) && r.section == SectionName(InLimine)
    requires r.config == Printed(c, DEFAULT.limine)
    ensures LoadLines(r, SettingLines(c, OptionKeys(names))) == Some(r.(config := Printed(c, c.limine)))
  {
    LoadSettings(r, c, InLimine, OptionKeys(names));
    AllOptionsAreCopied(r.config, c, names);
  }

  /** The printed lines, loaded over the defaults, give back what was printed. */
  lemma LinesAreLoaded(c: AppConfig, source: string, names: seq<string>)
    requires Stored(c) && Enumerates(names, c.limine)
    ensures LoadLines(Reading(DEFAULT, []), RenderedLines(c, source, names))
      == Some(Reading(Printed(c, c.limine), SectionName(InLimine)))
  {
    var r := Reading(DEFAULT, []);
    var comments := ["# Effective limine-manager configuration"] + ["# Source: " + source] + [""];
    LoadComments(r, source);
    LoadAppend(r, comments, AllSections(c, SECTIONS));
    LoadSections(r, c, SECTIONS);
    AllSectionsTaken(c);
    var s := LoadLines(r, AllSections(c, SECTIONS)).value;
    LoadAppend(r, comments + AllSections(c, SECTIONS), [HeaderText(InLimine)]);
    LoadHeader(s, InLimine);
    LoadAppend(r, FixedLines(c, source), SettingLines(c, OptionKeys(names)));
    LoadOptions(s.(section := SectionName(InLimine)), c, names);
  }

  // ---- line by line ----

  predicate OneLineEach(lines: seq<string>) { forall line :: line in lines ==> '\n' !in line }

  lemma PairIsLine(key: string, value: string)
    requires GoodPair(key, value)
    ensures '\n' !in KeyLine(key, value)
  {
  }

  lemma SettingIsLine(c: AppConfig, key: Key)
    requires Stored(c) && !key.MkinitcpioConfig? && (key.LimineOption? ==> key.name in c.limine)
    ensures '\n' !in SettingLine(c, key)
  {
    SettingIsCopied(c, c, key);
    PairIsLine(Name(key), ValueOf(c, key));
  }

  lemma {:induction false} SettingsAreLines(c: AppConfig, keys: seq<Key>)
    requires Stored(c)
    requires forall k :: k in keys ==> !k.MkinitcpioConfig? && (k.LimineOption? ==> k.name in c.limine)
    ensures OneLineEach(SettingLines(c, keys))
  {
    if keys != [] {
      var n := |keys| - 1;
      assert keys[n] in keys && forall k :: k in keys[..n] ==> k in keys;
      SettingsAreLines(c, keys[..n]);
      SettingIsLine(c, keys[n]);
    }
  }

  lemma HeaderIsLine(section: Section)
    ensures '\n' !in HeaderText(section)
  {
    SectionNameIsRead(section);
  }

  lemma {:induction false} SectionsAreLines(c: AppConfig, sections: seq<Section>)
    requires Stored(c)
    ensures OneLineEach(AllSections(c, sections))
  {
    if sections != [] {
      var n := |sections| - 1;
      SectionsAreLines(c, sections[..n]);
      SectionKeys(sections[n]);
      SettingsAreLines(c, KeysOf(sections[n]));
      HeaderIsLine(sections[n]);
    }
  }

  lemma CommentsAreLines(source: string)
    requires '\n' !in source
    ensures OneLineEach(["# Effective limine-manager configuration"] + ["# Source: " + source] + [""])
  {
  }

  lemma RenderedAreLines(c: AppConfig, source: string, names: seq<string>)
    requires Stored(c) && Enumerates(names, c.limine) && '\n' !in source
    ensures OneLineEach(RenderedLines(c, source, names))
  {
    SectionsAreLines(c, SECTIONS);
    HeaderIsLine(InLimine);
    SettingsAreLines(c, OptionKeys(names));
    CommentsAreLines(source);
  }

  /** Whatever text the loader accepts, printing the configuration it gave and loading the print gives
      the same configuration, except that `mkinitcpio_config` falls back to its default. */
  lemma RoundTrip(text: string, source: string, names: seq<string>)
    requires Loaded(text).Some? && '\n' !in source
    requires Enumerates(names, Loaded(text).value.limine)
    ensures
      var c := Loaded(text).value;
      Loaded(Join(RenderedLines(c, source, names)))
        == Some(c.(system := c.system.(mkinitcpioConfig := DEFAULT.system.mkinitcpioConfig)))
  {
    var c := Loaded(text).value;
    LinesHaveNoLineEnd(text);
    LoadStores(Lines(text));
    RenderedAreLines(c, source, names);
    LinesOfJoin(RenderedLines(c, source, names));
    LinesAreLoaded(c, source, names);
  }

  /** A file that sets only `mkinitcpio_config`. */
  function MkinitcpioFile(value: string): string {
    Join([HeaderText(InSystem)] + [KeyLine(Name(MkinitcpioConfig), value)])
  }

  lemma MkinitcpioLine(r: Reading, value: string)
    requires GoodValue(value) && r.section == SectionName(InSystem)
    ensures
      LoadLine(r, KeyLine(Name(MkinitcpioConfig), value)) ==
        Some(r.(config := r.config.(system := r.config.system.(mkinitcpioConfig := value))))
    ensures GoodPair(Name(MkinitcpioConfig), value)
  {
    SectionNameIsRead(InSystem);
    NamesAreRead(MkinitcpioConfig);
    PairLine(Name(MkinitcpioConfig), value);
    LoadPair(r, KeyLine(Name(MkinitcpioConfig), value), Name(MkinitcpioConfig), value, MkinitcpioConfig,
             r.config.(system := r.config.system.(mkinitcpioConfig := value)));
  }

  lemma MkinitcpioIsLoaded(value: string)
    requires GoodValue(value)
    ensures Loaded(MkinitcpioFile(value)) == Some(DEFAULT.(system := DEFAULT.system.(mkinitcpioConfig := value)))
  {
    var start, line := Reading(DEFAULT, []), KeyLine(Name(MkinitcpioConfig), value);
    HeaderIsLine(InSystem);
    LoadHeader(start, InSystem);
    LoadOneMore(start, [HeaderText(InSystem)], line);
    MkinitcpioLine(start.(section := SectionName(InSystem)), value);
    PairIsLine(Name(MkinitcpioConfig), value);
    LinesOfJoin([HeaderText(InSystem)] + [line]);
    DefaultIsAccepted();
  }

  /** Its print is loaded back exactly when it sets the default. */
  lemma MkinitcpioIsLost(value: string, source: string, names: seq<string>)
    requires GoodValue(value) && '\n' !in source && Enumerates(names, DEFAULT.limine)
    ensures
      var loaded := Loaded(MkinitcpioFile(value));
      && loaded == Some(DEFAULT.(system := DEFAULT.system.(mkinitcpioConfig := value)))
      && (Loaded(Join(RenderedLines(loaded.value, source, names))) == loaded <==>
            value == DEFAULT.system.mkinitcpioConfig)
  {
    MkinitcpioIsLoaded(value);
    RoundTrip(MkinitcpioFile(value), source, names);
  }

  /** Printing and loading once more changes nothing at all. */
  lemma SecondRoundTrip(text: string, source: string, names: seq<string>)
    requires Loaded(text).Some? && '\n' !in source
    requires Enumerates(names, Loaded(text).value.limine)
    ensures
      var printed := Join(RenderedLines(Loaded(text).value, source, names));
      && Loaded(printed).Some? && Enumerates(names, Loaded(printed).value.limine)
      && Loaded(Join(RenderedLines(Loaded(printed).value, source, names))) == Loaded(printed)
  {
    RoundTrip(text, source, names);
    RoundTrip(Join(RenderedLines(Loaded(text).value, source, names)), source, names);
  }
}
