/** `config_loader.cpp`: the configuration file, read by `load` and printed by `render`. */
module ConfigLoader {
  import opened Wrappers
  import opened Text
  import KernelCommandLine

  const SIZE_MAX: nat := 0xFFFF_FFFF_FFFF_FFFF

  // ---- the configuration, one record per section ----

  datatype System = System(bootMount: string, limineConfig: string, kernelCmdlineFile: string, modulesRoot: string,
                           cpuinfo: string, mkinitcpioConfig: string, limineEfiExecutable: string)
  datatype Snapper = Snapper(config: string, subvolume: string, directory: string, maxSnapshots: nat,
                             includeReadWrite: bool)
  datatype Menu = Menu(rootTitle: string, snapshotsTitle: string, rootExpanded: bool, snapshotsExpanded: bool)
  datatype Kernels = Kernels(included: seq<string>, excluded: seq<string>, order: seq<string>)
  datatype Automation = Automation(enabled: bool, snapper: bool, pacman: bool, debounceSeconds: nat,
                                   runtimeDirectory: string)
  datatype SecureBoot = SecureBoot(protectConfig: bool, automaticApply: bool, efiExecutable: string)

  datatype AppConfig = AppConfig(
    schemaVersion: nat,
    system: System,
    snapper: Snapper,
    retention: nat,
    menu: Menu,
    kernels: Kernels,
    theme: string,
    automation: Automation,
    secureBoot: SecureBoot,
    limine: map<string, string>)

  const DEFAULT := AppConfig(
    1,
    System("/boot", "/boot/limine.conf", "/etc/kernel/cmdline", "/usr/lib/modules", "/proc/cpuinfo",
           "/etc/mkinitcpio.conf", ""),
    Snapper("root", "@snapshots", "/.snapshots", 0, false),
    5,
    Menu("Arch Linux", "Snapshots", true, false),
    Kernels([], [], []),
    "none",
    Automation(true, true, true, 3, "/run/limine-manager"),
    SecureBoot(true, false, ""),
    map["remember_last_entry" := "yes", "timeout" := "5"])

  // ---- values ----

  predicate Blank(c: char) { c in " \t\r\n" }

  function TrimLeft(s: string): string {
    if s != [] && Blank(s[0]) then TrimLeft(s[1..]) else s
  }

  function TrimRight(s: string): string {
    if s != [] && Blank(s[|s| - 1]) then TrimRight(s[..|s| - 1]) else s
  }

  function Trim(s: string): string { TrimRight(TrimLeft(s)) }

  predicate Trimmed(s: string) {
    s != [] ==> !Blank(s[0]) && !Blank(s[|s| - 1])
  }

  function ParseBool(value: string): Option<bool> {
    var v := Lower(Trim(value));
    if v == "true" || v == "yes" || v == "1" then Some(true)
    else if v == "false" || v == "no" || v == "0" then Some(false)
    else None
  }

  function SkipSpace(s: string): string {
    if s != [] && KernelCommandLine.IsSpace(s[0]) then SkipSpace(s[1..]) else s
  }

  /** `std::stoull` on the whole trimmed value: leading white space, a sign, digits; a minus sign
      wraps around. */
  function ParseSize(value: string): Option<nat> {
    var s := SkipSpace(Trim(value));
    var negative := s != [] && s[0] == '-';
    var digits := if s != [] && (s[0] == '-' || s[0] == '+') then s[1..] else s;
    if digits == [] || !AllDigits(digits) || NumberOf(digits) > SIZE_MAX then None
    else if negative && NumberOf(digits) > 0 then Some(SIZE_MAX + 1 - NumberOf(digits))
    else Some(NumberOf(digits))
  }

  /** A trimmed item, unless it is empty. */
  function Item(text: string): seq<string> {
    var item := Trim(text);
    if item == [] then [] else [item]
  }

  /** The items between commas, trimmed, without the empty ones. */
  function ListOf(value: string): seq<string>
    decreases |value|
  {
    var end := Find(',', value);
    if end == |value| then Item(value[..end]) else Item(value[..end]) + ListOf(value[end + 1..])
  }

  lemma {:induction false} FirstOfList(rest: string)
    ensures
      var end := Find(',', rest);
      ListOf(rest) == if end == |rest| then Item(rest[..end]) else Item(rest[..end]) + ListOf(rest[end + 1..])
  {
  }

  /** `parse_list`; `rest` is the text from `begin` on. */
  method ParseList(value: string) returns (result: seq<string>)
    ensures result == ListOf(value)
  {
    result := [];
    var rest := value;
    while true
      invariant result + ListOf(rest) == ListOf(value)
      decreases |rest|
    {
      var end := Find(',', rest);
      var item := Item(rest[..end]);
      FirstOfList(rest);
      if end == |rest| { return result + item; }
      Associate(result, item, ListOf(rest[end + 1..]));
      result := result + item;
      rest := rest[end + 1..];
    }
  }

  function Joined(items: seq<string>): string {
    if items == [] then []
    else if |items| == 1 then items[0]
    else items[0] + ", " + Joined(items[1..])
  }

  lemma JoinedAppend(items: seq<string>, item: string)
    ensures Joined(items + [item]) == (if items == [] then item else Joined(items) + ", " + item)
  {
    if |items| > 1 {
      assert (items + [item])[1..] == items[1..] + [item];
      JoinedAppend(items[1..], item);
      Associate(items[0] + ", ", Joined(items[1..]), ", " + item);
      Associate(items[0] + ", " + Joined(items[1..]), ", ", item);
      Associate(Joined(items[1..]), ", ", item);
    } else if |items| == 1 {
      assert (items + [item])[1..] == [item];
    }
  }

  /** `join`. */
  method JoinList(items: seq<string>) returns (out: string)
    ensures out == Joined(items)
  {
    out := [];
    for i := 0 to |items|
      invariant out == Joined(items[..i])
    {
      JoinedAppend(items[..i], items[i]);
      assert items[..i + 1] == items[..i] + [items[i]];
      if i > 0 { out := out + ", "; }
      out := out + items[i];
    }
    assert items[..|items|] == items;
  }

  // ---- assignment ----

  /** The keys of all sections; any key is an option in section `limine`. */
  datatype Key =
    | SchemaVersion
    | BootMount | LimineConfig | KernelCmdlineFile | ModulesRoot | Cpuinfo | MkinitcpioConfig
    | SnapperConfig | SnapshotsSubvolume | SnapshotsDirectory | MaxSnapshots | IncludeReadWrite
    | Retain
    | RootTitle | SnapshotsTitle | RootExpanded | SnapshotsExpanded
    | Include | Exclude | Order
    | ThemeName
    | Enabled | SnapperEvents | PacmanEvents | DebounceSeconds | RuntimeDirectory
    | ProtectConfig | AutomaticApply | EfiExecutable
    | LimineOption(name: string)

  function SystemKey(key: string): Option<Key> {
    if key == "boot_mount" then Some(BootMount)
    else if key == "limine_config" then Some(LimineConfig)
    else if key == "kernel_cmdline_file" then Some(KernelCmdlineFile)
    else if key == "modules_root" then Some(ModulesRoot)
    else if key == "cpuinfo" then Some(Cpuinfo)
    else if key == "mkinitcpio_config" then Some(MkinitcpioConfig)
    else None
  }

  function SnapperKey(key: string): Option<Key> {
    if key == "config" then Some(SnapperConfig)
    else if key == "snapshots_subvolume" then Some(SnapshotsSubvolume)
    else if key == "snapshots_directory" then Some(SnapshotsDirectory)
    else if key == "max_snapshots" then Some(MaxSnapshots)
    else if key == "include_read_write" then Some(IncludeReadWrite)
    else None
  }

  function MenuKey(key: string): Option<Key> {
    if key == "root_title" then Some(RootTitle)
    else if key == "snapshots_title" then Some(SnapshotsTitle)
    else if key == "root_expanded" then Some(RootExpanded)
    else if key == "snapshots_expanded" then Some(SnapshotsExpanded)
    else None
  }

  function KernelKey(key: string): Option<Key> {
    if key == "include" then Some(Include)
    else if key == "exclude" then Some(Exclude)
    else if key == "order" then Some(Order)
    else None
  }

  function AutomationKey(key: string): Option<Key> {
    if key == "enabled" then Some(Enabled)
    else if key == "snapper" then Some(SnapperEvents)
    else if key == "pacman" then Some(PacmanEvents)
    else if key == "debounce_seconds" then Some(DebounceSeconds)
    else if key == "runtime_directory" then Some(RuntimeDirectory)
    else None
  }

  function SecureBootKey(key: string): Option<Key> {
    if key == "protect_config" then Some(ProtectConfig)
    else if key == "automatic_apply" then Some(AutomaticApply)
    else if key == "efi_executable" then Some(EfiExecutable)
    else None
  }

  /** Which setting a line of a section names; unknown sections and keys are errors. */
  function KeyOf(section: string, key: string): Option<Key> {
    if section == "manager" then (if key == "schema_version" then Some(SchemaVersion) else None)
    else if section == "system" then SystemKey(key)
    else if section == "snapper" then SnapperKey(key)
    else if section == "backups" then (if key == "retain" then Some(Retain) else None)
    else if section == "menu" then MenuKey(key)
    else if section == "kernels" then KernelKey(key)
    else if section == "theme" then (if key == "name" then Some(ThemeName) else None)
    else if section == "automation" then AutomationKey(key)
    else if section == "secure_boot" then SecureBootKey(key)
    else if section == "limine" then Some(LimineOption(key))
    else None
  }

  /** The new value of a setting; malformed numbers and booleans are errors. The EFI path is
      copied into the system profile. */
  function AssignKey(c: AppConfig, key: Key, value: string): Option<AppConfig> {
    match key
    case SchemaVersion => (match ParseSize(value) case None => None case Some(n) => Some(c.(schemaVersion := n)))
    case BootMount => Some(c.(system := c.system.(bootMount := value)))
    case LimineConfig => Some(c.(system := c.system.(limineConfig := value)))
    case KernelCmdlineFile => Some(c.(system := c.system.(kernelCmdlineFile := value)))
    case ModulesRoot => Some(c.(system := c.system.(modulesRoot := value)))
    case Cpuinfo => Some(c.(system := c.system.(cpuinfo := value)))
    case MkinitcpioConfig => Some(c.(system := c.system.(mkinitcpioConfig := value)))
    case SnapperConfig => Some(c.(snapper := c.snapper.(config := value)))
    case SnapshotsSubvolume => Some(c.(snapper := c.snapper.(subvolume := value)))
    case SnapshotsDirectory => Some(c.(snapper := c.snapper.(directory := value)))
    case MaxSnapshots =>
      (match ParseSize(value) case None => None
       case Some(n) => Some(c.(snapper := c.snapper.(maxSnapshots := n))))
    case IncludeReadWrite =>
      (match ParseBool(value) case None => None
       case Some(b) => Some(c.(snapper := c.snapper.(includeReadWrite := b))))
    case Retain => (match ParseSize(value) case None => None case Some(n) => Some(c.(retention := n)))
    case RootTitle => Some(c.(menu := c.menu.(rootTitle := value)))
    case SnapshotsTitle => Some(c.(menu := c.menu.(snapshotsTitle := value)))
    case RootExpanded =>
      (match ParseBool(value) case None => None
       case Some(b) => Some(c.(menu := c.menu.(rootExpanded := b))))
    case SnapshotsExpanded =>
      (match ParseBool(value) case None => None
       case Some(b) => Some(c.(menu := c.menu.(snapshotsExpanded := b))))
    case Include => Some(c.(kernels := c.kernels.(included := ListOf(value))))
    case Exclude => Some(c.(kernels := c.kernels.(excluded := ListOf(value))))
    case Order => Some(c.(kernels := c.kernels.(order := ListOf(value))))
    case ThemeName => Some(c.(theme := Lower(value)))
    case Enabled =>
      (match ParseBool(value) case None => None
       case Some(b) => Some(c.(automation := c.automation.(enabled := b))))
    case SnapperEvents =>
      (match ParseBool(value) case None => None
       case Some(b) => Some(c.(automation := c.automation.(snapper := b))))
    case PacmanEvents =>
      (match ParseBool(value) case None => None
       case Some(b) => Some(c.(automation := c.automation.(pacman := b))))
    case DebounceSeconds =>
      (match ParseSize(value) case None => None
       case Some(n) => Some(c.(automation := c.automation.(debounceSeconds := n))))
    case RuntimeDirectory => Some(c.(automation := c.automation.(runtimeDirectory := value)))
    case ProtectConfig =>
      (match ParseBool(value) case None => None
       case Some(b) => Some(c.(secureBoot := c.secureBoot.(protectConfig := b))))
    case AutomaticApply =>
      (match ParseBool(value) case None => None
       case Some(b) => Some(c.(secureBoot := c.secureBoot.(automaticApply := b))))
    case EfiExecutable =>
      var path := if value == "auto" then "" else value;
      Some(c.(secureBoot := c.secureBoot.(efiExecutable := path), system := c.system.(limineEfiExecutable := path)))
    case LimineOption(name) => Some(c.(limine := c.limine[name := value]))
  }

  /** `assign`. */
  function Assign(c: AppConfig, section: string, key: string, value: string): Option<AppConfig> {
    match KeyOf(section, key)
    case None => None
    case Some(k) => AssignKey(c, k, value)
  }

  // ---- loading ----

  /** What one line of the file is. */
  datatype Line = Skipped | Header(section: string) | Pair(key: string, value: string) | Malformed

  function ParseLine(line: string): Line {
    var text := Trim(line);
    if text == [] || text[0] == '#' || text[0] == ';' then Skipped
    else if text[0] == '[' && text[|text| - 1] == ']' then
      var section := Lower(Trim(text[1..|text| - 1]));
      if section == [] then Malformed else Header(section)
    else
      var equal := Find('=', text);
      if equal == |text| then Malformed
      else
        var key := Lower(Trim(text[..equal]));
        if key == [] then Malformed else Pair(key, Trim(text[equal + 1..]))
  }

  datatype Reading = Reading(config: AppConfig, section: string)

  function LoadLine(r: Reading, line: string): Option<Reading> {
    match ParseLine(line)
    case Skipped => Some(r)
    case Malformed => None
    case Header(section) => Some(r.(section := section))
    case Pair(key, value) =>
      if r.section == [] then None
      else match Assign(r.config, r.section, key, value)
           case None => None
           case Some(c) => Some(r.(config := c))
  }

  function LoadLines(r: Reading, lines: seq<string>): Option<Reading> {
    if lines == [] then Some(r)
    else
      var n := |lines| - 1;
      match LoadLines(r, lines[..n])
      case None => None
      case Some(next) => LoadLine(next, lines[n])
  }

  const THEMES := {"none", "tokyo-night", "catppuccin", "nord", "dracula", "gruvbox"}

  function NormalizedTheme(s: string): string {
    seq(|s|, i requires 0 <= i < |s| => if s[i] == '_' then '-' else LowerChar(s[i]))
  }

  /** `validate_config`. */
  predicate Accepted(c: AppConfig) {
    && c.schemaVersion == 1
    && c.system.bootMount != [] && c.system.limineConfig != []
    && c.snapper.config != [] && c.snapper.subvolume != [] && c.snapper.directory != []
    && c.menu.rootTitle != [] && c.menu.snapshotsTitle != []
    && NormalizedTheme(c.theme) in THEMES
    && c.automation.debounceSeconds <= 3600 && c.automation.runtimeDirectory != []
    && (forall item :: item in c.kernels.included ==> item !in c.kernels.excluded)
  }

  lemma DefaultIsAccepted()
    ensures Accepted(DEFAULT)
  {
    assert NormalizedTheme("none") == "none";
  }

  /** The configuration of a readable file. */
  function Loaded(text: string): Option<AppConfig> {
    match LoadLines(Reading(DEFAULT, []), Lines(text))
    case None => None
    case Some(r) => if Accepted(r.config) then Some(r.config) else None
  }

  datatype ConfigFile = Missing | Unreadable | Readable(text: string)

  lemma {:induction false} FailurePropagates(r: Reading, lines: seq<string>, i: nat)
    requires i <= |lines| && LoadLines(r, lines[..i]) == None
    ensures LoadLines(r, lines) == None
    decreases |lines| - i
  {
    if i == |lines| {
      assert lines[..i] == lines;
    } else {
      assert lines[..i + 1][..i] == lines[..i];
      FailurePropagates(r, lines, i + 1);
    }
  }

  /** The loop over the lines. */
  method LoadAll(lines: seq<string>) returns (all: Option<Reading>)
    ensures all == LoadLines(Reading(DEFAULT, []), lines)
  {
    var reading := Reading(DEFAULT, []);
    for i := 0 to |lines|
      invariant LoadLines(Reading(DEFAULT, []), lines[..i]) == Some(reading)
    {
      assert lines[..i + 1][..i] == lines[..i];
      var next := LoadLine(reading, lines[i]);
      if next.None? {
        FailurePropagates(Reading(DEFAULT, []), lines, i + 1);
        return None;
      }
      reading := next.value;
    }
    assert lines[..|lines|] == lines;
    all := Some(reading);
  }

  /** `load`: a missing file is an error only when it was asked for explicitly. */
  method Load(file: ConfigFile, explicitPath: bool) returns (loaded: Option<AppConfig>)
    ensures file.Readable? ==> loaded == Loaded(file.text)
    ensures file.Unreadable? ==> loaded == None
    ensures file.Missing? ==> loaded == if explicitPath || !Accepted(DEFAULT) then None else Some(DEFAULT)
  {
    match file
    case Missing => return if explicitPath || !Accepted(DEFAULT) then None else Some(DEFAULT);
    case Unreadable => return None;
    case Readable(text) =>
      var all := LoadAll(Lines(text));
      loaded := if all.Some? && Accepted(all.value.config) then Some(all.value.config) else None;
  }

  // ---- rendering ----

  function Flag(b: bool): string { if b then "true" else "false" }

  function KeyLine(key: string, value: string): string { key + " = " + value }

  /** The name a setting is printed under. */
  function Name(key: Key): string {
    match key
    case SchemaVersion => "schema_version"
    case BootMount => "boot_mount"
    case LimineConfig => "limine_config"
    case KernelCmdlineFile => "kernel_cmdline_file"
    case ModulesRoot => "modules_root"
    case Cpuinfo => "cpuinfo"
    case MkinitcpioConfig => "mkinitcpio_config"
    case SnapperConfig => "config"
    case SnapshotsSubvolume => "snapshots_subvolume"
    case SnapshotsDirectory => "snapshots_directory"
    case MaxSnapshots => "max_snapshots"
    case IncludeReadWrite => "include_read_write"
    case Retain => "retain"
    case RootTitle => "root_title"
    case SnapshotsTitle => "snapshots_title"
    case RootExpanded => "root_expanded"
    case SnapshotsExpanded => "snapshots_expanded"
    case Include => "include"
    case Exclude => "exclude"
    case Order => "order"
    case ThemeName => "name"
    case Enabled => "enabled"
    case SnapperEvents => "snapper"
    case PacmanEvents => "pacman"
    case DebounceSeconds => "debounce_seconds"
    case RuntimeDirectory => "runtime_directory"
    case ProtectConfig => "protect_config"
    case AutomaticApply => "automatic_apply"
    case EfiExecutable => "efi_executable"
    case LimineOption(name) => name
  }

  datatype Section =
    | InManager | InSystem | InSnapper | InBackups | InMenu | InKernels | InTheme | InAutomation | InSecureBoot
    | InLimine

  function SectionName(section: Section): string {
    match section
    case InManager => "manager"
    case InSystem => "system"
    case InSnapper => "snapper"
    case InBackups => "backups"
    case InMenu => "menu"
    case InKernels => "kernels"
    case InTheme => "theme"
    case InAutomation => "automation"
    case InSecureBoot => "secure_boot"
    case InLimine => "limine"
  }

  /** The printed value of a setting. */
  function ValueOf(c: AppConfig, key: Key): string
    requires key.LimineOption? ==> key.name in c.limine
  {
    match key
    case SchemaVersion => Decimal(c.schemaVersion)
    case BootMount => c.system.bootMount
    case LimineConfig => c.system.limineConfig
    case KernelCmdlineFile => c.system.kernelCmdlineFile
    case ModulesRoot => c.system.modulesRoot
    case Cpuinfo => c.system.cpuinfo
    case MkinitcpioConfig => c.system.mkinitcpioConfig
    case SnapperConfig => c.snapper.config
    case SnapshotsSubvolume => c.snapper.subvolume
    case SnapshotsDirectory => c.snapper.directory
    case MaxSnapshots => Decimal(c.snapper.maxSnapshots)
    case IncludeReadWrite => Flag(c.snapper.includeReadWrite)
    case Retain => Decimal(c.retention)
    case RootTitle => c.menu.rootTitle
    case SnapshotsTitle => c.menu.snapshotsTitle
    case RootExpanded => Flag(c.menu.rootExpanded)
    case SnapshotsExpanded => Flag(c.menu.snapshotsExpanded)
    case Include => Joined(c.kernels.included)
    case Exclude => Joined(c.kernels.excluded)
    case Order => Joined(c.kernels.order)
    case ThemeName => c.theme
    case Enabled => Flag(c.automation.enabled)
    case SnapperEvents => Flag(c.automation.snapper)
    case PacmanEvents => Flag(c.automation.pacman)
    case DebounceSeconds => Decimal(c.automation.debounceSeconds)
    case RuntimeDirectory => c.automation.runtimeDirectory
    case ProtectConfig => Flag(c.secureBoot.protectConfig)
    case AutomaticApply => Flag(c.secureBoot.automaticApply)
    case EfiExecutable => if c.secureBoot.efiExecutable == [] then "auto" else c.secureBoot.efiExecutable
    case LimineOption(name) => c.limine[name]
  }

  function SettingLine(c: AppConfig, key: Key): string
    requires key.LimineOption? ==> key.name in c.limine
  {
    KeyLine(Name(key), ValueOf(c, key))
  }

  function SettingLines(c: AppConfig, keys: seq<Key>): seq<string>
    requires forall k :: k in keys && k.LimineOption? ==> k.name in c.limine
  {
    if keys == [] then []
    else
      var n := |keys| - 1;
      SettingLines(c, keys[..n]) + [SettingLine(c, keys[n])]
  }

  function HeaderText(section: Section): string { "[" + SectionName(section) + "]" }

  /** The settings of a section in printed order; `mkinitcpio_config` is not among them. */
  function KeysOf(section: Section): seq<Key> {
    match section
    case InManager => [SchemaVersion]
    case InSystem => [BootMount, LimineConfig, KernelCmdlineFile, ModulesRoot, Cpuinfo]
    case InSnapper => [SnapperConfig, SnapshotsSubvolume, SnapshotsDirectory, MaxSnapshots, IncludeReadWrite]
    case InBackups => [Retain]
    case InMenu => [RootTitle, SnapshotsTitle, RootExpanded, SnapshotsExpanded]
    case InKernels => [Include, Exclude, Order]
    case InTheme => [ThemeName]
    case InAutomation => [Enabled, SnapperEvents, PacmanEvents, DebounceSeconds, RuntimeDirectory]
    case InSecureBoot => [ProtectConfig, AutomaticApply, EfiExecutable]
    case InLimine => []
  }

  /** A section as it is printed, with a blank line after it. */
  function SectionLines(c: AppConfig, section: Section): seq<string> {
    assert forall k :: k in KeysOf(section) ==> !k.LimineOption?;
    [HeaderText(section)] + SettingLines(c, KeysOf(section)) + [""]
  }

  const SECTIONS: seq<Section> :=
    [InManager, InSystem, InSnapper, InBackups, InMenu, InKernels, InTheme, InAutomation, InSecureBoot]

  function AllSections(c: AppConfig, sections: seq<Section>): seq<string> {
    if sections == [] then []
    else
      var n := |sections| - 1;
      AllSections(c, sections[..n]) + SectionLines(c, sections[n])
  }

  function FixedLines(c: AppConfig, source: string): seq<string> {
    ["# Effective limine-manager configuration"] + ["# Source: " + source] + [""]
    + AllSections(c, SECTIONS) + [HeaderText(InLimine)]
  }

  function OptionKeys(names: seq<string>): seq<Key> {
    seq(|names|, i requires 0 <= i < |names| => LimineOption(names[i]))
  }

  /** Everything `render` prints, line by line; the options come in the order `names`, for which
      the code uses the order of `std::map`. */
  function RenderedLines(c: AppConfig, source: string, names: seq<string>): seq<string>
    requires forall k :: k in names ==> k in c.limine
  {
    FixedLines(c, source) + SettingLines(c, OptionKeys(names))
  }

  ghost predicate Enumerates(keys: seq<string>, limine: map<string, string>) {
    forall k :: k in keys <==> k in limine
  }

  lemma OptionStep(c: AppConfig, front: seq<string>, names: seq<string>, i: nat)
    requires Enumerates(names, c.limine) && i < |names|
    ensures
      var before, after := SettingLines(c, OptionKeys(names[..i])), SettingLines(c, OptionKeys(names[..i + 1]));
      Join(front + after) == Join(front + before) + SettingLine(c, LimineOption(names[i])) + ['\n']
  {
    var keys := OptionKeys(names[..i]);
    assert OptionKeys(names[..i + 1]) == keys + [LimineOption(names[i])];
    assert (keys + [LimineOption(names[i])])[..|keys|] == keys;
    var line := SettingLine(c, LimineOption(names[i]));
    JoinAppend(front + SettingLines(c, keys), line);
    assert front + (SettingLines(c, keys) + [line]) == (front + SettingLines(c, keys)) + [line];
  }

  /** `render`; `source` is the path of the file or the words for built-in defaults. */
  method Render(c: AppConfig, source: string, names: seq<string>) returns (out: string)
    requires Enumerates(names, c.limine)
    ensures out == Join(RenderedLines(c, source, names))
  {
    var fixedLines := FixedLines(c, source);
    out := Join(fixedLines);
    assert fixedLines + [] == fixedLines && OptionKeys(names[..0]) == [];
    for i := 0 to |names|
      invariant out == Join(fixedLines + SettingLines(c, OptionKeys(names[..i])))
    {
      OptionStep(c, fixedLines, names, i);
      out := out + SettingLine(c, LimineOption(names[i])) + ['\n'];
    }
    assert names[..|names|] == names;
  }
}
