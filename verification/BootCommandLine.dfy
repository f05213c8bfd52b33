/** The kernel command line the detector generates (`system_detector.cpp`) against the checks of
    the validator (`validation_service.cpp`). */
module BootCommandLine {
  import opened Wrappers
  import opened Text
  import KernelCommandLine

  /** The detected facts; `canonical` resolves a device path or fails. */
  datatype SystemInfo = SystemInfo(
    rootSource: string,
    rootSubvolume: string,
    rootUuid: string,
    rootEncrypted: bool,
    rootMapperName: string,
    luksUuid: string,
    backingPartuuid: string,
    backingDevice: string)

  const MAPPER := "/dev/mapper/"

  function EncryptionArgument(info: SystemInfo, sdEncrypt: bool): string {
    if sdEncrypt then "rd.luks.name" + "=" + (info.luksUuid + "=" + info.rootMapperName)
    else "cryptdevice" + "=" + ("UUID=" + info.luksUuid + ":" + info.rootMapperName)
  }

  function RootArgument(info: SystemInfo): string {
    "root" + "=" + (if info.rootEncrypted then MAPPER + info.rootMapperName else "UUID=" + info.rootUuid)
  }

  function FlagsArgument(info: SystemInfo): string {
    "rootflags" + "=" + ("subvol=" + info.rootSubvolume)
  }

  /** The generator throws when the UUID it needs is unknown. */
  predicate Undetermined(info: SystemInfo) {
    if info.rootEncrypted then info.luksUuid == [] else info.rootUuid == []
  }

  /** The arguments of the generated command line. */
  function GeneratedArguments(info: SystemInfo, sdEncrypt: bool): seq<string> {
    (if info.rootEncrypted then [EncryptionArgument(info, sdEncrypt)] else [])
    + [RootArgument(info)]
    + (if info.rootSubvolume == [] then [] else [FlagsArgument(info)])
    + ["rw"]
  }

  /** The two parts of the printed text. */
  function RootText(info: SystemInfo, sdEncrypt: bool): string {
    if !info.rootEncrypted then "root=UUID=" + info.rootUuid
    else if sdEncrypt then
      "rd.luks.name=" + info.luksUuid + "=" + info.rootMapperName + " root=/dev/mapper/" + info.rootMapperName
    else
      "cryptdevice=UUID=" + info.luksUuid + ":" + info.rootMapperName + " root=/dev/mapper/" + info.rootMapperName
  }

  function FlagsText(info: SystemInfo): string {
    if info.rootSubvolume == "" then "" else " rootflags=subvol=" + info.rootSubvolume
  }

  method AppendFlags(text: string, info: SystemInfo) returns (result: string)
    requires info.rootSubvolume != []
    ensures result == text + " " + FlagsArgument(info) == text + FlagsText(info)
  {
    result := text + " rootflags=subvol=" + info.rootSubvolume;
    assert " rootflags=subvol=" == " " + ("rootflags" + "=" + "subvol=");
  }

  method EncryptionText(info: SystemInfo, sdEncrypt: bool) returns (text: string)
    ensures text == EncryptionArgument(info, sdEncrypt)
    ensures info.rootEncrypted ==> text + " root=/dev/mapper/" + info.rootMapperName == RootText(info, sdEncrypt)
  {
    if sdEncrypt {
      text := "rd.luks.name=" + info.luksUuid + "=" + info.rootMapperName;
      assert "rd.luks.name=" == "rd.luks.name" + "=";
    } else {
      text := "cryptdevice=UUID=" + info.luksUuid + ":" + info.rootMapperName;
      assert "cryptdevice=UUID=" == "cryptdevice" + "=" + "UUID=";
    }
  }

  method EncryptedOrPlainRoot(info: SystemInfo, sdEncrypt: bool) returns (text: string)
    ensures text ==
      KernelCommandLine.Spaced(
        (if info.rootEncrypted then [EncryptionArgument(info, sdEncrypt)] else []) + [RootArgument(info)])
    ensures text == RootText(info, sdEncrypt)
  {
    if info.rootEncrypted {
      text := EncryptionText(info, sdEncrypt);
      KernelCommandLine.SpacedAppend([EncryptionArgument(info, sdEncrypt)], RootArgument(info));
      assert " root=/dev/mapper/" == " " + ("root" + "=" + MAPPER);
      text := text + " root=/dev/mapper/" + info.rootMapperName;
    } else {
      text := "root=UUID=" + info.rootUuid;
      assert "root=UUID=" == "root" + "=" + "UUID=";
      assert [] + [RootArgument(info)] == [RootArgument(info)];
    }
  }

  /** `generate_cmdline`: the text is appended to piece by piece. */
  method GenerateCmdline(info: SystemInfo, sdEncrypt: bool) returns (result: Option<string>)
    ensures result ==
      if Undetermined(info) then None else Some(KernelCommandLine.Spaced(GeneratedArguments(info, sdEncrypt)))
    ensures result.None? <==> if info.rootEncrypted then info.luksUuid == "" else info.rootUuid == ""
    ensures result.Some? ==> result.value == RootText(info, sdEncrypt) + FlagsText(info) + " rw"
  {
    if Undetermined(info) { return None; }
    var text := EncryptedOrPlainRoot(info, sdEncrypt);
    ghost var arguments :=
      (if info.rootEncrypted then [EncryptionArgument(info, sdEncrypt)] else []) + [RootArgument(info)];
    if info.rootSubvolume != [] {
      KernelCommandLine.SpacedAppend(arguments, FlagsArgument(info));
      arguments := arguments + [FlagsArgument(info)];
      text := AppendFlags(text, info);
    }
    KernelCommandLine.SpacedAppend(arguments, "rw");
    assert arguments + ["rw"] == GeneratedArguments(info, sdEncrypt);
    result := Some(text + " rw");
    assert text + " rw" == text + " " + "rw";
  }

  // ---- the validator ----

  /** `path::filename` of a path without a trailing slash. */
  function FileName(path: string): string {
    if path == [] || path[|path| - 1] == '/' then []
    else FileName(path[..|path| - 1]) + [path[|path| - 1]]
  }

  predicate IsHexDigit(c: char) { '0' <= c <= '9' || 'a' <= c <= 'f' || 'A' <= c <= 'F' }

  predicate ValidUuid(s: string) {
    s != [] && forall c :: c in s ==> IsHexDigit(c) || c == '-'
  }

  predicate SameUuid(a: string, b: string) {
    a != [] && b != [] && Lower(a) == Lower(b)
  }

  datatype Reference =
    | Uuid(value: string) | Partuuid(value: string) | DevicePath(value: string) | Unknown(value: string)

  function ParseReference(s: string): Reference {
    if "UUID=" <= s then Uuid(s[5..])
    else if "PARTUUID=" <= s then Partuuid(s[9..])
    else if "/dev/" <= s then DevicePath(s)
    else Unknown(s)
  }

  datatype Mapping = Mapping(source: Reference, mapper: string)

  /** `parse_cryptdevice`: `device:mapper`, with anything after a second colon ignored. */
  function ParseCryptdevice(s: string): Option<Mapping> {
    var separator := Find(':', s);
    if separator == |s| then None
    else
      var source := ParseReference(s[..separator]);
      var rest := s[separator + 1..];
      var mapper := rest[..Find(':', rest)];
      if source.Unknown? || source.value == [] || mapper == [] then None else Some(Mapping(source, mapper))
  }

  /** `parse_rd_luks_name`: `uuid` or `uuid=mapper`. */
  function ParseRdLuksName(s: string): Option<Mapping> {
    var separator := Find('=', s);
    var uuid := s[..separator];
    if !ValidUuid(uuid) then None
    else Some(Mapping(Uuid(uuid), if separator == |s| then [] else s[separator + 1..]))
  }

  predicate SameDevice(a: string, b: string, canonical: string -> Option<string>) {
    a != [] && b != [] &&
    if canonical(a).Some? && canonical(b).Some? then canonical(a) == canonical(b) else a == b
  }

  predicate IdentifiesRoot(mapping: Mapping, mapper: string, info: SystemInfo, canonical: string -> Option<string>) {
    (mapping.mapper != [] && mapping.mapper == mapper) ||
    match mapping.source
    case Uuid(value) => SameUuid(value, info.luksUuid)
    case Partuuid(value) => SameUuid(value, info.backingPartuuid)
    case DevicePath(value) => SameDevice(value, info.backingDevice, canonical)
    case Unknown(_) => false
  }

  function MapperName(info: SystemInfo): string {
    if info.rootMapperName == [] then FileName(MountSource(info.rootSource)) else info.rootMapperName
  }

  predicate RootPasses(arguments: seq<string>, info: SystemInfo) {
    match KernelCommandLine.Value(arguments, "root")
    case None => false
    case Some(root) => root == MountSource(info.rootSource) || (info.rootUuid != [] && root == "UUID=" + info.rootUuid)
  }

  ghost predicate EncryptionPasses(arguments: seq<string>, info: SystemInfo, canonical: string -> Option<string>) {
    info.rootEncrypted ==>
      || (exists v :: v in KernelCommandLine.Values(arguments, "cryptdevice") && ParseCryptdevice(v).Some?
                   && IdentifiesRoot(ParseCryptdevice(v).value, MapperName(info), info, canonical))
      || (exists v :: v in KernelCommandLine.Values(arguments, "rd.luks.name") && ParseRdLuksName(v).Some?
                   && IdentifiesRoot(ParseRdLuksName(v).value, MapperName(info), info, canonical))
  }

  predicate RootflagsPass(arguments: seq<string>, info: SystemInfo) {
    KernelCommandLine.Value(arguments, "rootflags") == Some("subvol=" + info.rootSubvolume)
  }

  /** The validator's four command line checks report no error. */
  ghost predicate Passes(arguments: seq<string>, info: SystemInfo, canonical: string -> Option<string>) {
    && arguments != [] && RootPasses(arguments, info)
    && EncryptionPasses(arguments, info, canonical) && RootflagsPass(arguments, info)
  }

  /** Equal but for capital letters, and known at all. */
  ghost predicate SameButForCase(a: string, b: string) {
    a != "" && b != "" && exists t :: InLowerCase(a, t) && InLowerCase(b, t)
  }

  lemma SameUuidIgnoresCase(a: string, b: string)
    ensures SameUuid(a, b) <==> SameButForCase(a, b)
  {
    LowerIsLowerCase(a, Lower(a));
    LowerIsLowerCase(b, Lower(a));
    forall t | InLowerCase(a, t) && InLowerCase(b, t) ensures Lower(a) == Lower(b) {
      LowerIsLowerCase(a, t);
      LowerIsLowerCase(b, t);
    }
  }

  /** The ways a `cryptdevice` may name a device at all. */
  ghost predicate IsReference(device: string) {
    || (exists u :: device == "UUID=" + u && u != "")
    || (exists p :: device == "PARTUUID=" + p && p != "")
    || (exists rest :: device == "/dev/" + rest)
  }

  /** And that name the device behind the root. */
  ghost predicate Denotes(device: string, info: SystemInfo, canonical: string -> Option<string>) {
    || (exists u :: device == "UUID=" + u && SameButForCase(u, info.luksUuid))
    || (exists p :: device == "PARTUUID=" + p && SameButForCase(p, info.backingPartuuid))
    || ((exists rest :: device == "/dev/" + rest) && info.backingDevice != ""
        && match (canonical(device), canonical(info.backingDevice))
           case (Some(a), Some(b)) => a == b
           case _ => device == info.backingDevice)
  }

  lemma ReferenceOf(device: string)
    ensures "UUID=" <= device ==> device == "UUID=" + device[5..] && ParseReference(device) == Uuid(device[5..])
    ensures "PARTUUID=" <= device ==>
      device == "PARTUUID=" + device[9..] && ParseReference(device) == Partuuid(device[9..])
    ensures "/dev/" <= device ==> device == "/dev/" + device[5..] && ParseReference(device) == DevicePath(device)
    ensures !("UUID=" <= device) && !("PARTUUID=" <= device) && !("/dev/" <= device) ==> ParseReference(device).Unknown?
  {
    assert "UUID="[0] == 'U' && "PARTUUID="[0] == 'P' && "/dev/"[0] == '/';
  }

  lemma ReferenceIsRead(device: string, info: SystemInfo, canonical: string -> Option<string>)
    ensures IsReference(device) <==> !ParseReference(device).Unknown? && ParseReference(device).value != []
    ensures IsReference(device) ==>
      (Denotes(device, info, canonical) <==>
        match ParseReference(device)
        case Uuid(value) => SameUuid(value, info.luksUuid)
        case Partuuid(value) => SameUuid(value, info.backingPartuuid)
        case DevicePath(value) => SameDevice(value, info.backingDevice, canonical)
        case Unknown(_) => false)
  {
    ReferenceOf(device);
    forall u | device == "UUID=" + u ensures "UUID=" <= device && u == device[5..] {}
    forall p | device == "PARTUUID=" + p ensures "PARTUUID=" <= device && p == device[9..] {}
    forall rest | device == "/dev/" + rest ensures "/dev/" <= device {}
    if "UUID=" <= device { SameUuidIgnoresCase(device[5..], info.luksUuid); }
    if "PARTUUID=" <= device { SameUuidIgnoresCase(device[9..], info.backingPartuuid); }
  }

  lemma {:induction false} FileNameOf(directory: string, name: string)
    requires '/' !in name
    ensures FileName(directory + "/" + name) == name
  {
    var path := directory + "/" + name;
    if name != [] {
      var n := |name| - 1;
      assert name[n] in name && path[..|path| - 1] == directory + "/" + name[..n];
      FileNameOf(directory, name[..n]);
      assert name[..n] + [name[n]] == name;
    }
  }

  /** The mapper name the validator goes by: the detected one, or else the last part of the device. */
  lemma MapperNameOf(info: SystemInfo, directory: string, name: string)
    requires '/' !in name && IsDevice(info.rootSource, directory + "/" + name)
    ensures MapperName(info) == if info.rootMapperName == "" then name else info.rootMapperName
  {
    MountSourceIsDevice(info.rootSource, directory + "/" + name);
    FileNameOf(directory, name);
  }

  /** What the validator makes of any `cryptdevice=device:mapper`, options behind it or not: it counts
      exactly when both parts are there and one of them names the root. */
  lemma CryptdeviceIsJudged(device: string, mapper: string, options: string, info: SystemInfo,
                            canonical: string -> Option<string>)
    requires ':' !in device && ':' !in mapper && (options == "" || options[0] == ':')
    ensures
      var mapping := ParseCryptdevice(device + ":" + mapper + options);
      mapping.Some? && IdentifiesRoot(mapping.value, MapperName(info), info, canonical) <==>
        && mapper != "" && IsReference(device)
        && (mapper == MapperName(info) || Denotes(device, info, canonical))
  {
    var rest := mapper + options;
    var value := device + ":" + mapper + options;
    assert value == device + ([':'] + rest);
    FindAfter(device, ':', rest);
    assert value[..|device|] == device && value[|device| + 1..] == rest;
    if options == "" {
      assert rest == mapper && rest[..|rest|] == rest;
    } else {
      assert rest == mapper + ([':'] + options[1..]);
      FindAfter(mapper, ':', options[1..]);
    }
    assert rest[..Find(':', rest)] == mapper;
    ReferenceIsRead(device, info, canonical);
  }

  lemma HexDigits()
    ensures forall c: char :: IsHexDigit(c) || c == '-' <==> c in "0123456789abcdefABCDEF-"
  {
    var digits := "0123456789abcdefABCDEF-";
    forall c: char | IsHexDigit(c) || c == '-' ensures c in digits {
      var k :=
        if c == '-' then 22 else if c <= '9' then c as int - '0' as int
        else if c >= 'a' then c as int - 'a' as int + 10 else c as int - 'A' as int + 16;
      assert digits[k] == c;
    }
  }

  /** And of any `rd.luks.name=uuid`, with or without `=mapper` behind it. */
  lemma RdLuksNameIsJudged(uuid: string, mapper: Option<string>, info: SystemInfo, canonical: string -> Option<string>)
    requires '=' !in uuid
    ensures
      var mapping := ParseRdLuksName(if mapper.None? then uuid else uuid + "=" + mapper.value);
      mapping.Some? && IdentifiesRoot(mapping.value, MapperName(info), info, canonical) <==>
        && uuid != "" && (forall c :: c in uuid ==> c in "0123456789abcdefABCDEF-")
        && ((mapper.Some? && mapper.value != "" && mapper.value == MapperName(info))
            || SameButForCase(uuid, info.luksUuid))
  {
    HexDigits();
    SameUuidIgnoresCase(uuid, info.luksUuid);
    if mapper.None? {
      assert uuid[..|uuid|] == uuid;
    } else {
      var value := uuid + "=" + mapper.value;
      assert value == uuid + (['='] + mapper.value);
      FindAfter(uuid, '=', mapper.value);
      assert value[..|uuid|] == uuid && value[|uuid| + 1..] == mapper.value;
    }
  }

  /** And of `root=`: the device mounted, or its filesystem by UUID. */
  lemma RootIsJudged(arguments: seq<string>, info: SystemInfo)
    ensures RootPasses(arguments, info) <==>
      exists root :: KernelCommandLine.Value(arguments, "root") == Some(root)
                  && (IsDevice(info.rootSource, root) || (info.rootUuid != "" && root == "UUID=" + info.rootUuid))
  {
    var found := KernelCommandLine.Value(arguments, "root");
    if found.Some? { MountSourceIsDevice(info.rootSource, found.value); }
  }

  // ---- the generator satisfies the validator ----

  predicate Clean(s: string) {
    forall c :: c in s ==> KernelCommandLine.Plain(c)
  }

  /** The printed facts contain neither white space nor quoting characters. */
  predicate CleanFacts(info: SystemInfo) {
    && Clean(info.rootSubvolume)
    && if info.rootEncrypted then Clean(info.luksUuid) && Clean(info.rootMapperName) else Clean(info.rootUuid)
  }

  lemma CleanAppend(a: string, b: string)
    ensures Clean(a + b) <==> Clean(a) && Clean(b)
  {
    assert forall c :: c in a || c in b ==> c in a + b;
  }

  lemma GeneratedParts(info: SystemInfo, sdEncrypt: bool)
    ensures forall a :: a in GeneratedArguments(info, sdEncrypt) ==>
      || (info.rootEncrypted && a == EncryptionArgument(info, sdEncrypt)) || a == RootArgument(info)
      || (info.rootSubvolume != [] && a == FlagsArgument(info)) || a == "rw"
  {
  }

  function RootValue(info: SystemInfo): string {
    if info.rootEncrypted then MAPPER + info.rootMapperName else "UUID=" + info.rootUuid
  }

  lemma RootIsClean(info: SystemInfo)
    ensures Clean(RootArgument(info)) <==> Clean(if info.rootEncrypted then info.rootMapperName else info.rootUuid)
    ensures RootArgument(info) != []
  {
    assert Clean("root" + "=") && Clean(MAPPER) && Clean("UUID=");
    CleanAppend("root" + "=", RootValue(info));
    CleanAppend(MAPPER, info.rootMapperName);
    CleanAppend("UUID=", info.rootUuid);
  }

  lemma FlagsAreClean(info: SystemInfo)
    ensures Clean(FlagsArgument(info)) <==> Clean(info.rootSubvolume)
    ensures FlagsArgument(info) != []
  {
    assert Clean("rootflags" + "=") && Clean("subvol=");
    CleanAppend("rootflags" + "=", "subvol=" + info.rootSubvolume);
    CleanAppend("subvol=", info.rootSubvolume);
  }

  lemma FrontIsClean(info: SystemInfo, sdEncrypt: bool, front: string)
    requires front == if sdEncrypt then info.luksUuid + "=" else "UUID=" + info.luksUuid + ":"
    ensures Clean(front) <==> Clean(info.luksUuid)
  {
    assert Clean("=") && Clean("UUID=") && Clean(":");
    if sdEncrypt {
      CleanAppend(info.luksUuid, "=");
    } else {
      CleanAppend("UUID=", info.luksUuid);
      CleanAppend("UUID=" + info.luksUuid, ":");
    }
  }

  function EncryptionKey(sdEncrypt: bool): string { if sdEncrypt then "rd.luks.name" else "cryptdevice" }

  lemma EncryptionKeyIsClean(sdEncrypt: bool)
    ensures Clean(EncryptionKey(sdEncrypt) + "=")
  {
    if sdEncrypt { assert Clean("rd.luks.name" + "="); } else { assert Clean("cryptdevice" + "="); }
  }

  lemma EncryptionIsClean(info: SystemInfo, sdEncrypt: bool)
    ensures Clean(EncryptionArgument(info, sdEncrypt)) <==> Clean(info.luksUuid) && Clean(info.rootMapperName)
    ensures EncryptionArgument(info, sdEncrypt) != []
  {
    var front := if sdEncrypt then info.luksUuid + "=" else "UUID=" + info.luksUuid + ":";
    FrontIsClean(info, sdEncrypt, front);
    EncryptionKeyIsClean(sdEncrypt);
    CleanAppend(front, info.rootMapperName);
    assert EncryptionArgument(info, sdEncrypt) == EncryptionKey(sdEncrypt) + "=" + (front + info.rootMapperName);
    CleanAppend(EncryptionKey(sdEncrypt) + "=", front + info.rootMapperName);
  }

  /** All generated arguments are clean exactly when the printed facts are. */
  lemma GeneratedIsClean(info: SystemInfo, sdEncrypt: bool)
    ensures (forall a :: a in GeneratedArguments(info, sdEncrypt) ==> a != [] && Clean(a)) <==> CleanFacts(info)
  {
    var arguments := GeneratedArguments(info, sdEncrypt);
    assert RootArgument(info) in arguments;
    assert info.rootSubvolume != [] ==> FlagsArgument(info) in arguments;
    RootIsClean(info);
    FlagsAreClean(info);
    if info.rootEncrypted {
      assert EncryptionArgument(info, sdEncrypt) in arguments;
      EncryptionIsClean(info, sdEncrypt);
    }
    assert Clean("rw") && Clean([]);
    GeneratedParts(info, sdEncrypt);
  }

  /** A keyed argument answers to its own key and to no other one. */
  lemma KeyedValue(key: string, value: string, other: string)
    requires '=' !in key && '=' !in other
    ensures
      var a := key + "=" + value;
      && KernelCommandLine.Value([a], other) == (if other == key then Some(value) else None)
      && KernelCommandLine.Values([a], other) == (if other == key then [value] else [])
  {
    var a := key + "=" + value;
    assert KernelCommandLine.HasValue(a, key) && a[|key| + 1..] == value;
    KernelCommandLine.KeyIsUnique(a, key, other);
    KernelCommandLine.ValueOfOne(a, other);
  }

  function EncryptionValue(info: SystemInfo, sdEncrypt: bool): string {
    if sdEncrypt then info.luksUuid + "=" + info.rootMapperName else "UUID=" + info.luksUuid + ":" + info.rootMapperName
  }

  /** The keys of the generated arguments are told apart by their lengths. */
  lemma KeysDiffer(sdEncrypt: bool)
    ensures |EncryptionKey(sdEncrypt)| > 10 && |"root"| == 4 && |"rootflags"| == 9
    ensures '=' !in EncryptionKey(sdEncrypt) && '=' !in "root" && '=' !in "rootflags"
  {
  }

  lemma JoinValues(a: seq<string>, b: seq<string>, c: seq<string>, d: seq<string>)
    ensures b == [] && c == [] && d == [] ==> a + b + c + d == a
  {
  }

  lemma PartsLookUp(e: seq<string>, r: seq<string>, f: seq<string>, w: seq<string>, key: string)
    ensures
      KernelCommandLine.Value(e + r + f + w, key) ==
        if KernelCommandLine.Value(e, key).Some? then KernelCommandLine.Value(e, key)
        else if KernelCommandLine.Value(r, key).Some? then KernelCommandLine.Value(r, key)
        else if KernelCommandLine.Value(f, key).Some? then KernelCommandLine.Value(f, key)
        else KernelCommandLine.Value(w, key)
    ensures
      KernelCommandLine.Values(e + r + f + w, key) ==
        KernelCommandLine.Values(e, key) + KernelCommandLine.Values(r, key) + KernelCommandLine.Values(f, key)
        + KernelCommandLine.Values(w, key)
  {
    KernelCommandLine.ValueAppend(e, r, key);
    KernelCommandLine.ValueAppend(e + r, f, key);
    KernelCommandLine.ValueAppend(e + r + f, w, key);
  }

  lemma EncryptionLookUp(info: SystemInfo, sdEncrypt: bool, key: string)
    requires '=' !in key
    ensures
      var e := [EncryptionArgument(info, sdEncrypt)];
      && KernelCommandLine.Value(e, key) ==
        (if key == EncryptionKey(sdEncrypt) then Some(EncryptionValue(info, sdEncrypt)) else None)
      && KernelCommandLine.Values(e, key) ==
        (if key == EncryptionKey(sdEncrypt) then [EncryptionValue(info, sdEncrypt)] else [])
  {
    assert '=' !in "rd.luks.name" && '=' !in "cryptdevice";
    KeyedValue(EncryptionKey(sdEncrypt), EncryptionValue(info, sdEncrypt), key);
  }

  lemma RootLookUp(info: SystemInfo, key: string)
    requires '=' !in key
    ensures
      var r := [RootArgument(info)];
      && KernelCommandLine.Value(r, key) == (if key == "root" then Some(RootValue(info)) else None)
      && (key != "root" ==> KernelCommandLine.Values(r, key) == [])
  {
    assert '=' !in "root";
    KeyedValue("root", RootValue(info), key);
  }

  lemma FlagsLookUp(info: SystemInfo, key: string)
    requires '=' !in key
    ensures
      var f := [FlagsArgument(info)];
      && KernelCommandLine.Value(f, key) == (if key == "rootflags" then Some("subvol=" + info.rootSubvolume) else None)
      && (key != "rootflags" ==> KernelCommandLine.Values(f, key) == [])
  {
    assert '=' !in "rootflags";
    KeyedValue("rootflags", "subvol=" + info.rootSubvolume, key);
  }

  /** Looking up any key: the four parts in their order. */
  lemma GeneratedLookUp(info: SystemInfo, sdEncrypt: bool, key: string)
    requires '=' !in key && |key| > 2
    ensures
      var value := KernelCommandLine.Value(GeneratedArguments(info, sdEncrypt), key);
      value ==
        if info.rootEncrypted && key == EncryptionKey(sdEncrypt) then Some(EncryptionValue(info, sdEncrypt))
        else if key == "root" then Some(RootValue(info))
        else if key == "rootflags" && info.rootSubvolume != [] then Some("subvol=" + info.rootSubvolume)
        else None
    ensures key != "root" && key != "rootflags" ==>
      KernelCommandLine.Values(GeneratedArguments(info, sdEncrypt), key) ==
        if info.rootEncrypted && key == EncryptionKey(sdEncrypt) then [EncryptionValue(info, sdEncrypt)] else []
  {
    var e := if info.rootEncrypted then [EncryptionArgument(info, sdEncrypt)] else [];
    var r := [RootArgument(info)];
    var f := if info.rootSubvolume == [] then [] else [FlagsArgument(info)];
    EncryptionLookUp(info, sdEncrypt, key);
    RootLookUp(info, key);
    FlagsLookUp(info, key);
    KernelCommandLine.ValueOfOne("rw", key);
    PartsLookUp(e, r, f, ["rw"], key);
    JoinValues(KernelCommandLine.Values(e, key), KernelCommandLine.Values(r, key), KernelCommandLine.Values(f, key),
               KernelCommandLine.Values(["rw"], key));
  }

  /** Looking up the keys the validator asks for. */
  lemma GeneratedValues(info: SystemInfo, sdEncrypt: bool)
    ensures KernelCommandLine.Value(GeneratedArguments(info, sdEncrypt), "root") == Some(RootValue(info))
    ensures KernelCommandLine.Value(GeneratedArguments(info, sdEncrypt), "rootflags") ==
      if info.rootSubvolume == [] then None else Some("subvol=" + info.rootSubvolume)
  {
    KeysDiffer(sdEncrypt);
    GeneratedLookUp(info, sdEncrypt, "root");
    GeneratedLookUp(info, sdEncrypt, "rootflags");
  }

  lemma ReferenceIsUuid(uuid: string)
    ensures ParseReference("UUID=" + uuid) == Uuid(uuid)
  {
    assert ("UUID=" + uuid)[..5] == "UUID=" && ("UUID=" + uuid)[5..] == uuid;
  }

  /** What the `encrypt` hook form puts between its colons: the text behind the UUID's own colon, if
      it has one, and the mapper name otherwise. */
  function PrintedMapper(info: SystemInfo): string {
    var at := Find(':', info.luksUuid);
    var rest := if at == |info.luksUuid| then info.rootMapperName else info.luksUuid[at + 1..];
    rest[..Find(':', rest)]
  }

  lemma SplitWithin(a: string, b: string, c: string, at: nat)
    requires at <= |b| && c != []
    ensures (a + b + c)[..|a| + at] == a + b[..at]
    ensures (a + b + c)[|a| + at + 1..] == if at == |b| then c[1..] else b[at + 1..] + c
  {
  }

  lemma UpToColon(a: string, b: string)
    ensures
      var s := a + ([':'] + b);
      s[..Find(':', s)] == a[..Find(':', a)]
  {
    FindBefore(a, ':', b);
  }

  /** The text up to a first colon as the device, and that up to the next one as the mapper. */
  lemma ParsedAt(value: string, uuid: string, rest: string)
    requires Find(':', value) < |value|
    requires value[..Find(':', value)] == "UUID=" + uuid && value[Find(':', value) + 1..] == rest
    ensures
      var mapper := rest[..Find(':', rest)];
      ParseCryptdevice(value) == if uuid == [] || mapper == [] then None else Some(Mapping(Uuid(uuid), mapper))
  {
    ReferenceIsUuid(uuid);
  }

  /** The generated `cryptdevice` value is read as the UUID up to its first colon, and what follows. */
  lemma CryptdeviceIsParsed(info: SystemInfo)
    ensures
      var uuid := info.luksUuid[..Find(':', info.luksUuid)];
      ParseCryptdevice(EncryptionValue(info, false)) ==
        if uuid == [] || PrintedMapper(info) == [] then None else Some(Mapping(Uuid(uuid), PrintedMapper(info)))
  {
    var luks, mapper, at := info.luksUuid, info.rootMapperName, Find(':', info.luksUuid);
    var value, device := EncryptionValue(info, false), "UUID=";
    assert value == device + luks + ([':'] + mapper);
    assert ':' !in device && |device| == 5;
    FindBehind(device, ':', luks);
    FindBefore(device + luks, ':', mapper);
    SplitWithin(device, luks, [':'] + mapper, at);
    if at < |luks| { UpToColon(luks[at + 1..], mapper); }
    ParsedAt(value, luks[..at], if at == |luks| then mapper else luks[at + 1..] + ([':'] + mapper));
  }

  lemma NamedAt(value: string, uuid: string, mapper: string)
    requires Find('=', value) < |value|
    requires value[..Find('=', value)] == uuid && value[Find('=', value) + 1..] == mapper
    ensures ParseRdLuksName(value) == if !ValidUuid(uuid) then None else Some(Mapping(Uuid(uuid), mapper))
  {
  }

  lemma RdLuksNameIsParsed(info: SystemInfo)
    ensures
      var luks, at := info.luksUuid, Find('=', info.luksUuid);
      ParseRdLuksName(EncryptionValue(info, true)) ==
        if !ValidUuid(luks[..at]) then None
        else
          var mapper := if at == |luks| then info.rootMapperName else luks[at + 1..] + (['='] + info.rootMapperName);
          Some(Mapping(Uuid(luks[..at]), mapper))
  {
    var luks, mapper, at := info.luksUuid, info.rootMapperName, Find('=', info.luksUuid);
    var value, nothing: string := EncryptionValue(info, true), [];
    assert value == luks + (['='] + mapper) == nothing + luks + (['='] + mapper);
    FindBefore(luks, '=', mapper);
    SplitWithin(nothing, luks, ['='] + mapper, at);
    NamedAt(value, luks[..at], if at == |luks| then mapper else luks[at + 1..] + (['='] + mapper));
  }

  /** The generated encryption parameter names the root, by its LUKS UUID or by its mapper. */
  predicate Identified(info: SystemInfo, sdEncrypt: bool) {
    if sdEncrypt then ValidUuid(info.luksUuid)
    else
      && PrintedMapper(info) != []
      && (':' in info.luksUuid ==> info.luksUuid[0] != ':' && PrintedMapper(info) == info.rootMapperName)
  }

  lemma OtherLength(a: string, b: string)
    requires |a| != |b|
    ensures !SameUuid(a, b)
  {
    assert |Lower(a)| == |a| && |Lower(b)| == |b|;
  }

  lemma MapperOfMounted(info: SystemInfo)
    requires MountSource(info.rootSource) == MAPPER + info.rootMapperName
    ensures MapperName(info) == info.rootMapperName
  {
    if info.rootMapperName == [] { assert MAPPER + info.rootMapperName == MAPPER; }
  }

  lemma RdLuksNamePasses(info: SystemInfo, arguments: seq<string>, canonical: string -> Option<string>)
    requires info.rootEncrypted && info.luksUuid != [] && MapperName(info) == info.rootMapperName
    requires KernelCommandLine.Values(arguments, "rd.luks.name") == [EncryptionValue(info, true)]
    requires KernelCommandLine.Values(arguments, "cryptdevice") == []
    ensures EncryptionPasses(arguments, info, canonical) <==> Identified(info, true)
  {
    var luks, at := info.luksUuid, Find('=', info.luksUuid);
    var value := EncryptionValue(info, true);
    assert value in [value];
    RdLuksNameIsParsed(info);
    if at == |luks| {
      assert luks[..at] == luks;
    } else {
      assert luks[at] in luks;
      OtherLength(luks[..at], luks);
    }
  }

  lemma CryptdevicePasses(info: SystemInfo, arguments: seq<string>, canonical: string -> Option<string>)
    requires info.rootEncrypted && info.luksUuid != [] && MapperName(info) == info.rootMapperName
    requires KernelCommandLine.Values(arguments, "cryptdevice") == [EncryptionValue(info, false)]
    requires KernelCommandLine.Values(arguments, "rd.luks.name") == []
    ensures EncryptionPasses(arguments, info, canonical) <==> Identified(info, false)
  {
    var luks, at := info.luksUuid, Find(':', info.luksUuid);
    var value := EncryptionValue(info, false);
    assert value in [value];
    CryptdeviceIsParsed(info);
    if at == |luks| {
      assert luks[..at] == luks;
    } else {
      assert luks[at] in luks && (at == 0 <==> luks[0] == ':');
      OtherLength(luks[..at], luks);
    }
  }

  lemma EncryptionValuesFound(info: SystemInfo, sdEncrypt: bool)
    requires info.rootEncrypted
    ensures
      var arguments, found := GeneratedArguments(info, sdEncrypt), [EncryptionValue(info, sdEncrypt)];
      && KernelCommandLine.Values(arguments, "cryptdevice") == (if sdEncrypt then [] else found)
      && KernelCommandLine.Values(arguments, "rd.luks.name") == (if sdEncrypt then found else [])
  {
    assert '=' !in "rd.luks.name" && '=' !in "cryptdevice";
    assert |"rd.luks.name"| == 12 && |"cryptdevice"| == 11 && |"root"| == 4 && |"rootflags"| == 9;
    GeneratedLookUp(info, sdEncrypt, "cryptdevice");
    GeneratedLookUp(info, sdEncrypt, "rd.luks.name");
  }

  lemma GeneratedEncryption(info: SystemInfo, sdEncrypt: bool, canonical: string -> Option<string>)
    requires info.rootEncrypted && info.luksUuid != [] && MountSource(info.rootSource) == MAPPER + info.rootMapperName
    ensures EncryptionPasses(GeneratedArguments(info, sdEncrypt), info, canonical) <==> Identified(info, sdEncrypt)
  {
    MapperOfMounted(info);
    EncryptionValuesFound(info, sdEncrypt);
    if sdEncrypt {
      RdLuksNamePasses(info, GeneratedArguments(info, true), canonical);
    } else {
      CryptdevicePasses(info, GeneratedArguments(info, false), canonical);
    }
  }

  /** What the generator writes parses back to its arguments exactly when the printed facts are clean,
      and then passes the validator's command line checks exactly when a root subvolume was detected,
      an encrypted root is mounted from its mapper, and its parameter names it. */
  lemma GeneratorSatisfiesValidator(info: SystemInfo, sdEncrypt: bool, canonical: string -> Option<string>)
    requires !Undetermined(info)
    ensures
      var arguments := GeneratedArguments(info, sdEncrypt);
      var parsed := KernelCommandLine.Parsed(KernelCommandLine.Spaced(arguments));
      && (parsed == Some(arguments) <==> CleanFacts(info))
      && (Passes(arguments, info, canonical) <==>
            && info.rootSubvolume != []
            && (info.rootEncrypted ==>
                  IsDevice(info.rootSource, "/dev/mapper/" + info.rootMapperName) && Identified(info, sdEncrypt)))
  {
    GeneratedIsClean(info, sdEncrypt);
    KernelCommandLine.SpacedReadBack(GeneratedArguments(info, sdEncrypt));
    GeneratedValues(info, sdEncrypt);
    MountSourceIsDevice(info.rootSource, "/dev/mapper/" + info.rootMapperName);
    if info.rootEncrypted {
      assert RootValue(info)[0] == '/' && ("UUID=" + info.rootUuid)[0] == 'U';
      if MountSource(info.rootSource) == MAPPER + info.rootMapperName {
        GeneratedEncryption(info, sdEncrypt, canonical);
      }
    }
  }

  /** A mapper name the `encrypt` hook form cannot express: the command line is refused. */
  lemma ColonMapperIsRefused(info: SystemInfo, canonical: string -> Option<string>)
    requires info.rootEncrypted && info.luksUuid != [] && ':' !in info.luksUuid && ":" <= info.rootMapperName
    ensures !Passes(GeneratedArguments(info, false), info, canonical)
  {
    assert info.luksUuid[..|info.luksUuid|] == info.luksUuid;
    assert Find(':', info.rootMapperName) == 0;
    assert PrintedMapper(info) == [];
    GeneratorSatisfiesValidator(info, false, canonical);
  }

  lemma ColonMapper(canonical: string -> Option<string>) returns (info: SystemInfo)
    ensures info == SystemInfo("/dev/mapper/:root", "@", "", true, ":root", "ab", "", "")
    ensures !Undetermined(info) && CleanFacts(info) && !Passes(GeneratedArguments(info, false), info, canonical)
  {
    info := SystemInfo("/dev/mapper/:root", "@", "", true, ":root", "ab", "", "");
    assert ':' !in "ab" && ":" <= ":root";
    ColonMapperIsRefused(info, canonical);
  }
}
