/** `secure_boot_tools.cpp`: the digest and the four external commands on the EFI image. What
    the tools do to the bytes is unknown; only what a zero exit status promises is used. */
module SecureBootTools {
  import opened Wrappers
  import opened Filesystem
  import opened SecureFileOps

  /** The uninterpreted parts: BLAKE2b, the digest enrolled in an image, and its signature. */
  datatype Toolchain = Toolchain(hash: string -> string, enrolled: string -> Option<string>, signed: string -> bool)

  datatype Command = RemoveSignature | EnrollConfig(digest: string) | Sign | Verify

  /** The command line, but for the image. */
  function Invoked(command: Command): Kind {
    match command
    case RemoveSignature => Running("sbattach --remove", "")
    case EnrollConfig(digest) => Running("limine enroll-config", digest)
    case Sign => Running("sbctl sign -s", "")
    case Verify => Running("sbctl verify", "")
  }

  const DIGEST_LENGTH: nat := 128

  /** What a successful command promises about the image before and after it. Enrolling is
      only relied on for an image whose signature has been stripped. */
  predicate Delivers(tools: Toolchain, command: Command, before: Node, after: Node) {
    && before.Regular? && after.Regular?
    && match command
       case RemoveSignature => !tools.signed(after.bytes)
       case EnrollConfig(digest) => !tools.signed(before.bytes) ==> tools.enrolled(after.bytes) == Some(digest)
       case Sign => tools.enrolled(after.bytes) == tools.enrolled(before.bytes)
       case Verify => after == before && tools.signed(after.bytes)
  }

  /** All four stages are done: the digest is enrolled in a signed image. */
  predicate Updated(tools: Toolchain, image: Option<Node>, digest: string) {
    && image.Some? && image.value.Regular?
    && tools.enrolled(image.value.bytes) == Some(digest)
    && tools.signed(image.value.bytes)
  }

  /** `Blake2bHasher::digest`: the first field of the `b2sum` output, 128 characters long. */
  method Digest(disk: Disk, tools: Toolchain, p: Path) returns (digest: Option<string>)
    requires disk.Valid()
    modifies disk`faults, disk`calls, disk`log
    ensures disk.Valid() && Observed(old(disk.State()), disk.State())
    ensures digest.Some? ==>
      && disk.faults == old(disk.faults) && Readable(disk.files, p)
      && digest.value == tools.hash(disk.files[p].bytes) && |digest.value| == 128
    ensures digest.None? ==>
      || disk.faults > old(disk.faults) || !Readable(disk.files, p)
      || |tools.hash(disk.files[p].bytes)| != 128
  {
    var content := disk.ReadFile(p);
    if content.None? { return None; }
    var value := tools.hash(content.value);
    digest := if |value| == DIGEST_LENGTH then Some(value) else None;
  }

  /** What a command writes at the image is synchronised only as far as the tool did so. */
  method Leave(disk: Disk, efi: Path, after: Option<Node>)
    requires disk.Valid() && Past(efi, disk.clock)
    modifies disk`files, disk`dirty, disk`names, disk`trace
    ensures disk.Valid() && Evolves(old(disk.State()), disk.State(), {efi})
    ensures At(disk.files, efi) == after && efi in disk.dirty
  {
    disk.files := if after.Some? then disk.files[efi := after.value] else disk.files - {efi};
    disk.dirty, disk.names := disk.dirty + {efi}, disk.names[efi := Anything()];
    disk.trace := disk.trace + [disk.Now()];
  }

  /** One external command: it may leave anything in place of the image, and nothing elsewhere. */
  method Run(disk: Disk, tools: Toolchain, command: Command, efi: Path) returns (ok: bool)
    requires disk.Valid() && Past(efi, disk.clock)
    modifies disk
    ensures disk.Valid() && disk.clock == old(disk.clock)
    ensures Evolves(old(disk.State()), disk.State(), {efi})
    ensures ok ==>
      && efi in old(disk.files) && efi in disk.files
      && Delivers(tools, command, old(disk.files[efi]), disk.files[efi])
    ensures ok <==> disk.faults == old(disk.faults)
    ensures ok ==> disk.log == old(disk.log) + [Call(Invoked(command), efi, false)]
  {
    var before := At(disk.files, efi);
    var after: Option<Node>, exitZero: bool := *, *;
    ghost var s := disk.State();
    var fault := disk.Fails(Invoked(command), efi);
    ghost var s1 := disk.State();
    Looked(s, s1);
    Leave(disk, efi, after);
    Chain(s, s1, disk.State(), {}, {efi}, {efi});
    ok := !fault && exitZero && before.Some? && after.Some? && Delivers(tools, command, before.value, after.value);
    if !ok && !fault { disk.faults := disk.faults + 1; }   // a command that fails by itself
  }

  /** `update_limine_image`: strip the signature, enroll the digest, sign, verify. */
  method UpdateLimineImage(disk: Disk, tools: Toolchain, efi: Path, digest: string) returns (ok: bool)
    requires disk.Valid() && Past(efi, disk.clock)
    modifies disk
    ensures disk.Valid() && disk.clock == old(disk.clock)
    ensures Evolves(old(disk.State()), disk.State(), {efi})
    ensures ok ==> Updated(tools, At(disk.files, efi), digest)
    ensures ok ==>
      disk.log == old(disk.log) + [
        Call(Running("sbattach --remove", ""), efi, false), Call(Running("limine enroll-config", digest), efi, false),
        Call(Running("sbctl sign -s", ""), efi, false), Call(Running("sbctl verify", ""), efi, false)]
    ensures ok <==> disk.faults == old(disk.faults)
  {
    ghost var s := disk.State();
    ok := Run(disk, tools, RemoveSignature, efi);
    if !ok { return; }
    ghost var s1 := disk.State();
    ok := Run(disk, tools, EnrollConfig(digest), efi);
    ghost var s2 := disk.State();
    Chain(s, s1, s2, {efi}, {efi}, {efi});
    if !ok { return; }
    ok := Run(disk, tools, Sign, efi);
    ghost var s3 := disk.State();
    Chain(s, s2, s3, {efi}, {efi}, {efi});
    if !ok { return; }
    ok := Run(disk, tools, Verify, efi);
    Chain(s, s3, disk.State(), {efi}, {efi}, {efi});
  }
}
