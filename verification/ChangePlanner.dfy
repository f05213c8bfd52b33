/** `change_planner.cpp`: which change, if any, the generated text makes to the installed file. */
module ChangePlanner {
  import opened Wrappers
  import opened Filesystem

  datatype ChangeKind = Unchanged | Create | Update

  datatype ChangePlan = ChangePlan(kind: ChangeKind, target: Path, installed: string, generated: string) {
    predicate HasChanges() { kind != Unchanged }
  }

  function NormalizeNewline(text: string): string {
    if text != [] && text[|text| - 1] != '\n' then text + ['\n'] else text
  }

  /** `ChangePlanner::build`, for a target that is missing or can be read. */
  function Build(files: Files, target: Path, generated: string): ChangePlan
    requires At(files, target) != Some(Special)
  {
    var text := NormalizeNewline(generated);
    if target !in files then
      ChangePlan(Create, target, [], text)
    else
      var installed := NormalizeNewline(files[target].bytes);
      ChangePlan(if installed == text then Unchanged else Update, target, installed, text)
  }

  /** A text that ends in the middle of a line. */
  predicate Open(text: string) { text != [] && text[|text| - 1] != '\n' }

  /** The two texts differ at most in the line end of the last line. */
  predicate SameText(a: string, b: string) {
    a == b || (Open(a) && b == a + "\n") || (Open(b) && a == b + "\n")
  }

  lemma NormalizedAgree(a: string, b: string)
    ensures NormalizeNewline(a) == NormalizeNewline(b) <==> SameText(a, b)
  {
    if NormalizeNewline(a) == NormalizeNewline(b) && Open(a) && Open(b) {
      assert (a + "\n")[..|a|] == a && (b + "\n")[..|b|] == b;
    }
  }

  /** The plan creates what is missing, changes nothing exactly when the installed text is the generated
      one but for a last line end, and otherwise installs the generated text with its last line ended. */
  lemma PlanDecides(files: Files, target: Path, generated: string)
    requires At(files, target) != Some(Special)
    ensures
      var plan := Build(files, target, generated);
      && plan.target == target
      && (plan.kind == Create <==> target !in files)
      && (plan.kind == Unchanged <==> target in files && SameText(files[target].bytes, generated))
      && (plan.HasChanges() <==> plan.kind == Create || plan.kind == Update)
      && plan.generated == (if Open(generated) then generated + "\n" else generated)
      && (target in files ==>
            plan.installed == if Open(files[target].bytes) then files[target].bytes + "\n" else files[target].bytes)
      && (target !in files ==> plan.installed == "")
  {
    if target in files { NormalizedAgree(files[target].bytes, generated); }
  }
}
