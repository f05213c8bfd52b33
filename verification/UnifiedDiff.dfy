/** `unified_diff_renderer.cpp`: a longest-common-subsequence table and a greedy walk over it. */
module UnifiedDiff {
  import opened Wrappers
  import opened Filesystem
  import opened ChangePlanner
  import opened Text

  /** One line of an edit script. */
  datatype Edit = Keep(line: string) | Insert(line: string) | Delete(line: string)

  /** The file an edit script starts from. */
  function Before(script: seq<Edit>): seq<string> {
    if script == [] then []
    else
      var n := |script| - 1;
      Before(script[..n]) + (if script[n].Insert? then [] else [script[n].line])
  }

  /** The file an edit script leads to. */
  function After(script: seq<Edit>): seq<string> {
    if script == [] then []
    else
      var n := |script| - 1;
      After(script[..n]) + (if script[n].Delete? then [] else [script[n].line])
  }

  /** The lines both files share along the script. */
  function Kept(script: seq<Edit>): seq<string> {
    if script == [] then []
    else
      var n := |script| - 1;
      Kept(script[..n]) + (if script[n].Keep? then [script[n].line] else [])
  }

  /** The `+` and `-` lines of a script. */
  function Cost(script: seq<Edit>): nat {
    if script == [] then 0
    else
      var n := |script| - 1;
      Cost(script[..n]) + (if script[n].Keep? then 0 else 1)
  }

  ghost predicate IsSubsequence(c: seq<string>, s: seq<string>) {
    c == [] || (s != [] && ((c[0] == s[0] && IsSubsequence(c[1..], s[1..])) || IsSubsequence(c, s[1..])))
  }

  /** The recurrence that fills the table. */
  function Lcs(a: seq<string>, b: seq<string>): nat
    decreases |a| + |b|
  {
    if a == [] || b == [] then 0
    else if a[0] == b[0] then 1 + Lcs(a[1..], b[1..])
    else
      var down, right := Lcs(a[1..], b), Lcs(a, b[1..]);
      if down < right then right else down
  }

  lemma {:induction false} Weaken(c: seq<string>, s: seq<string>)
    requires s != [] && IsSubsequence(c, s[1..])
    ensures IsSubsequence(c, s)
  {
  }

  lemma {:induction false} DropFirst(c: seq<string>, s: seq<string>)
    requires c != [] && IsSubsequence(c, s)
    ensures IsSubsequence(c[1..], s[1..])
    decreases s
  {
    if IsSubsequence(c, s[1..]) && !(c[0] == s[0] && IsSubsequence(c[1..], s[1..])) {
      DropFirst(c, s[1..]);
      Weaken(c[1..], s[1..]);
    }
  }

  /** No common subsequence is longer than the recurrence says. */
  lemma {:induction false} LcsIsBound(c: seq<string>, a: seq<string>, b: seq<string>)
    requires IsSubsequence(c, a) && IsSubsequence(c, b)
    ensures |c| <= Lcs(a, b)
    decreases |a| + |b|
  {
    if c != [] {
      if a[0] == b[0] {
        DropFirst(c, a);
        DropFirst(c, b);
        LcsIsBound(c[1..], a[1..], b[1..]);
      } else if c[0] != a[0] {
        LcsIsBound(c, a[1..], b);
      } else {
        LcsIsBound(c, a, b[1..]);
      }
    }
  }

  /** The recurrence is reached, so it is the length of a longest common subsequence. */
  lemma {:induction false} LcsIsReached(a: seq<string>, b: seq<string>) returns (c: seq<string>)
    ensures IsSubsequence(c, a) && IsSubsequence(c, b) && |c| == Lcs(a, b)
    decreases |a| + |b|
  {
    if a == [] || b == [] {
      c := [];
    } else if a[0] == b[0] {
      var rest := LcsIsReached(a[1..], b[1..]);
      c := [a[0]] + rest;
      assert c[1..] == rest;
    } else if Lcs(a[1..], b) < Lcs(a, b[1..]) {
      c := LcsIsReached(a, b[1..]);
      Weaken(c, b);
    } else {
      c := LcsIsReached(a[1..], b);
      Weaken(c, a);
    }
  }

  lemma {:induction false} AppendBoth(c: seq<string>, s: seq<string>, x: string)
    requires IsSubsequence(c, s)
    ensures IsSubsequence(c + [x], s + [x]) && IsSubsequence(c, s + [x])
    decreases s
  {
    if s == [] {
      assert [x][1..] == [] && c + [x] == [x] && s + [x] == [x];
      assert IsSubsequence([], []);
    } else {
      assert (s + [x])[1..] == s[1..] + [x];
      if c == [] {
        AppendBoth([], s[1..], x);
        assert [] + [x] == [x];
        assert IsSubsequence([x], s[1..] + [x]);
      } else if c[0] == s[0] && IsSubsequence(c[1..], s[1..]) {
        AppendBoth(c[1..], s[1..], x);
        assert (c + [x])[1..] == c[1..] + [x];
      } else {
        AppendBoth(c, s[1..], x);
      }
    }
  }

  /** What a script keeps is a common subsequence of its two files, and its cost is the rest. */
  lemma {:induction false} KeptIsCommon(script: seq<Edit>)
    ensures IsSubsequence(Kept(script), Before(script)) && IsSubsequence(Kept(script), After(script))
    ensures Cost(script) + 2 * |Kept(script)| == |Before(script)| + |After(script)|
  {
    if script != [] {
      var n := |script| - 1;
      var prefix, x := script[..n], script[n].line;
      KeptIsCommon(prefix);
      AppendBoth(Kept(prefix), Before(prefix), x);
      AppendBoth(Kept(prefix), After(prefix), x);
      assert Before(prefix) + [] == Before(prefix) && After(prefix) + [] == After(prefix);
      assert Kept(prefix) + [] == Kept(prefix);
    }
  }

  /** The walk keeps as many lines as the table promises, so every other script between the same
      two files has at least as many `+` and `-` lines. */
  lemma {:induction false} ScriptIsMinimal(script: seq<Edit>, other: seq<Edit>)
    requires Before(other) == Before(script) && After(other) == After(script)
    requires |Kept(script)| == Lcs(Before(script), After(script))
    ensures Cost(script) <= Cost(other)
  {
    KeptIsCommon(script);
    KeptIsCommon(other);
    LcsIsBound(Kept(other), Before(script), After(script));
  }

  /** `lines`: the loop over the text, one `find` at a time. */
  method SplitLines(text: string) returns (result: seq<string>)
    ensures result == Lines(text)
  {
    result := [];
    var start := 0;
    while start < |text|
      invariant 0 <= start <= |text|
      invariant result + Lines(text[start..]) == Lines(text)
    {
      var rest := text[start..];
      var end := Find('\n', rest);
      if end == |rest| {
        result := result + [rest];
        return;
      }
      result := result + [rest[..end]];
      assert rest[end + 1..] == text[start + end + 1..];
      start := start + end + 1;
    }
  }

  lemma LcsCell(before: seq<string>, after: seq<string>, i: nat, j: nat)
    requires i < |before| && j < |after|
    ensures Lcs(before[i..], after[j..]) ==
      if before[i] == after[j] then 1 + Lcs(before[i + 1..], after[j + 1..])
      else
        var down, right := Lcs(before[i + 1..], after[j..]), Lcs(before[i..], after[j + 1..]);
        if down < right then right else down
  {
    assert before[i..][1..] == before[i + 1..] && after[j..][1..] == after[j + 1..];
  }

  /** The table: cell `[i, j]` is the longest-common-subsequence length of the two suffixes. */
  method FillTable(before: seq<string>, after: seq<string>) returns (lcs: array2<nat>)
    ensures fresh(lcs) && lcs.Length0 == |before| + 1 && lcs.Length1 == |after| + 1
    ensures forall i, j :: 0 <= i <= |before| && 0 <= j <= |after| ==> lcs[i, j] == Lcs(before[i..], after[j..])
  {
    var n, m := |before|, |after|;
    lcs := new nat[n + 1, m + 1]((_, _) => 0);
    var i := n;
    while i > 0
      invariant 0 <= i <= n
      invariant forall k, j :: i <= k <= n && 0 <= j <= m ==> lcs[k, j] == Lcs(before[k..], after[j..])
      invariant forall k :: 0 <= k <= n ==> lcs[k, m] == 0
    {
      i := i - 1;
      var j := m;
      while j > 0
        invariant 0 <= j <= m
        invariant forall k, l :: i < k <= n && 0 <= l <= m ==> lcs[k, l] == Lcs(before[k..], after[l..])
        invariant forall l :: j <= l <= m ==> lcs[i, l] == Lcs(before[i..], after[l..])
        invariant forall k :: 0 <= k <= n ==> lcs[k, m] == 0
      {
        j := j - 1;
        LcsCell(before, after, i, j);
        lcs[i, j] := if before[i] == after[j] then 1 + lcs[i + 1, j + 1]
                     else if lcs[i + 1, j] < lcs[i, j + 1] then lcs[i, j + 1] else lcs[i + 1, j];
      }
    }
  }

  /** A script line as it is printed. */
  function Tagged(edit: Edit): string {
    match edit
    case Keep(line) => [' '] + line
    case Insert(line) => ['+'] + line
    case Delete(line) => ['-'] + line
  }

  function TaggedLines(script: seq<Edit>): seq<string> {
    if script == [] then []
    else TaggedLines(script[..|script| - 1]) + [Tagged(script[|script| - 1])]
  }

  lemma Extend(script: seq<Edit>, edit: Edit)
    ensures Before(script + [edit]) == Before(script) + (if edit.Insert? then [] else [edit.line])
    ensures After(script + [edit]) == After(script) + (if edit.Delete? then [] else [edit.line])
    ensures Kept(script + [edit]) == Kept(script) + (if edit.Keep? then [edit.line] else [])
    ensures Join(TaggedLines(script + [edit])) == Join(TaggedLines(script)) + Tagged(edit) + ['\n']
  {
    assert (script + [edit])[..|script|] == script;
    JoinAppend(TaggedLines(script), Tagged(edit));
  }

  /** A script that covers a prefix of both files covers one line more after an edit. */
  lemma Cover(script: seq<Edit>, edit: Edit, before: seq<string>, after: seq<string>, i: nat, j: nat)
    requires i <= |before| && j <= |after|
    requires Before(script) == before[..i] && After(script) == after[..j]
    requires !edit.Insert? ==> i < |before| && edit.line == before[i]
    requires !edit.Delete? ==> j < |after| && edit.line == after[j]
    ensures Before(script + [edit]) == before[..if edit.Insert? then i else i + 1]
    ensures After(script + [edit]) == after[..if edit.Delete? then j else j + 1]
    ensures |Kept(script + [edit])| == |Kept(script)| + (if edit.Keep? then 1 else 0)
    ensures Join(TaggedLines(script + [edit])) == Join(TaggedLines(script)) + Tagged(edit) + ['\n']
  {
    Extend(script, edit);
    assert i < |before| ==> before[..i + 1] == before[..i] + [before[i]];
    assert j < |after| ==> after[..j + 1] == after[..j] + [after[j]];
  }

  /** The edit the walk takes with `i` and `j` lines behind it: equal lines are kept, and a line is
      removed only when adding one instead would lose a common line (or none is left to add). */
  predicate Chosen(edit: Edit, before: seq<string>, after: seq<string>, i: nat, j: nat)
    requires i <= |before| && j <= |after|
  {
    match edit
    case Keep(line) => i < |before| && j < |after| && before[i] == line == after[j]
    case Insert(line) =>
      && j < |after| && after[j] == line
      && (i < |before| ==> before[i] != line && Lcs(before[i + 1..], after[j..]) <= Lcs(before[i..], after[j + 1..]))
    case Delete(line) =>
      && i < |before| && before[i] == line
      && (j < |after| ==> after[j] != line && Lcs(before[i..], after[j + 1..]) < Lcs(before[i + 1..], after[j..]))
  }

  ghost predicate GreedyAt(script: seq<Edit>, before: seq<string>, after: seq<string>, k: nat)
    requires k < |script|
  {
    var i, j := |Before(script[..k])|, |After(script[..k])|;
    i <= |before| && j <= |after| && Chosen(script[k], before, after, i, j)
  }

  /** Every edit of the script is the chosen one at its place. */
  ghost predicate Greedy(script: seq<Edit>, before: seq<string>, after: seq<string>) {
    forall k :: 0 <= k < |script| ==> GreedyAt(script, before, after, k)
  }

  lemma NothingAfterTheEnd(script: seq<Edit>, before: seq<string>, after: seq<string>, k: nat)
    requires Greedy(script, before, after) && k <= |script|
    requires Before(script[..k]) == before && After(script[..k]) == after
    ensures k == |script|
  {
    assert k < |script| ==> !GreedyAt(script, before, after, k);
  }

  lemma {:induction false} SamePrefix(a: seq<Edit>, b: seq<Edit>, before: seq<string>, after: seq<string>, k: nat)
    requires Greedy(a, before, after) && Greedy(b, before, after) && k <= |a| && k <= |b|
    ensures a[..k] == b[..k]
  {
    if k > 0 {
      SamePrefix(a, b, before, after, k - 1);
      assert GreedyAt(a, before, after, k - 1) && GreedyAt(b, before, after, k - 1);
      assert a[..k] == a[..k - 1] + [a[k - 1]] && b[..k] == b[..k - 1] + [b[k - 1]];
    }
  }

  /** There is only one such script, so the walk is fully determined. */
  lemma {:induction false} GreedyIsUnique(a: seq<Edit>, b: seq<Edit>, before: seq<string>, after: seq<string>)
    requires Greedy(a, before, after) && Before(a) == before && After(a) == after
    requires Greedy(b, before, after) && Before(b) == before && After(b) == after
    ensures a == b
  {
    var k := if |a| <= |b| then |a| else |b|;
    SamePrefix(a, b, before, after, k);
    assert a[..|a|] == a && b[..|b|] == b;
    if |a| <= |b| { NothingAfterTheEnd(b, before, after, k); } else { NothingAfterTheEnd(a, before, after, k); }
  }

  lemma GreedyExtends(script: seq<Edit>, edit: Edit, before: seq<string>, after: seq<string>)
    requires Greedy(script, before, after)
    requires |Before(script)| <= |before| && |After(script)| <= |after|
    requires Chosen(edit, before, after, |Before(script)|, |After(script)|)
    ensures Greedy(script + [edit], before, after)
  {
    var more := script + [edit];
    forall k | 0 <= k < |more| ensures GreedyAt(more, before, after, k) {
      if k < |script| {
        assert GreedyAt(script, before, after, k) && more[..k] == script[..k];
      } else {
        assert more[..k] == script;
      }
    }
  }

  /** One step of the walk: equal lines are kept, otherwise the side moves that loses nothing
      of what the table still promises. */
  method NextEdit(before: seq<string>, after: seq<string>, lcs: array2<nat>, i: nat, j: nat) returns (edit: Edit)
    requires i <= |before| && j <= |after| && (i < |before| || j < |after|)
    requires lcs.Length0 == |before| + 1 && lcs.Length1 == |after| + 1
    requires forall k, l :: 0 <= k <= |before| && 0 <= l <= |after| ==> lcs[k, l] == Lcs(before[k..], after[l..])
    ensures Chosen(edit, before, after, i, j)
    ensures lcs[i, j] ==
      (if edit.Keep? then 1 else 0) + lcs[if edit.Insert? then i else i + 1, if edit.Delete? then j else j + 1]
  {
    var n, m := |before|, |after|;
    if i < n && j < m { LcsCell(before, after, i, j); }
    if i < n && j < m && before[i] == after[j] {
      edit := Keep(before[i]);
    } else if j < m && (i == n || lcs[i, j + 1] >= lcs[i + 1, j]) {
      edit := Insert(after[j]);
    } else {
      edit := Delete(before[i]);
    }
  }

  /** The walk over the table, from the start of both files to their ends. */
  method Walk(before: seq<string>, after: seq<string>) returns (out: string, ghost script: seq<Edit>)
    ensures Before(script) == before && After(script) == after
    ensures |Kept(script)| == Lcs(before, after) && Greedy(script, before, after)
    ensures out == Join(TaggedLines(script))
  {
    var n, m := |before|, |after|;
    var lcs := FillTable(before, after);
    out, script := [], [];
    var i, j := 0, 0;
    assert lcs[0, 0] == Lcs(before, after) by { assert before[0..] == before && after[0..] == after; }
    assert lcs[n, m] == 0 by { assert before[n..] == []; }
    while i < n || j < m
      modifies {}
      invariant 0 <= i <= n && 0 <= j <= m
      invariant Before(script) == before[..i] && After(script) == after[..j]
      invariant |Kept(script)| + lcs[i, j] == lcs[0, 0] && Greedy(script, before, after)
      invariant out == Join(TaggedLines(script))
      decreases n - i + m - j
    {
      var edit := NextEdit(before, after, lcs, i, j);
      out := out + Tagged(edit) + ['\n'];
      Cover(script, edit, before, after, i, j);
      GreedyExtends(script, edit, before, after);
      script := script + [edit];
      if !edit.Insert? { i := i + 1; }
      if !edit.Delete? { j := j + 1; }
    }
    assert before[..i] == before && after[..j] == after;
  }

  /** Reading a printed diff back: the ` ` and `-` lines, and the ` ` and `+` lines. */
  function OldSide(lines: seq<string>): seq<string> {
    if lines == [] then []
    else
      var last := lines[|lines| - 1];
      OldSide(lines[..|lines| - 1]) + (if last != [] && last[0] in " -" then [last[1..]] else [])
  }

  function NewSide(lines: seq<string>): seq<string> {
    if lines == [] then []
    else
      var last := lines[|lines| - 1];
      NewSide(lines[..|lines| - 1]) + (if last != [] && last[0] in " +" then [last[1..]] else [])
  }

  lemma SideStep(lines: seq<string>, edit: Edit)
    ensures OldSide(lines + [Tagged(edit)]) == OldSide(lines) + (if edit.Insert? then [] else [edit.line])
    ensures NewSide(lines + [Tagged(edit)]) == NewSide(lines) + (if edit.Delete? then [] else [edit.line])
  {
    assert Tagged(edit)[1..] == edit.line;
    assert (lines + [Tagged(edit)])[..|lines|] == lines;
  }

  lemma {:induction false} SidesOfTagged(script: seq<Edit>)
    requires forall line :: line in Before(script) + After(script) ==> '\n' !in line
    ensures OldSide(TaggedLines(script)) == Before(script)
    ensures NewSide(TaggedLines(script)) == After(script)
    ensures forall line :: line in TaggedLines(script) ==> '\n' !in line
  {
    if script != [] {
      var n := |script| - 1;
      var prefix, edit := script[..n], script[n];
      assert edit.line in Before(script) + After(script);
      assert forall line :: line in Before(prefix) + After(prefix) ==> line in Before(script) + After(script);
      SidesOfTagged(prefix);
      SideStep(TaggedLines(prefix), edit);
    }
  }

  /** What is printed holds both sides of the script. */
  lemma PrintedSides(script: seq<Edit>, before: string, after: string)
    requires Before(script) == Lines(before) && After(script) == Lines(after)
    ensures
      var printed := Lines(Join(TaggedLines(script)));
      printed == TaggedLines(script) && OldSide(printed) == Lines(before) && NewSide(printed) == Lines(after)
  {
    LinesHaveNoLineEnd(before);
    LinesHaveNoLineEnd(after);
    SidesOfTagged(script);
    LinesOfJoin(TaggedLines(script));
  }

  function Header(kind: ChangeKind, target: string, n: nat, m: nat): string {
    var before := "--- " + (if kind == Create then "/dev/null" else target);
    var after := "+++ " + target + " (generated)";
    var counts := "@@ -1," + Decimal(n) + " +1," + Decimal(m) + " @@";
    before + "\n" + after + "\n" + counts + "\n"
  }

  /** What the first three printed lines say: the file on either side, and its number of lines. */
  ghost predicate Announces(printed: seq<string>, plan: ChangePlan, target: string) {
    && |printed| >= 3
    && printed[0] == "--- " + (if plan.kind == Create then "/dev/null" else target)
    && printed[1] == "+++ " + target + " (generated)"
    && exists a, b ::
         && printed[2] == "@@ -1," + a + " +1," + b + " @@" && a != "" && b != ""
         && AllDigits(a) && AllDigits(b) && (a[0] == '0' ==> |a| == 1) && (b[0] == '0' ==> |b| == 1)
         && NumberOf(a) == |Lines(plan.installed)| && NumberOf(b) == |Lines(plan.generated)|
  }

  lemma NoLineEnd(kind: ChangeKind, target: string, a: string, b: string)
    requires '\n' !in target && AllDigits(a) && AllDigits(b)
    ensures '\n' !in "--- " + (if kind == Create then "/dev/null" else target)
    ensures '\n' !in "+++ " + target + " (generated)"
    ensures '\n' !in "@@ -1," + a + " +1," + b + " @@"
  {
    assert '\n' !in "--- " && '\n' !in "/dev/null" && '\n' !in "+++ " && '\n' !in " (generated)";
    assert '\n' !in "@@ -1," && '\n' !in " +1," && '\n' !in " @@" && !IsDigit('\n');
  }

  lemma HeaderAnnounces(plan: ChangePlan, target: string, script: seq<Edit>)
    requires '\n' !in target
    requires Before(script) == Lines(plan.installed) && After(script) == Lines(plan.generated)
    ensures
      var n, m := |Lines(plan.installed)|, |Lines(plan.generated)|;
      var printed := Lines(Header(plan.kind, target, n, m) + Join(TaggedLines(script)));
      Announces(printed, plan, target) && printed[3..] == TaggedLines(script)
  {
    var a, b := Decimal(|Lines(plan.installed)|), Decimal(|Lines(plan.generated)|);
    var before, after, counts := "--- " + (if plan.kind == Create then "/dev/null" else target),
      "+++ " + target + " (generated)", "@@ -1," + a + " +1," + b + " @@";
    var header, body := [before, after, counts], TaggedLines(script);
    LinesHaveNoLineEnd(plan.installed);
    LinesHaveNoLineEnd(plan.generated);
    SidesOfTagged(script);
    JoinThree(before, after, counts, body);
    NoLineEnd(plan.kind, target, a, b);
    assert forall line :: line in header + body ==> line in header || line in body;
    LinesOfJoin(header + body);
    assert (header + body)[3..] == body;
  }

  /** `UnifiedDiffRenderer::render`. For a plan of the change planner the body reconstructs both
      files byte for byte, the header counts its two sides, and no edit script between the two
      files has fewer changed lines. */
  method Render(plan: ChangePlan, target: string) returns (out: string, ghost script: seq<Edit>)
    ensures !plan.HasChanges() ==> out == []
    ensures plan.HasChanges() ==>
      var body := Join(TaggedLines(script));
      && out == Header(plan.kind, target, |OldSide(Lines(body))|, |NewSide(Lines(body))|) + body
      && ('\n' !in target ==>
            Announces(Lines(out), plan, target) && Lines(out)[3..] == TaggedLines(script) == Lines(body))
      && OldSide(Lines(body)) == Lines(plan.installed)
      && NewSide(Lines(body)) == Lines(plan.generated)
      && Before(script) == Lines(plan.installed) && After(script) == Lines(plan.generated)
      && Greedy(script, Lines(plan.installed), Lines(plan.generated))
      && (forall other :: Before(other) == Before(script) && After(other) == After(script) ==>
            Cost(script) <= Cost(other))
  {
    script := [];
    if !plan.HasChanges() { return [], []; }
    var before := SplitLines(plan.installed);
    var after := SplitLines(plan.generated);
    var body;
    body, script := Walk(before, after);
    PrintedSides(script, plan.installed, plan.generated);
    forall other | Before(other) == Before(script) && After(other) == After(script)
      ensures Cost(script) <= Cost(other)
    {
      ScriptIsMinimal(script, other);
    }
    out := Header(plan.kind, target, |before|, |after|) + body;
    if '\n' !in target { HeaderAnnounces(plan, target, script); }
  }

  lemma PlannedTextsEnd(files: Files, target: Path, generated: string)
    requires At(files, target) != Some(Special)
    ensures
      var plan := Build(files, target, generated);
      && (plan.installed != [] ==> plan.installed[|plan.installed| - 1] == '\n')
      && (plan.generated != [] ==> plan.generated[|plan.generated| - 1] == '\n')
  {
  }

  /** The diff of a planned change holds both files completely: its two sides, with line ends,
      are the installed and the generated text. */
  lemma DiffReconstructsBoth(files: Files, target: Path, generated: string, script: seq<Edit>)
    requires At(files, target) != Some(Special)
    requires
      var plan := Build(files, target, generated);
      Before(script) == Lines(plan.installed) && After(script) == Lines(plan.generated)
    ensures
      var plan := Build(files, target, generated);
      var body := Join(TaggedLines(script));
      && Join(OldSide(Lines(body))) == plan.installed
      && Join(NewSide(Lines(body))) == plan.generated
  {
    var plan := Build(files, target, generated);
    PlannedTextsEnd(files, target, generated);
    PrintedSides(script, plan.installed, plan.generated);
    JoinOfLines(plan.installed);
    JoinOfLines(plan.generated);
  }
}
