/** The coalesced refresh protocol: requesters touch a marker file (`automation.cpp`), the holder
    of the refresh lock consumes it in a loop (`main.cpp`), and both run concurrently. */
module RefreshProtocol {

  /** What an observer of the system writes down. `Discovery` is the start of a discovery of the
      worker, `Completed` the end of a refresh run that validated and was not held back. */
  datatype Event = Request | Discovery | Completed | Declined

  /** Where the worker is; `consumed` is its `consumed_pending`. */
  datatype Worker =
    | Idle                          // nobody holds the refresh lock
    | LoopTop                       // before `requests.pending()`
    | Checked(consumed: bool)       // before `requests.clear_pending()`
    | Cleared(consumed: bool)       // before the discovery
    | Refreshing(consumed: bool)    // discovery begun, the run not finished
    | LoopEnd                       // after a completed run, before `while (requests.pending())`
    | Retrying                      // the run was declined, a consumed marker is being re-created

  datatype State = State(marker: bool, worker: Worker, history: seq<Event>)

  datatype Step =
    | RequesterMarks                // `request()`: opening the marker for appending creates it
    | TakeLock
    | CheckPending
    | ClearPending
    | Discover
    | Complete
    | Decline                       // failed validation or blocked activation
    | Remark                        // `requests.request("retry")` after a consumed marker
    | LoopAgain
    | LoopExit
    | Throw                         // an exception ends the command anywhere inside the loop

  ghost predicate Enabled(s: State, step: Step) {
    match step
    case RequesterMarks => true
    case TakeLock => s.worker.Idle?
    case CheckPending => s.worker.LoopTop?
    case ClearPending => s.worker.Checked?
    case Discover => s.worker.Cleared?
    case Complete => s.worker.Refreshing?
    case Decline => s.worker.Refreshing?
    case Remark => s.worker.Retrying?
    case LoopAgain => s.worker.LoopEnd? && s.marker
    case LoopExit => s.worker.LoopEnd? && !s.marker
    case Throw => !s.worker.Idle?
  }

  function Next(s: State, step: Step): State
    requires Enabled(s, step)
  {
    match step
    case RequesterMarks => s.(marker := true, history := s.history + [Request])
    case TakeLock => s.(worker := LoopTop)
    case CheckPending => s.(worker := Checked(s.marker))
    case ClearPending =>
      s.(worker := Cleared(s.worker.consumed), marker := if s.worker.consumed then false else s.marker)
    case Discover => s.(worker := Refreshing(s.worker.consumed), history := s.history + [Discovery])
    case Complete => s.(worker := LoopEnd, history := s.history + [Completed])
    case Decline =>
      s.(worker := if s.worker.consumed then Retrying else Idle, history := s.history + [Declined])
    case Remark => s.(worker := Idle, marker := true)
    case LoopAgain => s.(worker := LoopTop)
    case LoopExit => s.(worker := Idle)
    case Throw => s.(worker := Idle)
  }

  /** Between `d` and `c` the worker was busy with the discovery begun at `d`. */
  ghost predicate Run(history: seq<Event>, d: nat, c: nat) {
    d < c <= |history| && history[d] == Discovery && forall k :: d < k < c ==> history[k] == Request
  }

  /** The request at position `r` was followed by a discovery whose run completed. */
  ghost predicate Served(history: seq<Event>, r: nat) {
    exists d, c :: r < d < c < |history| && Run(history, d, c) && history[c] == Completed
  }

  ghost predicate Pending(s: State, r: nat) {
    r < |s.history| && s.history[r] == Request && !Served(s.history, r)
  }

  /** The worker itself stands in for the marker it consumed. */
  predicate CarriesOver(w: Worker) {
    (w.Cleared? && w.consumed) || w.Retrying?
  }

  /** In a run begun at `d`: without the marker, an unserved request came before the discovery
      and its marker was consumed. */
  ghost predicate Covers(s: State, d: nat) {
    forall r: nat :: Pending(s, r) && !s.marker ==> r < d && s.worker.Refreshing? && s.worker.consumed
  }

  /** Every request is served, or marked, or about to be: the worker has taken the marker and is
      on its way to a discovery, or in a run begun after the request, or re-creating the marker. */
  ghost predicate Inv(s: State) {
    && (s.worker.Refreshing? ==> exists d: nat :: Run(s.history, d, |s.history|) && Covers(s, d))
    && (!s.worker.Refreshing? && !s.marker && !CarriesOver(s.worker) ==> forall r: nat :: !Pending(s, r))
  }

  lemma ServedStays(history: seq<Event>, e: Event, r: nat)
    requires Served(history, r)
    ensures Served(history + [e], r)
  {
    var d, c :| r < d < c < |history| && Run(history, d, c) && history[c] == Completed;
    assert Run(history + [e], d, c);
  }

  lemma PendingBefore(s: State, e: Event, marker: bool, worker: Worker, r: nat)
    requires Pending(State(marker, worker, s.history + [e]), r) && r < |s.history|
    ensures Pending(s, r)
  {
    if Served(s.history, r) { ServedStays(s.history, e, r); }
  }

  /** A completed run serves every request that came before its discovery. */
  lemma CompleteServes(s: State)
    requires Inv(s) && s.worker.Refreshing?
    ensures !s.marker ==> forall r: nat :: !Pending(Next(s, Complete), r)
  {
    var t := Next(s, Complete);
    var d :| Run(s.history, d, |s.history|) && Covers(s, d);
    assert Run(t.history, d, |s.history|) && t.history[|s.history|] == Completed;
    assert forall r: nat :: r < d ==> Served(t.history, r);
    forall r: nat | Pending(t, r) ensures s.marker {
      PendingBefore(s, Completed, t.marker, t.worker, r);
    }
  }

  /** Whatever step is taken next, short of an exception, no request gets lost. */
  lemma StepKeepsInv(s: State, step: Step)
    requires Inv(s) && Enabled(s, step) && step != Throw
    ensures Inv(Next(s, step))
  {
    var t := Next(s, step);
    if t.history != s.history {
      var e := t.history[|s.history|];
      forall r: nat | Pending(t, r) && r < |s.history| ensures Pending(s, r) {
        PendingBefore(s, e, t.marker, t.worker, r);
      }
    } else {
      assert forall r: nat :: Pending(t, r) <==> Pending(s, r);
    }
    match step
    case RequesterMarks =>
      if s.worker.Refreshing? {
        var d :| Run(s.history, d, |s.history|) && Covers(s, d);
        assert Run(t.history, d, |t.history|) && Covers(t, d);
      }
    case Discover =>
      assert Run(t.history, |s.history|, |t.history|) && Covers(t, |s.history|);
    case Complete =>
      CompleteServes(s);
    case Decline =>
      var d :| Run(s.history, d, |s.history|) && Covers(s, d);
    case TakeLock =>
    case CheckPending =>
    case ClearPending =>
    case Remark =>
    case LoopAgain =>
    case LoopExit =>
  }

  const INITIAL := State(false, Idle, [])

  /** A run of the whole system: any interleaving of requesters and of any number of commands
      that take the lock one after the other. */
  ghost predicate Behaviour(states: seq<State>, steps: seq<Step>) {
    && |states| == |steps| + 1 && states[0] == INITIAL
    && forall i :: 0 <= i < |steps| ==> Enabled(states[i], steps[i]) && states[i + 1] == Next(states[i], steps[i])
  }

  /** An exception is harmless where the marker is in place or nothing is consumed. */
  predicate ThrowIsSafe(s: State) {
    s.marker || !(CarriesOver(s.worker) || (s.worker.Refreshing? && s.worker.consumed))
  }

  lemma SafeThrowKeepsInv(s: State)
    requires Inv(s) && Enabled(s, Throw) && ThrowIsSafe(s)
    ensures Inv(Next(s, Throw))
  {
    var t := Next(s, Throw);
    assert forall r: nat :: Pending(t, r) <==> Pending(s, r);
    if s.worker.Refreshing? {
      var d :| Run(s.history, d, |s.history|) && Covers(s, d);
    }
  }

  /** Every exception of the run is harmless. */
  ghost predicate ThrowsSafely(states: seq<State>, steps: seq<Step>)
    requires |states| == |steps| + 1
  {
    forall i :: 0 <= i < |steps| && steps[i] == Throw ==> ThrowIsSafe(states[i])
  }

  lemma {:induction false} ReachableInv(states: seq<State>, steps: seq<Step>, i: nat)
    requires Behaviour(states, steps) && ThrowsSafely(states, steps) && i <= |steps|
    ensures Inv(states[i])
  {
    if i > 0 {
      ReachableInv(states, steps, i - 1);
      if steps[i - 1] == Throw {
        SafeThrowKeepsInv(states[i - 1]);
      } else {
        StepKeepsInv(states[i - 1], steps[i - 1]);
      }
    }
  }

  /** Whenever no command holds the lock, each request so far has its marker in place or was
      followed by a discovery whose run completed, exceptions included as long as they are harmless. */
  lemma NoRequestIsLost(states: seq<State>, steps: seq<Step>, i: nat, r: nat)
    requires Behaviour(states, steps) && ThrowsSafely(states, steps) && i <= |steps|
    requires states[i].worker.Idle? && r < |states[i].history| && states[i].history[r] == Request
    ensures states[i].marker || Served(states[i].history, r)
  {
    ReachableInv(states, steps, i);
    assert !Pending(states[i], r) || states[i].marker;
  }

  /** A command that leaves its loop has served every request made up to that moment. */
  lemma LoopExitServesAll(states: seq<State>, steps: seq<Step>, i: nat, r: nat)
    requires Behaviour(states, steps) && ThrowsSafely(states, steps) && i < |steps| && steps[i].LoopExit?
    requires r < |states[i].history| && states[i].history[r] == Request
    ensures Served(states[i].history, r)
  {
    ReachableInv(states, steps, i);
    assert !Pending(states[i], r);
  }

  /** One request, consumed by a command that then throws: neither marked nor served. */
  lemma ThrowLosesRequest() returns (states: seq<State>, steps: seq<Step>)
    ensures Behaviour(states, steps) && steps != [] && steps[|steps| - 1] == Throw && Throw !in steps[..|steps| - 1]
    ensures
      var s := states[|steps|];
      s.worker.Idle? && !s.marker && s.history == [Request] && !Served(s.history, 0)
  {
    steps := [RequesterMarks, TakeLock, CheckPending, ClearPending, Throw];
    states := [INITIAL,
               State(true, Idle, [Request]),
               State(true, LoopTop, [Request]),
               State(true, Checked(true), [Request]),
               State(false, Cleared(true), [Request]),
               State(false, Idle, [Request])];
  }

  /** Where an exception is not safe it does lose every request that was still waiting: nobody
      holds the lock, there is no marker, and no run has served it. */
  lemma UnsafeThrowLoses(s: State, r: nat)
    requires Inv(s) && Enabled(s, Throw) && !ThrowIsSafe(s) && Pending(s, r)
    ensures
      var t := Next(s, Throw);
      && t.worker.Idle? && !t.marker && t.history[r] == Request && !Served(t.history, r)
      && !Inv(t)
  {
    assert Pending(Next(s, Throw), r);
  }

  /** The first exception that is not harmless loses exactly the requests that were still waiting. */
  lemma FirstUnsafeThrow(states: seq<State>, steps: seq<Step>, i: nat, r: nat)
    requires Behaviour(states, steps) && i < |steps| && steps[i] == Throw && !ThrowIsSafe(states[i])
    requires ThrowsSafely(states[..i + 1], steps[..i])
    requires r < |states[i].history| && states[i].history[r] == Request
    ensures
      var t := states[i + 1];
      t.worker.Idle? && !t.marker && (Served(t.history, r) <==> Served(states[i].history, r))
    ensures Inv(states[i])
  {
    var before := states[..i + 1];
    assert before[i] == states[i];
    ReachableInv(before, steps[..i], i);
  }

  // ---- nothing is invented ----

  /** No run has completed that began after this request, except one whose discovery followed it
      before anything but requests: it came too late for the marker check, and in time for the run. */
  ghost predicate Fresh(history: seq<Event>, r: nat) {
    && r < |history| && history[r] == Request
    && forall d: nat, c: nat :: r < d < c < |history| && Run(history, d, c) && history[c] == Completed ==>
         forall k :: r < k < d ==> history[k] == Request
  }

  ghost predicate SomeFresh(history: seq<Event>) { exists r: nat :: Fresh(history, r) }

  /** After this request came only requests, and the discovery at `d`. */
  ghost predicate Near(history: seq<Event>, r: nat, d: nat) {
    && r < |history| && history[r] == Request
    && forall k :: r < k < |history| && k != d ==> history[k] == Request
  }

  predicate EndsInRequest(history: seq<Event>) { history != [] && history[|history| - 1] == Request }

  /** A marker, or one that was consumed, stands for a fresh request; what a marker set since the last
      look at it stands for is more recent still. */
  ghost predicate Justified(s: State) {
    match s.worker
    case Idle => s.marker ==> SomeFresh(s.history)
    case LoopTop => s.marker ==> SomeFresh(s.history)
    case LoopEnd => s.marker ==> SomeFresh(s.history)
    case Checked(consumed) => if consumed then SomeFresh(s.history) else s.marker ==> EndsInRequest(s.history)
    case Cleared(consumed) => (consumed ==> SomeFresh(s.history)) && (s.marker ==> EndsInRequest(s.history))
    case Refreshing(consumed) =>
      && (consumed ==> SomeFresh(s.history))
      && exists d: nat :: Run(s.history, d, |s.history|) && (s.marker ==> exists r: nat :: Near(s.history, r, d))
    case Retrying => SomeFresh(s.history)
  }

  lemma FreshStays(history: seq<Event>, e: Event)
    requires e == Request || (e != Completed && SomeFresh(history))
    ensures SomeFresh(history + [e])
  {
    if e == Request {
      assert Fresh(history + [e], |history|);
    } else {
      var r: nat :| Fresh(history, r);
      var longer := history + [e];
      forall d: nat, c: nat | r < d < c < |longer| && Run(longer, d, c) && longer[c] == Completed
        ensures forall k :: r < k < d ==> longer[k] == Request
      {
        assert forall k :: d <= k <= c ==> longer[k] == history[k];
        assert Run(history, d, c) && history[c] == Completed;
      }
      assert Fresh(longer, r);
    }
  }

  /** The end of a run leaves the requests near its discovery fresh. */
  lemma NearIsFresh(history: seq<Event>, r: nat, d: nat, tail: seq<Event>)
    requires Near(history, r, d) && |tail| <= 1
    ensures Fresh(history + tail, r)
  {
    var longer := history + tail;
    forall d', c | r < d' < c < |longer| && Run(longer, d', c) && longer[c] == Completed
      ensures forall k :: r < k < d' ==> longer[k] == Request
    {
      assert longer[d'] == Discovery && d' == d;
    }
  }

  lemma LastIsNear(history: seq<Event>, d: nat)
    requires EndsInRequest(history)
    ensures Near(history, |history| - 1, d) && SomeFresh(history)
  {
    NearIsFresh(history, |history| - 1, d, []);
    assert history + [] == history;
  }

  lemma RequestKeepsJustified(s: State)
    requires Justified(s)
    ensures Justified(Next(s, RequesterMarks))
  {
    var t := Next(s, RequesterMarks);
    FreshStays(s.history, Request);
    if s.worker.Refreshing? {
      var d: nat :| Run(s.history, d, |s.history|);
      assert Run(t.history, d, |t.history|) && Near(t.history, |s.history|, d);
    }
  }

  lemma EndKeepsJustified(s: State, step: Step)
    requires Justified(s) && s.worker.Refreshing? && (step == Complete || step == Decline || step == Throw)
    ensures Justified(Next(s, step))
  {
    var d: nat :| Run(s.history, d, |s.history|) && (s.marker ==> exists r: nat :: Near(s.history, r, d));
    var t := Next(s, step);
    var tail := if step == Complete then [Completed] else if step == Decline then [Declined] else [];
    assert t.history == s.history + tail;
    if s.marker {
      var r: nat :| Near(s.history, r, d);
      NearIsFresh(s.history, r, d, tail);
    }
    if step == Decline && s.worker.consumed { FreshStays(s.history, Declined); }
  }

  /** Every step, exceptions included, keeps the markers justified. */
  lemma StepKeepsJustified(s: State, step: Step)
    requires Justified(s) && Enabled(s, step)
    ensures Justified(Next(s, step))
  {
    var t := Next(s, step);
    match step
    case RequesterMarks => RequestKeepsJustified(s);
    case Complete => EndKeepsJustified(s, step);
    case Decline => EndKeepsJustified(s, step);
    case Discover =>
      if s.worker.consumed { FreshStays(s.history, Discovery); }
      if s.marker { assert Near(t.history, |s.history| - 1, |s.history|); }
      assert Run(t.history, |s.history|, |t.history|);
    case Throw =>
      if s.worker.Refreshing? { EndKeepsJustified(s, step); }
      else if EndsInRequest(s.history) { LastIsNear(s.history, 0); }
    case _ =>
  }

  /** Over every run, exceptions of any kind included: there is a marker only for a fresh request, and
      only for one does a command go round its loop again or re-create the marker. */
  lemma {:induction false} NothingIsInvented(states: seq<State>, steps: seq<Step>, i: nat)
    requires Behaviour(states, steps) && i <= |steps|
    ensures Justified(states[i])
    ensures states[i].marker ==> SomeFresh(states[i].history)
    ensures i < |steps| && steps[i] in {LoopAgain, Remark} ==> SomeFresh(states[i].history)
  {
    if i > 0 {
      NothingIsInvented(states, steps, i - 1);
      StepKeepsJustified(states[i - 1], steps[i - 1]);
    }
    var s := states[i];
    if s.marker {
      if s.worker.Refreshing? {
        var d: nat :| Run(s.history, d, |s.history|) && (s.marker ==> exists r: nat :: Near(s.history, r, d));
        var r: nat :| Near(s.history, r, d);
        NearIsFresh(s.history, r, d, []);
        assert s.history + [] == s.history;
      } else if EndsInRequest(s.history) {
        LastIsNear(s.history, 0);
      }
    }
  }

  // ---- what an undisturbed command does ----

  /** The steps can be taken one after the other, and lead from `s` to `t`. */
  ghost predicate Leads(s: State, steps: seq<Step>, t: State)
    decreases |steps|
  {
    if steps == [] then s == t
    else Enabled(s, steps[0]) && Leads(Next(s, steps[0]), steps[1..], t)
  }

  lemma {:induction false} LeadsAppend(s: State, a: seq<Step>, m: State, b: seq<Step>, t: State)
    requires Leads(s, a, m) && Leads(m, b, t)
    ensures Leads(s, a + b, t)
    decreases |a|
  {
    if a == [] {
      assert a + b == b;
    } else {
      assert (a + b)[1..] == a[1..] + b;
      LeadsAppend(Next(s, a[0]), a[1..], m, b, t);
    }
  }

  lemma OneStep(s: State, step: Step)
    requires Enabled(s, step)
    ensures Leads(s, [step], Next(s, step))
  {
    assert [step][1..] == [];
  }

  lemma TwoSteps(s: State, first: Step, second: Step)
    requires Enabled(s, first) && Enabled(Next(s, first), second)
    ensures Leads(s, [first] + [second], Next(Next(s, first), second))
  {
    OneStep(s, first);
    OneStep(Next(s, first), second);
    LeadsAppend(s, [first], Next(s, first), [second], Next(Next(s, first), second));
  }

  /** The look at the marker, and the start of the run. */
  const BEGIN: seq<Step> := [CheckPending] + [ClearPending] + [Discover]

  lemma UpToRun(s: State)
    requires s.worker.LoopTop?
    ensures Leads(s, BEGIN, State(false, Refreshing(s.marker), s.history + [Discovery]))
  {
    var cleared := State(false, Cleared(s.marker), s.history);
    TwoSteps(s, CheckPending, ClearPending);
    OneStep(cleared, Discover);
    LeadsAppend(s, [CheckPending] + [ClearPending], cleared, [Discover], Next(cleared, Discover));
  }

  lemma LockAndRun(s: State)
    requires s.worker.Idle?
    ensures Leads(s, [TakeLock] + BEGIN, State(false, Refreshing(s.marker), s.history + [Discovery]))
  {
    OneStep(s, TakeLock);
    UpToRun(Next(s, TakeLock));
    LeadsAppend(s, [TakeLock], Next(s, TakeLock), BEGIN, State(false, Refreshing(s.marker), s.history + [Discovery]));
  }

  /** A command left alone discovers once, serves what was marked, and leaves no marker. */
  lemma QuietRefresh(s: State)
    requires s.worker.Idle?
    ensures Leads(s, [TakeLock] + BEGIN + ([Complete] + [LoopExit]),
                  State(false, Idle, s.history + [Discovery] + [Completed]))
  {
    var running := State(false, Refreshing(s.marker), s.history + [Discovery]);
    LockAndRun(s);
    TwoSteps(running, Complete, LoopExit);
    LeadsAppend(s, [TakeLock] + BEGIN, running, [Complete] + [LoopExit],
                State(false, Idle, s.history + [Discovery] + [Completed]));
  }

  /** One request during the run costs exactly one more run of the same command. */
  lemma CoalescedRefresh(s: State)
    requires s.worker.Idle?
    ensures Leads(s, [TakeLock] + BEGIN + ([RequesterMarks] + [Complete]) + ([LoopAgain] + BEGIN)
                     + ([Complete] + [LoopExit]),
                  State(false, Idle, s.history + [Discovery] + [Request] + [Completed] + [Discovery] + [Completed]))
  {
    var running := State(false, Refreshing(s.marker), s.history + [Discovery]);
    var ended := State(true, LoopEnd, s.history + [Discovery] + [Request] + [Completed]);
    var again := State(false, Refreshing(true), ended.history + [Discovery]);
    LockAndRun(s);
    TwoSteps(running, RequesterMarks, Complete);
    LeadsAppend(s, [TakeLock] + BEGIN, running, [RequesterMarks] + [Complete], ended);
    OneStep(ended, LoopAgain);
    UpToRun(Next(ended, LoopAgain));
    LeadsAppend(ended, [LoopAgain], Next(ended, LoopAgain), BEGIN, again);
    LeadsAppend(s, [TakeLock] + BEGIN + ([RequesterMarks] + [Complete]), ended, [LoopAgain] + BEGIN, again);
    TwoSteps(again, Complete, LoopExit);
    LeadsAppend(s, [TakeLock] + BEGIN + ([RequesterMarks] + [Complete]) + ([LoopAgain] + BEGIN), again,
                [Complete] + [LoopExit], State(false, Idle, again.history + [Completed]));
  }

  /** A command whose run is declined leaves a marker exactly if it found one. */
  lemma DeclinedRefresh(s: State)
    requires s.worker.Idle?
    ensures Leads(s, [TakeLock] + BEGIN + (if s.marker then [Decline] + [Remark] else [Decline]),
                  State(s.marker, Idle, s.history + [Discovery] + [Declined]))
  {
    var running := State(false, Refreshing(s.marker), s.history + [Discovery]);
    LockAndRun(s);
    if s.marker { TwoSteps(running, Decline, Remark); } else { OneStep(running, Decline); }
    LeadsAppend(s, [TakeLock] + BEGIN, running, if s.marker then [Decline] + [Remark] else [Decline],
                State(s.marker, Idle, s.history + [Discovery] + [Declined]));
  }
}
