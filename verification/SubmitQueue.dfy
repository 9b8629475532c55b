// The operator submit queue: a promise-chain mutex around signed submit-to-receipt cycles, with a
// nonce reset at the start of each cycle and a single retry after a nonce rejection.
module SubmitQueue {
  import opened Options

  datatype TaskEnd = NonceError | OtherError | Completed

  /** How a task run ended, and whether it had put a transaction in the pool. */
  datatype RunEnd = RunEnd(end: TaskEnd, entered: bool)

  /** Where the `run` promise of one enqueueSubmit call stands. */
  datatype Phase =
    | Queued                   // attempt has not been called yet
    | Running                  // signer reset, task started, nothing sent
    | Submitting(nonce: nat)   // nonce chosen, transaction on its way to the node
    | Confirming               // in the pool, waiting for the receipt
    | Settled                  // fulfilled or rejected

  /**
   * `waitsFor` is the call whose caught promise was the mutex when this call was made; `ends` are the ends
   * of its task runs so far; `caught` says whether run.catch(...), the next mutex, has fulfilled.
   */
  datatype Call = Call(waitsFor: Option<nat>, phase: Phase, ends: seq<RunEnd>, caught: bool)

  datatype PoolEntry = PoolEntry(call: nat, nonce: nat)

  /** `pending` is the node's pending count for the operator key; `cached` the signer's next nonce. */
  datatype State = State(calls: seq<Call>, submitMutex: Option<nat>, cached: Option<nat>,
                         pool: seq<PoolEntry>, pending: nat)

  /** A send may be refused for its nonce although the node holds the transaction: "already known". */
  datatype Verdict = Accepted | NonceRejected(entered: bool) | SendFailed(entered: bool)

  predicate Enters(verdict: Verdict) {
    verdict.Accepted? || verdict.entered
  }

  datatype Step =
    | Enqueue
    | Start(call: nat)
    | Throw(call: nat, nonceError: bool)   // the task throws before sending
    | ChooseNonce(call: nat)
    | Submit(call: nat, verdict: Verdict)
    | Confirm(call: nat, mined: bool)
    | Catch(call: nat)
    | OtherKeyUse(pending: nat)            // another process uses the key, or the pool drops entries

  predicate MutexFree(s: State, waitsFor: Option<nat>) {
    waitsFor.Some? ==> waitsFor.value < |s.calls| && s.calls[waitsFor.value].caught
  }

  predicate Enabled(s: State, step: Step) {
    match step
    case Enqueue => true
    case OtherKeyUse(_) => true
    case Start(i) => i < |s.calls| && s.calls[i].phase.Queued? && MutexFree(s, s.calls[i].waitsFor)
    case Throw(i, _) => i < |s.calls| && s.calls[i].phase.Running?
    case ChooseNonce(i) => i < |s.calls| && s.calls[i].phase.Running?
    case Submit(i, verdict) =>
      && i < |s.calls| && s.calls[i].phase.Submitting?
      // the node takes no transaction whose nonce is already used
      && (Enters(verdict) ==> s.pending <= s.calls[i].phase.nonce)
    case Confirm(i, _) => i < |s.calls| && s.calls[i].phase.Confirming?
    case Catch(i) => i < |s.calls| && s.calls[i].phase.Settled? && !s.calls[i].caught
  }

  /** The catch block of attempt: after a nonce error of its first run a call runs its task again. */
  function Ended(c: Call, end: RunEnd): Call {
    c.(ends := c.ends + [end], phase := if end.end == NonceError && c.ends == [] then Running else Settled)
  }

  /** The retry starts with a reset signer. */
  function EndTask(s: State, i: nat, end: RunEnd): State
    requires i < |s.calls|
  {
    var call := Ended(s.calls[i], end);
    s.(calls := s.calls[i := call], cached := if call.phase.Running? then None else s.cached)
  }

  function EnterPool(s: State, i: nat, nonce: nat): State {
    s.(pool := s.pool + [PoolEntry(i, nonce)], pending := if nonce == s.pending then nonce + 1 else s.pending)
  }

  function SetPhase(s: State, i: nat, phase: Phase): State
    requires i < |s.calls|
  {
    s.(calls := s.calls[i := s.calls[i].(phase := phase)])
  }

  function Apply(s: State, step: Step): State
    requires Enabled(s, step)
  {
    match step
    case Enqueue =>
      s.(calls := s.calls + [Call(s.submitMutex, Queued, [], false)], submitMutex := Some(|s.calls|))
    case Start(i) => SetPhase(s, i, Running).(cached := None)
    case Throw(i, nonceError) => EndTask(s, i, RunEnd(if nonceError then NonceError else OtherError, false))
    case ChooseNonce(i) =>
      var nonce := if s.cached.Some? then s.cached.value else s.pending;
      SetPhase(s, i, Submitting(nonce)).(cached := Some(nonce + 1))
    case Submit(i, verdict) =>
      var nonce := s.calls[i].phase.nonce;
      (match verdict
       case Accepted => SetPhase(EnterPool(s, i, nonce), i, Confirming)
       case NonceRejected(entered) => EndTask(if entered then EnterPool(s, i, nonce)
                                              else s, i, RunEnd(NonceError, entered))
       case SendFailed(entered) => EndTask(if entered then EnterPool(s, i, nonce)
                                           else s, i, RunEnd(OtherError, entered)))
    case Confirm(i, mined) => EndTask(s, i, RunEnd(if mined then Completed else OtherError, true))
    case Catch(i) => s.(calls := s.calls[i := s.calls[i].(caught := true)])
    case OtherKeyUse(pending) => s.(pending := pending)
  }

  ghost predicate Reaches(first: State, steps: seq<Step>, last: State)
    decreases |steps|
  {
    if steps == [] then first == last
    else Enabled(first, steps[0]) && Reaches(Apply(first, steps[0]), steps[1..], last)
  }

  ghost predicate Start0(s: State) {
    s.calls == [] && s.submitMutex == None && s.pool == []
  }

  // ---------------------------------------------------------------- what every reachable state keeps

  predicate InFlight(c: Call) {
    c.phase.Running? || c.phase.Submitting? || c.phase.Confirming?
  }

  /** The shape of the promise chain: each call waits for the one before it, and the mutex is the last. */
  ghost predicate Chained(s: State) {
    && s.submitMutex == (if s.calls == [] then None else Some(|s.calls| - 1))
    && forall i | 0 <= i < |s.calls| :: s.calls[i].waitsFor == (if i == 0 then None else Some(i - 1))
  }

  /** A cycle starts only after the call before it has settled and its failure, if any, is caught. */
  ghost predicate Serial(s: State) {
    forall i | 0 <= i < |s.calls| ::
      && (s.calls[i].caught ==> s.calls[i].phase.Settled?)
      && (i > 0 && !s.calls[i].phase.Queued? ==> s.calls[i - 1].caught)
  }

  /** Hence cycles start in call order and never overlap: when one has started, all before it have settled. */
  lemma {:induction false} EarlierCyclesAreOver(s: State, i: nat, j: nat)
    requires Serial(s) && i < j < |s.calls| && !s.calls[j].phase.Queued?
    ensures s.calls[i].caught && s.calls[i].phase.Settled?
    decreases j
  {
    assert s.calls[j - 1].caught;
    if i < j - 1 { EarlierCyclesAreOver(s, i, j - 1); }
  }

  /** One task run, or two and then the first ended in a nonce error. */
  predicate RunsOnceOrRetries(c: Call) {
    match c.phase
    case Queued => c.ends == []
    case Settled =>
      || (|c.ends| == 1 && c.ends[0].end != NonceError)
      || (|c.ends| == 2 && c.ends[0].end == NonceError)
    case _ => c.ends == [] || (|c.ends| == 1 && c.ends[0].end == NonceError)
  }

  /** Pool entries come in call order, and only from calls that have started. */
  ghost predicate PoolInCallOrder(s: State) {
    && (forall p, q | 0 <= p < q < |s.pool| :: s.pool[p].call <= s.pool[q].call)
    && forall p | 0 <= p < |s.pool| :: s.pool[p].call < |s.calls| && !s.calls[s.pool[p].call].phase.Queued?
  }

  function EntriesOf(pool: seq<PoolEntry>, i: nat): nat {
    if pool == [] then 0
    else EntriesOf(pool[..|pool| - 1], i) + if pool[|pool| - 1].call == i then 1 else 0
  }

  /** The runs of a call that put a transaction in the pool, with the one that waits for its receipt. */
  function EnteredRuns(c: Call): nat {
    (if |c.ends| > 0 && c.ends[0].entered then 1 else 0)
    + (if |c.ends| > 1 && c.ends[1].entered then 1 else 0)
    + (if c.phase.Confirming? then 1 else 0)
  }

  ghost predicate EntriesAreRuns(s: State) {
    forall i | 0 <= i < |s.calls| :: EntriesOf(s.pool, i) == EnteredRuns(s.calls[i])
  }

  ghost predicate Safe(s: State) {
    && Chained(s)
    && Serial(s)
    && (forall i | 0 <= i < |s.calls| :: RunsOnceOrRetries(s.calls[i]))
    && PoolInCallOrder(s)
    && EntriesAreRuns(s)
  }

  /** How one call moves, and that no step but its own moves it. */
  lemma OnlyOneCallMoves(s: State, step: Step)
    requires Enabled(s, step) && !step.Enqueue? && !step.OtherKeyUse?
    ensures var t, i := Apply(s, step), step.call;
            && t.submitMutex == s.submitMutex
            && |t.calls| == |s.calls|
            && t.calls == s.calls[i := t.calls[i]]
            && t.calls[i].waitsFor == s.calls[i].waitsFor
            && t.calls[i].caught == (step.Catch? || s.calls[i].caught)
            && (s.calls[i].phase.Queued? <==> step.Start?)
            && (s.calls[i].phase.Settled? <==> step.Catch?)
            && !t.calls[i].phase.Queued?
            && (step.Catch? ==> t.calls[i].phase.Settled? && t.calls[i].ends == s.calls[i].ends)
  {
  }

  lemma StepKeepsSerial(s: State, step: Step)
    requires Chained(s) && Serial(s) && Enabled(s, step)
    ensures Chained(Apply(s, step)) && Serial(Apply(s, step))
  {
    if !step.Enqueue? && !step.OtherKeyUse? {
      OnlyOneCallMoves(s, step);
      var t, k := Apply(s, step), step.call;
      if step.Start? && k > 0 {
        // the mutex this call waits for is the previous call's
        assert s.calls[k].waitsFor == Some(k - 1);
      }
      forall i | 0 <= i < |t.calls| ensures i > 0 && !t.calls[i].phase.Queued? ==> t.calls[i - 1].caught {
        if i != k && i > 0 { assert t.calls[i] == s.calls[i]; }
      }
    }
  }

  /** Ending a run keeps the run count, uses up work and books what entered. */
  lemma EndedCall(c: Call, end: RunEnd)
    requires RunsOnceOrRetries(c) && InFlight(c) && (c.phase.Confirming? ==> end.entered)
    requires c.phase.Confirming? ==> end.end != NonceError
    ensures RunsOnceOrRetries(Ended(c, end)) && WorkLeft(Ended(c, end)) < WorkLeft(c)
    ensures EnteredRuns(Ended(c, end)) == EnteredRuns(c) + if end.entered && !c.phase.Confirming? then 1 else 0
  {
  }

  /** What a queue step makes of its call: it keeps the run count, uses up work and books what entered. */
  lemma MovingCall(s: State, step: Step)
    requires Enabled(s, step) && QueueStep(step) && RunsOnceOrRetries(s.calls[step.call])
    requires s.calls[step.call].phase.Settled? ==> !s.calls[step.call].caught
    ensures |Apply(s, step).calls| == |s.calls|
    ensures var c, d := s.calls[step.call], Apply(s, step).calls[step.call];
            && RunsOnceOrRetries(d) && WorkLeft(d) < WorkLeft(c)
            && EnteredRuns(d) == EnteredRuns(c) + if step.Submit? && Enters(step.verdict) then 1 else 0
  {
    var c := s.calls[step.call];
    match step {
      case Throw(_, nonceError) => EndedCall(c, RunEnd(if nonceError then NonceError else OtherError, false));
      case Confirm(_, mined) => EndedCall(c, RunEnd(if mined then Completed else OtherError, true));
      case Submit(_, NonceRejected(entered)) => EndedCall(c, RunEnd(NonceError, entered));
      case Submit(_, SendFailed(entered)) => EndedCall(c, RunEnd(OtherError, entered));
      case _ =>
    }
  }

  lemma StepKeepsRunCount(s: State, step: Step)
    requires Safe(s) && Enabled(s, step)
    ensures forall i | 0 <= i < |Apply(s, step).calls| :: RunsOnceOrRetries(Apply(s, step).calls[i])
  {
    var t := Apply(s, step);
    forall i | 0 <= i < |t.calls| ensures RunsOnceOrRetries(t.calls[i]) {
      if QueueStep(step) {
        OnlyOneCallMoves(s, step);
        MovingCall(s, step);
      }
    }
  }

  /** Only the call in flight can enter the pool, and no entry belongs to a later call. */
  lemma EntersPoolInOrder(s: State, i: nat)
    requires Safe(s) && i < |s.calls| && s.calls[i].phase.Submitting?
    ensures forall p | 0 <= p < |s.pool| :: s.pool[p].call <= i
  {
    forall p | 0 <= p < |s.pool| ensures s.pool[p].call <= i {
      if i < s.pool[p].call { EarlierCyclesAreOver(s, i, s.pool[p].call); }
    }
  }

  /** A step adds at most one entry, of the call that sends, and leaves no started call queued. */
  lemma StepEntersOnce(s: State, step: Step)
    requires Enabled(s, step)
    ensures var t := Apply(s, step);
            && |s.calls| <= |t.calls|
            && (forall i | 0 <= i < |s.calls| && !s.calls[i].phase.Queued? :: !t.calls[i].phase.Queued?)
            && t.pool == if step.Submit? && Enters(step.verdict)
                         then s.pool + [PoolEntry(step.call, s.calls[step.call].phase.nonce)] else s.pool
  {
  }

  lemma StepKeepsPool(s: State, step: Step)
    requires Safe(s) && Enabled(s, step)
    ensures PoolInCallOrder(Apply(s, step))
  {
    StepEntersOnce(s, step);
    if step.Submit? { EntersPoolInOrder(s, step.call); }
  }

  lemma EntriesAfter(pool: seq<PoolEntry>, e: PoolEntry, i: nat)
    ensures EntriesOf(pool + [e], i) == EntriesOf(pool, i) + if e.call == i then 1 else 0
  {
    assert (pool + [e])[..|pool|] == pool;
  }

  lemma {:induction false} NoEntryOfLaterCalls(pool: seq<PoolEntry>, i: nat)
    requires forall p | 0 <= p < |pool| :: pool[p].call < i
    ensures EntriesOf(pool, i) == 0
  {
    if pool != [] { NoEntryOfLaterCalls(pool[..|pool| - 1], i); }
  }

  lemma StepKeepsEntries(s: State, step: Step)
    requires Safe(s) && Enabled(s, step)
    ensures EntriesAreRuns(Apply(s, step))
  {
    var t := Apply(s, step);
    StepEntersOnce(s, step);
    forall i | 0 <= i < |t.calls| ensures EntriesOf(t.pool, i) == EnteredRuns(t.calls[i]) {
      if step.Enqueue? {
        NoEntryOfLaterCalls(s.pool, |s.calls|);
      } else if !step.OtherKeyUse? {
        OnlyOneCallMoves(s, step);
        MovingCall(s, step);
        if t.pool != s.pool { EntriesAfter(s.pool, PoolEntry(step.call, s.calls[step.call].phase.nonce), i); }
      }
    }
  }

  lemma StepIsSafe(s: State, step: Step)
    requires Safe(s) && Enabled(s, step)
    ensures Safe(Apply(s, step))
  {
    StepKeepsSerial(s, step);
    StepKeepsRunCount(s, step);
    StepKeepsPool(s, step);
    StepKeepsEntries(s, step);
  }

  lemma {:induction false} RunIsSafe(first: State, steps: seq<Step>, last: State)
    requires Start0(first) || Safe(first)
    requires Reaches(first, steps, last)
    ensures Safe(last)
    decreases |steps|
  {
    if steps != [] {
      StepIsSafe(first, steps[0]);
      RunIsSafe(Apply(first, steps[0]), steps[1..], last);
    }
  }

  /**
   * In every reachable state, a started cycle finds all earlier ones settled: cycles run one at a time, in call order.
   */
  lemma CyclesNeverOverlap(first: State, steps: seq<Step>, last: State, i: nat, j: nat)
    requires Start0(first) && Reaches(first, steps, last)
    requires i < j < |last.calls| && !last.calls[j].phase.Queued?
    ensures last.calls[i].phase.Settled? && !InFlight(last.calls[i])
  {
    RunIsSafe(first, steps, last);
    EarlierCyclesAreOver(last, i, j);
  }

  /** A settled call ran its task once, or twice and then exactly because the first run ended in a nonce error. */
  lemma RetriedOnlyAfterNonceError(first: State, steps: seq<Step>, last: State, i: nat)
    requires Start0(first) && Reaches(first, steps, last)
    requires i < |last.calls| && last.calls[i].phase.Settled?
    ensures 1 <= |last.calls[i].ends| <= 2
    ensures |last.calls[i].ends| == 2 <==> last.calls[i].ends[0].end == NonceError
  {
    RunIsSafe(first, steps, last);
  }

  /** Pool order is call order, whatever entered the pool. */
  lemma TransactionsEnterInCallOrder(first: State, steps: seq<Step>, last: State, p: nat, q: nat)
    requires Start0(first) && Reaches(first, steps, last)
    requires p < q < |last.pool|
    ensures last.pool[p].call <= last.pool[q].call < |last.calls|
  {
    RunIsSafe(first, steps, last);
  }

  /**
   * One transaction per call, exactly: a settled call has put at most one in the pool if and only if it ran once,
       or its
   * first, refused run had entered nothing, or its second run entered nothing. More than two are never there.
   */
  lemma AtMostOneTransactionExactly(first: State, steps: seq<Step>, last: State, i: nat)
    requires Start0(first) && Reaches(first, steps, last)
    requires i < |last.calls| && last.calls[i].phase.Settled?
    ensures var ends := last.calls[i].ends;
            && EntriesOf(last.pool, i) <= 2
            && (EntriesOf(last.pool, i) <= 1 <==> |ends| < 2 || !ends[0].entered || !ends[1].entered)
  {
    RunIsSafe(first, steps, last);
    assert RunsOnceOrRetries(last.calls[i]);
  }

  /** Every nonce refusal means that nothing entered the pool. */
  ghost predicate RefusalsEnterNothing(steps: seq<Step>) {
    forall step | step in steps && step.Submit? :: step.verdict != NonceRejected(true)
  }

  predicate RetriesAreSafe(c: Call) {
    forall i | 0 <= i < |c.ends| :: c.ends[i].end == NonceError ==> !c.ends[i].entered
  }

  lemma {:induction false} RetriesStaySafe(first: State, steps: seq<Step>, last: State)
    requires Reaches(first, steps, last) && RefusalsEnterNothing(steps)
    requires forall i | 0 <= i < |first.calls| :: RetriesAreSafe(first.calls[i])
    ensures forall i | 0 <= i < |last.calls| :: RetriesAreSafe(last.calls[i])
    decreases |steps|
  {
    if steps != [] {
      var step := steps[0];
      assert step in steps && step.Submit? ==> step.verdict != NonceRejected(true);
      forall i | 0 <= i < |Apply(first, step).calls| ensures RetriesAreSafe(Apply(first, step).calls[i]) {
        if i < |first.calls| { assert RetriesAreSafe(first.calls[i]); }
      }
      assert forall next | next in steps[1..] :: next in steps;
      RetriesStaySafe(Apply(first, step), steps[1..], last);
    }
  }

  lemma {:induction false} TwoEntriesAreCounted(pool: seq<PoolEntry>, p: nat, q: nat)
    requires p < q < |pool| && pool[p].call == pool[q].call
    ensures EntriesOf(pool, pool[p].call) >= 2
  {
    var n := |pool| - 1;
    if q < n {
      TwoEntriesAreCounted(pool[..n], p, q);
    } else {
      OneEntryIsCounted(pool[..n], p);
    }
  }

  lemma {:induction false} OneEntryIsCounted(pool: seq<PoolEntry>, p: nat)
    requires p < |pool|
    ensures EntriesOf(pool, pool[p].call) >= 1
  {
    var n := |pool| - 1;
    if p < n { OneEntryIsCounted(pool[..n], p); }
  }

  /** If refusals enter nothing, each call puts at most one transaction in the pool, in call order. */
  lemma AtMostOneTransactionPerCall(first: State, steps: seq<Step>, last: State, p: nat, q: nat)
    requires Start0(first) && Reaches(first, steps, last) && RefusalsEnterNothing(steps)
    requires p < q < |last.pool|
    ensures last.pool[p].call < last.pool[q].call < |last.calls|
  {
    RunIsSafe(first, steps, last);
    RetriesStaySafe(first, steps, last);
    var c := last.calls[last.pool[p].call];
    assert RunsOnceOrRetries(c) && RetriesAreSafe(c) && EnteredRuns(c) <= 1;
    if last.pool[p].call == last.pool[q].call { TwoEntriesAreCounted(last.pool, p, q); }
  }

  /** A refusal as already known does lead to two: the first send is held by the node, and the retry is accepted. */
  lemma TwoTransactionsHappen(pending: nat)
    ensures var first := State([], None, None, [], pending);
            exists steps, last ::
              && Start0(first) && Reaches(first, steps, last)
              && last.pool == [PoolEntry(0, pending), PoolEntry(0, pending + 1)]
  {
    var s0 := State([], None, None, [], pending);
    var held := PoolEntry(0, pending);
    var once := [RunEnd(NonceError, true)];
    var s1 := State([Call(None, Queued, [], false)], Some(0), None, [], pending);
    var s2 := State([Call(None, Running, [], false)], Some(0), None, [], pending);
    var s3 := State([Call(None, Submitting(pending), [], false)], Some(0), Some(pending + 1), [], pending);
    var s4 := State([Call(None, Running, once, false)], Some(0), None, [held], pending + 1);
    var s5 := State([Call(None, Submitting(pending + 1), once, false)], Some(0), Some(pending + 2), [held],
                    pending + 1);
    var s6 := State([Call(None, Confirming, once, false)], Some(0), Some(pending + 2),
                    [held, PoolEntry(0, pending + 1)], pending + 2);
    assert [] + [held] == [held] && [] + once == once;
    OneStep(s5, Submit(0, Accepted), [], s6, s6);
    OneStep(s4, ChooseNonce(0), [Submit(0, Accepted)], s5, s6);
    OneStep(s3, Submit(0, NonceRejected(true)), [ChooseNonce(0)] + [Submit(0, Accepted)], s4, s6);
    var late := [Submit(0, NonceRejected(true))] + ([ChooseNonce(0)] + [Submit(0, Accepted)]);
    OneStep(s2, ChooseNonce(0), late, s3, s6);
    OneStep(s1, Start(0), [ChooseNonce(0)] + late, s2, s6);
    OneStep(s0, Enqueue, [Start(0)] + ([ChooseNonce(0)] + late), s1, s6);
  }

  lemma OneStep(s: State, step: Step, rest: seq<Step>, next: State, last: State)
    requires Enabled(s, step) && Apply(s, step) == next && Reaches(next, rest, last)
    ensures Reaches(s, [step] + rest, last)
  {
    assert ([step] + rest)[1..] == rest;
  }

  // ---------------------------------------------------------------- a call settles once

  lemma SettledStaysSettled(s: State, step: Step, i: nat)
    requires Enabled(s, step) && i < |s.calls| && s.calls[i].phase.Settled?
    ensures var t := Apply(s, step);
            && i < |t.calls| && t.calls[i].phase.Settled? && t.calls[i].ends == s.calls[i].ends
            && s.pool <= t.pool && forall p | |s.pool| <= p < |t.pool| :: t.pool[p].call != i
  {
    StepEntersOnce(s, step);
    if QueueStep(step) { OnlyOneCallMoves(s, step); }
  }

  lemma {:induction false} SettledIsFinal(first: State, steps: seq<Step>, last: State, i: nat)
    requires Safe(first) && Reaches(first, steps, last)
    requires i < |first.calls| && first.calls[i].phase.Settled?
    ensures i < |last.calls| && last.calls[i].phase.Settled? && last.calls[i].ends == first.calls[i].ends
    ensures first.pool <= last.pool && forall p | |first.pool| <= p < |last.pool| :: last.pool[p].call != i
    decreases |steps|
  {
    if steps != [] {
      var step := steps[0];
      StepIsSafe(first, step);
      SettledStaysSettled(first, step, i);
      SettledIsFinal(Apply(first, step), steps[1..], last, i);
    }
  }

  // ---------------------------------------------------------------- how a call ends, read off the steps

  predicate IsNonceErrorOf(step: Step, i: nat) {
    step == Throw(i, true) || step == Submit(i, NonceRejected(true)) || step == Submit(i, NonceRejected(false))
  }

  predicate IsOtherErrorOf(step: Step, i: nat) {
    || step == Throw(i, false) || step == Confirm(i, false)
    || step == Submit(i, SendFailed(true)) || step == Submit(i, SendFailed(false))
  }

  /** The end that a step brings to a run of call i, if it does. */
  function EndOf(step: Step, i: nat): seq<TaskEnd> {
    if IsNonceErrorOf(step, i) then [NonceError]
    else if IsOtherErrorOf(step, i) then [OtherError]
    else if step == Confirm(i, true) then [Completed]
    else []
  }

  function EndsIn(steps: seq<Step>, i: nat): seq<TaskEnd> {
    if steps == [] then [] else EndOf(steps[0], i) + EndsIn(steps[1..], i)
  }

  function EndsOf(ends: seq<RunEnd>): (r: seq<TaskEnd>)
    ensures |r| == |ends| && forall k | 0 <= k < |r| :: r[k] == ends[k].end
  {
    if ends == [] then [] else EndsOf(ends[..|ends| - 1]) + [ends[|ends| - 1].end]
  }

  function EndsSoFar(s: State, i: nat): seq<TaskEnd> {
    if i < |s.calls| then EndsOf(s.calls[i].ends) else []
  }

  /** What a step adds to the ends of its call. */
  function RunEndOf(step: Step): seq<RunEnd> {
    match step
    case Throw(_, nonceError) => [RunEnd(if nonceError then NonceError else OtherError, false)]
    case Confirm(_, mined) => [RunEnd(if mined then Completed else OtherError, true)]
    case Submit(_, NonceRejected(entered)) => [RunEnd(NonceError, entered)]
    case Submit(_, SendFailed(entered)) => [RunEnd(OtherError, entered)]
    case _ => []
  }

  lemma EndsOfJoin(ends: seq<RunEnd>, more: seq<RunEnd>)
    requires |more| <= 1
    ensures EndsOf(ends + more) == EndsOf(ends) + EndsOf(more)
  {
    if more != [] {
      assert (ends + more)[..|ends|] == ends && more[..0] == [];
    }
  }

  lemma EndOfItsStep(step: Step, i: nat)
    ensures EndOf(step, i) == if QueueStep(step) && step.call == i then EndsOf(RunEndOf(step)) else []
  {
    assert |RunEndOf(step)| <= 1;
  }

  lemma StepAddsItsEnd(s: State, step: Step)
    requires Enabled(s, step) && QueueStep(step)
    ensures |Apply(s, step).calls| == |s.calls|
    ensures Apply(s, step).calls[step.call].ends == s.calls[step.call].ends + RunEndOf(step)
  {
    assert s.calls[step.call].ends + [] == s.calls[step.call].ends;
  }

  lemma StepTellsEnd(s: State, step: Step, i: nat)
    requires Enabled(s, step)
    ensures EndsSoFar(Apply(s, step), i) == EndsSoFar(s, i) + EndOf(step, i)
  {
    EndOfItsStep(step, i);
    assert EndsSoFar(s, i) + [] == EndsSoFar(s, i);
    if QueueStep(step) {
      OnlyOneCallMoves(s, step);
      if step.call == i {
        StepAddsItsEnd(s, step);
        EndsOfJoin(s.calls[i].ends, RunEndOf(step));
      }
    }
  }

  lemma Reassociate<T>(a: seq<T>, b: seq<T>, c: seq<T>)
    ensures a + b + c == a + (b + c)
  {
  }

  lemma {:induction false} EndsAreTold(first: State, steps: seq<Step>, last: State, i: nat)
    requires Reaches(first, steps, last)
    ensures EndsSoFar(last, i) == EndsSoFar(first, i) + EndsIn(steps, i)
    decreases |steps|
  {
    if steps != [] {
      StepTellsEnd(first, steps[0], i);
      Reassociate(EndsSoFar(first, i), EndOf(steps[0], i), EndsIn(steps[1..], i));
      EndsAreTold(Apply(first, steps[0]), steps[1..], last, i);
    } else {
      assert EndsSoFar(first, i) + [] == EndsSoFar(first, i);
    }
  }

  function NonceErrorsIn(steps: seq<Step>, i: nat): nat {
    if steps == [] then 0 else (if IsNonceErrorOf(steps[0], i) then 1 else 0) + NonceErrorsIn(steps[1..], i)
  }

  lemma {:induction false} EndsInTells(steps: seq<Step>, i: nat)
    ensures Completed in EndsIn(steps, i) <==> Confirm(i, true) in steps
    ensures NonceErrorsIn(steps, i) == Occurrences(EndsIn(steps, i))
  {
    if steps != [] {
      EndsInTells(steps[1..], i);
      JoinedOccurrences(EndOf(steps[0], i), EndsIn(steps[1..], i));
      assert steps == [steps[0]] + steps[1..];
    }
  }

  /** How often a run ended in a nonce error. */
  function Occurrences(ends: seq<TaskEnd>): nat {
    if ends == [] then 0 else (if ends[0] == NonceError then 1 else 0) + Occurrences(ends[1..])
  }

  lemma {:induction false} JoinedOccurrences(a: seq<TaskEnd>, b: seq<TaskEnd>)
    ensures Occurrences(a + b) == Occurrences(a) + Occurrences(b)
  {
    if a == [] {
      assert a + b == b;
    } else {
      assert (a + b)[1..] == a[1..] + b;
      JoinedOccurrences(a[1..], b);
    }
  }

  lemma FewOccurrences(ends: seq<TaskEnd>)
    requires |ends| == 1 || |ends| == 2
    ensures Occurrences(ends) == 2 <==> |ends| == 2 && ends[0] == NonceError && ends[1] == NonceError
  {
    assert Occurrences(ends[1..]) <= |ends| - 1;
    if |ends| == 2 { assert ends[1..][1..] == []; }
  }

  /**
   * How a settled call ends, read off the steps of any run: it is fulfilled exactly if the receipt of its transaction
   * showed it mined, and then it has an entry in the pool; it is rejected with a nonce error exactly if both its runs
   * met one.
   */
  lemma CallIsFulfilledExactly(first: State, steps: seq<Step>, last: State, i: nat)
    requires Start0(first) && Reaches(first, steps, last)
    requires i < |last.calls| && last.calls[i].phase.Settled?
    ensures last.calls[i].ends != []
    ensures var end := last.calls[i].ends[|last.calls[i].ends| - 1].end;
            && (end == Completed <==> Confirm(i, true) in steps)
            && (end == Completed ==> EntriesOf(last.pool, i) >= 1)
            && (end == NonceError <==> NonceErrorsIn(steps, i) == 2)
  {
    var c := last.calls[i];
    RunIsSafe(first, steps, last);
    assert RunsOnceOrRetries(c);
    EndsAreTold(first, steps, last, i);
    assert [] + EndsIn(steps, i) == EndsIn(steps, i) == EndsOf(c.ends);
    EndsInTells(steps, i);
    FewOccurrences(EndsOf(c.ends));
    CompletedRunsEntered(first, steps, last);
    assert CompletedEntered(c);
  }

  /** A run that completed had put its transaction in the pool. */
  predicate CompletedEntered(c: Call) {
    forall k | 0 <= k < |c.ends| :: c.ends[k].end == Completed ==> c.ends[k].entered
  }

  lemma {:induction false} CompletedRunsEntered(first: State, steps: seq<Step>, last: State)
    requires Reaches(first, steps, last)
    requires forall i | 0 <= i < |first.calls| :: CompletedEntered(first.calls[i])
    ensures forall i | 0 <= i < |last.calls| :: CompletedEntered(last.calls[i])
    decreases |steps|
  {
    if steps != [] {
      var next := Apply(first, steps[0]);
      forall i | 0 <= i < |next.calls| ensures CompletedEntered(next.calls[i]) {
        if i < |first.calls| { assert CompletedEntered(first.calls[i]); }
      }
      CompletedRunsEntered(next, steps[1..], last);
    }
  }

  /** The pool entries of a call, read off the steps: its sends that were accepted, or failed but entered. */
  function EntriesIn(steps: seq<Step>, i: nat): nat {
    if steps == [] then 0
    else
      (if steps[0] in {Submit(i, Accepted), Submit(i, NonceRejected(true)), Submit(i, SendFailed(true))} then 1 else 0)
      + EntriesIn(steps[1..], i)
  }

  lemma {:induction false} EntriesAreTold(first: State, steps: seq<Step>, last: State, i: nat)
    requires Reaches(first, steps, last)
    ensures EntriesOf(last.pool, i) == EntriesOf(first.pool, i) + EntriesIn(steps, i)
    decreases |steps|
  {
    if steps != [] {
      var step := steps[0];
      StepEntersOnce(first, step);
      if step.Submit? && Enters(step.verdict) {
        EntriesAfter(first.pool, PoolEntry(step.call, first.calls[step.call].phase.nonce), i);
      }
      EntriesAreTold(Apply(first, step), steps[1..], last, i);
    }
  }

  // ---------------------------------------------------------------- exclusive use of the key

  ghost predicate Exclusive(steps: seq<Step>) {
    forall step | step in steps :: !step.OtherKeyUse?
  }

  /** Accepted nonces count up from the pending count at the start, and a chosen nonce is the fresh count. */
  ghost predicate ConsecutiveNonces(s: State, base: nat) {
    && s.pending == base + |s.pool|
    && (forall p | 0 <= p < |s.pool| :: s.pool[p].nonce == base + p)
    && forall i | 0 <= i < |s.calls| :: HoldsFreshNonce(s, s.calls[i])
  }

  /** No other call is in flight, so no other call holds a nonce this step could outdate. */
  lemma OnlyOneInFlight(s: State, step: Step, i: nat)
    requires Safe(s) && Enabled(s, step) && QueueStep(step) && !step.Catch?
    requires i < |s.calls| && i != step.call
    ensures !InFlight(s.calls[i])
  {
    var k := step.call;
    if InFlight(s.calls[i]) {
      if k < i {
        EarlierCyclesAreOver(s, k, i);
      } else if !s.calls[k].phase.Queued? {
        EarlierCyclesAreOver(s, i, k);
      } else if i < k - 1 {
        EarlierCyclesAreOver(s, i, k - 1);
      }
    }
  }

  predicate HoldsFreshNonce(s: State, c: Call) {
    && (c.phase.Running? ==> s.cached == None)
    && (c.phase.Submitting? ==> c.phase.nonce == s.pending)
  }

  lemma MovingCallHoldsFreshNonce(s: State, step: Step)
    requires Enabled(s, step) && QueueStep(step) && HoldsFreshNonce(s, s.calls[step.call])
    ensures HoldsFreshNonce(Apply(s, step), Apply(s, step).calls[step.call])
  {
  }

  lemma StepKeepsPending(s: State, step: Step, base: nat)
    requires Enabled(s, step) && !step.OtherKeyUse? && ConsecutiveNonces(s, base)
    ensures var t := Apply(s, step);
            t.pending == base + |t.pool| && forall p | 0 <= p < |t.pool| :: t.pool[p].nonce == base + p
  {
    StepEntersOnce(s, step);
    if step.Submit? { assert HoldsFreshNonce(s, s.calls[step.call]); }
  }

  lemma StepKeepsNoncesConsecutive(s: State, step: Step, base: nat)
    requires Safe(s) && Enabled(s, step) && !step.OtherKeyUse?
    requires ConsecutiveNonces(s, base)
    ensures ConsecutiveNonces(Apply(s, step), base)
  {
    var t := Apply(s, step);
    StepKeepsPending(s, step, base);
    forall i | 0 <= i < |t.calls| ensures HoldsFreshNonce(t, t.calls[i]) {
      if !step.Enqueue? {
        OnlyOneCallMoves(s, step);
        assert HoldsFreshNonce(s, s.calls[i]);
        if i == step.call {
          MovingCallHoldsFreshNonce(s, step);
        } else if !step.Catch? {
          OnlyOneInFlight(s, step, i);
        }
      } else if i < |s.calls| {
        assert HoldsFreshNonce(s, s.calls[i]);
      }
    }
  }

  /** With exclusive use of the key, accepted transactions carry consecutive nonces in call order. */
  lemma {:induction false} NoncesAreConsecutive(first: State, steps: seq<Step>, last: State, base: nat)
    requires (Start0(first) && first.pending == base) || (Safe(first) && ConsecutiveNonces(first, base))
    requires Exclusive(steps) && Reaches(first, steps, last)
    ensures Safe(last) && ConsecutiveNonces(last, base)
    decreases |steps|
  {
    if steps != [] {
      StepIsSafe(first, steps[0]);
      StepKeepsNoncesConsecutive(first, steps[0], base);
      NoncesAreConsecutive(Apply(first, steps[0]), steps[1..], last, base);
    }
  }

  // ---------------------------------------------------------------- no failure blocks later calls

  /** Queue steps a call still has ahead of it, at most. */
  function WorkLeft(c: Call): nat {
    match c.phase
    case Queued => 7
    case Running => if c.ends == [] then 6 else 4
    case Submitting(_) => if c.ends == [] then 5 else 3
    case Confirming => 2
    case Settled => if c.caught then 0 else 1
  }

  function TotalWork(calls: seq<Call>): nat {
    if calls == [] then 0 else TotalWork(calls[..|calls| - 1]) + WorkLeft(calls[|calls| - 1])
  }

  lemma {:induction false} WorkOfUpdate(calls: seq<Call>, i: nat, c: Call)
    requires i < |calls|
    ensures TotalWork(calls[i := c]) == TotalWork(calls) - WorkLeft(calls[i]) + WorkLeft(c)
  {
    var n := |calls| - 1;
    if i == n {
      assert calls[i := c][..n] == calls[..n];
    } else {
      assert calls[i := c][..n] == calls[..n][i := c];
      WorkOfUpdate(calls[..n], i, c);
    }
  }

  predicate QueueStep(step: Step) {
    !step.Enqueue? && !step.OtherKeyUse?
  }

  lemma QueueStepsUseUpWork(s: State, step: Step)
    requires Safe(s) && Enabled(s, step) && QueueStep(step)
    ensures TotalWork(Apply(s, step).calls) < TotalWork(s.calls)
  {
    OnlyOneCallMoves(s, step);
    MovingCall(s, step);
    WorkOfUpdate(s.calls, step.call, Apply(s, step).calls[step.call]);
  }

  /** Whatever failed before, while a call is unsettled the queue can move. */
  lemma {:induction false} QueueNeverStalls(s: State, i: nat)
    requires Safe(s) && i < |s.calls| && !s.calls[i].caught
    ensures exists step :: QueueStep(step) && Enabled(s, step)
    decreases i
  {
    match s.calls[i].phase
    case Queued =>
      if i > 0 && !s.calls[i - 1].caught {
        QueueNeverStalls(s, i - 1);
      } else {
        assert Enabled(s, Start(i)) && QueueStep(Start(i));
      }
    case Running => assert Enabled(s, ChooseNonce(i)) && QueueStep(ChooseNonce(i));
    case Submitting(_) => assert Enabled(s, Submit(i, NonceRejected(false)))
        && QueueStep(Submit(i, NonceRejected(false)));
    case Confirming => assert Enabled(s, Confirm(i, true)) && QueueStep(Confirm(i, true));
    case Settled => assert Enabled(s, Catch(i)) && QueueStep(Catch(i));
  }

  function QueueSteps(steps: seq<Step>): nat {
    if steps == [] then 0 else (if QueueStep(steps[0]) then 1 else 0) + QueueSteps(steps[1..])
  }

  /**
   * Liveness without a clock: between two enqueues the queue takes at most TotalWork steps, and if it has
   * come to rest then every call made so far has settled, however the earlier ones ended.
   */
  lemma {:induction false} EveryCallSettles(first: State, steps: seq<Step>, last: State)
    requires Safe(first) && Reaches(first, steps, last)
    requires forall step | step in steps :: !step.Enqueue?
    ensures QueueSteps(steps) <= TotalWork(first.calls)
    ensures (forall step | QueueStep(step) :: !Enabled(last, step)) ==>
            forall i | 0 <= i < |last.calls| :: last.calls[i].caught
    decreases |steps|
  {
    if steps != [] {
      StepIsSafe(first, steps[0]);
      if QueueStep(steps[0]) { QueueStepsUseUpWork(first, steps[0]); }
      EveryCallSettles(Apply(first, steps[0]), steps[1..], last);
    } else {
      forall i | 0 <= i < |last.calls| && forall step | QueueStep(step) :: !Enabled(last, step)
        ensures last.calls[i].caught
      {
        if !last.calls[i].caught { QueueNeverStalls(last, i); }
      }
    }
  }

  // ---------------------------------------------------------------- the objects

  /** The chain node as the operator key sees it. */
  class Node {
    var pool: seq<PoolEntry>
    var pending: nat

    constructor (pending: nat)
      ensures pool == [] && this.pending == pending
    {
      pool := [];
      this.pending := pending;
    }

    method Accept(call: nat, nonce: nat)
      modifies this
      ensures pool == old(pool) + [PoolEntry(call, nonce)]
      ensures pending == if nonce == old(pending) then nonce + 1 else old(pending)
    {
      pool := pool + [PoolEntry(call, nonce)];
      if nonce == pending { pending := nonce + 1; }
    }
  }

  /** The service; each method is the code between two awaits. */
  class SubmitService {
    var calls: seq<Call>
    var submitMutex: Option<nat>
    var signerNonce: Option<nat>
    const node: Node

    ghost function View(): State
      reads this, node
    {
      State(calls, submitMutex, signerNonce, node.pool, node.pending)
    }

    constructor (node: Node)
      requires node.pool == []
      ensures this.node == node && Start0(View()) && View().pending == node.pending
    {
      this.node := node;
      calls, submitMutex, signerNonce := [], None, None;
    }

    method EnqueueSubmit() returns (call: nat)
      modifies this
      ensures View() == Apply(old(View()), Enqueue) && call == |old(calls)|
    {
      call := |calls|;
      calls := calls + [Call(submitMutex, Queued, [], false)];
      submitMutex := Some(call);
    }

    method BeginAttempt(i: nat)
      requires Enabled(View(), Start(i))
      modifies this
      ensures View() == Apply(old(View()), Start(i))
    {
      signerNonce := None;
      calls := calls[i := calls[i].(phase := Running)];
    }

    /** A task run ended: retry once with a reset signer after a nonce error, settle otherwise. */
    method FinishTask(i: nat, end: RunEnd)
      requires i < |calls|
      modifies this
      ensures View() == EndTask(old(View()), i, end)
    {
      var call := calls[i];
      if end.end == NonceError && call.ends == [] {
        signerNonce := None;
        calls := calls[i := call.(ends := call.ends + [end], phase := Running)];
      } else {
        calls := calls[i := call.(ends := call.ends + [end], phase := Settled)];
      }
    }

    method TaskThrew(i: nat, nonceError: bool)
      requires Enabled(View(), Throw(i, nonceError))
      modifies this
      ensures View() == Apply(old(View()), Throw(i, nonceError))
    {
      FinishTask(i, RunEnd(if nonceError then NonceError else OtherError, false));
    }

    method AllocateNonce(i: nat)
      requires Enabled(View(), ChooseNonce(i))
      modifies this
      ensures View() == Apply(old(View()), ChooseNonce(i))
    {
      var nonce := if signerNonce.Some? then signerNonce.value else node.pending;
      signerNonce := Some(nonce + 1);
      calls := calls[i := calls[i].(phase := Submitting(nonce))];
    }

    method Send(i: nat, verdict: Verdict)
      requires Enabled(View(), Submit(i, verdict))
      modifies this, node
      ensures View() == Apply(old(View()), Submit(i, verdict))
    {
      var nonce := calls[i].phase.nonce;
      match verdict {
        case Accepted =>
          node.Accept(i, nonce);
          calls := calls[i := calls[i].(phase := Confirming)];
        case NonceRejected(entered) =>
          if entered { node.Accept(i, nonce); }
          FinishTask(i, RunEnd(NonceError, entered));
        case SendFailed(entered) =>
          if entered { node.Accept(i, nonce); }
          FinishTask(i, RunEnd(OtherError, entered));
      }
    }

    method ReceiptArrived(i: nat, mined: bool)
      requires Enabled(View(), Confirm(i, mined))
      modifies this
      ensures View() == Apply(old(View()), Confirm(i, mined))
    {
      FinishTask(i, RunEnd(if mined then Completed else OtherError, true));
    }

    method RunCaught(i: nat)
      requires Enabled(View(), Catch(i))
      modifies this
      ensures View() == Apply(old(View()), Catch(i))
    {
      calls := calls[i := calls[i].(caught := true)];
    }
  }
}
