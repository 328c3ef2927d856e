/** A reader, worker threads and a writer around one sequential queue: the reader prepares a
    slot per input, whichever worker has an input completes its slot with the result, and the
    writer's loop takes the results in order. */
module QueuedWork {
  import opened Wrappers
  import opened SequentialQueue

  /** What the threads do, given each input's result, how reading ends, and what the writer's
      callback makes of an item after those it has accepted. A worker that panics drops its
      slot. A reader that fails may have taken one slot too many, which it drops before it
      reports the failure; one that finds the writer gone finishes early, in either way. */
  predicate Lawful<T(==)>(
      results: seq<Result<T>>, end: Result<()>, refuse: (seq<T>, T) -> Option<Error>, s: State<T, Error>,
      e: Event<T, Error>)
  {
    match e
    case Prepare => |s.slots| < |results| || (end.Err? && |s.slots| == |results|)
    case SlotFinish(k, item) => k < |results| && results[k] == Ok(item)
    case ErrorRecord(k, error) => k < |results| && results[k] == Err(error) && error != Panicked
    case DropRelease(k) => if k < |results| then results[k] == Err(Panicked) else s.sender.Sending?
    case SenderFinish(failure) =>
      ExtraDropped(results, s) && (s.receiver.Done? || (|s.slots| >= |results| && failure == Failure(end)))
    case SenderClose => s.sender.Finished?
    case Deliver(refusal) =>
      Enabled(s, e) ==> refusal == refuse(s.delivered, s.slots[s.receiver.slot].cell.item)
    case _ => true
  }

  function Failure(end: Result<()>): Option<Error> {
    if end.Err? then Some(end.error) else None
  }

  predicate ExtraDropped<T>(results: seq<Result<T>>, s: State<T, Error>) {
    forall k :: |results| <= k < |s.slots| ==> s.slots[k] == Slot(Vacated, false)
  }

  predicate AllOk<T>(results: seq<Result<T>>, end: Result<()>) {
    end.Ok? && forall k :: 0 <= k < |results| ==> results[k].Ok?
  }

  /** The callback takes these items, one after the other. */
  predicate Accepted<T>(refuse: (seq<T>, T) -> Option<Error>, items: seq<T>) {
    forall k :: 0 <= k < |items| ==> refuse(items[..k], items[k]).None?
  }

  ghost predicate LawfulRun<T>(
      results: seq<Result<T>>, end: Result<()>, refuse: (seq<T>, T) -> Option<Error>, s: State<T, Error>,
      events: seq<Event<T, Error>>, s': State<T, Error>)
    decreases |events|
  {
    if events == [] then s' == s
    else
      && Enabled(s, events[0]) && Lawful(results, end, refuse, s, events[0])
      && LawfulRun(results, end, refuse, Step(s, events[0]), events[1..], s')
  }

  // ----- what an exchange comes to

  /** The items delivered are the leading results, all of them accepted. */
  predicate Leading<T(==)>(results: seq<Result<T>>, refuse: (seq<T>, T) -> Option<Error>, delivered: seq<T>) {
    && |delivered| <= |results|
    && (forall k :: 0 <= k < |delivered| ==> results[k] == Ok(delivered[k]))
    && Accepted(refuse, delivered)
  }

  /** An error that occurred in reading or in working on an input. */
  predicate Occurred<T(==)>(results: seq<Result<T>>, end: Result<()>, error: Error) {
    end == Err(error) || Err(error) in results
  }

  /** How an exchange ends that has delivered these items. If there was a next one, the writer
      refused it, and its refusal is the verdict. Otherwise the exchange succeeds when all went
      well, and fails when reading or any work failed, with an error that occurred. It is left
      unspecified only if there was more to come behind the failed input, or that input was a
      panic; and a panic over the last input alone may pass for success. */
  predicate Ends<T(==)>(
      results: seq<Result<T>>, end: Result<()>, refuse: (seq<T>, T) -> Option<Error>, delivered: seq<T>,
      verdict: Verdict<Error>)
    requires |delivered| <= |results|
  {
    var n := |delivered|;
    if n < |results| && results[n].Ok? then
      var refusal := refuse(delivered, results[n].value);
      refusal.Some? && verdict == FailedWith(refusal.value)
    else
      && (n == |results| && end.Ok? ==> verdict.Succeeded?)
      && (verdict.Succeeded? ==> end.Ok? && (n == |results| || (n + 1 == |results| && results[n] == Err(Panicked))))
      && (verdict.FailedWith? ==> Occurred(results, end, verdict.error))
      && (verdict.FailedUnknown? ==>
        n < |results| && (results[n] == Err(Panicked) || n + 1 < |results| || end.Err?))
  }

  /** If just one thing fails, its error is the verdict: the last input of all, other than by a
      panic, behind inputs that the writer takes, or the reading after them. */
  lemma OneErrorIsReported<T>(
      results: seq<Result<T>>, end: Result<()>, refuse: (seq<T>, T) -> Option<Error>, delivered: seq<T>,
      verdict: Verdict<Error>, items: seq<T>, error: Error)
    requires Leading(results, refuse, delivered) && Ends(results, end, refuse, delivered, verdict)
    requires |items| <= |results| && Accepted(refuse, items)
    requires forall k :: 0 <= k < |items| ==> results[k] == Ok(items[k])
    requires
      || (|results| == |items| + 1 && results[|items|] == Err(error) && error != Panicked && end.Ok?)
      || (|results| == |items| && end == Err(error))
    ensures delivered == items && verdict == FailedWith(error)
  {
    assert delivered == items[..|delivered|];
  }

  /** The writer's loop might as well run over everything that a writer would be given that
      never refuses, and stop at what it refuses. */
  lemma RefusalIsSequential<T(!new)>(
      results: seq<Result<T>>, end: Result<()>, refuse: (seq<T>, T) -> Option<Error>,
      accept: (seq<T>, T) -> Option<Error>, delivered: seq<T>, verdict: Verdict<Error>, all: seq<T>,
      verdict': Verdict<Error>)
    requires forall before: seq<T>, item: T :: accept(before, item).None?
    requires Leading(results, refuse, delivered) && Ends(results, end, refuse, delivered, verdict)
    requires Leading(results, accept, all) && Ends(results, end, accept, all, verdict')
    ensures delivered <= all
    ensures delivered != all ==>
      && refuse(delivered, all[|delivered|]).Some?
      && verdict == FailedWith(refuse(delivered, all[|delivered|]).value)
    ensures delivered == all ==>
      Ends(results, end, accept, all, verdict)
  {
    assert delivered == all[..|delivered|];
    if delivered != all {
      assert results[|delivered|] == Ok(all[|delivered|]);
    }
  }

  // ----- safety

  /** A slot shows its input's result or nothing yet; only a panic or an extra slot drops it. */
  predicate SlotOk<T(==)>(results: seq<Result<T>>, k: nat, slot: Slot<T>) {
    if k < |results| then
      match slot.cell
      case Pending => slot.armed || results[k].Err?
      case Filled(item) => results[k] == Ok(item)
      case Vacated => results[k].Err? && (slot.armed ==> results[k] == Err(Panicked))
    else !slot.cell.Filled? && (slot.cell.Pending? ==> slot.armed)
  }

  /** The writer is gone without success, so that nothing else matters any more. */
  predicate GaveUp<T>(s: State<T, Error>) {
    s.receiver.Done? && !s.receiver.result.Succeeded?
  }

  /** The status cell holds what happened: nothing else is in it before the writer gives up. */
  predicate StatusOk<T(==)>(results: seq<Result<T>>, end: Result<()>, s: State<T, Error>) {
    && (AllOk(results, end) ==> s.status == if s.sender.Sending? then Unset else Success)
    && (s.status.Explicit? ==> Occurred(results, end, s.status.error))
    && (forall k :: 0 <= k < |s.slots| && k < |results| && !s.slots[k].cell.Filled? && !s.slots[k].armed ==>
      s.status.Explicit? || results[k] == Err(Panicked))
    && (!s.sender.Sending? && end.Err? ==> s.status.Explicit?)
    && (!s.sender.Sending? ==> |s.slots| >= |results| && s.finishedOk == end.Ok?)
  }

  ghost predicate LawfulInv<T>(
      results: seq<Result<T>>, end: Result<()>, refuse: (seq<T>, T) -> Option<Error>, s: State<T, Error>)
  {
    && Inv(s) && s.capacity > 0
    && |s.slots| <= |results| + (if end.Err? then 1 else 0)
    && (forall k :: 0 <= k < |s.slots| ==> SlotOk(results, k, s.slots[k]))
    && (!s.sender.Sending? ==> ExtraDropped(results, s))
    && Leading(results, refuse, s.delivered)
    && (!GaveUp(s) ==> StatusOk(results, end, s))
    && (s.receiver.Done? ==> Ends(results, end, refuse, s.delivered, s.receiver.result))
  }

  lemma SlotsStayOk<T>(
      results: seq<Result<T>>, end: Result<()>, refuse: (seq<T>, T) -> Option<Error>, s: State<T, Error>,
      e: Event<T, Error>)
    requires LawfulInv(results, end, refuse, s) && Enabled(s, e) && Lawful(results, end, refuse, s, e)
    ensures var s' := Step(s, e);
      && |s'.slots| <= |results| + (if end.Err? then 1 else 0)
      && (forall k :: 0 <= k < |s'.slots| ==> SlotOk(results, k, s'.slots[k]))
      && (!s'.sender.Sending? ==> ExtraDropped(results, s'))
  {
  }

  lemma LeadingStays<T>(
      results: seq<Result<T>>, end: Result<()>, refuse: (seq<T>, T) -> Option<Error>, s: State<T, Error>,
      e: Event<T, Error>)
    requires LawfulInv(results, end, refuse, s) && Enabled(s, e) && Lawful(results, end, refuse, s, e)
    ensures Leading(results, refuse, Step(s, e).delivered)
  {
    if e == Deliver(None) {
      var before, item := s.delivered, s.slots[s.receiver.slot].cell.item;
      assert SlotOk(results, s.receiver.slot, s.slots[s.receiver.slot]);
      forall k | 0 <= k <= |before| ensures refuse((before + [item])[..k], (before + [item])[k]).None? {
        assert (before + [item])[..k] == before[..k];
        assert k == |before| ==> before[..k] == before;
      }
    }
  }

  lemma StatusStaysOk<T>(
      results: seq<Result<T>>, end: Result<()>, refuse: (seq<T>, T) -> Option<Error>, s: State<T, Error>,
      e: Event<T, Error>)
    requires LawfulInv(results, end, refuse, s) && Enabled(s, e) && Lawful(results, end, refuse, s, e)
    ensures !GaveUp(Step(s, e)) ==> StatusOk(results, end, Step(s, e))
  {
    if e.DropRecord? {
      assert SlotOk(results, e.k, s.slots[e.k]);
    }
  }

  /** The verdict, whenever there is one, is the one that is due. */
  lemma EndsStays<T>(
      results: seq<Result<T>>, end: Result<()>, refuse: (seq<T>, T) -> Option<Error>, s: State<T, Error>,
      e: Event<T, Error>)
    requires LawfulInv(results, end, refuse, s) && Enabled(s, e) && Lawful(results, end, refuse, s, e)
    ensures Step(s, e).receiver.Done? && !s.receiver.Done? ==>
      Ends(results, end, refuse, s.delivered, Step(s, e).receiver.result)
  {
    var n := |s.delivered|;
    if n < |s.slots| {
      assert SlotOk(results, n, s.slots[n]);
    }
    if n == |results| && end.Ok? {
      assert AllOk(results, end);
    }
  }

  lemma StepKeepsLawful<T>(
      results: seq<Result<T>>, end: Result<()>, refuse: (seq<T>, T) -> Option<Error>, s: State<T, Error>,
      e: Event<T, Error>)
    requires LawfulInv(results, end, refuse, s) && Enabled(s, e) && Lawful(results, end, refuse, s, e)
    ensures LawfulInv(results, end, refuse, Step(s, e))
  {
    SlotsStayOk(results, end, refuse, s, e);
    LeadingStays(results, end, refuse, s, e);
    StatusStaysOk(results, end, refuse, s, e);
    EndsStays(results, end, refuse, s, e);
    StepKeepsInv(s, e);
  }

  lemma {:induction false} RunKeepsLawful<T>(
      results: seq<Result<T>>, end: Result<()>, refuse: (seq<T>, T) -> Option<Error>, s: State<T, Error>,
      events: seq<Event<T, Error>>, s': State<T, Error>)
    requires LawfulInv(results, end, refuse, s) && LawfulRun(results, end, refuse, s, events, s')
    ensures LawfulInv(results, end, refuse, s')
    decreases |events|
  {
    if events == [] {
    } else {
      StepKeepsLawful(results, end, refuse, s, events[0]);
      RunKeepsLawful(results, end, refuse, Step(s, events[0]), events[1..], s');
    }
  }

  /** Every run of reader, workers and writer, in any interleaving: what has been delivered is
      the leading results in the order of the inputs, and a run that comes to its verdict ends
      with the one that is due. */
  lemma QueueDeliversResults<T>(
      results: seq<Result<T>>, end: Result<()>, refuse: (seq<T>, T) -> Option<Error>, s: State<T, Error>,
      events: seq<Event<T, Error>>, s': State<T, Error>)
    requires Initial(s) && LawfulRun(results, end, refuse, s, events, s')
    ensures Leading(results, refuse, s'.delivered)
    ensures s'.receiver.Done? ==> Ends(results, end, refuse, s'.delivered, s'.receiver.result)
  {
    RunKeepsLawful(results, end, refuse, s, events, s');
  }

  /** Unless a worker panics, the threads keep the queue's discipline. */
  lemma LawfulIsDisciplined<T>(
      results: seq<Result<T>>, end: Result<()>, refuse: (seq<T>, T) -> Option<Error>, s: State<T, Error>,
      e: Event<T, Error>)
    requires LawfulInv(results, end, refuse, s) && Enabled(s, e) && Lawful(results, end, refuse, s, e)
    requires Err(Panicked) !in results
    ensures Disciplined(s, e)
  {
    if |s.slots| > 0 {
      assert SlotOk(results, |s.slots| - 1, s.slots[|s.slots| - 1]);
    }
  }

  lemma PrependLawful<T>(
      results: seq<Result<T>>, end: Result<()>, refuse: (seq<T>, T) -> Option<Error>, s: State<T, Error>,
      e: Event<T, Error>, rest: seq<Event<T, Error>>, s': State<T, Error>)
    returns (events: seq<Event<T, Error>>)
    requires Enabled(s, e) && Lawful(results, end, refuse, s, e)
    requires LawfulRun(results, end, refuse, Step(s, e), rest, s')
    ensures LawfulRun(results, end, refuse, s, events, s')
  {
    events := [e] + rest;
    assert events[1..] == rest;
  }

  /** The writer waits for the one slot, the reader is gone, and the worker panics. */
  lemma PanicAtLast<T>(results: seq<Result<T>>, refuse: (seq<T>, T) -> Option<Error>, s: State<T, Error>)
    returns (events: seq<Event<T, Error>>, s': State<T, Error>)
    requires results == [Err(Panicked)]
    requires s == State(1, Success, [Slot(Pending, true)], 1, [], Closed, true, Awaiting(0))
    ensures LawfulRun(results, Ok(()), refuse, s, events, s') && s'.receiver == Done(Succeeded) && s'.delivered == []
  {
    var s1 := Step(s, DropRelease(0));
    var s2 := Step(s1, SeeVacated);
    var s3 := Step(s2, Drain);
    s' := Step(s3, ReadStatus);
    events := PrependLawful(results, Ok(()), refuse, s3, ReadStatus, [], s');
    events := PrependLawful(results, Ok(()), refuse, s2, Drain, events, s');
    events := PrependLawful(results, Ok(()), refuse, s1, SeeVacated, events, s');
    events := PrependLawful(results, Ok(()), refuse, s, DropRelease(0), events, s');
  }

  /** The exception is real: one input, whose worker panics after the reader has finished. The
      writer's loop returns Ok and has delivered nothing. */
  lemma PanicPassesForSuccess<T>(results: seq<Result<T>>, refuse: (seq<T>, T) -> Option<Error>)
    returns (s: State<T, Error>, events: seq<Event<T, Error>>, s': State<T, Error>)
    requires results == [Err(Panicked)]
    ensures Initial(s) && LawfulRun(results, Ok(()), refuse, s, events, s')
    ensures s'.receiver == Done(Succeeded) && s'.delivered == []
  {
    s := State(1, Unset, [], 0, [], Sending, false, Receiving);
    var s1 := Step(s, Prepare);
    var s2 := Step(s1, SenderFinish(None));
    var s3 := Step(s2, SenderClose);
    events, s' := PanicAtLast(results, refuse, Step(s3, Take));
    events := PrependLawful(results, Ok(()), refuse, s3, Take, events, s');
    events := PrependLawful(results, Ok(()), refuse, s2, SenderClose, events, s');
    events := PrependLawful(results, Ok(()), refuse, s1, SenderFinish(None), events, s');
    events := PrependLawful(results, Ok(()), refuse, s, Prepare, events, s');
  }

  // ----- progress

  /** The exchange is over for all of its threads: the writer has its verdict, the reader has
      finished and gone, and no worker has a slot left. */
  predicate Quiet<T>(s: State<T, Error>) {
    && s.receiver.Done? && s.sender.Closed?
    && forall k :: 0 <= k < |s.slots| ==> Settled(s.slots[k])
  }

  predicate Settled<T>(slot: Slot<T>) {
    !slot.cell.Pending? && !slot.HalfDropped()
  }

  /** Whoever has a slot that is not settled can move. */
  function SlotMoves<T(==)>(results: seq<Result<T>>, k: nat, slot: Slot<T>): Event<T, Error> {
    if slot.cell.Vacated? then DropRecord(k)
    else if !slot.armed then ErrorRelease(k)
    else if k >= |results| || results[k] == Err(Panicked) then DropRelease(k)
    else if results[k].Ok? then SlotFinish(k, results[k].value)
    else ErrorRecord(k, results[k].error)
  }

  function SenderMoves<T(==)>(results: seq<Result<T>>, end: Result<()>, s: State<T, Error>): Event<T, Error> {
    if s.sender.Finished? then SenderClose
    else if |s.slots| > |results| && !Settled(s.slots[|results|]) then
      SlotMoves(results, |results|, s.slots[|results|])
    else if |s.slots| < |results| && !s.receiver.Done? then Prepare
    else SenderFinish(Failure(end))
  }

  /** Until all is over some thread can move, whether the writer goes on or has given up. */
  lemma NeverStuck<T>(
      results: seq<Result<T>>, end: Result<()>, refuse: (seq<T>, T) -> Option<Error>, s: State<T, Error>)
    returns (e: Event<T, Error>)
    requires LawfulInv(results, end, refuse, s) && !Quiet(s)
    ensures Enabled(s, e) && Lawful(results, end, refuse, s, e)
  {
    match s.receiver
    case Receiving =>
      if s.taken < |s.slots| {
        return Take;
      }
      return if s.sender.Closed? then SeeClosed else SenderMoves(results, end, s);
    case Awaiting(k) =>
      assert SlotOk(results, k, s.slots[k]);
      return
        if s.slots[k].cell.Filled? then Deliver(refuse(s.delivered, s.slots[k].cell.item))
        else if s.slots[k].cell.Vacated? then SeeVacated
        else SlotMoves(results, k, s.slots[k]);
    case Finishing =>
      return if s.taken < |s.slots| || s.sender.Closed? then Drain else SenderMoves(results, end, s);
    case Reading =>
      return ReadStatus;
    case Done(_) =>
      if k: nat :| k < |s.slots| && !Settled(s.slots[k]) {
        assert SlotOk(results, k, s.slots[k]);
        return SlotMoves(results, k, s.slots[k]);
      }
      return SenderMoves(results, end, s);
  }

  function SlotLeft<T>(slot: Slot<T>): nat {
    if slot.cell.Filled? then 0
    else (if slot.cell.Pending? then 1 else 0) + (if slot.armed then 1 else 0)
  }

  function SlotsLeft<T>(slots: seq<Slot<T>>): nat {
    if slots == [] then 0 else SlotLeft(slots[0]) + SlotsLeft(slots[1..])
  }

  lemma {:induction false} SlotsLeftUpdate<T>(slots: seq<Slot<T>>, k: nat, slot: Slot<T>)
    requires k < |slots|
    ensures SlotsLeft(slots[k := slot]) + SlotLeft(slots[k]) == SlotsLeft(slots) + SlotLeft(slot)
  {
    if k == 0 {
      assert slots[k := slot][1..] == slots[1..];
    } else {
      SlotsLeftUpdate(slots[1..], k - 1, slot);
      assert slots[k := slot][1..] == slots[1..][k - 1 := slot];
    }
  }

  lemma {:induction false} SlotsLeftSnoc<T>(slots: seq<Slot<T>>, slot: Slot<T>)
    ensures SlotsLeft(slots + [slot]) == SlotsLeft(slots) + SlotLeft(slot)
  {
    if slots == [] {
      assert slots + [slot] == [slot];
    } else {
      SlotsLeftSnoc(slots[1..], slot);
      assert (slots + [slot])[1..] == slots[1..] + [slot];
    }
  }

  /** How many steps are left at most. */
  function StepsLeft<T>(results: seq<Result<T>>, s: State<T, Error>): int {
    3 * (|results| + 1 - |s.slots|) + SlotsLeft(s.slots)
    + (match s.sender
       case Sending => 2
       case Finished(_) => 1
       case Closed => 0)
    + 2 * (|results| + 1 - s.taken)
    + (match s.receiver
       case Receiving => 4
       case Awaiting(_) => 5
       case Finishing => 2
       case Reading => 1
       case Done(_) => 0)
  }

  predicate OnSlot<T>(e: Event<T, Error>) {
    e.SlotFinish? || e.ErrorRecord? || e.ErrorRelease? || e.DropRelease? || e.DropRecord?
  }

  lemma SlotStepLowers<T>(s: State<T, Error>, e: Event<T, Error>)
    requires Enabled(s, e) && OnSlot(e)
    ensures var s' := Step(s, e);
      && |s'.slots| == |s.slots| && SlotsLeft(s'.slots) < SlotsLeft(s.slots)
      && s'.sender == s.sender && s'.taken == s.taken && s'.receiver == s.receiver
  {
    match e
    case SlotFinish(k, item) => SlotsLeftUpdate(s.slots, k, Slot(Filled(item), false));
    case ErrorRecord(k, _) => SlotsLeftUpdate(s.slots, k, Slot(Pending, false));
    case ErrorRelease(k) => SlotsLeftUpdate(s.slots, k, Slot(Vacated, false));
    case DropRelease(k) => SlotsLeftUpdate(s.slots, k, Slot(Vacated, true));
    case DropRecord(k) => SlotsLeftUpdate(s.slots, k, Slot(Vacated, false));
  }

  lemma StepLowersBound<T>(results: seq<Result<T>>, s: State<T, Error>, e: Event<T, Error>)
    requires Enabled(s, e)
    ensures StepsLeft(results, Step(s, e)) < StepsLeft(results, s)
  {
    if OnSlot(e) {
      SlotStepLowers(s, e);
    } else if e.Prepare? {
      SlotsLeftSnoc(s.slots, Slot(Pending, true));
    }
  }

  // ----- the exchange as a program

  /** Which thread moves next, as it may depend on the time and on everything so far; the one
      chosen has to be able to move. Any interleaving whatever is the choice of some schedule. */
  ghost predicate Schedules<T(!new)>(
      results: seq<Result<T>>, end: Result<()>, refuse: (seq<T>, T) -> Option<Error>,
      choose: (nat, State<T, Error>) -> Event<T, Error>)
  {
    forall time: nat, s: State<T, Error> :: LawfulInv(results, end, refuse, s) && !Quiet(s) ==>
      Enabled(s, choose(time, s)) && Lawful(results, end, refuse, s, choose(time, s))
  }

  ghost function AnyMove<T(!new)>(
      results: seq<Result<T>>, end: Result<()>, refuse: (seq<T>, T) -> Option<Error>, s: State<T, Error>)
    : Event<T, Error>
  {
    if e :| Enabled(s, e) && Lawful(results, end, refuse, s, e) then e else Prepare
  }

  /** There are such schedules, since the exchange is never stuck. */
  lemma AnyMoveSchedules<T(!new)>(
      results: seq<Result<T>>, end: Result<()>, refuse: (seq<T>, T) -> Option<Error>,
      choose: (nat, State<T, Error>) -> Event<T, Error>)
    requires forall time: nat, s: State<T, Error> :: choose(time, s) == AnyMove(results, end, refuse, s)
    ensures Schedules(results, end, refuse, choose)
  {
    forall time: nat, s: State<T, Error> | LawfulInv(results, end, refuse, s) && !Quiet(s)
      ensures Enabled(s, choose(time, s)) && Lawful(results, end, refuse, s, choose(time, s))
    {
      var e := NeverStuck(results, end, refuse, s);
      assert Enabled(s, e) && Lawful(results, end, refuse, s, e);
    }
  }

  /** Runs the exchange under any schedule until it is over for all threads. */
  method Exchange<T(!new)>(
      results: seq<Result<T>>, end: Result<()>, refuse: (seq<T>, T) -> Option<Error>, capacity: nat,
      choose: (nat, State<T, Error>) -> Event<T, Error>)
    returns (delivered: seq<T>, verdict: Verdict<Error>)
    requires capacity > 0 && Schedules(results, end, refuse, choose)
    ensures Leading(results, refuse, delivered) && Ends(results, end, refuse, delivered, verdict)
  {
    var s: State<T, Error> := State(capacity, Unset, [], 0, [], Sending, false, Receiving);
    var time: nat := 0;
    while !Quiet(s)
      invariant LawfulInv(results, end, refuse, s)
      decreases StepsLeft(results, s)
    {
      var e := choose(time, s);
      StepKeepsLawful(results, end, refuse, s, e);
      StepLowersBound(results, s, e);
      s, time := Step(s, e), time + 1;
    }
    return s.delivered, s.receiver.result;
  }
}
