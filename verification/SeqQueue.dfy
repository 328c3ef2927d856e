/** The sequential queue: slots are prepared in order, completed in any order by other
    threads, and consumed in order, while a status cell shared by everyone decides whether
    the whole exchange succeeded. One event is one action on shared state, so runs are
    arbitrary interleavings of the threads. */
module SequentialQueue {
  import opened Wrappers

  // ----- the status cell

  datatype Status<E> = Unset | Success | Unknown | Explicit(error: E) {
    function Rank(): nat {
      match this
      case Unset => 0
      case Success => 1
      case Unknown => 2
      case Explicit(_) => 3
    }
  }

  /** The higher of two statuses; of two equally high ones, the earlier. */
  function Join<E>(a: Status<E>, b: Status<E>): Status<E> {
    if b.Rank() > a.Rank() then b else a
  }

  function JoinAll<E>(s: Status<E>, updates: seq<Status<E>>): Status<E>
    decreases |updates|
  {
    if updates == [] then s else JoinAll(Join(s, updates[0]), updates[1..])
  }

  class FinalSuccess<E> {
    var cell: Status<E>

    constructor ()
      ensures cell == Unset
    {
      cell := Unset;
    }

    method MakeSuccess()
      modifies this
      ensures cell == Join(old(cell), Success)
    {
      if cell.Unset? {
        cell := Success;
      }
    }

    method MakeUnknownError()
      modifies this
      ensures cell == Join(old(cell), Unknown)
    {
      if !cell.Explicit? {
        cell := Unknown;
      }
    }

    method MakeError(error: E)
      modifies this
      ensures cell == Join(old(cell), Explicit(error))
    {
      if !cell.Explicit? {
        cell := Explicit(error);
      }
    }

    /** Takes the result out: Ok, or an error that may be unspecified. */
    method GetResult() returns (ok: bool, error: Option<E>)
      modifies this
      ensures ok <==> old(cell) == Success
      ensures error == if old(cell).Explicit? then Some(old(cell).error) else None
      ensures cell == Unset
    {
      ok := cell.Success?;
      error := if cell.Explicit? then Some(cell.error) else None;
      cell := Unset;
    }
  }

  predicate FirstExplicit<E>(updates: seq<Status<E>>, i: nat) {
    i < |updates| && updates[i].Explicit? && forall j :: 0 <= j < i ==> !updates[j].Explicit?
  }

  /** Updating is a join, so however updates interleave, the cell ends at the highest of
      them, and an explicit error is the first one recorded. */
  lemma {:induction false} JoinIsHighest<E>(s: Status<E>, updates: seq<Status<E>>)
    ensures JoinAll(s, updates) == s || JoinAll(s, updates) in updates
    ensures s.Rank() <= JoinAll(s, updates).Rank()
    ensures forall u <- updates :: u.Rank() <= JoinAll(s, updates).Rank()
    ensures s.Explicit? ==> JoinAll(s, updates) == s
    ensures !s.Explicit? ==> forall i: nat :: FirstExplicit(updates, i) ==> JoinAll(s, updates) == updates[i]
    decreases |updates|
  {
    if updates == [] {
    } else {
      JoinIsHighest(Join(s, updates[0]), updates[1..]);
      forall i: nat | !s.Explicit? && FirstExplicit(updates, i) && i > 0
        ensures JoinAll(s, updates) == updates[i]
      {
        assert FirstExplicit(updates[1..], i - 1);
      }
    }
  }

  lemma JoinAssociates<E>(a: Status<E>, b: Status<E>, c: Status<E>)
    ensures Join(Join(a, b), c) == Join(a, Join(b, c)) && Join(a, a) == a
  {
  }

  // ----- the protocol

  /** What a slot's one-shot channel shows its receiver. */
  datatype Cell<T> = Pending | Filled(item: T) | Vacated

  /** `armed`: dropping the slot will still record an unspecified error. */
  datatype Slot<T> = Slot(cell: Cell<T>, armed: bool) {
    /** Dropped, with its channel already released but its error not yet recorded. */
    predicate HalfDropped() {
      cell.Vacated? && armed
    }
  }

  datatype SenderPhase = Sending | Finished(ok: bool) | Closed

  datatype ReceiverPhase<E> =
    | Receiving
    | Awaiting(slot: nat)
    // Draining the channel after the last item or a vacated slot.
    | Finishing
    // The channel is empty and closed; only the status cell is left to read.
    | Reading
    | Done(result: Verdict<E>)

  datatype Verdict<E> = Succeeded | FailedUnknown | FailedWith(error: E)

  /** `taken` slots have left the channel, `delivered` are the items the callback accepted.
      `finishedOk` records that the sender called `finish(Ok)`. */
  datatype State<T, E> = State(
    capacity: nat,
    status: Status<E>,
    slots: seq<Slot<T>>,
    taken: nat,
    delivered: seq<T>,
    sender: SenderPhase,
    finishedOk: bool,
    receiver: ReceiverPhase<E>)

  datatype Event<T, E> =
    | Prepare
    | SlotFinish(k: nat, item: T)
    // Slot::error: record, then release.
    | ErrorRecord(k: nat, error: E)
    | ErrorRelease(k: nat)
    // A plain drop of a slot: release, then record.
    | DropRelease(k: nat)
    | DropRecord(k: nat)
    // Sender::finish, then the sender's own drop. A sender may also be dropped unfinished.
    | SenderFinish(failure: Option<E>)
    | SenderClose
    // The receiver's loop: take the next slot, see the channel closed, take the item and
    // run the callback on it, see the slot vacated, drain, read the verdict.
    | Take
    | SeeClosed
    | Deliver(refusal: Option<E>)
    | SeeVacated
    | Drain
    | ReadStatus

  predicate SlotIs<T, E>(s: State<T, E>, k: nat, armed: bool) {
    k < |s.slots| && s.slots[k].cell.Pending? && s.slots[k].armed == armed
  }

  predicate Enabled<T, E>(s: State<T, E>, e: Event<T, E>) {
    match e
    case Prepare => s.sender.Sending? && !s.receiver.Done? && |s.slots| - s.taken < s.capacity
    case SlotFinish(k, _) => SlotIs(s, k, true)
    case ErrorRecord(k, _) => SlotIs(s, k, true)
    case ErrorRelease(k) => SlotIs(s, k, false)
    case DropRelease(k) => SlotIs(s, k, true)
    case DropRecord(k) => k < |s.slots| && s.slots[k].HalfDropped()
    case SenderFinish(_) => s.sender.Sending?
    case SenderClose => !s.sender.Closed?
    case Take => s.receiver.Receiving? && s.taken < |s.slots|
    case SeeClosed => s.receiver.Receiving? && s.taken == |s.slots| && s.sender.Closed?
    case Deliver(_) => s.receiver.Awaiting? && s.receiver.slot < |s.slots| && s.slots[s.receiver.slot].cell.Filled?
    case SeeVacated => s.receiver.Awaiting? && s.receiver.slot < |s.slots| && s.slots[s.receiver.slot].cell.Vacated?
    case Drain => s.receiver.Finishing? && (s.taken < |s.slots| || s.sender.Closed?)
    case ReadStatus => s.receiver.Reading?
  }

  function VerdictOf<E>(status: Status<E>): Verdict<E> {
    match status
    case Success => Succeeded
    case Explicit(e) => FailedWith(e)
    case _ => FailedUnknown
  }

  /** What the receiver makes of the cell's result. */
  method ReadVerdict<E>(status: FinalSuccess<E>) returns (verdict: Verdict<E>)
    modifies status
    ensures verdict == VerdictOf(old(status.cell)) && status.cell == Unset
  {
    var ok, error := status.GetResult();
    return if ok then Succeeded else if error.Some? then FailedWith(error.value) else FailedUnknown;
  }

  function Step<T, E>(s: State<T, E>, e: Event<T, E>): State<T, E>
    requires Enabled(s, e)
  {
    match e
    case Prepare => s.(slots := s.slots + [Slot(Pending, true)])
    case SlotFinish(k, item) => s.(slots := s.slots[k := Slot(Filled(item), false)])
    case ErrorRecord(k, error) =>
      s.(slots := s.slots[k := Slot(Pending, false)], status := Join(s.status, Explicit(error)))
    case ErrorRelease(k) => s.(slots := s.slots[k := Slot(Vacated, false)])
    case DropRelease(k) => s.(slots := s.slots[k := Slot(Vacated, true)])
    case DropRecord(k) => s.(slots := s.slots[k := Slot(Vacated, false)], status := Join(s.status, Unknown))
    case SenderFinish(None) => s.(sender := Finished(true), finishedOk := true, status := Join(s.status, Success))
    case SenderFinish(Some(error)) => s.(sender := Finished(false), status := Join(s.status, Explicit(error)))
    case SenderClose => s.(sender := Closed)
    case Take => s.(receiver := Awaiting(s.taken), taken := s.taken + 1)
    case SeeClosed => s.(receiver := Finishing)
    case Deliver(None) => s.(delivered := s.delivered + [s.slots[s.receiver.slot].cell.item], receiver := Receiving)
    case Deliver(Some(error)) => s.(receiver := Done(FailedWith(error)))
    case SeeVacated => s.(receiver := Finishing)
    case Drain => s.(receiver := if s.taken < |s.slots| then Done(FailedUnknown) else Reading)
    case ReadStatus => s.(receiver := Done(VerdictOf(s.status)))
  }

  predicate Initial<T, E>(s: State<T, E>) {
    && s.status.Unset? && s.slots == [] && s.taken == 0 && s.delivered == []
    && s.sender.Sending? && !s.finishedOk && s.receiver.Receiving? && s.capacity > 0
  }

  ghost predicate Run<T, E>(s: State<T, E>, events: seq<Event<T, E>>, s': State<T, E>)
    decreases |events|
  {
    if events == [] then s' == s
    else Enabled(s, events[0]) && Run(Step(s, events[0]), events[1..], s')
  }

  /** The callback has received every prepared item, once each and in preparation order. */
  predicate Complete<T(==), E>(s: State<T, E>) {
    |s.delivered| == |s.slots| && forall k :: 0 <= k < |s.slots| ==> s.slots[k].cell == Filled(s.delivered[k])
  }

  // ----- safety

  /** What holds in every reachable state: delivered items are the leading slots, a success
      status means `finish(Ok)` and no recorded error, and a receiver on its way out either
      delivered everything it took or stopped at a vacated slot. */
  ghost predicate Inv<T, E>(s: State<T, E>) {
    && |s.delivered| <= s.taken <= |s.slots|
    && |s.slots| <= s.taken + s.capacity
    && (forall k :: 0 <= k < |s.delivered| ==> s.slots[k].cell == Filled(s.delivered[k]))
    && (forall k :: 0 <= k < |s.slots| && s.slots[k].cell.Filled? ==> !s.slots[k].armed)
    && (forall k :: 0 <= k < |s.slots| && !s.slots[k].cell.Filled? && !s.slots[k].armed ==> s.status.Rank() >= 2)
    && (s.status.Success? ==> s.finishedOk)
    && (s.finishedOk ==> !s.sender.Sending?)
    && match s.receiver
       case Receiving => |s.delivered| == s.taken
       case Awaiting(k) => k == |s.delivered| && s.taken == k + 1
       case Finishing => StoppedAtVacated(s) || (|s.delivered| == s.taken == |s.slots| && s.sender.Closed?)
       case Reading => s.taken == |s.slots| && s.sender.Closed? && (StoppedAtVacated(s) || |s.delivered| == s.taken)
       case Done(verdict) =>
         verdict.Succeeded? ==>
           && s.finishedOk && s.taken == |s.slots| && s.sender.Closed?
           && (StoppedAtVacated(s) || |s.delivered| == s.taken)
  }

  ghost predicate StoppedAtVacated<T, E>(s: State<T, E>) {
    s.taken == |s.delivered| + 1 && s.taken <= |s.slots| && s.slots[s.taken - 1].cell.Vacated?
  }

  /** Completing or abandoning a slot that has not been delivered. */
  lemma SlotStepKeepsInv<T, E>(s: State<T, E>, k: nat, slot: Slot<T>, update: Status<E>)
    requires Inv(s) && k < |s.slots| && !s.slots[k].cell.Filled? && (s.slots[k].cell.Vacated? ==> slot.cell.Vacated?)
    requires update.Unset? || update.Unknown? || update.Explicit?
    requires slot.cell.Filled? ==> !slot.armed
    requires !slot.cell.Filled? && !slot.armed ==> Join(s.status, update).Rank() >= 2
    ensures Inv(s.(slots := s.slots[k := slot], status := Join(s.status, update)))
  {
  }

  lemma SenderStepKeepsInv<T, E>(s: State<T, E>, e: Event<T, E>)
    requires Inv(s) && Enabled(s, e) && (e.Prepare? || e.SenderFinish? || e.SenderClose?)
    ensures Inv(Step(s, e))
  {
  }

  lemma ReceiverStepKeepsInv<T, E>(s: State<T, E>, e: Event<T, E>)
    requires Inv(s) && Enabled(s, e)
    requires e.Take? || e.SeeClosed? || e.Deliver? || e.SeeVacated? || e.Drain? || e.ReadStatus?
    ensures Inv(Step(s, e))
  {
  }

  lemma StepKeepsInv<T, E>(s: State<T, E>, e: Event<T, E>)
    requires Inv(s) && Enabled(s, e)
    ensures Inv(Step(s, e))
  {
    match e
    case SlotFinish(k, item) => SlotStepKeepsInv(s, k, Slot(Filled(item), false), Unset);
    case ErrorRecord(k, error) => SlotStepKeepsInv(s, k, Slot(Pending, false), Explicit(error));
    case ErrorRelease(k) => SlotStepKeepsInv(s, k, Slot(Vacated, false), Unset);
    case DropRelease(k) => SlotStepKeepsInv(s, k, Slot(Vacated, true), Unset);
    case DropRecord(k) => SlotStepKeepsInv(s, k, Slot(Vacated, false), Unknown);
    case Prepare => SenderStepKeepsInv(s, e);
    case SenderFinish(_) => SenderStepKeepsInv(s, e);
    case SenderClose => SenderStepKeepsInv(s, e);
    case _ => ReceiverStepKeepsInv(s, e);
  }

  /** The gap in a plain drop: the last prepared slot has been released without its error
      being recorded, behind a status that still says success. */
  ghost predicate GapOpen<T, E>(s: State<T, E>) {
    |s.slots| > 0 && s.slots[|s.slots| - 1].HalfDropped() && s.status.Success?
  }

  lemma WrongVerdictIffGap<T, E>(s: State<T, E>)
    requires Inv(s) && s.receiver.Reading?
    ensures Step(s, ReadStatus).receiver.result.Succeeded? && !Complete(s) <==> GapOpen(s)
  {
  }

  lemma {:induction false} RunKeepsInv<T, E>(s: State<T, E>, events: seq<Event<T, E>>, s': State<T, E>)
    requires Inv(s) && Run(s, events, s')
    ensures Inv(s')
    decreases |events|
  {
    if events == [] {
    } else {
      StepKeepsInv(s, events[0]);
      RunKeepsInv(Step(s, events[0]), events[1..], s');
    }
  }

  /** Exactly when, over all runs whatsoever, reading the status gives Ok although not every
      item was delivered. */
  lemma OkIsWrongIffGap<T, E>(s: State<T, E>, events: seq<Event<T, E>>, s': State<T, E>)
    requires Initial(s) && Run(s, events, s') && s'.receiver.Reading?
    ensures Step(s', ReadStatus).receiver.result.Succeeded? && !Complete(s') <==> GapOpen(s')
  {
    RunKeepsInv(s, events, s');
    WrongVerdictIffGap(s');
  }

  // ----- which error is reported

  /** The errors that a run records explicitly, in the order of recording. */
  function Errors<T, E>(events: seq<Event<T, E>>): seq<E> {
    if events == [] then []
    else
      (match events[0]
       case ErrorRecord(_, error) => [error]
       case SenderFinish(Some(error)) => [error]
       case _ => [])
      + Errors(events[1..])
  }

  lemma {:induction false} FirstErrorStays<T, E>(s: State<T, E>, events: seq<Event<T, E>>, s': State<T, E>)
    requires Run(s, events, s')
    ensures s.status.Explicit? ==> s'.status == s.status
    ensures !s.status.Explicit? && Errors(events) != [] ==> s'.status == Explicit(Errors(events)[0])
    ensures !s.status.Explicit? && Errors(events) == [] ==> !s'.status.Explicit?
    decreases |events|
  {
    if events == [] {
    } else {
      FirstErrorStays(Step(s, events[0]), events[1..], s');
    }
  }

  /** The verdict read at the end of any run is the first error recorded in it; without one it
      is an unspecified failure or success, as the cell says. */
  lemma FirstErrorIsTheVerdict<T, E>(s: State<T, E>, events: seq<Event<T, E>>, s': State<T, E>)
    requires Initial(s) && Run(s, events, s') && s'.receiver.Reading?
    ensures var verdict := Step(s', ReadStatus).receiver.result;
      && (Errors(events) != [] ==> verdict == FailedWith(Errors(events)[0]))
      && (Errors(events) == [] ==> verdict == if s'.status == Success then Succeeded else FailedUnknown)
  {
    FirstErrorStays(s, events, s');
  }

  /** A receiver that stopped at a slot and finds another one in the channel does not look at the
      cell at all: whatever was recorded, the failure is unspecified. */
  lemma MoreInTheChannel<T, E>(s: State<T, E>, events: seq<Event<T, E>>, s': State<T, E>)
    requires Initial(s) && Run(s, events, s') && s'.receiver.Finishing? && Enabled(s', Drain)
    ensures if s'.taken < |s'.slots| then Step(s', Drain).receiver == Done(FailedUnknown)
            else Step(s', Drain).receiver == Reading && s'.sender.Closed?
    ensures s'.taken < |s'.slots| ==> StoppedAtVacated(s')
  {
    RunKeepsInv(s, events, s');
  }

  predicate LastHalfDropped<T, E>(s: State<T, E>) {
    |s.slots| > 0 && s.slots[|s.slots| - 1].HalfDropped()
  }

  /** What callers owe: the last slot is not abandoned by a plain drop once the sender has
      finished, and one begun before is over by then. Earlier slots may be dropped whenever
      by whomever, and `Slot::error` and `Slot::finish` are free. */
  predicate Disciplined<T, E>(s: State<T, E>, e: Event<T, E>) {
    match e
    case DropRelease(k) => s.sender.Sending? || k < |s.slots| - 1
    case SenderFinish(_) => !LastHalfDropped(s)
    case SenderClose => !LastHalfDropped(s)
    case _ => true
  }

  ghost predicate DisciplinedRun<T, E>(s: State<T, E>, events: seq<Event<T, E>>, s': State<T, E>)
    decreases |events|
  {
    if events == [] then s' == s
    else Enabled(s, events[0]) && Disciplined(s, events[0]) && DisciplinedRun(Step(s, events[0]), events[1..], s')
  }

  ghost predicate SafeInv<T, E>(s: State<T, E>) {
    && Inv(s)
    && (!s.sender.Sending? ==> !LastHalfDropped(s))
    && (s.receiver.Done? && s.receiver.result.Succeeded? ==> Complete(s))
  }

  lemma StepKeepsSafeInv<T, E>(s: State<T, E>, e: Event<T, E>)
    requires SafeInv(s) && Enabled(s, e) && Disciplined(s, e)
    ensures SafeInv(Step(s, e))
  {
    StepKeepsInv(s, e);
    if e.ReadStatus? {
      WrongVerdictIffGap(s);
    }
  }

  lemma {:induction false} RunKeepsSafeInv<T, E>(s: State<T, E>, events: seq<Event<T, E>>, s': State<T, E>)
    requires SafeInv(s) && DisciplinedRun(s, events, s')
    ensures SafeInv(s')
    decreases |events|
  {
    if events == [] {
    } else {
      StepKeepsSafeInv(s, events[0]);
      RunKeepsSafeInv(Step(s, events[0]), events[1..], s');
    }
  }

  /** Ok is the truth: under every disciplined interleaving, a successful `try_for_each` has
      given its callback every prepared item in preparation order, and the sender finished Ok. */
  lemma OkMeansComplete<T, E>(s: State<T, E>, events: seq<Event<T, E>>, s': State<T, E>)
    requires Initial(s) && DisciplinedRun(s, events, s')
    requires s'.receiver.Done? && s'.receiver.result.Succeeded?
    ensures Complete(s') && s'.finishedOk
  {
    RunKeepsSafeInv(s, events, s');
  }

  // ----- the discipline is needed

  lemma Prepend<T, E>(s: State<T, E>, e: Event<T, E>, rest: seq<Event<T, E>>, s': State<T, E>)
    returns (events: seq<Event<T, E>>)
    requires Enabled(s, e) && Run(Step(s, e), rest, s')
    ensures events == [e] + rest && Run(s, events, s')
  {
    events := [e] + rest;
    assert events[1..] == rest;
  }

  /** The last slot is still owed, behind a sender that is gone and a status of success. */
  ghost predicate LastOwed<T, E>(s: State<T, E>) {
    && Inv(s) && s.sender.Closed? && s.status.Success? && |s.slots| > 0
    && (s.receiver.Receiving? || s.receiver.Awaiting?)
    && (forall k :: 0 <= k < |s.slots| - 1 ==> !s.slots[k].cell.Vacated?)
    && !s.slots[|s.slots| - 1].cell.Filled?
  }

  /** The receiver goes on to the last slot; the slots before it are finished, it is dropped. */
  function TowardsLoss<T, E>(s: State<T, E>, item: T): Event<T, E>
    requires s.receiver.Receiving? || (s.receiver.Awaiting? && s.receiver.slot < |s.slots|)
  {
    if s.receiver.Receiving? then Take
    else if s.slots[s.receiver.slot].cell.Filled? then Deliver(None)
    else if s.receiver.slot < |s.slots| - 1 then SlotFinish(s.receiver.slot, item)
    else DropRelease(s.receiver.slot)
  }

  function LossDistance<T, E>(s: State<T, E>): int {
    3 * (|s.slots| - |s.delivered|)
    + (if s.receiver.Receiving? then 2
       else if s.receiver.Awaiting? && s.receiver.slot < |s.slots| && s.slots[s.receiver.slot].cell.Pending? then 1
       else 0)
  }

  lemma LastOwedStep<T, E>(s: State<T, E>, item: T)
    requires LastOwed(s) && (s.receiver.Awaiting? ==> !s.slots[s.receiver.slot].cell.Vacated?)
    ensures var e := TowardsLoss(s, item);
      && Enabled(s, e) && LastOwed(Step(s, e)) && |Step(s, e).slots| == |s.slots|
      && 0 <= LossDistance(Step(s, e)) < LossDistance(s)
      && (Disciplined(s, e) || e == DropRelease(|s.slots| - 1))
      && Step(s, e).sender == s.sender
  {
    StepKeepsInv(s, TowardsLoss(s, item));
  }

  /** The receiver finds the last slot vacated, drains the channel and reads the status. */
  lemma VacatedEndsInSuccess<T, E>(s: State<T, E>) returns (events: seq<Event<T, E>>, s': State<T, E>)
    requires LastOwed(s) && s.receiver.Awaiting? && s.slots[s.receiver.slot].cell.Vacated?
    ensures events == [SeeVacated, Drain, ReadStatus] && Run(s, events, s')
    ensures s'.receiver == Done(Succeeded) && !Complete(s')
  {
    var s1 := Step(s, SeeVacated);
    var s2 := Step(s1, Drain);
    s' := Step(s2, ReadStatus);
    events := Prepend(s2, ReadStatus, [], s');
    events := Prepend(s1, Drain, events, s');
    events := Prepend(s, SeeVacated, events, s');
  }

  /** From every such state a plain drop of that slot, if it has not begun already, can end
      in Ok with its item missing: everything else is as well-behaved as can be. */
  lemma {:induction false} LateDropLosesItem<T, E>(s: State<T, E>, item: T)
    returns (events: seq<Event<T, E>>, s': State<T, E>)
    requires LastOwed(s)
    ensures Run(s, events, s') && s'.receiver == Done(Succeeded) && !Complete(s')
    ensures forall e <- events :: Disciplined(s, e) || e == DropRelease(|s.slots| - 1)
    decreases LossDistance(s)
  {
    if s.receiver.Awaiting? && s.slots[s.receiver.slot].cell.Vacated? {
      events, s' := VacatedEndsInSuccess(s);
      return;
    }
    var e := TowardsLoss(s, item);
    LastOwedStep(s, item);
    var rest;
    rest, s' := LateDropLosesItem(Step(s, e), item);
    events := Prepend(s, e, rest, s');
  }

  /** A concrete run: one slot handed to a worker, the sender finishes Ok and goes, then the
      worker drops the slot. The receiver reports success without the item. */
  lemma DroppedItemReportedAsSuccess() returns (s: State<nat, nat>, events: seq<Event<nat, nat>>, s': State<nat, nat>)
    ensures Initial(s) && Run(s, events, s') && |s'.slots| == 1
    ensures s'.receiver == Done(Succeeded) && !Complete(s')
  {
    s := State(1, Unset, [], 0, [], Sending, false, Receiving);
    var s1 := Step(s, Prepare);
    var s2 := Step(s1, SenderFinish(None));
    var s3 := Step(s2, SenderClose);
    events, s' := LateDropLosesItem(s3, 0);
    NoSlotAfterClose(s3, events, s');
    events := Prepend(s2, SenderClose, events, s');
    events := Prepend(s1, SenderFinish(None), events, s');
    events := Prepend(s, Prepare, events, s');
  }

  /** No slot is prepared once the sender is closed. */
  lemma {:induction false} NoSlotAfterClose<T, E>(s: State<T, E>, events: seq<Event<T, E>>, s': State<T, E>)
    requires s.sender.Closed? && Run(s, events, s')
    ensures s'.sender.Closed? && |s'.slots| == |s.slots|
    decreases |events|
  {
    if events == [] {
    } else {
      NoSlotAfterClose(Step(s, events[0]), events[1..], s');
    }
  }

  // ----- completeness

  /** Every slot is finished, the sender finishes Ok before it goes, the callback accepts. */
  predicate Smooth<T, E>(s: State<T, E>, e: Event<T, E>) {
    match e
    case ErrorRecord(_, _) => false
    case DropRelease(_) => false
    case SenderFinish(failure) => failure.None?
    case SenderClose => s.sender.Finished?
    case Deliver(refusal) => refusal.None?
    case _ => true
  }

  ghost predicate SmoothRun<T, E>(s: State<T, E>, events: seq<Event<T, E>>, s': State<T, E>)
    decreases |events|
  {
    if events == [] then s' == s
    else Enabled(s, events[0]) && Smooth(s, events[0]) && SmoothRun(Step(s, events[0]), events[1..], s')
  }

  ghost predicate SmoothInv<T, E>(s: State<T, E>) {
    && Inv(s)
    && s.status == (if s.sender.Sending? then Unset else Success)
    && (forall k :: 0 <= k < |s.slots| ==> s.slots[k].cell.Filled? || (s.slots[k].cell.Pending? && s.slots[k].armed))
    && (s.receiver.Done? ==> s.receiver.result.Succeeded? && Complete(s))
  }

  lemma SmoothStepKeepsInv<T, E>(s: State<T, E>, e: Event<T, E>)
    requires SmoothInv(s) && Enabled(s, e) && Smooth(s, e)
    ensures SmoothInv(Step(s, e))
  {
    StepKeepsInv(s, e);
  }

  lemma {:induction false} SmoothRunKeepsInv<T, E>(s: State<T, E>, events: seq<Event<T, E>>, s': State<T, E>)
    requires SmoothInv(s) && SmoothRun(s, events, s')
    ensures SmoothInv(s')
    decreases |events|
  {
    if events == [] {
    } else {
      SmoothStepKeepsInv(s, events[0]);
      SmoothRunKeepsInv(Step(s, events[0]), events[1..], s');
    }
  }

  function ReceiverWork<T, E>(s: State<T, E>): int {
    2 * (|s.slots| - |s.delivered|) + match s.receiver
      case Receiving => 4
      case Awaiting(_) => 3
      case Finishing => 2
      case Reading => 1
      case Done(_) => 0
  }

  /** The receiver's next action, when its slot is finished and the sender is gone. */
  function ReceiverEvent<T, E>(s: State<T, E>): Event<T, E>
    requires !s.receiver.Done?
  {
    match s.receiver
    case Receiving => if s.taken < |s.slots| then Take else SeeClosed
    case Awaiting(_) => Deliver(None)
    case Finishing => Drain
    case Reading => ReadStatus
  }

  predicate ProducersDone<T, E>(s: State<T, E>) {
    s.sender.Closed? && forall k :: 0 <= k < |s.slots| ==> s.slots[k].cell.Filled?
  }

  /** If all slots finish, the sender finishes Ok and the callback accepts every item, then
      `try_for_each` returns Ok: any verdict is success with everything delivered, and once
      the producers are through, the receiver can always go on and gets there in a bounded
      number of its own actions. */
  lemma SmoothRunSucceeds<T, E>(s: State<T, E>, events: seq<Event<T, E>>, s': State<T, E>)
    requires Initial(s) && SmoothRun(s, events, s')
    ensures s'.receiver.Done? ==> s'.receiver.result.Succeeded? && Complete(s') && s'.finishedOk
    ensures !s'.receiver.Done? && ProducersDone(s') ==>
      && Enabled(s', ReceiverEvent(s'))
      && Smooth(s', ReceiverEvent(s'))
      && 0 <= ReceiverWork(Step(s', ReceiverEvent(s'))) < ReceiverWork(s')
  {
    SmoothRunKeepsInv(s, events, s');
  }

  /** A full channel never stops everyone: while the sender waits, the receiver has a slot to
      take or drain, or the slot it waits for is there to be seen or still in a hand that can
      complete or abandon it. */
  lemma FullChannelHasReader<T, E>(s: State<T, E>, item: T, error: E)
    requires Inv(s) && s.capacity > 0 && s.sender.Sending? && !s.receiver.Done? && !Enabled(s, Prepare)
    ensures match s.receiver
      case Receiving => Enabled(s, Take)
      case Awaiting(k) =>
        || Enabled(s, Deliver(None))
        || Enabled(s, SeeVacated)
        || Enabled(s, ErrorRelease(k))
        || (Enabled(s, SlotFinish(k, item)) && Enabled(s, ErrorRecord(k, error)) && Enabled(s, DropRelease(k)))
      case Finishing => Enabled(s, Drain)
      case Reading => false
      case Done(_) => false
  {
  }
}
