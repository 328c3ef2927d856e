/** Batch mode: a coordinator admits files under a byte target; each is read and staged by
    other threads; a completion guard shared by a file's reader and writer fires when both
    have let go; draining waits for every guard, publishes, flushes, and only then lets
    admission go on. One event is one action of one thread, so runs are arbitrary
    interleavings, with failures wherever the threads may fail. */
module Batching {
  import opened Bytes
  import opened Wrappers
  import opened ScratchBudget

  // ----- one file

  /** Where a file is in the coordinator's books. Settled: its batch has been flushed. */
  datatype Admission = Outside | InBatch | Settled

  /** A reader owns the reservation until it hands the file to a writer, and its clone of
      the guard until its very end. */
  datatype ReaderPhase = NoReader | ReaderQueued | Opening | OpenFailed | ReaderReleased | Reading | ReaderDone

  /** A failed writer drops its payload, then its reservation, then its guard; a successful
      one shrinks the reservation, stores the staged file in the guard, then drops its clone. */
  datatype WriterPhase = NoWriter | WriterQueued | StagingFile | StageFailed | WriterReleased | Shrunk | StoredInGuard
    | WriterDone

  /** The shared guard: clones held, last clone gone but its notice not yet sent, notice in
      the channel (with or without a staged file), notice received. */
  datatype Guard = NoGuard | Held(clones: nat) | Firing | Notified(staged: bool) | Received

  /** A staged file's way through the publisher, up to the acknowledgement. */
  datatype Publication = Unpublished | Collected | PublisherQueued | Publishing | PayloadClosed | ReservationDropped
    | AckSent | AckReceived

  datatype File = File(
    admission: Admission,
    reader: ReaderPhase,
    writer: WriterPhase,
    guard: Guard,
    // A staged file sits in the guard.
    cell: bool,
    notices: nat,
    publication: Publication)

  const NEW_FILE: File := File(Outside, NoReader, NoWriter, NoGuard, false, 0, Unpublished)

  /** Actions of readers, writers and publishers on one file. */
  datatype Action =
    | ReaderTake
    | OpenFail
    | ReaderRelease
    | HandToWriter
    | ReaderLetGo
    | WriterTake
    | StageFail
    | WriterRelease
    | ShrinkTo(bytes: nat)
    | StoreStaged
    | WriterLetGo
    | Fire
    | PublisherTake
    | ClosePayload(ok: bool)
    | PublisherRelease
    | Acknowledge

  predicate ReaderActive(f: File) {
    !f.reader.NoReader? && !f.reader.ReaderDone?
  }

  predicate WriterActive(f: File) {
    !f.writer.NoWriter? && !f.writer.WriterDone?
  }

  predicate Active(f: File) {
    ReaderActive(f) || WriterActive(f)
  }

  predicate CanAct(f: File, held: Option<nat>, a: Action) {
    match a
    case ReaderTake => f.reader.ReaderQueued?
    case OpenFail => f.reader.Opening?
    case ReaderRelease => f.reader.OpenFailed? && held.Some?
    case HandToWriter => f.reader.Opening? && f.guard.Held?
    case ReaderLetGo => (f.reader.ReaderReleased? || f.reader.Reading?) && f.guard.Held? && f.guard.clones > 0
    case WriterTake => f.writer.WriterQueued?
    case StageFail => f.writer.StagingFile?
    case WriterRelease => f.writer.StageFailed? && held.Some?
    case ShrinkTo(bytes) => f.writer.StagingFile? && held.Some? && bytes <= held.value
    case StoreStaged => f.writer.Shrunk?
    case WriterLetGo => (f.writer.WriterReleased? || f.writer.StoredInGuard?) && f.guard.Held? && f.guard.clones > 0
    case Fire => f.guard.Firing?
    case PublisherTake => f.publication.PublisherQueued?
    case ClosePayload(_) => f.publication.Publishing?
    case PublisherRelease => f.publication.PayloadClosed? && held.Some?
    case Acknowledge => f.publication.ReservationDropped?
  }

  /** Dropping one clone; the last one to go takes the guard's contents with it. */
  function DropClone(g: Guard): Guard
    requires g.Held?
  {
    if g.clones <= 1 then Firing else Held(g.clones - 1)
  }

  function Act(f: File, held: Option<nat>, a: Action): File
    requires CanAct(f, held, a)
  {
    match a
    case ReaderTake => f.(reader := Opening)
    case OpenFail => f.(reader := OpenFailed)
    case ReaderRelease => f.(reader := ReaderReleased)
    case HandToWriter => f.(reader := Reading, writer := WriterQueued, guard := Held(f.guard.clones + 1))
    case ReaderLetGo => f.(reader := ReaderDone, guard := DropClone(f.guard))
    case WriterTake => f.(writer := StagingFile)
    case StageFail => f.(writer := StageFailed)
    case WriterRelease => f.(writer := WriterReleased)
    case ShrinkTo(_) => f.(writer := Shrunk)
    case StoreStaged => f.(writer := StoredInGuard, cell := true)
    case WriterLetGo => f.(writer := WriterDone, guard := DropClone(f.guard))
    case Fire => f.(guard := Notified(f.cell), cell := false, notices := f.notices + 1)
    case PublisherTake => f.(publication := Publishing)
    case ClosePayload(_) => f.(publication := PayloadClosed)
    case PublisherRelease => f.(publication := ReservationDropped)
    case Acknowledge => f.(publication := AckSent)
  }

  /** The file's reservation after an action. */
  function HeldAfter(held: Option<nat>, a: Action): Option<nat> {
    match a
    case ReaderRelease => None
    case WriterRelease => None
    case PublisherRelease => None
    case ShrinkTo(bytes) => Some(bytes)
    case _ => held
  }

  // ----- the coordinator

  /** What a drain was started for. */
  datatype After = ThenReserve | ThenNext | ThenEnd

  datatype Coordinator =
    | AtFile
    | Reserving
    | Receiving(after: After)
    | Handing(after: After)
    | Acking(after: After)
    | Flushing(after: After)
    | Finished

  /** How many threads of each sort there are, and how much fits the queue in front of them. */
  datatype Pools = Pools(
    readers: nat, readerQueue: nat, writers: nat, writerQueue: nat, publishers: nat, publisherQueue: nat)
  {
    predicate Valid() {
      readers > 0 && readerQueue > 0 && writers > 0 && writerQueue > 0 && publishers > 0 && publisherQueue > 0
    }
  }

  datatype Config = Config(limit: nat, target: nat, sizes: seq<nat>, pools: Pools) {
    predicate Valid() {
      0 < target <= limit && pools.Valid()
    }
  }

  /** `next` is the file being submitted, `pending` the size of the current batch, `received`
      and `acked` what this drain has received so far, `staged` the files it collected. */
  datatype State = State(
    files: seq<File>,
    held: seq<Option<nat>>,
    used: nat,
    stopped: bool,
    coordinator: Coordinator,
    next: nat,
    pending: nat,
    received: nat,
    staged: nat,
    acked: nat)

  datatype Event =
    | FileAction(i: nat, action: Action)
    // submit: look at the budget, maybe drain, then reserve and hand to the reader.
    | CheckFile
    | Reserve
    // drain: the receive loop, handing to the publisher, acknowledgements, volume flushes.
    | ReceiveNotice(i: nat)
    | AllReceived
    | HandToPublisher(i: nat)
    | AllHanded
    | ReceiveAck(i: nat)
    | AllAcked
    | FlushVolumes(ok: bool)

  function Count(files: seq<File>, p: File -> bool): nat {
    if files == [] then 0 else (if p(files[0]) then 1 else 0) + Count(files[1..], p)
  }

  predicate IsCollected(f: File) {
    f.publication.Collected?
  }

  /** Where the coordinator goes on after a drain. */
  function Resume(after: After): Coordinator {
    match after
    case ThenReserve => Reserving
    case ThenNext => AtFile
    case ThenEnd => Finished
  }

  /** `drain` returns at once when nothing is pending. */
  function StartDrain(pending: nat, after: After): Coordinator {
    if pending == 0 then Resume(after) else Receiving(after)
  }

  predicate Enabled(c: Config, s: State, e: Event) {
    && |s.files| == |s.held| == |c.sizes|
    && match e
       case FileAction(i, a) => i < |s.files| && CanAct(s.files[i], s.held[i], a)
       case CheckFile => s.coordinator.AtFile? && s.next <= |c.sizes|
       case Reserve =>
         s.coordinator.Reserving? && s.next < |c.sizes|
         && (c.sizes[s.next] > c.limit || s.stopped || c.sizes[s.next] <= Saturating(c.limit, s.used))
       case ReceiveNotice(i) =>
         s.coordinator.Receiving? && s.received < s.pending && i < |s.files| && s.files[i].guard.Notified?
       case AllReceived => s.coordinator.Receiving? && s.received == s.pending
       case HandToPublisher(i) => s.coordinator.Handing? && i < |s.files| && s.files[i].publication.Collected?
       case AllHanded => s.coordinator.Handing? && forall i :: 0 <= i < |s.files| ==> !s.files[i].publication.Collected?
       case ReceiveAck(i) =>
         s.coordinator.Acking? && s.acked < s.staged && i < |s.files| && s.files[i].publication.AckSent?
       case AllAcked => s.coordinator.Acking? && s.acked == s.staged
       case FlushVolumes(_) => s.coordinator.Flushing?
  }

  function Settle(files: seq<File>): (settled: seq<File>)
    ensures |settled| == |files|
    ensures forall i :: 0 <= i < |files| ==>
      settled[i] == if files[i].admission.InBatch? then files[i].(admission := Settled) else files[i]
  {
    seq(|files|, i requires 0 <= i < |files| =>
      if files[i].admission.InBatch? then files[i].(admission := Settled) else files[i])
  }

  function Admit(f: File): File {
    f.(admission := InBatch, reader := ReaderQueued, guard := Held(1))
  }

  /** Taking a notice off the channel, with the staged file if it carries one. */
  function Receive(f: File): File
    requires f.guard.Notified?
  {
    f.(guard := Received, publication := if f.guard.staged then Collected else f.publication)
  }

  function Step(c: Config, s: State, e: Event): State
    requires Enabled(c, s, e)
  {
    match e
    case FileAction(i, a) =>
      var held := HeldAfter(s.held[i], a);
      var freed := match (s.held[i], held)
        case (Some(before), Some(after)) => Saturating(before, after)
        case (Some(before), None) => before
        case (None, _) => 0;
      s.(files := s.files[i := Act(s.files[i], s.held[i], a)],
         held := s.held[i := held],
         used := Saturating(s.used, freed),
         stopped := s.stopped || (a.ClosePayload? && !a.ok))
    case CheckFile =>
      if s.next == |c.sizes| then s.(coordinator := StartDrain(s.pending, ThenEnd), received := 0)
      else
        var bytes := c.sizes[s.next];
        if bytes <= c.limit && s.pending > 0 && bytes > Saturating(c.target, s.used)
        then s.(coordinator := StartDrain(s.pending, ThenReserve), received := 0)
        else s.(coordinator := Reserving)
    case Reserve =>
      var bytes := c.sizes[s.next];
      if bytes > c.limit || s.stopped then s.(coordinator := AtFile, next := s.next + 1)
      else
        s.(files := s.files[s.next := Admit(s.files[s.next])],
           held := s.held[s.next := Some(bytes)],
           used := s.used + bytes,
           pending := s.pending + 1,
           next := s.next + 1,
           received := 0,
           coordinator := if bytes > c.target then StartDrain(s.pending + 1, ThenNext) else AtFile)
    case ReceiveNotice(i) =>
      s.(files := s.files[i := Receive(s.files[i])], received := s.received + 1)
    case AllReceived =>
      s.(coordinator := Handing(s.coordinator.after), staged := Count(s.files, IsCollected), acked := 0)
    case HandToPublisher(i) => s.(files := s.files[i := s.files[i].(publication := PublisherQueued)])
    case AllHanded => s.(coordinator := Acking(s.coordinator.after))
    case ReceiveAck(i) => s.(files := s.files[i := s.files[i].(publication := AckReceived)], acked := s.acked + 1)
    case AllAcked => s.(coordinator := Flushing(s.coordinator.after))
    case FlushVolumes(ok) =>
      s.(files := Settle(s.files), pending := 0, stopped := s.stopped || !ok,
         coordinator := Resume(s.coordinator.after))
  }

  predicate Initial(c: Config, s: State) {
    && s.files == seq(|c.sizes|, i => NEW_FILE)
    && s.held == seq(|c.sizes|, i => None)
    && s.used == 0 && s.coordinator.AtFile? && s.next == 0 && s.pending == 0
  }

  ghost predicate Run(c: Config, s: State, events: seq<Event>, s': State)
    decreases |events|
  {
    if events == [] then s' == s
    else Enabled(c, s, events[0]) && Run(c, Step(c, s, events[0]), events[1..], s')
  }

  ghost predicate Reaches(c: Config, s: State, s': State) {
    exists events :: Run(c, s, events, s')
  }

  lemma {:induction false} RunSnoc(c: Config, s: State, events: seq<Event>, s': State, e: Event)
    requires Run(c, s, events, s') && Enabled(c, s', e)
    ensures Run(c, s, events + [e], Step(c, s', e))
    decreases |events|
  {
    if events == [] {
      assert Run(c, Step(c, s, e), [], Step(c, s, e));
      assert [e][1..] == [];
    } else {
      RunSnoc(c, Step(c, s, events[0]), events[1..], s', e);
      assert (events + [e])[1..] == events[1..] + [e];
    }
  }

  // ----- invariants of one file

  predicate HoldsReservation(f: File) {
    || f.reader.ReaderQueued? || f.reader.Opening? || f.reader.OpenFailed?
    || f.writer.WriterQueued? || f.writer.StagingFile? || f.writer.StageFailed? || f.writer.Shrunk?
    || f.cell || f.guard == Notified(true)
    || f.publication.Collected? || f.publication.PublisherQueued?
    || f.publication.Publishing? || f.publication.PayloadClosed?
  }

  function Clones(f: File): nat {
    (if ReaderActive(f) then 1 else 0) + (if WriterActive(f) then 1 else 0)
  }

  /** A file's parts agree: the guard counts exactly the threads at work, its one notice is
      sent when they have all let go, and the reservation lives wherever the file is. */
  predicate Consistent(f: File, held: Option<nat>) {
    if f.admission.Outside? then f == NEW_FILE && held.None?
    else
      && !f.reader.NoReader? && !f.guard.NoGuard?
      && (f.reader.ReaderQueued? || f.reader.Opening? || f.reader.OpenFailed? || f.reader.ReaderReleased? ==>
        f.writer.NoWriter?)
      && (f.reader.Reading? ==> !f.writer.NoWriter?)
      && (if f.guard.Held? then f.guard.clones == Clones(f) >= 1 else !Active(f))
      && (f.cell ==> (f.writer.StoredInGuard? || f.writer.WriterDone?) && (f.guard.Held? || f.guard.Firing?))
      && (f.writer.StoredInGuard? ==> f.cell)
      && (held.Some? <==> HoldsReservation(f))
      && f.notices == (if f.guard.Notified? || f.guard.Received? then 1 else 0)
      && (!f.publication.Unpublished? ==> f.guard.Received?)
      && (f.admission.Settled? ==> f.guard.Received? && (f.publication.Unpublished? || f.publication.AckReceived?))
  }

  datatype Phase = Admitting | ReceivingNotices | HandingOver | AwaitingAcks | FlushingVolumes

  function PhaseOf(coordinator: Coordinator): Phase {
    match coordinator
    case Receiving(_) => ReceivingNotices
    case Handing(_) => HandingOver
    case Acking(_) => AwaitingAcks
    case Flushing(_) => FlushingVolumes
    case _ => Admitting
  }

  /** How far a file of the current batch may have come in each phase. */
  predicate InPhase(f: File, phase: Phase) {
    f.admission.InBatch? ==>
      match phase
      case Admitting => !f.guard.Received?
      case ReceivingNotices => f.publication.Unpublished? || f.publication.Collected?
      case HandingOver => f.guard.Received? && !f.publication.AckReceived?
      case AwaitingAcks => f.guard.Received? && !f.publication.Collected?
      case FlushingVolumes => f.guard.Received? && (f.publication.Unpublished? || f.publication.AckReceived?)
  }

  predicate IsInBatch(f: File) {
    f.admission.InBatch?
  }

  predicate IsReceived(f: File) {
    f.admission.InBatch? && f.guard.Received?
  }

  predicate IsStaged(f: File) {
    f.admission.InBatch? && !f.publication.Unpublished?
  }

  predicate IsAcked(f: File) {
    f.admission.InBatch? && f.publication.AckReceived?
  }

  predicate SameKind(f: File, g: File) {
    && f.admission == g.admission && IsReceived(f) == IsReceived(g)
    && IsStaged(f) == IsStaged(g) && IsAcked(f) == IsAcked(g)
  }

  /** Threads acting on a file keep it consistent and leave the coordinator's counts alone. */
  lemma ActionKeepsFile(f: File, held: Option<nat>, a: Action, phase: Phase)
    requires Consistent(f, held) && InPhase(f, phase) && CanAct(f, held, a)
    ensures Consistent(Act(f, held, a), HeldAfter(held, a)) && InPhase(Act(f, held, a), phase)
    ensures SameKind(Act(f, held, a), f)
    ensures HeldAfter(held, a).Some? ==> held.Some? && HeldAfter(held, a).value <= held.value
    ensures !f.admission.Outside?
  {
  }

  // ----- counting

  lemma {:induction false} CountUpdate(files: seq<File>, i: nat, f: File, p: File -> bool)
    requires i < |files|
    ensures Count(files[i := f], p) + (if p(files[i]) then 1 else 0) == Count(files, p) + (if p(f) then 1 else 0)
  {
    if i == 0 {
      assert files[i := f][1..] == files[1..];
    } else {
      CountUpdate(files[1..], i - 1, f, p);
      assert files[i := f][1..] == files[1..][i - 1 := f];
    }
  }

  /** If one property implies another and holds equally often, they hold of the same files. */
  lemma {:induction false} CountsEqual(files: seq<File>, p: File -> bool, q: File -> bool)
    requires forall i :: 0 <= i < |files| && p(files[i]) ==> q(files[i])
    ensures Count(files, p) <= Count(files, q) <= |files|
    ensures Count(files, p) == Count(files, q) <==> forall i :: 0 <= i < |files| ==> p(files[i]) == q(files[i])
  {
    if files == [] {
    } else {
      CountsEqual(files[1..], p, q);
      assert forall i :: 1 <= i < |files| ==> files[i] == files[1..][i - 1];
    }
  }

  predicate Never(f: File) {
    false
  }

  lemma {:induction false} CountNever(files: seq<File>)
    ensures Count(files, Never) == 0
  {
    if files == [] {
    } else {
      CountNever(files[1..]);
    }
  }

  /** Nothing of the kind, exactly when the count is zero. */
  lemma CountZero(files: seq<File>, p: File -> bool)
    ensures Count(files, p) == 0 <==> forall i :: 0 <= i < |files| ==> !p(files[i])
  {
    CountNever(files);
    CountsEqual(files, Never, p);
  }

  lemma {:induction false} NothingHeld(held: seq<Option<nat>>)
    requires forall i :: 0 <= i < |held| ==> held[i].None?
    ensures TotalLive(held) == 0
  {
    if held == [] {
    } else {
      NothingHeld(held[1..]);
    }
  }

  // ----- the invariant

  ghost predicate FilesOk(files: seq<File>, held: seq<Option<nat>>, phase: Phase) {
    |files| == |held| && forall i :: 0 <= i < |files| ==> Consistent(files[i], held[i]) && InPhase(files[i], phase)
  }

  /** The drain loops count what they wait for. */
  ghost predicate CountsOk(s: State) {
    && s.pending == Count(s.files, IsInBatch)
    && (s.coordinator.Receiving? ==> s.received == Count(s.files, IsReceived))
    && (s.coordinator.Handing? || s.coordinator.Acking? ==> s.staged == Count(s.files, IsStaged))
    && (s.coordinator.Handing? ==> s.acked == 0)
    && (s.coordinator.Acking? ==> s.acked == Count(s.files, IsAcked))
  }

  /** The batch in progress is one file whose own reservation exceeds the target. */
  predicate OversizedBatch(c: Config, s: State) {
    && s.pending == 1 && 0 < s.next <= |c.sizes| == |s.files|
    && s.files[s.next - 1].admission.InBatch?
    && c.target < c.sizes[s.next - 1] <= c.limit
    && s.used <= c.sizes[s.next - 1]
  }

  ghost predicate BudgetOk(c: Config, s: State)
    requires |s.files| == |s.held| == |c.sizes|
  {
    && s.used == TotalLive(s.held)
    && s.next <= |c.sizes|
    && (forall i :: s.next <= i < |s.files| ==> s.files[i].admission.Outside?)
    && match s.coordinator
       case AtFile => s.used <= c.target
       case Reserving =>
         && s.next < |c.sizes| && s.used <= c.target
         && (s.pending == 0 || c.sizes[s.next] > c.limit || c.sizes[s.next] <= c.target - s.used)
       case Finished => s.next == |c.sizes| && s.pending == 0 && s.used <= c.target
       case Receiving(after) => DrainOk(c, s, after)
       case Handing(after) => DrainOk(c, s, after)
       case Acking(after) => DrainOk(c, s, after)
       case Flushing(after) => DrainOk(c, s, after)
  }

  predicate DrainOk(c: Config, s: State, after: After) {
    && s.pending > 0
    && match after
       case ThenReserve => s.next < |c.sizes| && s.used <= c.target
       case ThenNext => s.used <= c.target || OversizedBatch(c, s)
       case ThenEnd => s.next == |c.sizes| && s.used <= c.target
  }

  ghost predicate Inv(c: Config, s: State) {
    && c.Valid() && |s.files| == |s.held| == |c.sizes|
    && FilesOk(s.files, s.held, PhaseOf(s.coordinator)) && CountsOk(s) && BudgetOk(c, s)
  }

  // ----- every step keeps the invariant

  /** A reservation is part of what is reserved. */
  lemma HeldIsCounted(held: seq<Option<nat>>, i: nat)
    requires i < |held|
    ensures held[i].Some? ==> held[i].value <= TotalLive(held)
  {
    TotalUpdate(held, i, None);
  }

  /** Outside a batch nothing is reserved, so an empty batch leaves the budget untouched. */
  lemma EmptyBatchHoldsNothing(c: Config, s: State)
    requires Inv(c, s) && s.pending == 0
    ensures s.used == 0
  {
    CountZero(s.files, IsInBatch);
    forall i | 0 <= i < |s.held| ensures s.held[i].None? {
      assert Consistent(s.files[i], s.held[i]) && !IsInBatch(s.files[i]);
    }
    NothingHeld(s.held);
  }

  /** Changing one file: the others stay as they were and every count moves by that file. */
  lemma UpdateFile(files: seq<File>, held: seq<Option<nat>>, phase: Phase, i: nat, f: File, h: Option<nat>)
    requires FilesOk(files, held, phase) && i < |files|
    requires Consistent(f, h) && InPhase(f, phase)
    ensures FilesOk(files[i := f], held[i := h], phase)
    ensures Count(files[i := f], IsInBatch) + One(IsInBatch(files[i])) == Count(files, IsInBatch) + One(IsInBatch(f))
    ensures Count(files[i := f], IsReceived) + One(IsReceived(files[i])) ==
      Count(files, IsReceived) + One(IsReceived(f))
    ensures Count(files[i := f], IsStaged) + One(IsStaged(files[i])) == Count(files, IsStaged) + One(IsStaged(f))
    ensures Count(files[i := f], IsAcked) + One(IsAcked(files[i])) == Count(files, IsAcked) + One(IsAcked(f))
  {
    CountUpdate(files, i, f, IsInBatch);
    CountUpdate(files, i, f, IsReceived);
    CountUpdate(files, i, f, IsStaged);
    CountUpdate(files, i, f, IsAcked);
  }

  /** The second state differs in one admitted file, whose reservation may have shrunk, and in
      what has been received and acknowledged. */
  ghost predicate FileReplaced(s: State, s': State, i: nat, f: File, h: Option<nat>) {
    && |s.files| == |s.held| && i < |s.files| && !f.admission.Outside? && f.admission == s.files[i].admission
    && s'.files == s.files[i := f] && s'.held == s.held[i := h] && s'.used == TotalLive(s'.held) <= s.used
    && s'.coordinator == s.coordinator && s'.next == s.next && s'.pending == s.pending && s'.staged == s.staged
  }

  lemma ReplacingKeepsBudget(c: Config, s: State, s': State, i: nat, f: File, h: Option<nat>)
    requires FileReplaced(s, s', i, f, h) && |s.files| == |c.sizes| && BudgetOk(c, s)
    ensures BudgetOk(c, s')
  {
  }

  /** The counts go with the file that was replaced. */
  predicate BooksFollow(s: State, s': State, g: File, f: File) {
    && (s.coordinator.Receiving? ==> s'.received + One(IsReceived(g)) == s.received + One(IsReceived(f)))
    && (s.coordinator.Handing? || s.coordinator.Acking? ==> IsStaged(f) == IsStaged(g))
    && (s.coordinator.Handing? ==> s'.acked == s.acked)
    && (s.coordinator.Acking? ==> s'.acked + One(IsAcked(g)) == s.acked + One(IsAcked(f)))
  }

  lemma ReplaceFile(c: Config, s: State, s': State, i: nat, f: File, h: Option<nat>)
    requires Inv(c, s) && FileReplaced(s, s', i, f, h) && BooksFollow(s, s', s.files[i], f)
    requires Consistent(f, h) && InPhase(f, PhaseOf(s.coordinator))
    ensures Inv(c, s')
  {
    UpdateFile(s.files, s.held, PhaseOf(s.coordinator), i, f, h);
    ReplacingKeepsBudget(c, s, s', i, f, h);
  }

  lemma FileActionKeepsInv(c: Config, s: State, i: nat, a: Action)
    requires Inv(c, s) && Enabled(c, s, FileAction(i, a))
    ensures Inv(c, Step(c, s, FileAction(i, a)))
  {
    var held' := HeldAfter(s.held[i], a);
    var s' := Step(c, s, FileAction(i, a));
    ActionKeepsFile(s.files[i], s.held[i], a, PhaseOf(s.coordinator));
    TotalUpdate(s.held, i, held');
    HeldIsCounted(s.held, i);
    ReplaceFile(c, s, s', i, Act(s.files[i], s.held[i], a), held');
  }

  /** While files are being admitted no notice has been received. */
  lemma NothingReceivedYet(files: seq<File>, held: seq<Option<nat>>)
    requires FilesOk(files, held, Admitting)
    ensures Count(files, IsReceived) == 0 && FilesOk(files, held, ReceivingNotices)
  {
    CountZero(files, IsReceived);
  }

  lemma CheckFileKeepsInv(c: Config, s: State)
    requires Inv(c, s) && Enabled(c, s, CheckFile)
    ensures Inv(c, Step(c, s, CheckFile))
  {
    NothingReceivedYet(s.files, s.held);
  }

  /** Only a file admitted into an empty batch may exceed the target, and it drains at once. */
  lemma ReserveKeepsInv(c: Config, s: State)
    requires Inv(c, s) && Enabled(c, s, Reserve)
    ensures Inv(c, Step(c, s, Reserve))
  {
    var bytes := c.sizes[s.next];
    if bytes <= c.limit && !s.stopped {
      if s.pending == 0 {
        EmptyBatchHoldsNothing(c, s);
      }
      var f := s.files[s.next];
      assert Consistent(f, s.held[s.next]);
      UpdateFile(s.files, s.held, Admitting, s.next, Admit(f), Some(bytes));
      TotalUpdate(s.held, s.next, Some(bytes));
      NothingReceivedYet(s.files[s.next := Admit(f)], s.held[s.next := Some(bytes)]);
    }
  }

  lemma ReceiveKeepsFile(f: File, held: Option<nat>)
    requires Consistent(f, held) && InPhase(f, ReceivingNotices) && f.guard.Notified?
    ensures Consistent(Receive(f), held) && InPhase(Receive(f), ReceivingNotices)
    ensures f.admission.InBatch? && !IsReceived(f) && IsReceived(Receive(f))
  {
  }

  lemma ReceiveNoticeKeepsInv(c: Config, s: State, i: nat)
    requires Inv(c, s) && Enabled(c, s, ReceiveNotice(i))
    ensures Inv(c, Step(c, s, ReceiveNotice(i)))
  {
    ReceiveKeepsFile(s.files[i], s.held[i]);
    assert s.held[i := s.held[i]] == s.held;
    ReplaceFile(c, s, Step(c, s, ReceiveNotice(i)), i, Receive(s.files[i]), s.held[i]);
  }

  lemma AllReceivedKeepsInv(c: Config, s: State)
    requires Inv(c, s) && Enabled(c, s, AllReceived)
    ensures Inv(c, Step(c, s, AllReceived))
  {
    CountsEqual(s.files, IsReceived, IsInBatch);
    forall i | 0 <= i < |s.files| ensures IsCollected(s.files[i]) == IsStaged(s.files[i]) {
      assert Consistent(s.files[i], s.held[i]) && InPhase(s.files[i], ReceivingNotices);
    }
    CountsEqual(s.files, IsCollected, IsStaged);
    forall i | 0 <= i < |s.files| ensures InPhase(s.files[i], HandingOver) {
      assert InPhase(s.files[i], ReceivingNotices) && IsReceived(s.files[i]) == IsInBatch(s.files[i]);
    }
  }

  lemma HandOverKeepsFile(f: File, held: Option<nat>)
    requires Consistent(f, held) && InPhase(f, HandingOver) && f.publication.Collected?
    ensures var f' := f.(publication := PublisherQueued);
      Consistent(f', held) && InPhase(f', HandingOver) && SameKind(f', f) && IsInBatch(f)
  {
  }

  lemma AckKeepsFile(f: File, held: Option<nat>)
    requires Consistent(f, held) && InPhase(f, AwaitingAcks) && f.publication.AckSent?
    ensures var f' := f.(publication := AckReceived);
      && Consistent(f', held) && InPhase(f', AwaitingAcks) && IsInBatch(f)
      && IsStaged(f) && IsStaged(f') && !IsAcked(f) && IsAcked(f')
  {
  }

  lemma HandToPublisherKeepsInv(c: Config, s: State, i: nat)
    requires Inv(c, s) && Enabled(c, s, HandToPublisher(i))
    ensures Inv(c, Step(c, s, HandToPublisher(i)))
  {
    HandOverKeepsFile(s.files[i], s.held[i]);
    assert s.held[i := s.held[i]] == s.held;
    ReplaceFile(c, s, Step(c, s, HandToPublisher(i)), i, s.files[i].(publication := PublisherQueued), s.held[i]);
  }

  lemma AllHandedKeepsInv(c: Config, s: State)
    requires Inv(c, s) && Enabled(c, s, AllHanded)
    ensures Inv(c, Step(c, s, AllHanded))
  {
    forall i | 0 <= i < |s.files| ensures !IsAcked(s.files[i]) && InPhase(s.files[i], AwaitingAcks) {
      assert InPhase(s.files[i], HandingOver) && !s.files[i].publication.Collected?;
    }
    CountZero(s.files, IsAcked);
  }

  lemma ReceiveAckKeepsInv(c: Config, s: State, i: nat)
    requires Inv(c, s) && Enabled(c, s, ReceiveAck(i))
    ensures Inv(c, Step(c, s, ReceiveAck(i)))
  {
    AckKeepsFile(s.files[i], s.held[i]);
    assert s.held[i := s.held[i]] == s.held;
    ReplaceFile(c, s, Step(c, s, ReceiveAck(i)), i, s.files[i].(publication := AckReceived), s.held[i]);
  }

  lemma AllAckedKeepsInv(c: Config, s: State)
    requires Inv(c, s) && Enabled(c, s, AllAcked)
    ensures Inv(c, Step(c, s, AllAcked))
  {
    AllAckedFiles(s.files, s.held);
  }

  lemma AllAckedFiles(files: seq<File>, held: seq<Option<nat>>)
    requires FilesOk(files, held, AwaitingAcks) && Count(files, IsAcked) == Count(files, IsStaged)
    ensures FilesOk(files, held, FlushingVolumes)
  {
    CountsEqual(files, IsAcked, IsStaged);
    forall i | 0 <= i < |files| ensures InPhase(files[i], FlushingVolumes) {
      assert InPhase(files[i], AwaitingAcks) && IsAcked(files[i]) == IsStaged(files[i]);
    }
  }

  lemma FlushVolumesKeepsInv(c: Config, s: State, ok: bool)
    requires Inv(c, s) && Enabled(c, s, FlushVolumes(ok))
    ensures Inv(c, Step(c, s, FlushVolumes(ok)))
  {
    var s' := Step(c, s, FlushVolumes(ok));
    forall i | 0 <= i < |s.files|
      ensures s.held[i].None? && !IsInBatch(s'.files[i]) && Consistent(s'.files[i], s'.held[i])
    {
      assert Consistent(s.files[i], s.held[i]) && InPhase(s.files[i], FlushingVolumes);
    }
    CountZero(s'.files, IsInBatch);
    NothingHeld(s.held);
  }

  lemma StepKeepsInv(c: Config, s: State, e: Event)
    requires Inv(c, s) && Enabled(c, s, e)
    ensures Inv(c, Step(c, s, e))
  {
    match e
    case FileAction(i, a) => FileActionKeepsInv(c, s, i, a);
    case CheckFile => CheckFileKeepsInv(c, s);
    case Reserve => ReserveKeepsInv(c, s);
    case ReceiveNotice(i) => ReceiveNoticeKeepsInv(c, s, i);
    case AllReceived => AllReceivedKeepsInv(c, s);
    case HandToPublisher(i) => HandToPublisherKeepsInv(c, s, i);
    case AllHanded => AllHandedKeepsInv(c, s);
    case ReceiveAck(i) => ReceiveAckKeepsInv(c, s, i);
    case AllAcked => AllAckedKeepsInv(c, s);
    case FlushVolumes(ok) => FlushVolumesKeepsInv(c, s, ok);
  }

  lemma InitialInv(c: Config, s: State)
    requires c.Valid() && Initial(c, s)
    ensures Inv(c, s)
  {
    CountZero(s.files, IsInBatch);
    NothingHeld(s.held);
  }

  lemma {:induction false} RunKeepsInv(c: Config, s: State, events: seq<Event>, s': State)
    requires Inv(c, s) && Run(c, s, events, s')
    ensures Inv(c, s')
    decreases |events|
  {
    if events == [] {
    } else {
      StepKeepsInv(c, s, events[0]);
      RunKeepsInv(c, Step(c, s, events[0]), events[1..], s');
    }
  }

  // ----- safety over whole runs

  /** Reachable: some run from the start gets here. */
  ghost predicate Reachable(c: Config, s: State) {
    c.Valid() && exists start, events :: Initial(c, start) && Run(c, start, events, s)
  }

  lemma ReachableInv(c: Config, s: State)
    requires Reachable(c, s)
    ensures Inv(c, s)
  {
    var start, events :| Initial(c, start) && Run(c, start, events, s);
    InitialInv(c, start);
    RunKeepsInv(c, start, events, s);
  }

  /** Each file sends at most one notice, never before both its threads have let go, and the
      notice carries a staged file only together with its reservation. */
  lemma OneNotice(c: Config, s: State, i: nat)
    requires Reachable(c, s) && i < |s.files|
    ensures |s.held| == |s.files|
    ensures s.files[i].notices <= 1
    ensures s.files[i].notices == 1 <==> s.files[i].guard.Notified? || s.files[i].guard.Received?
    ensures s.files[i].guard.Firing? || s.files[i].notices == 1 ==> !Active(s.files[i])
    ensures s.files[i].guard.Notified? ==> (s.files[i].guard.staged <==> s.held[i].Some?)
  {
    ReachableInv(c, s);
    assert Consistent(s.files[i], s.held[i]);
  }

  predicate AtPublisher(f: File) {
    !f.publication.Unpublished? && !f.publication.Collected? && !f.publication.AckReceived?
  }

  /** The barrier: while any file is with the publisher, no reader or writer is active and
      no notice is outstanding for any file. */
  lemma Barrier(c: Config, s: State, i: nat, j: nat)
    requires Reachable(c, s) && i < |s.files| && j < |s.files|
    requires AtPublisher(s.files[i])
    ensures !Active(s.files[j])
    ensures s.files[j].admission.Outside? || s.files[j].guard.Received?
    ensures s.coordinator.Handing? || s.coordinator.Acking?
  {
    ReachableInv(c, s);
    assert Consistent(s.files[i], s.held[i]) && InPhase(s.files[i], PhaseOf(s.coordinator));
    assert Consistent(s.files[j], s.held[j]) && InPhase(s.files[j], PhaseOf(s.coordinator));
  }

  /** When a file may be admitted, every earlier batch is over: acknowledged or never staged,
      flushed, its threads gone and its reservations released. */
  lemma AdmissionWaitsForBatch(c: Config, s: State, i: nat)
    requires Reachable(c, s) && i < |s.files|
    requires Enabled(c, s, Reserve) || Enabled(c, s, CheckFile)
    ensures match s.files[i].admission
      case Outside => s.files[i] == NEW_FILE && s.held[i].None?
      case InBatch => s.files[i].publication.Unpublished? && !s.files[i].guard.Received?
      case Settled => !Active(s.files[i]) && !AtPublisher(s.files[i]) && s.held[i].None? && s.files[i].notices == 1
  {
    ReachableInv(c, s);
    assert Consistent(s.files[i], s.held[i]) && InPhase(s.files[i], Admitting);
  }

  predicate Flushed(events: seq<Event>) {
    exists k :: 0 <= k < |events| && events[k].FlushVolumes?
  }

  /** A batch is settled by its volume flush and by nothing else. */
  lemma {:induction false} OnlyFlushSettles(c: Config, s: State, events: seq<Event>, s': State, i: nat)
    requires Inv(c, s) && Run(c, s, events, s') && i < |s.files|
    requires s.files[i].admission.InBatch?
    ensures |s'.files| == |s.files|
    ensures s'.files[i].admission.InBatch? || Flushed(events)
    decreases |events|
  {
    if events == [] {
    } else {
      var next := Step(c, s, events[0]);
      StepKeepsInv(c, s, events[0]);
      if next.files[i].admission.InBatch? {
        OnlyFlushSettles(c, next, events[1..], s', i);
        if !s'.files[i].admission.InBatch? {
          var k :| 0 <= k < |events[1..]| && events[1..][k].FlushVolumes?;
          assert events[k + 1].FlushVolumes?;
        }
      } else {
        SettlingStep(c, s, events[0], i);
        RunKeepsInv(c, next, events[1..], s');
      }
    }
  }

  lemma SettlingStep(c: Config, s: State, e: Event, i: nat)
    requires Inv(c, s) && Enabled(c, s, e) && i < |s.files| && s.files[i].admission.InBatch?
    ensures Step(c, s, e).files[i].admission.InBatch? || e.FlushVolumes?
  {
    if e.FileAction? {
      assert Consistent(s.files[e.i], s.held[e.i]) && InPhase(s.files[e.i], PhaseOf(s.coordinator));
      ActionKeepsFile(s.files[e.i], s.held[e.i], e.action, PhaseOf(s.coordinator));
    } else if e.Reserve? {
      assert s.files[s.next].admission.Outside?;
    }
  }

  /** Between a file's publication and the next admission its volumes have been flushed. */
  lemma FlushedBeforeNextAdmission(c: Config, s: State, events: seq<Event>, s': State, i: nat)
    requires Reachable(c, s) && Run(c, s, events, s') && i < |s.files| && AtPublisher(s.files[i])
    requires Enabled(c, s', Reserve)
    ensures Flushed(events)
  {
    ReachableInv(c, s);
    assert Consistent(s.files[i], s.held[i]);
    OnlyFlushSettles(c, s, events, s', i);
    RunKeepsInv(c, s, events, s');
    PublishedStays(c, s, events, s', i);
    assert InPhase(s'.files[i], Admitting) && Consistent(s'.files[i], s'.held[i]);
  }

  lemma PublishedStep(c: Config, s: State, e: Event, i: nat)
    requires Inv(c, s) && Enabled(c, s, e) && i < |s.files| && !s.files[i].publication.Unpublished?
    ensures !Step(c, s, e).files[i].publication.Unpublished?
  {
    if e.Reserve? {
      assert Consistent(s.files[s.next], s.held[s.next]);
    }
  }

  lemma {:induction false} PublishedStays(c: Config, s: State, events: seq<Event>, s': State, i: nat)
    requires Inv(c, s) && Run(c, s, events, s') && i < |s.files| && !s.files[i].publication.Unpublished?
    ensures |s'.files| == |s.files| && !s'.files[i].publication.Unpublished?
    decreases |events|
  {
    if events == [] {
    } else {
      PublishedStep(c, s, events[0], i);
      StepKeepsInv(c, s, events[0]);
      PublishedStays(c, Step(c, s, events[0]), events[1..], s', i);
    }
  }

  /** The coordinator never waits on its own budget: its reservation is granted or refused at
      once, and with nothing pending nothing is reserved. */
  lemma CoordinatorNeverWaits(c: Config, s: State)
    requires Reachable(c, s)
    ensures s.coordinator.Reserving? ==> Enabled(c, s, Reserve)
    ensures s.pending == 0 ==> s.used == 0
  {
    ReachableInv(c, s);
    if s.pending == 0 {
      EmptyBatchHoldsNothing(c, s);
    }
  }

  /** Live reservations total at most the target, or the batch is one file larger than that. */
  lemma BatchSizeBound(c: Config, s: State)
    requires Reachable(c, s)
    ensures s.used == TotalLive(s.held) <= c.limit
    ensures s.used <= c.target || OversizedBatch(c, s)
  {
    ReachableInv(c, s);
  }

  // ----- stopping, and giving back

  /** A failed flush and a payload that cannot be removed stop the budget, and nothing else. */
  lemma FailuresStop(c: Config, s: State, e: Event)
    requires Enabled(c, s, e)
    ensures Step(c, s, e).stopped <==>
      || s.stopped || e == FlushVolumes(false)
      || (e.FileAction? && e.action.ClosePayload? && !e.action.ok)
  {
  }

  lemma StoppedStep(c: Config, s: State, e: Event, i: nat)
    requires Enabled(c, s, e) && s.stopped && i < |s.files| && s.files[i] == NEW_FILE
    ensures Step(c, s, e).stopped && |Step(c, s, e).files| == |s.files| && Step(c, s, e).files[i] == NEW_FILE
  {
  }

  /** After that no run admits another file. */
  lemma {:induction false} StoppedAdmitsNothing(c: Config, s: State, events: seq<Event>, s': State, i: nat)
    requires Run(c, s, events, s') && s.stopped && i < |s.files| && s.files[i] == NEW_FILE
    ensures s'.stopped && |s'.files| == |s.files| && s'.files[i] == NEW_FILE
    decreases |events|
  {
    if events == [] {
    } else {
      StoppedStep(c, s, events[0], i);
      StoppedAdmitsNothing(c, Step(c, s, events[0]), events[1..], s', i);
    }
  }

  /** What an action of a thread gives back: the whole reservation when it lets go of it, what a
      staged file does not need when it shrinks it, and nothing otherwise. */
  lemma ActionGivesBack(c: Config, s: State, i: nat, a: Action)
    requires Inv(c, s) && Enabled(c, s, FileAction(i, a))
    ensures var s' := Step(c, s, FileAction(i, a));
      match a
      case ReaderRelease => s'.held[i] == None && s'.used == s.used - s.held[i].value
      case WriterRelease => s'.held[i] == None && s'.used == s.used - s.held[i].value
      case PublisherRelease => s'.held[i] == None && s'.used == s.used - s.held[i].value
      case ShrinkTo(bytes) => s'.held[i] == Some(bytes) && s'.used == s.used - (s.held[i].value - bytes)
      case _ => s'.held == s.held && s'.used == s.used
  {
    HeldIsCounted(s.held, i);
  }

  /** What admission takes: the file's reservation, no more and no less, for the next file only. */
  lemma AdmissionTakes(c: Config, s: State)
    requires Inv(c, s) && Enabled(c, s, Reserve)
    ensures var s' := Step(c, s, Reserve);
      && s'.next == s.next + 1
      && (if s.stopped || c.sizes[s.next] > c.limit then
            s'.files == s.files && s'.held == s.held && s'.used == s.used && s'.pending == s.pending
          else
            && s'.held == s.held[s.next := Some(c.sizes[s.next])] && s'.used == s.used + c.sizes[s.next]
            && s'.pending == s.pending + 1 && s'.files[s.next].admission.InBatch?)
  {
  }

  /** A file that fits beside what is reserved is admitted without a drain, and one that can
      never be is refused without one. */
  lemma FittingFileJoins(c: Config, s: State)
    requires Enabled(c, s, CheckFile) && s.next < |c.sizes|
    requires c.sizes[s.next] > c.limit || c.sizes[s.next] <= Saturating(c.target, s.used)
    ensures Step(c, s, CheckFile) == s.(coordinator := Reserving)
  {
  }

  // ----- refusals

  /** A file passed over was too large for the budget, or the budget had been stopped. */
  predicate RefusedOk(c: Config, s: State) {
    forall i :: 0 <= i < s.next && i < |s.files| && i < |c.sizes| && s.files[i].admission.Outside? ==>
      c.sizes[i] > c.limit || s.stopped
  }

  lemma {:induction false} RunKeepsRefused(c: Config, s: State, events: seq<Event>, s': State)
    requires Inv(c, s) && RefusedOk(c, s) && Run(c, s, events, s')
    ensures RefusedOk(c, s')
    decreases |events|
  {
    if events == [] {
    } else {
      StepKeepsRefused(c, s, events[0]);
      StepKeepsInv(c, s, events[0]);
      RunKeepsRefused(c, Step(c, s, events[0]), events[1..], s');
    }
  }

  lemma StepKeepsRefused(c: Config, s: State, e: Event)
    requires Inv(c, s) && RefusedOk(c, s) && Enabled(c, s, e)
    ensures RefusedOk(c, Step(c, s, e))
  {
    if e.FileAction? {
      ActionKeepsFile(s.files[e.i], s.held[e.i], e.action, PhaseOf(s.coordinator));
    }
  }

  /** When the scan is over everything is settled and released; every admitted file gave
      exactly one notice, and a file was left out only for its size or after a stop. */
  lemma FinishedIsClean(c: Config, s: State, events: seq<Event>, s': State, i: nat)
    requires c.Valid() && Initial(c, s) && Run(c, s, events, s') && s'.coordinator.Finished?
    requires i < |c.sizes|
    ensures |s'.files| == |s'.held| == |c.sizes|
    ensures s'.used == 0 && s'.pending == 0 && s'.held[i].None? && !Active(s'.files[i])
    ensures s'.files[i].admission.Settled? ==> s'.files[i].notices == 1
    ensures !s'.files[i].admission.Settled? ==> s'.files[i] == NEW_FILE && (c.sizes[i] > c.limit || s'.stopped)
  {
    InitialInv(c, s);
    RunKeepsInv(c, s, events, s');
    RunKeepsRefused(c, s, events, s');
    EmptyBatchHoldsNothing(c, s');
    CountZero(s'.files, IsInBatch);
    assert !IsInBatch(s'.files[i]) && Consistent(s'.files[i], s'.held[i]);
  }

  // ----- progress

  /** What a file still at work does next. */
  function NextAction(f: File): Action {
    if f.guard.Firing? then Fire
    else match f.reader
      case ReaderQueued => ReaderTake
      case Opening => OpenFail
      case OpenFailed => ReaderRelease
      case ReaderReleased => ReaderLetGo
      case Reading => ReaderLetGo
      case _ =>
        match f.writer
        case WriterQueued => WriterTake
        case StagingFile => StageFail
        case StageFailed => WriterRelease
        case WriterReleased => WriterLetGo
        case Shrunk => StoreStaged
        case StoredInGuard => WriterLetGo
        case _ =>
          match f.publication
          case PublisherQueued => PublisherTake
          case Publishing => ClosePayload(true)
          case PayloadClosed => PublisherRelease
          case _ => Acknowledge
  }

  lemma FileProgress(f: File, held: Option<nat>)
    requires Consistent(f, held) && !f.admission.Outside?
    requires f.guard.Held? || f.guard.Firing? || (AtPublisher(f) && !f.publication.AckSent?)
    ensures CanAct(f, held, NextAction(f))
  {
  }

  // Files waiting in a queue, and files a thread of a pool has in hand.

  predicate AtReaderQueue(f: File) {
    f.reader.ReaderQueued?
  }

  predicate InReader(f: File) {
    ReaderActive(f) && !f.reader.ReaderQueued?
  }

  predicate AtWriterQueue(f: File) {
    f.writer.WriterQueued?
  }

  predicate InWriter(f: File) {
    WriterActive(f) && !f.writer.WriterQueued?
  }

  predicate AtPublisherQueue(f: File) {
    f.publication.PublisherQueued?
  }

  predicate InPublisher(f: File) {
    AtPublisher(f) && !f.publication.PublisherQueued? && !f.publication.AckSent?
  }

  /** Whether a thread can do something at once, at worst: with room in the queue it sends to
      and a thread of its pool free, with the writer there to empty the block queue before its
      reader is through and the reader through before staging succeeds, and with nothing having
      to fail. (That a block queue and its workers let both ends through, also when the writer
      has given up, is `QueuedWork.NeverStuck`.) The protocol's safety does not need any of
      this, so steps are not bound to it. */
  predicate Unhindered(c: Config, s: State, e: Event)
    requires Enabled(c, s, e)
  {
    match e
    case Reserve => c.sizes[s.next] > c.limit || s.stopped || Count(s.files, AtReaderQueue) < c.pools.readerQueue
    case HandToPublisher(_) => Count(s.files, AtPublisherQueue) < c.pools.publisherQueue
    case FileAction(i, a) =>
      (match a
       case ReaderTake => Count(s.files, InReader) < c.pools.readers
       case HandToWriter => Count(s.files, AtWriterQueue) < c.pools.writerQueue
       case WriterTake => Count(s.files, InWriter) < c.pools.writers
       case PublisherTake => Count(s.files, InPublisher) < c.pools.publishers
       case ReaderLetGo => !s.files[i].writer.WriterQueued?
       case ShrinkTo(_) => s.files[i].reader.ReaderDone?
       case OpenFail => false
       case StageFail => false
       case _ => true)
    case _ => true
  }

  predicate CanMove(c: Config, s: State, e: Event) {
    Enabled(c, s, e) && Unhindered(c, s, e)
  }

  /** The next action of a file in a writer's hands, whose reader may have to finish first. */
  lemma WriterMoves(c: Config, s: State, i: nat) returns (e: Event)
    requires Inv(c, s) && i < |s.files| && InWriter(s.files[i])
    ensures CanMove(c, s, e)
  {
    var f := s.files[i];
    assert Consistent(f, s.held[i]);
    e := FileAction(i,
      match f.writer
      case StagingFile => if f.reader.Reading? then ReaderLetGo else ShrinkTo(s.held[i].value)
      case StageFailed => WriterRelease
      case Shrunk => StoreStaged
      case _ => WriterLetGo);
  }

  /** The next action of a file in a reader's hands, when no file is at or in a writer. */
  lemma ReaderMoves(c: Config, s: State, i: nat) returns (e: Event)
    requires Inv(c, s) && i < |s.files| && InReader(s.files[i])
    requires Count(s.files, AtWriterQueue) == 0
    ensures CanMove(c, s, e)
  {
    var f := s.files[i];
    assert Consistent(f, s.held[i]);
    CountZero(s.files, AtWriterQueue);
    e := FileAction(i,
      match f.reader
      case Opening => HandToWriter
      case OpenFailed => ReaderRelease
      case _ => ReaderLetGo);
  }

  /** As long as a file's guard has not fired, some reader or writer can move: behind every
      full queue and every busy pool there is a thread that waits for nothing. */
  lemma WorkersMove(c: Config, s: State, i: nat) returns (e: Event)
    requires Inv(c, s) && i < |s.files| && (s.files[i].guard.Held? || s.files[i].guard.Firing?)
    ensures CanMove(c, s, e)
  {
    assert Consistent(s.files[i], s.held[i]);
    if s.files[i].guard.Firing? {
      return FileAction(i, Fire);
    }
    if j: nat :| j < |s.files| && InWriter(s.files[j]) {
      e := WriterMoves(c, s, j);
      return;
    }
    CountZero(s.files, InWriter);
    if j: nat :| j < |s.files| && AtWriterQueue(s.files[j]) {
      return FileAction(j, WriterTake);
    }
    CountZero(s.files, AtWriterQueue);
    if j: nat :| j < |s.files| && InReader(s.files[j]) {
      e := ReaderMoves(c, s, j);
      return;
    }
    CountZero(s.files, InReader);
    assert Active(s.files[i]) && AtReaderQueue(s.files[i]);
    return FileAction(i, ReaderTake);
  }

  /** Publishers need nobody: acknowledgements go to a channel without a bound. */
  lemma PublishersMove(c: Config, s: State, i: nat) returns (e: Event)
    requires Inv(c, s) && i < |s.files| && (AtPublisherQueue(s.files[i]) || InPublisher(s.files[i]))
    ensures CanMove(c, s, e)
  {
    if j: nat :| j < |s.files| && InPublisher(s.files[j]) {
      assert Consistent(s.files[j], s.held[j]);
      return FileAction(j,
        match s.files[j].publication
        case Publishing => ClosePayload(true)
        case PayloadClosed => PublisherRelease
        case _ => Acknowledge);
    }
    CountZero(s.files, InPublisher);
    return FileAction(i, PublisherTake);
  }

  lemma ReservingMoves(c: Config, s: State) returns (e: Event)
    requires Inv(c, s) && s.coordinator.Reserving?
    ensures CanMove(c, s, e)
  {
    if s.pending == 0 {
      EmptyBatchHoldsNothing(c, s);
    }
    assert Enabled(c, s, Reserve);
    if Unhindered(c, s, Reserve) {
      return Reserve;
    }
    CountZero(s.files, AtReaderQueue);
    var i: nat :| i < |s.files| && AtReaderQueue(s.files[i]);
    assert Consistent(s.files[i], s.held[i]);
    e := WorkersMove(c, s, i);
  }

  /** While notices are missing, some file of the batch has not been received and can move. */
  lemma ReceivingMoves(c: Config, s: State) returns (e: Event)
    requires Inv(c, s) && s.coordinator.Receiving?
    ensures CanMove(c, s, e)
  {
    if s.received == s.pending {
      return AllReceived;
    }
    var i := Unreceived(c, s);
    if s.files[i].guard.Notified? {
      return ReceiveNotice(i);
    }
    e := WorkersMove(c, s, i);
  }

  /** A file of the batch whose notice is missing. */
  lemma Unreceived(c: Config, s: State) returns (i: nat)
    requires Inv(c, s) && s.coordinator.Receiving? && s.received != s.pending
    ensures s.received < s.pending && i < |s.files| && !s.files[i].admission.Outside?
    ensures s.files[i].guard.Held? || s.files[i].guard.Firing? || s.files[i].guard.Notified?
  {
    CountsEqual(s.files, IsReceived, IsInBatch);
    i :| i < |s.files| && IsReceived(s.files[i]) != IsInBatch(s.files[i]);
    assert Consistent(s.files[i], s.held[i]);
  }

  lemma HandingMoves(c: Config, s: State) returns (e: Event)
    requires Inv(c, s) && s.coordinator.Handing?
    ensures CanMove(c, s, e)
  {
    if i: nat :| i < |s.files| && s.files[i].publication.Collected? {
      if Count(s.files, AtPublisherQueue) < c.pools.publisherQueue {
        return HandToPublisher(i);
      }
      CountZero(s.files, AtPublisherQueue);
      var j: nat :| j < |s.files| && AtPublisherQueue(s.files[j]);
      e := PublishersMove(c, s, j);
      return;
    }
    return AllHanded;
  }

  /** While acknowledgements are missing, some staged file is still with the publisher. */
  lemma AckingMoves(c: Config, s: State) returns (e: Event)
    requires Inv(c, s) && s.coordinator.Acking?
    ensures CanMove(c, s, e)
  {
    if s.acked == s.staged {
      return AllAcked;
    }
    var i := Unacked(c, s);
    if s.files[i].publication.AckSent? {
      return ReceiveAck(i);
    }
    e := PublishersMove(c, s, i);
  }

  /** A staged file whose acknowledgement is missing. */
  lemma Unacked(c: Config, s: State) returns (i: nat)
    requires Inv(c, s) && s.coordinator.Acking? && s.acked != s.staged
    ensures s.acked < s.staged && i < |s.files| && !s.files[i].admission.Outside? && AtPublisher(s.files[i])
  {
    CountsEqual(s.files, IsAcked, IsStaged);
    i :| i < |s.files| && IsAcked(s.files[i]) != IsStaged(s.files[i]);
    assert Consistent(s.files[i], s.held[i]) && InPhase(s.files[i], AwaitingAcks);
  }

  /** No reachable state is stuck before the scan is over, however small the pools and the
      queues between the threads. */
  lemma NeverStuck(c: Config, s: State) returns (e: Event)
    requires Inv(c, s) && !s.coordinator.Finished?
    ensures CanMove(c, s, e)
  {
    match s.coordinator
    case AtFile => e := CheckFile;
    case Reserving => e := ReservingMoves(c, s);
    case Receiving(_) => e := ReceivingMoves(c, s);
    case Handing(_) => e := HandingMoves(c, s);
    case Acking(_) => e := AckingMoves(c, s);
    case Flushing(_) => e := FlushVolumes(true);
  }

  // ----- termination

  /** How much a file has ahead of it; whatever touches the file lowers it. */
  function Work(f: File): nat {
    if f.admission.Outside? then 20
    else
      (match f.reader
       case ReaderQueued => 8
       case Opening => 7
       case OpenFailed => 2
       case ReaderReleased => 1
       case Reading => 1
       case _ => 0)
      + (match f.writer
         case WriterQueued => 5
         case StagingFile => 4
         case StageFailed => 2
         case WriterReleased => 1
         case Shrunk => 2
         case StoredInGuard => 1
         case _ => 0)
      + (match f.guard
         case Received => 0
         case Notified(_) => 7
         case _ => 8)
      + (match f.publication
         case Unpublished => 0
         case Collected => 6
         case PublisherQueued => 5
         case Publishing => 4
         case PayloadClosed => 3
         case ReservationDropped => 2
         case AckSent => 1
         case AckReceived => 0)
  }

  function TotalWork(files: seq<File>): nat {
    if files == [] then 0 else Work(files[0]) + TotalWork(files[1..])
  }

  lemma {:induction false} WorkUpdate(files: seq<File>, i: nat, f: File)
    requires i < |files|
    ensures TotalWork(files[i := f]) + Work(files[i]) == TotalWork(files) + Work(f)
  {
    if i == 0 {
      assert files[i := f][1..] == files[1..];
    } else {
      WorkUpdate(files[1..], i - 1, f);
      assert files[i := f][1..] == files[1..][i - 1 := f];
    }
  }

  lemma {:induction false} SettleKeepsWork(files: seq<File>)
    ensures TotalWork(Settle(files)) == TotalWork(files)
  {
    if files == [] {
    } else {
      var settled := Settle(files);
      SettleKeepsWork(files[1..]);
      assert Work(settled[0]) == Work(files[0]);
      assert settled[1..] == Settle(files[1..]);
    }
  }

  lemma ActionLowersWork(f: File, held: Option<nat>, a: Action)
    requires Consistent(f, held) && CanAct(f, held, a)
    ensures Work(Act(f, held, a)) < Work(f)
  {
  }

  /** How far the coordinator is from its end if no file moves. */
  function Distance(c: Config, s: State): (d: nat)
    requires s.next <= |c.sizes|
    ensures d < 8 * |c.sizes| + 12
  {
    8 * (|c.sizes| - s.next)
    + match s.coordinator
      case Finished => 0
      case Reserving => 2
      case AtFile => 7
      case Flushing(after) => if after.ThenNext? then 8 else 3
      case Acking(after) => if after.ThenNext? then 9 else 4
      case Handing(after) => if after.ThenNext? then 10 else 5
      case Receiving(after) => if after.ThenNext? then 11 else 6
  }

  /** Either a file has moved on or, with the files as they were, the coordinator is closer. */
  predicate Closer(c: Config, s: State, s': State)
    requires s.next <= |c.sizes|
  {
    && s'.next <= |c.sizes|
    && (TotalWork(s'.files) < TotalWork(s.files)
        || (TotalWork(s'.files) == TotalWork(s.files) && Distance(c, s') < Distance(c, s)))
  }

  lemma MovingAFile(c: Config, s: State, s': State, i: nat, f: File)
    requires s.next <= |c.sizes| && s'.next <= |c.sizes|
    requires i < |s.files| && s'.files == s.files[i := f] && Work(f) < Work(s.files[i])
    ensures Closer(c, s, s')
  {
    WorkUpdate(s.files, i, f);
  }

  lemma FileActionProgress(c: Config, s: State, i: nat, a: Action)
    requires Inv(c, s) && Enabled(c, s, FileAction(i, a))
    ensures Closer(c, s, Step(c, s, FileAction(i, a)))
  {
    ActionLowersWork(s.files[i], s.held[i], a);
    MovingAFile(c, s, Step(c, s, FileAction(i, a)), i, Act(s.files[i], s.held[i], a));
  }

  lemma ReserveProgress(c: Config, s: State)
    requires Inv(c, s) && Enabled(c, s, Reserve)
    ensures Closer(c, s, Step(c, s, Reserve))
  {
    if c.sizes[s.next] <= c.limit && !s.stopped {
      assert Consistent(s.files[s.next], s.held[s.next]);
      MovingAFile(c, s, Step(c, s, Reserve), s.next, Admit(s.files[s.next]));
    }
  }

  /** The coordinator's own steps on one file: a notice, a hand-over, an acknowledgement. */
  lemma DrainProgress(c: Config, s: State, e: Event)
    requires Inv(c, s) && Enabled(c, s, e) && (e.ReceiveNotice? || e.HandToPublisher? || e.ReceiveAck?)
    ensures Closer(c, s, Step(c, s, e))
  {
    var s' := Step(c, s, e);
    match e
    case ReceiveNotice(i) =>
      ReceiveKeepsFile(s.files[i], s.held[i]);
      MovingAFile(c, s, s', i, Receive(s.files[i]));
    case HandToPublisher(i) =>
      HandOverKeepsFile(s.files[i], s.held[i]);
      MovingAFile(c, s, s', i, s.files[i].(publication := PublisherQueued));
    case ReceiveAck(i) =>
      AckKeepsFile(s.files[i], s.held[i]);
      MovingAFile(c, s, s', i, s.files[i].(publication := AckReceived));
  }

  lemma StepMakesProgress(c: Config, s: State, e: Event)
    requires Inv(c, s) && Enabled(c, s, e)
    ensures Closer(c, s, Step(c, s, e))
  {
    match e
    case FileAction(i, a) => FileActionProgress(c, s, i, a);
    case Reserve => ReserveProgress(c, s);
    case ReceiveNotice(_) => DrainProgress(c, s, e);
    case HandToPublisher(_) => DrainProgress(c, s, e);
    case ReceiveAck(_) => DrainProgress(c, s, e);
    case FlushVolumes(_) => SettleKeepsWork(s.files);
    case _ =>
  }

  /** An upper bound on the steps left. */
  function StepsLeft(c: Config, s: State): nat
    requires s.next <= |c.sizes|
  {
    (8 * |c.sizes| + 12) * TotalWork(s.files) + Distance(c, s)
  }

  lemma LexicographicBound(k: nat, w: nat, d: nat, w': nat, d': nat)
    requires d' < k && (w' < w || (w' == w && d' < d))
    ensures k * w' + d' < k * w + d
  {
    if w' < w {
      assert k * w' + k == k * (w' + 1) <= k * w;
    }
  }

  lemma StepLowersBound(c: Config, s: State, s': State)
    requires s.next <= |c.sizes| && Closer(c, s, s')
    ensures StepsLeft(c, s') < StepsLeft(c, s)
  {
    LexicographicBound(8 * |c.sizes| + 12, TotalWork(s.files), Distance(c, s), TotalWork(s'.files), Distance(c, s'));
  }

  lemma {:induction false} RunsAreBounded(c: Config, s: State, events: seq<Event>, s': State)
    requires Inv(c, s) && Run(c, s, events, s')
    ensures |events| <= StepsLeft(c, s)
    decreases |events|
  {
    if events == [] {
    } else {
      StepMakesProgress(c, s, events[0]);
      StepLowersBound(c, s, Step(c, s, events[0]));
      StepKeepsInv(c, s, events[0]);
      RunsAreBounded(c, Step(c, s, events[0]), events[1..], s');
    }
  }

  lemma {:induction false} NewFilesWork(files: seq<File>)
    requires forall i :: 0 <= i < |files| ==> files[i] == NEW_FILE
    ensures TotalWork(files) == 20 * |files|
  {
    if files == [] {
    } else {
      NewFilesWork(files[1..]);
    }
  }

  /** Every run of the batch protocol ends: no interleaving is longer than a bound in the
      number of files, and a run that cannot go on has finished the scan. */
  lemma EveryRunFinishes(c: Config, s: State, events: seq<Event>, s': State)
    requires c.Valid() && Initial(c, s) && Run(c, s, events, s')
    ensures |events| <= (8 * |c.sizes| + 12) * (20 * |c.sizes|) + 8 * |c.sizes| + 7
    ensures (forall e :: !CanMove(c, s', e)) ==> s'.coordinator.Finished?
  {
    InitialInv(c, s);
    RunsAreBounded(c, s, events, s');
    NewFilesWork(s.files);
    RunKeepsInv(c, s, events, s');
    if !s'.coordinator.Finished? {
      var e := NeverStuck(c, s');
      assert CanMove(c, s', e);
    }
  }
}
