/** The statistics of one operation: every file is recorded when its scan starts and exactly
    once more at its end, by the scan itself, by a report after publishing, or by the drop of
    its context; the totals are delivered when the last context has let go of the operation. */
module Statistics {
  import opened Bytes
  import opened Wrappers

  datatype Compression = Compressed | Compressible | Incompressible

  datatype Info = Info(size: nat, onDisk: nat, compression: Compression)

  datatype Totals = Totals(
    files: nat,
    fileSizes: nat,
    sizeStart: nat,
    sizeFinal: nat,
    compressedStart: nat,
    compressedFinal: nat,
    incompressible: nat)

  const ZERO: Totals := Totals(0, 0, 0, 0, 0, 0, 0)

  /** Counters are 64-bit and wrap around. */
  function Wrap(n: nat): (r: nat)
    ensures r < U64_LIMIT
  {
    if n < U64_LIMIT then n else Wrap(n - U64_LIMIT)
  }

  lemma {:induction false} WrapIsRemainder(n: nat)
    ensures Wrap(n) == n % U64_LIMIT
  {
    if n < U64_LIMIT {
    } else {
      WrapIsRemainder(n - U64_LIMIT);
    }
  }

  function Plus(a: Totals, b: Totals): Totals {
    Totals(
      Wrap(a.files + b.files), Wrap(a.fileSizes + b.fileSizes), Wrap(a.sizeStart + b.sizeStart),
      Wrap(a.sizeFinal + b.sizeFinal), Wrap(a.compressedStart + b.compressedStart),
      Wrap(a.compressedFinal + b.compressedFinal), Wrap(a.incompressible + b.incompressible))
  }

  datatype Counter = Files | FileSizes | SizeStart | SizeFinal | CompressedStart | CompressedFinal | IncompressibleFiles

  function Get(t: Totals, k: Counter): nat {
    match k
    case Files => t.files
    case FileSizes => t.fileSizes
    case SizeStart => t.sizeStart
    case SizeFinal => t.sizeFinal
    case CompressedStart => t.compressedStart
    case CompressedFinal => t.compressedFinal
    case IncompressibleFiles => t.incompressible
  }

  function StartOf(info: Info): Totals {
    Totals(1, info.size, info.onDisk, 0, One(info.compression.Compressed?), 0, One(info.compression.Incompressible?))
  }

  function EndOf(info: Info): Totals {
    Totals(0, 0, 0, info.onDisk, 0, One(info.compression.Compressed?), 0)
  }

  /** The shared counters. */
  class Stats {
    var files: nat
    var fileSizes: nat
    var sizeStart: nat
    var sizeFinal: nat
    var compressedStart: nat
    var compressedFinal: nat
    var incompressible: nat

    predicate Valid()
      reads this
    {
      forall k :: Get(Value(), k) < U64_LIMIT
    }

    constructor ()
      ensures Valid() && Value() == ZERO
    {
      files, fileSizes, sizeStart, sizeFinal, compressedStart, compressedFinal, incompressible := 0, 0, 0, 0, 0, 0, 0;
    }

    function Value(): Totals
      reads this
    {
      Totals(files, fileSizes, sizeStart, sizeFinal, compressedStart, compressedFinal, incompressible)
    }

    method AddStartFile(info: Info)
      requires Valid()
      modifies this
      ensures Valid() && Value() == Plus(old(Value()), StartOf(info))
      ensures files == Wrap(old(files) + 1) && fileSizes == Wrap(old(fileSizes) + info.size)
      ensures sizeStart == Wrap(old(sizeStart) + info.onDisk) && sizeFinal == old(sizeFinal)
      ensures compressedStart == Wrap(old(compressedStart) + if info.compression == Compressed then 1 else 0)
      ensures incompressible == Wrap(old(incompressible) + if info.compression == Incompressible then 1 else 0)
      ensures compressedFinal == old(compressedFinal)
    {
      InRange(Value());
      files := Wrap(files + 1);
      fileSizes := Wrap(fileSizes + info.size);
      sizeStart := Wrap(sizeStart + info.onDisk);
      match info.compression
      case Compressed => compressedStart := Wrap(compressedStart + 1);
      case Compressible =>
      case Incompressible => incompressible := Wrap(incompressible + 1);
    }

    method AddEndFile(info: Info)
      requires Valid()
      modifies this
      ensures Valid() && Value() == Plus(old(Value()), EndOf(info))
      ensures sizeFinal == Wrap(old(sizeFinal) + info.onDisk)
      ensures compressedFinal == Wrap(old(compressedFinal) + if info.compression == Compressed then 1 else 0)
      ensures unchanged(`files, `fileSizes, `sizeStart, `compressedStart, `incompressible)
    {
      InRange(Value());
      sizeFinal := Wrap(sizeFinal + info.onDisk);
      if info.compression.Compressed? {
        compressedFinal := Wrap(compressedFinal + 1);
      }
    }
  }

  /** Counters in range are their own remainders. */
  lemma InRange(t: Totals)
    requires forall k :: Get(t, k) < U64_LIMIT
    ensures Plus(t, ZERO) == t
  {
    assert forall k :: Wrap(Get(t, k)) == Get(t, k);
    assert Get(t, Files) == t.files && Get(t, FileSizes) == t.fileSizes && Get(t, SizeStart) == t.sizeStart;
    assert Get(t, SizeFinal) == t.sizeFinal && Get(t, CompressedStart) == t.compressedStart;
    assert Get(t, CompressedFinal) == t.compressedFinal && Get(t, IncompressibleFiles) == t.incompressible;
  }

  /** A file's context: remembers what the scan saw and whether a report replaced it. */
  class Context {
    const stats: Stats
    const original: Info
    var reported: bool

    constructor (stats: Stats, original: Info)
      ensures this.stats == stats && this.original == original && !reported
    {
      this.stats, this.original, reported := stats, original, false;
    }

    /** `current` is what the file looks like now, nothing when it cannot be examined. A
        second report would trip the assertion. */
    method ReportNewStats(current: Option<Info>) returns (r: Result<()>)
      requires stats.Valid()
      modifies this, stats
      ensures stats.Valid()
      ensures r == if old(reported) && current.Some? then Err(Panicked) else Ok(())
      ensures reported == (old(reported) || current.Some?)
      ensures stats.Value() ==
        if current.Some? && !old(reported) then Plus(old(stats.Value()), EndOf(current.value)) else old(stats.Value())
    {
      if current.None? {
        return Ok(());
      }
      var already := reported;
      reported := true;
      if already {
        return Err(Panicked);
      }
      stats.AddEndFile(current.value);
      return Ok(());
    }

    method Drop()
      requires stats.Valid()
      modifies stats
      ensures stats.Valid()
      ensures stats.Value() == if reported then old(stats.Value()) else Plus(old(stats.Value()), EndOf(original))
    {
      if reported {
        return;
      }
      stats.AddEndFile(original);
    }
  }

  // ----- all threads together

  /** Alive counts the context's holders; Dropped: its record is made but it still holds the
      operation; Gone: it has let go of it. */
  datatype Life = Unscanned | Scanned | Skipped | Alive(holders: nat) | Dropped | Gone

  /** Which worker may still report: one writer, or the one publisher it staged the file for. */
  datatype Worker = Reading | Writing | Publishing | Over

  datatype Report = Unreported | Taken(info: Info) | Added(info: Info)

  datatype File = File(original: Info, life: Life, worker: Worker, report: Report, ends: seq<Info>)

  /** `operations` counts the holders of the operation: the scan and every context. */
  datatype State = State(
    files: seq<File>,
    next: nat,
    scanning: bool,
    operations: nat,
    totals: Totals,
    delivered: seq<Totals>,
    panicked: bool)

  datatype Event =
    // The scan, on the file it has reached, and its end.
    | Start
    | Skip
    | Create
    | ScanDone
    // Workers on one file.
    | Clone(i: nat)
    | ToWriter(i: nat)
    | ToPublisher(i: nat)
    | Swap(i: nat, info: Info)
    | AddEnd(i: nat)
    | LetGo(i: nat)
    // The last holder is gone: the context is dropped, then its hold on the operation.
    | DropContext(i: nat)
    | Release(i: nat)
    // The last hold on the operation is gone.
    | Deliver

  predicate Held(f: File) {
    f.life.Alive? && f.life.holders > 0
  }

  predicate Enabled(s: State, e: Event) {
    match e
    case Start => s.scanning && s.next < |s.files| && s.files[s.next].life.Unscanned?
    case Skip => s.scanning && s.next < |s.files| && s.files[s.next].life.Scanned?
    case Create => s.scanning && s.next < |s.files| && s.files[s.next].life.Scanned?
    case ScanDone => s.scanning && s.next == |s.files|
    case Clone(i) => i < |s.files| && Held(s.files[i])
    case ToWriter(i) => i < |s.files| && Held(s.files[i]) && s.files[i].worker.Reading?
    case ToPublisher(i) => i < |s.files| && Held(s.files[i]) && s.files[i].worker.Writing?
    case Swap(i, _) =>
      i < |s.files| && Held(s.files[i]) && (s.files[i].worker.Writing? || s.files[i].worker.Publishing?)
    case AddEnd(i) => i < |s.files| && s.files[i].report.Taken?
    // A reporting worker keeps its hold until its record is made.
    case LetGo(i) => i < |s.files| && s.files[i].life.Alive? && s.files[i].life.holders > One(s.files[i].report.Taken?)
    case DropContext(i) => i < |s.files| && s.files[i].life == Alive(0)
    case Release(i) => i < |s.files| && s.files[i].life.Dropped? && s.operations > 0
    case Deliver => s.operations == 0 && s.delivered == []
  }

  /** What an event does to its file. */
  function Act(f: File, e: Event): File {
    match e
    case Start => f.(life := Scanned)
    case Skip => f.(life := Skipped, ends := f.ends + [f.original])
    case Create => f.(life := Alive(1))
    case Clone(_) => if f.life.Alive? then f.(life := Alive(f.life.holders + 1)) else f
    case ToWriter(_) => if f.life.Alive? then f.(life := Alive(f.life.holders + 1), worker := Writing) else f
    case ToPublisher(_) => f.(worker := Publishing)
    case Swap(_, info) => f.(worker := Over, report := if f.report.Unreported? then Taken(info) else f.report)
    case AddEnd(_) =>
      if f.report.Taken? then f.(report := Added(f.report.info), ends := f.ends + [f.report.info]) else f
    case LetGo(_) => if Held(f) then f.(life := Alive(f.life.holders - 1)) else f
    case DropContext(_) => f.(life := Dropped, ends := if f.report.Unreported? then f.ends + [f.original] else f.ends)
    case Release(_) => f.(life := Gone)
    case ScanDone => f
    case Deliver => f
  }

  /** What an event adds to the counters. */
  function Adds(f: File, e: Event): Totals {
    match e
    case Start => StartOf(f.original)
    case Skip => EndOf(f.original)
    case AddEnd(_) => if f.report.Taken? then EndOf(f.report.info) else ZERO
    case DropContext(_) => if f.report.Unreported? then EndOf(f.original) else ZERO
    case _ => ZERO
  }

  function Target(s: State, e: Event): nat {
    match e
    case Clone(i) => i
    case ToWriter(i) => i
    case ToPublisher(i) => i
    case Swap(i, _) => i
    case AddEnd(i) => i
    case LetGo(i) => i
    case DropContext(i) => i
    case Release(i) => i
    case _ => s.next
  }

  function OperationsAfter(operations: nat, e: Event): nat {
    if e.Create? then operations + 1
    else if (e.Release? || e.ScanDone?) && operations > 0 then operations - 1
    else operations
  }

  function Step(s: State, e: Event): State
    requires Enabled(s, e)
  {
    match e
    case ScanDone => s.(scanning := false, operations := OperationsAfter(s.operations, e))
    case Deliver => s.(delivered := [s.totals])
    case _ =>
      var f := s.files[Target(s, e)];
      s.(files := s.files[Target(s, e) := Act(f, e)],
         totals := Plus(s.totals, Adds(f, e)),
         next := s.next + One(e.Skip? || e.Create?),
         operations := OperationsAfter(s.operations, e),
         panicked := s.panicked || (e.Swap? && !f.report.Unreported?))
  }

  predicate Initial(s: State) {
    && (forall i :: 0 <= i < |s.files| ==> s.files[i] == File(s.files[i].original, Unscanned, Reading, Unreported, []))
    && s.next == 0 && s.scanning && s.operations == 1 && s.totals == ZERO && s.delivered == [] && !s.panicked
  }

  ghost predicate Run(s: State, events: seq<Event>, s': State)
    decreases |events|
  {
    if events == [] then s' == s
    else Enabled(s, events[0]) && Run(Step(s, events[0]), events[1..], s')
  }

  // ----- what the counters should be

  function SumEnds(ends: seq<Info>, k: Counter): nat {
    if ends == [] then 0 else Get(EndOf(ends[0]), k) + SumEnds(ends[1..], k)
  }

  /** A file's share of a counter: its start, if it was scanned, and its recorded ends. */
  function Part(f: File, k: Counter): nat {
    (if f.life.Unscanned? then 0 else Get(StartOf(f.original), k)) + SumEnds(f.ends, k)
  }

  function Expected(files: seq<File>, k: Counter): nat {
    if files == [] then 0 else Part(files[0], k) + Expected(files[1..], k)
  }

  predicate HoldsOperation(f: File) {
    f.life.Alive? || f.life.Dropped?
  }

  function Holders(files: seq<File>): nat {
    if files == [] then 0 else One(HoldsOperation(files[0])) + Holders(files[1..])
  }

  lemma {:induction false} ExpectedUpdate(files: seq<File>, i: nat, f: File, k: Counter)
    requires i < |files|
    ensures Expected(files[i := f], k) + Part(files[i], k) == Expected(files, k) + Part(f, k)
  {
    if i == 0 {
      assert files[i := f][1..] == files[1..];
    } else {
      ExpectedUpdate(files[1..], i - 1, f, k);
      assert files[i := f][1..] == files[1..][i - 1 := f];
    }
  }

  lemma {:induction false} HoldersUpdate(files: seq<File>, i: nat, f: File)
    requires i < |files|
    ensures Holders(files[i := f]) + One(HoldsOperation(files[i])) == Holders(files) + One(HoldsOperation(f))
  {
    if i == 0 {
      assert files[i := f][1..] == files[1..];
    } else {
      HoldersUpdate(files[1..], i - 1, f);
      assert files[i := f][1..] == files[1..][i - 1 := f];
    }
  }

  lemma {:induction false} NoHolders(files: seq<File>)
    ensures Holders(files) == 0 <==> forall i :: 0 <= i < |files| ==> !HoldsOperation(files[i])
  {
    if files == [] {
    } else {
      NoHolders(files[1..]);
      assert forall i :: 1 <= i < |files| ==> files[i] == files[1..][i - 1];
    }
  }

  lemma {:induction false} NothingExpected(files: seq<File>, k: Counter)
    requires forall i :: 0 <= i < |files| ==> files[i].life.Unscanned? && files[i].ends == []
    ensures Expected(files, k) == 0 && Holders(files) == 0
  {
    if files == [] {
    } else {
      NothingExpected(files[1..], k);
    }
  }

  // ----- the invariant

  /** What a file's end is recorded as: the report's view, or without one the scan's. */
  function FinalInfo(f: File): Info {
    if f.report.Unreported? then f.original else f.report.info
  }

  /** Ended exactly when skipped, reported or dropped, and never twice. */
  predicate FileOk(f: File) {
    && (f.report.Unreported? <==> !f.worker.Over?)
    && match f.life
       case Alive(holders) =>
         && (f.report.Taken? ==> holders > 0)
         && f.ends == (if f.report.Added? then [f.report.info] else [])
       case Dropped => !f.report.Taken? && f.ends == [FinalInfo(f)]
       case Gone => !f.report.Taken? && f.ends == [FinalInfo(f)]
       case Skipped => f.worker.Reading? && f.report.Unreported? && f.ends == [f.original]
       case _ => f.worker.Reading? && f.report.Unreported? && f.ends == []
  }

  predicate ScanOk(s: State) {
    && s.next <= |s.files| && (!s.scanning ==> s.next == |s.files|)
    && (forall i :: 0 <= i < s.next ==> !s.files[i].life.Unscanned? && !s.files[i].life.Scanned?)
    && (forall i :: s.next < i < |s.files| ==> s.files[i].life.Unscanned?)
    && (s.next < |s.files| ==> s.files[s.next].life.Unscanned? || s.files[s.next].life.Scanned?)
  }

  ghost predicate Inv(s: State) {
    && (forall i :: 0 <= i < |s.files| ==> FileOk(s.files[i]))
    && ScanOk(s)
    && (forall k :: Get(s.totals, k) == Wrap(Expected(s.files, k)))
    && s.operations == One(s.scanning) + Holders(s.files)
    && (s.delivered != [] ==> s.operations == 0 && s.delivered == [s.totals])
    && !s.panicked
  }

  predicate OnFile(e: Event) {
    !e.ScanDone? && !e.Deliver?
  }

  /** One event on one file: it stays in order ... */
  lemma ActKeepsFile(s: State, e: Event)
    requires Inv(s) && Enabled(s, e) && OnFile(e)
    ensures Target(s, e) < |s.files|
    ensures var f := s.files[Target(s, e)];
      && FileOk(Act(f, e)) && (e.Swap? ==> f.report.Unreported?)
      && One(HoldsOperation(Act(f, e))) + One(e.Release?) == One(HoldsOperation(f)) + One(e.Create?)
  {
    assert FileOk(s.files[Target(s, e)]);
  }

  /** ... and its share grows by what is added. */
  lemma ActAdds(s: State, e: Event, k: Counter)
    requires Inv(s) && Enabled(s, e) && OnFile(e)
    ensures Target(s, e) < |s.files|
    ensures var f := s.files[Target(s, e)];
      Part(Act(f, e), k) == Part(f, k) + Get(Adds(f, e), k)
  {
    var f := s.files[Target(s, e)];
    assert FileOk(f);
    if f.ends == [] && Act(f, e).ends != [] {
      assert Act(f, e).ends[1..] == [];
    }
  }

  /** After delivery nobody is left to record anything. */
  lemma NothingAfterDelivery(s: State, e: Event)
    requires Inv(s) && s.operations == 0
    ensures Enabled(s, e) ==> e.Deliver?
  {
    NoHolders(s.files);
    if e.AddEnd? && e.i < |s.files| {
      assert FileOk(s.files[e.i]);
    }
  }

  lemma StepKeepsInv(s: State, e: Event)
    requires Inv(s) && Enabled(s, e)
    ensures Inv(Step(s, e))
  {
    if s.delivered != [] {
      NothingAfterDelivery(s, e);
    } else if OnFile(e) {
      FileStepKeepsInv(s, e);
    }
  }

  lemma FileStepKeepsInv(s: State, e: Event)
    requires Inv(s) && Enabled(s, e) && OnFile(e) && s.delivered == []
    ensures Inv(Step(s, e))
  {
    var i, s' := Target(s, e), Step(s, e);
    ActKeepsFile(s, e);
    HoldersUpdate(s.files, i, Act(s.files[i], e));
    forall k ensures Get(s'.totals, k) == Wrap(Expected(s'.files, k)) {
      ActAdds(s, e, k);
      CountsOneMore(s.totals, s.files, i, Act(s.files[i], e), Adds(s.files[i], e), k);
    }
    ScanStep(s, e);
  }

  /** One counter, when one file's share of it has grown by what is added. */
  lemma CountsOneMore(totals: Totals, files: seq<File>, i: nat, f: File, adds: Totals, k: Counter)
    requires i < |files| && Get(totals, k) == Wrap(Expected(files, k))
    requires Part(f, k) == Part(files[i], k) + Get(adds, k)
    ensures Get(Plus(totals, adds), k) == Wrap(Expected(files[i := f], k))
  {
    ExpectedUpdate(files, i, f, k);
    AddingUp(totals, adds, k);
    WrapAdds(Expected(files, k), Get(adds, k));
  }

  lemma AddingUp(a: Totals, b: Totals, k: Counter)
    ensures Get(Plus(a, b), k) == Wrap(Get(a, k) + Get(b, k))
  {
  }

  /** Wrapping at every step is wrapping once at the end. */
  lemma {:induction false} WrapAdds(x: nat, y: nat)
    ensures Wrap(Wrap(x) + y) == Wrap(x + y)
  {
    if x < U64_LIMIT {
    } else {
      WrapAdds(x - U64_LIMIT, y);
    }
  }

  lemma ScanStep(s: State, e: Event)
    requires Inv(s) && Enabled(s, e) && OnFile(e)
    ensures ScanOk(Step(s, e))
  {
    ActKeepsFile(s, e);
    var i := Target(s, e);
    assert FileOk(s.files[i]);
  }

  lemma {:induction false} RunKeepsInv(s: State, events: seq<Event>, s': State)
    requires Inv(s) && Run(s, events, s')
    ensures Inv(s')
    decreases |events|
  {
    if events == [] {
    } else {
      StepKeepsInv(s, events[0]);
      RunKeepsInv(Step(s, events[0]), events[1..], s');
    }
  }

  lemma StepKeepsOriginal(s: State, e: Event, i: nat)
    requires Enabled(s, e) && i < |s.files|
    ensures |Step(s, e).files| == |s.files| && Step(s, e).files[i].original == s.files[i].original
  {
  }

  lemma {:induction false} RunKeepsOriginal(s: State, events: seq<Event>, s': State, i: nat)
    requires Run(s, events, s') && i < |s.files|
    ensures |s'.files| == |s.files| && s'.files[i].original == s.files[i].original
    decreases |events|
  {
    if events == [] {
    } else {
      StepKeepsOriginal(s, events[0], i);
      RunKeepsOriginal(Step(s, events[0]), events[1..], s', i);
    }
  }

  lemma InitialInv(s: State)
    requires Initial(s)
    ensures Inv(s)
  {
    NothingExpected(s.files, Files);
    forall k ensures Get(s.totals, k) == Wrap(Expected(s.files, k)) {
      NothingExpected(s.files, k);
    }
  }

  lemma ReachableInv(s: State, events: seq<Event>, s': State)
    requires Initial(s) && Run(s, events, s')
    ensures Inv(s')
  {
    InitialInv(s);
    RunKeepsInv(s, events, s');
  }

  // ----- how long a context lives

  /** A context starts with one holder, the reader; clones and the hand-over to the writer add
      one each; only when all of them have let go is it dropped, and only then released. */
  lemma LifeStep(s: State, e: Event, i: nat)
    requires Inv(s) && Enabled(s, e) && i < |s.files|
    ensures |Step(s, e).files| == |s.files|
    ensures var life, life' := s.files[i].life, Step(s, e).files[i].life;
      if i == s.next && e.Create? then life == Scanned && life' == Alive(1)
      else if i == s.next && e.Start? then life == Unscanned && life' == Scanned
      else if i == s.next && e.Skip? then life == Scanned && life' == Skipped
      else if e == Clone(i) || e == ToWriter(i) then life.Alive? && life' == Alive(life.holders + 1)
      else if e == LetGo(i) then life.Alive? && life.holders > 0 && life' == Alive(life.holders - 1)
      else if e == DropContext(i) then life == Alive(0) && life' == Dropped
      else if e == Release(i) then life == Dropped && life' == Gone
      else life' == life
  {
    assert FileOk(s.files[i]);
  }

  // ----- conservation

  function StartTotal(files: seq<File>, k: Counter): nat {
    if files == [] then 0 else Get(StartOf(files[0].original), k) + StartTotal(files[1..], k)
  }

  function FinalTotal(files: seq<File>, k: Counter): nat {
    if files == [] then 0 else Get(EndOf(FinalInfo(files[0])), k) + FinalTotal(files[1..], k)
  }

  lemma OneEnd(info: Info, k: Counter)
    ensures SumEnds([info], k) == Get(EndOf(info), k)
  {
    assert [info][1..] == [];
  }

  lemma {:induction false} AllEnded(files: seq<File>, k: Counter)
    requires forall i :: 0 <= i < |files| ==> FileOk(files[i]) && (files[i].life.Skipped? || files[i].life.Gone?)
    ensures Expected(files, k) == StartTotal(files, k) + FinalTotal(files, k)
  {
    if files == [] {
    } else {
      AllEnded(files[1..], k);
      OneEnd(FinalInfo(files[0]), k);
      assert files[0].ends == [FinalInfo(files[0])];
    }
  }

  /** Once nobody holds the operation, every file has ended, and only once. */
  lemma NobodyLeft(s: State)
    requires Inv(s) && s.operations == 0
    ensures !s.scanning
    ensures forall i :: 0 <= i < |s.files| ==> FileOk(s.files[i]) && (s.files[i].life.Skipped? || s.files[i].life.Gone?)
  {
    NoHolders(s.files);
  }

  /** What the scan thread receives: one delivery, in which every counter is the sum over all
      files of one start and exactly one end each, as far as 64 bits show it. */
  lemma DeliveredTotals(s: State, events: seq<Event>, s': State, k: Counter)
    requires Initial(s) && Run(s, events, s') && s'.delivered != []
    ensures |s'.delivered| == 1
    ensures var sum := StartTotal(s'.files, k) + FinalTotal(s'.files, k);
      Get(s'.delivered[0], k) == Wrap(sum) && (sum < U64_LIMIT ==> Get(s'.delivered[0], k) == sum)
  {
    ReachableInv(s, events, s');
    DeliveredSum(s', k);
  }

  lemma DeliveredSum(s: State, k: Counter)
    requires Inv(s) && s.delivered != []
    ensures |s.delivered| == 1
    ensures Get(s.delivered[0], k) == Wrap(StartTotal(s.files, k) + FinalTotal(s.files, k))
  {
    NobodyLeft(s);
    AllEnded(s.files, k);
  }

  /** The files summed up are the files scanned, each ended as reported or as first seen. */
  lemma DeliveredFiles(s: State, events: seq<Event>, s': State, i: nat)
    requires Initial(s) && Run(s, events, s') && s'.delivered != [] && i < |s.files|
    ensures |s'.files| == |s.files|
    ensures s'.files[i].original == s.files[i].original
    ensures s'.files[i].ends == [FinalInfo(s'.files[i])]
    ensures s'.files[i].life.Skipped? || s'.files[i].life.Gone?
  {
    InitialInv(s);
    RunKeepsInv(s, events, s');
    RunKeepsOriginal(s, events, s', i);
    NobodyLeft(s');
  }

  // ----- what the totals mean

  function SumOf(files: seq<File>, g: File -> nat): nat {
    if files == [] then 0 else g(files[0]) + SumOf(files[1..], g)
  }

  lemma {:induction false} TotalsAreSums(files: seq<File>, k: Counter, g: File -> nat)
    requires forall f: File :: g(f) == Get(StartOf(f.original), k) + Get(EndOf(FinalInfo(f)), k)
    ensures StartTotal(files, k) + FinalTotal(files, k) == SumOf(files, g)
  {
    if files == [] {
    } else {
      TotalsAreSums(files[1..], k, g);
    }
  }

  lemma {:induction false} SumOfOnes(files: seq<File>, g: File -> nat)
    requires forall f: File :: g(f) == 1
    ensures SumOf(files, g) == |files|
  {
    if files == [] {
    } else {
      SumOfOnes(files[1..], g);
    }
  }

  function SizeBefore(f: File): nat {
    f.original.size
  }

  function OnDiskBefore(f: File): nat {
    f.original.onDisk
  }

  function OnDiskAfter(f: File): nat {
    FinalInfo(f).onDisk
  }

  function CompressedBefore(f: File): nat {
    if f.original.compression == Compressed then 1 else 0
  }

  function CompressedAfter(f: File): nat {
    if FinalInfo(f).compression == Compressed then 1 else 0
  }

  function IncompressibleBefore(f: File): nat {
    if f.original.compression == Incompressible then 1 else 0
  }

  lemma CounterIs(s: State, k: Counter, g: File -> nat)
    requires Inv(s) && s.delivered != []
    requires forall f: File :: g(f) == Get(StartOf(f.original), k) + Get(EndOf(FinalInfo(f)), k)
    ensures |s.delivered| == 1 && Get(s.delivered[0], k) == Wrap(SumOf(s.files, g))
  {
    DeliveredSum(s, k);
    TotalsAreSums(s.files, k, g);
  }

  lemma FilesCounted(s: State)
    requires Inv(s) && s.delivered != []
    ensures |s.delivered| == 1 && s.delivered[0].files == Wrap(|s.files|)
  {
    var g := (f: File) => 1;
    CounterIs(s, Files, g);
    SumOfOnes(s.files, g);
  }

  lemma SizesCounted(s: State)
    requires Inv(s) && s.delivered != []
    ensures |s.delivered| == 1 && s.delivered[0].fileSizes == Wrap(SumOf(s.files, SizeBefore))
    ensures s.delivered[0].sizeStart == Wrap(SumOf(s.files, OnDiskBefore))
    ensures s.delivered[0].sizeFinal == Wrap(SumOf(s.files, OnDiskAfter))
  {
    CounterIs(s, FileSizes, SizeBefore);
    CounterIs(s, SizeStart, OnDiskBefore);
    CounterIs(s, SizeFinal, OnDiskAfter);
  }

  lemma KindsCounted(s: State)
    requires Inv(s) && s.delivered != []
    ensures |s.delivered| == 1 && s.delivered[0].compressedStart == Wrap(SumOf(s.files, CompressedBefore))
    ensures s.delivered[0].compressedFinal == Wrap(SumOf(s.files, CompressedAfter))
    ensures s.delivered[0].incompressible == Wrap(SumOf(s.files, IncompressibleBefore))
  {
    CounterIs(s, CompressedStart, CompressedBefore);
    CounterIs(s, CompressedFinal, CompressedAfter);
    CounterIs(s, IncompressibleFiles, IncompressibleBefore);
  }

  /** Counter by counter: how many files there are, their lengths, what they took on disk before
      and take after, how many are compressed before and after, and how many cannot be. */
  lemma DeliveredCounters(s: State, events: seq<Event>, s': State)
    requires Initial(s) && Run(s, events, s') && s'.delivered != []
    ensures |s'.delivered| == 1
    ensures var totals, files := s'.delivered[0], s'.files;
      && totals.files == Wrap(|files|) && totals.fileSizes == Wrap(SumOf(files, SizeBefore))
      && totals.sizeStart == Wrap(SumOf(files, OnDiskBefore)) && totals.sizeFinal == Wrap(SumOf(files, OnDiskAfter))
      && totals.compressedStart == Wrap(SumOf(files, CompressedBefore))
      && totals.compressedFinal == Wrap(SumOf(files, CompressedAfter))
      && totals.incompressible == Wrap(SumOf(files, IncompressibleBefore))
  {
    ReachableInv(s, events, s');
    FilesCounted(s');
    SizesCounted(s');
    KindsCounted(s');
  }

  // ----- whose view of a file is recorded

  lemma StepReports(s: State, e: Event, i: nat)
    requires Inv(s) && Enabled(s, e) && i < |s.files|
    ensures |Step(s, e).files| == |s.files|
    ensures var report, report' := s.files[i].report, Step(s, e).files[i].report;
      if e.Swap? && e.i == i then report.Unreported? && report' == Taken(e.info)
      else (report'.Unreported? <==> report.Unreported?) && (!report.Unreported? ==> report'.info == report.info)
  {
    assert FileOk(s.files[i]);
  }

  lemma {:induction false} RunReports(s: State, events: seq<Event>, s': State, i: nat)
    requires Inv(s) && Run(s, events, s') && i < |s.files|
    ensures |s'.files| == |s.files|
    ensures var report, report' := s.files[i].report, s'.files[i].report;
      && (!report.Unreported? ==>
        !report'.Unreported? && report'.info == report.info && forall info :: Swap(i, info) !in events)
      && (forall info :: Swap(i, info) in events ==> !report'.Unreported? && report'.info == info)
      && (report.Unreported? && !report'.Unreported? ==> Swap(i, report'.info) in events)
    decreases |events|
  {
    if events == [] {
    } else {
      StepReports(s, events[0], i);
      StepKeepsInv(s, events[0]);
      RunReports(Step(s, events[0]), events[1..], s', i);
    }
  }

  /** A file's one end is what its report saw, if one was made in the run; otherwise what the
      scan saw. */
  lemma EndIsTheReport(s: State, events: seq<Event>, s': State, i: nat)
    requires Initial(s) && Run(s, events, s') && s'.delivered != [] && i < |s.files|
    ensures |s'.files| == |s.files|
    ensures forall info :: Swap(i, info) in events ==> s'.files[i].ends == [info]
    ensures (forall info :: Swap(i, info) !in events) ==> s'.files[i].ends == [s.files[i].original]
  {
    InitialInv(s);
    RunReports(s, events, s', i);
    DeliveredFiles(s, events, s', i);
  }

  lemma AtMostOneEnd(f: File)
    requires FileOk(f)
    ensures |f.ends| <= 1
  {
  }

  /** In every run no file is reported twice, so the assertion never fires, and nothing is
      recorded twice. */
  lemma NoSecondRecord(s: State, events: seq<Event>, s': State, i: nat)
    requires Initial(s) && Run(s, events, s')
    ensures !s'.panicked && (i < |s'.files| ==> |s'.files[i].ends| <= 1)
  {
    InitialInv(s);
    RunKeepsInv(s, events, s');
    if i < |s'.files| {
      AtMostOneEnd(s'.files[i]);
    }
  }

  /** The operation outlives every context: the totals leave it only when the scan and all
      contexts are done, and then at once. */
  lemma OperationOutlivesContexts(s: State, events: seq<Event>, s': State)
    requires Initial(s) && Run(s, events, s')
    ensures s'.operations == 0 <==> !s'.scanning && forall i :: 0 <= i < |s'.files| ==> !HoldsOperation(s'.files[i])
    ensures s'.delivered != [] ==> s'.operations == 0
  {
    InitialInv(s);
    RunKeepsInv(s, events, s');
    NoHolders(s'.files);
  }

  /** Until the totals are delivered some thread can move, without cloning. */
  lemma DeliveryIsNeverBlocked(s: State, events: seq<Event>, s': State) returns (e: Event)
    requires Initial(s) && Run(s, events, s') && s'.delivered == []
    ensures Enabled(s', e) && !e.Clone?
  {
    InitialInv(s);
    RunKeepsInv(s, events, s');
    NoHolders(s'.files);
    if s'.scanning {
      return
        if s'.next == |s'.files| then ScanDone
        else if s'.files[s'.next].life.Unscanned? then Start
        else Skip;
    }
    if i: nat :| i < |s'.files| && HoldsOperation(s'.files[i]) {
      assert FileOk(s'.files[i]);
      var f := s'.files[i];
      return
        if f.life.Dropped? then Release(i)
        else if f.report.Taken? then AddEnd(i)
        else if f.life.holders == 0 then DropContext(i)
        else LetGo(i);
    }
    return Deliver;
  }

  // ----- termination

  /** What a file has ahead of it, counting its context's holders. */
  function Left(f: File): nat {
    match f.life
    case Unscanned => 12
    case Scanned => 11
    case Skipped => 0
    case Alive(holders) =>
      holders + 2
      + (match f.worker
         case Reading => 5
         case Writing => 3
         case Publishing => 2
         case Over => 0)
      + (if f.report.Taken? then 1 else 0)
    case Dropped => 1
    case Gone => 0
  }

  function FilesLeft(files: seq<File>): nat {
    if files == [] then 0 else Left(files[0]) + FilesLeft(files[1..])
  }

  lemma {:induction false} FilesLeftUpdate(files: seq<File>, i: nat, f: File)
    requires i < |files|
    ensures FilesLeft(files[i := f]) + Left(files[i]) == FilesLeft(files) + Left(f)
  {
    if i == 0 {
      assert files[i := f][1..] == files[1..];
    } else {
      FilesLeftUpdate(files[1..], i - 1, f);
      assert files[i := f][1..] == files[1..][i - 1 := f];
    }
  }

  /** An upper bound on the steps left, if no context is cloned any more. */
  function StepsLeft(s: State): nat {
    FilesLeft(s.files) + One(s.scanning) + One(s.delivered == [])
  }

  lemma ActLowersLeft(s: State, e: Event)
    requires Inv(s) && Enabled(s, e) && OnFile(e)
    ensures Target(s, e) < |s.files|
    ensures var f := s.files[Target(s, e)];
      if e.Clone? then Left(Act(f, e)) == Left(f) + 1 else Left(Act(f, e)) < Left(f)
  {
    assert FileOk(s.files[Target(s, e)]);
  }

  /** Every step but a clone lowers the bound, and a clone raises it by one. */
  lemma StepLowersBound(s: State, e: Event)
    requires Inv(s) && Enabled(s, e)
    ensures if e.Clone? then StepsLeft(Step(s, e)) == StepsLeft(s) + 1 else StepsLeft(Step(s, e)) < StepsLeft(s)
  {
    if OnFile(e) {
      ActLowersLeft(s, e);
      FilesLeftUpdate(s.files, Target(s, e), Act(s.files[Target(s, e)], e));
    }
  }

  function Clones(events: seq<Event>): nat {
    if events == [] then 0 else One(events[0].Clone?) + Clones(events[1..])
  }

  lemma {:induction false} RunsAreBounded(s: State, events: seq<Event>, s': State)
    requires Inv(s) && Run(s, events, s')
    ensures |events| + StepsLeft(s') <= StepsLeft(s) + 2 * Clones(events)
    decreases |events|
  {
    if events == [] {
    } else {
      StepLowersBound(s, events[0]);
      StepKeepsInv(s, events[0]);
      RunsAreBounded(Step(s, events[0]), events[1..], s');
    }
  }

  lemma {:induction false} UnscannedLeft(files: seq<File>)
    requires forall i :: 0 <= i < |files| ==> files[i].life.Unscanned?
    ensures FilesLeft(files) == 12 * |files|
  {
    if files == [] {
    } else {
      UnscannedLeft(files[1..]);
    }
  }

  lemma InitialBound(s: State)
    requires Initial(s)
    ensures Inv(s) && StepsLeft(s) == 12 * |s.files| + 2
  {
    InitialInv(s);
    UnscannedLeft(s.files);
  }

  /** The delivery comes: a run is bounded by its files and by the clones it makes of contexts,
      each of them for a block or a hand-over, and until the delivery it can always go on
      without making more. */
  lemma DeliveryComes(s: State, events: seq<Event>, s': State)
    requires Initial(s) && Run(s, events, s')
    ensures |events| <= 12 * |s.files| + 2 + 2 * Clones(events)
    ensures s'.delivered != [] || exists e :: Enabled(s', e) && !e.Clone?
  {
    InitialBound(s);
    RunsAreBounded(s, events, s');
    if s'.delivered == [] {
      var e := DeliveryIsNeverBlocked(s, events, s');
    }
  }
}
