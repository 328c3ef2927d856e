/** The scratch byte budget: a mutex-and-condition-variable monitor from which threads
    reserve, waiting while the bytes are not available. */
module ScratchBudget {
  import opened Bytes
  import opened Wrappers
  import Decmpfs

  // The output buffer of a compressor thread, and so the most a block can take.
  const COMPRESSED_BLOCK_CAPACITY: nat := Decmpfs.BLOCK_SIZE + 1024

  /** A thread asleep in `reserve`, and whether a notification is on its way to it. */
  datatype Waiter = Waiter(bytes: nat, notified: bool)

  /** The monitor's state. Reservations are numbered in the order they were granted. */
  datatype State = State(limit: nat, used: nat, stopped: bool, live: seq<Option<nat>>, waiting: map<nat, Waiter>) {
    ghost predicate Holds(id: nat) {
      id < |live| && live[id].Some?
    }
  }

  datatype Outcome = Granted | Asleep | Stopped | TooLarge

  /** The critical sections, each under the mutex. Attempt is a thread's check on entering
      `reserve` and again on every wakeup, notified or spurious. */
  datatype Event =
    | Attempt(thread: nat, bytes: nat)
    | Shrink(id: nat, bytes: nat)
    | Release(id: nat)
    | Stop

  function TotalLive(live: seq<Option<nat>>): nat {
    if live == [] then 0
    else (if live[0].Some? then live[0].value else 0) + TotalLive(live[1..])
  }

  function NotifyAll(waiting: map<nat, Waiter>): (w: map<nat, Waiter>)
    ensures w.Keys == waiting.Keys
  {
    map t | t in waiting :: waiting[t].(notified := true)
  }

  function AttemptOutcome(s: State, bytes: nat): Outcome {
    if bytes > s.limit then TooLarge
    else if s.stopped then Stopped
    else if bytes > s.limit - s.used then Asleep
    else Granted
  }

  /** What callers owe: shrinking and releasing are for held reservations, and only down. A
      woken thread asks for what it went to sleep for. */
  ghost predicate Enabled(s: State, e: Event) {
    match e
    case Attempt(t, bytes) => t in s.waiting ==> s.waiting[t].bytes == bytes
    case Shrink(id, bytes) => s.Holds(id) && bytes <= s.live[id].value
    case Release(id) => s.Holds(id)
    case Stop => true
  }

  function Awake(s: State, t: nat): State {
    s.(waiting := s.waiting - {t})
  }

  ghost function Step(s: State, e: Event): State
    requires Enabled(s, e)
  {
    match e
    case Attempt(t, bytes) =>
      (match AttemptOutcome(s, bytes)
       case TooLarge => Awake(s, t)
       case Stopped => Awake(s, t)
       case Asleep => s.(waiting := s.waiting[t := Waiter(bytes, false)])
       case Granted => Awake(s, t).(used := s.used + bytes, live := s.live + [Some(bytes)]))
    case Shrink(id, bytes) =>
      s.(used := Saturating(s.used, s.live[id].value - bytes), live := s.live[id := Some(bytes)],
         waiting := NotifyAll(s.waiting))
    case Release(id) =>
      s.(used := Saturating(s.used, s.live[id].value), live := s.live[id := None], waiting := NotifyAll(s.waiting))
    case Stop =>
      s.(stopped := true, waiting := NotifyAll(s.waiting))
  }

  ghost predicate Initial(s: State) {
    s.used == 0 && !s.stopped && s.live == [] && s.waiting == map[]
  }

  /** Used bytes are exactly the live reservations, within the limit, and everyone still
      asleep without a notification really has to wait. */
  ghost predicate Inv(s: State) {
    && s.used == TotalLive(s.live) <= s.limit
    && forall t <- s.waiting ::
      && s.waiting[t].bytes <= s.limit
      && (!s.waiting[t].notified ==> !s.stopped && s.waiting[t].bytes > s.limit - s.used)
  }

  lemma {:induction false} TotalUpdate(live: seq<Option<nat>>, id: nat, to: Option<nat>)
    requires id < |live|
    ensures TotalLive(live[id := to]) + (if live[id].Some? then live[id].value else 0)
            == TotalLive(live) + (if to.Some? then to.value else 0)
  {
    if id == 0 {
      assert live[id := to][1..] == live[1..];
    } else {
      TotalUpdate(live[1..], id - 1, to);
      assert live[id := to][1..] == live[1..][id - 1 := to];
    }
  }

  lemma {:induction false} TotalSnoc(live: seq<Option<nat>>, bytes: nat)
    ensures TotalLive(live + [Some(bytes)]) == TotalLive(live) + bytes
  {
    if live == [] {
      assert live + [Some(bytes)] == [Some(bytes)];
    } else {
      TotalSnoc(live[1..], bytes);
      assert (live + [Some(bytes)])[1..] == live[1..] + [Some(bytes)];
    }
  }

  /** Every critical section keeps the invariant, and none of its subtractions underflows. */
  lemma StepKeepsInv(s: State, e: Event)
    requires Inv(s) && Enabled(s, e)
    ensures Inv(Step(s, e)) && Step(s, e).limit == s.limit
    ensures e.Shrink? ==> s.live[e.id].value - e.bytes <= s.used
    ensures e.Release? ==> s.live[e.id].value <= s.used
  {
    match e
    case Attempt(t, bytes) => TotalSnoc(s.live, bytes);
    case Shrink(id, bytes) => TotalUpdate(s.live, id, Some(bytes));
    case Release(id) => TotalUpdate(s.live, id, None);
    case Stop =>
  }

  /** A run: any interleaving of critical sections that callers may perform. */
  ghost predicate Run(s: State, events: seq<Event>, s': State)
    decreases |events|
  {
    if events == [] then s' == s
    else Enabled(s, events[0]) && Run(Step(s, events[0]), events[1..], s')
  }

  lemma {:induction false} RunKeepsInv(s: State, events: seq<Event>, s': State)
    requires Inv(s) && Run(s, events, s')
    ensures Inv(s') && s'.limit == s.limit
    decreases |events|
  {
    if events == [] {
    } else {
      StepKeepsInv(s, events[0]);
      RunKeepsInv(Step(s, events[0]), events[1..], s');
    }
  }

  /** Conservation and no lost wakeup, over all runs: the counter is the live reservations
      within the limit; a waiter that could go on has been notified, so after a stop, or with
      nothing reserved, nobody is left sleeping; and waking such a waiter ends its wait. */
  lemma NoLostWakeup(s: State, events: seq<Event>, s': State, t: nat)
    requires Initial(s) && Run(s, events, s')
    ensures s'.used == TotalLive(s'.live) <= s'.limit
    ensures t in s'.waiting && (s'.stopped || s'.used == 0 || s'.waiting[t].bytes <= s'.limit - s'.used) ==>
      && s'.waiting[t].notified
      && t !in Step(s', Attempt(t, s'.waiting[t].bytes)).waiting
      && AttemptOutcome(s', s'.waiting[t].bytes) == if s'.stopped then Stopped else Granted
  {
    RunKeepsInv(s, events, s');
  }

  // ----- every waiter is served in the end

  /** The monitor among its callers, with so many calls of `reserve` and of `shrink_to` still
      to come. */
  datatype System = System(budget: State, requests: nat, shrinks: nat)

  /** What can happen: a thread calls, or is woken by a notification, or the holder of a
      reservation shrinks it or gives it back. No holder waits for a reservation: a reader has
      one file at a time, and its writer and publisher take what they are handed. */
  ghost predicate Moves(s: System, e: Event) {
    && Enabled(s.budget, e)
    && match e
       case Attempt(t, _) => if t in s.budget.waiting then s.budget.waiting[t].notified else s.requests > 0
       case Shrink(_, _) => s.shrinks > 0
       case Release(_) => true
       case Stop => !s.budget.stopped
  }

  ghost function Next(s: System, e: Event): System
    requires Moves(s, e)
  {
    System(
      Step(s.budget, e),
      if e.Attempt? && e.thread !in s.budget.waiting then s.requests - 1 else s.requests,
      if e.Shrink? then s.shrinks - 1 else s.shrinks)
  }

  function Held(live: seq<Option<nat>>): nat {
    if live == [] then 0 else One(live[0].Some?) + Held(live[1..])
  }

  lemma {:induction false} HeldUpdate(live: seq<Option<nat>>, id: nat, to: Option<nat>)
    requires id < |live|
    ensures Held(live[id := to]) + One(live[id].Some?) == Held(live) + One(to.Some?)
  {
    if id == 0 {
      assert live[id := to][1..] == live[1..];
    } else {
      HeldUpdate(live[1..], id - 1, to);
      assert live[id := to][1..] == live[1..][id - 1 := to];
    }
  }

  lemma {:induction false} HeldSnoc(live: seq<Option<nat>>, bytes: nat)
    ensures Held(live + [Some(bytes)]) == Held(live) + 1
  {
    if live == [] {
      assert live + [Some(bytes)] == [Some(bytes)];
    } else {
      HeldSnoc(live[1..], bytes);
      assert (live + [Some(bytes)])[1..] == live[1..] + [Some(bytes)];
    }
  }

  function Notified(waiting: map<nat, Waiter>): (notified: set<nat>)
    ensures notified <= waiting.Keys
  {
    set t | t in waiting && waiting[t].notified
  }

  /** What is left to do; only a waiter woken for nothing leaves it as it is. */
  ghost function WorkLeft(s: System): nat {
    3 * s.requests + 2 * |s.budget.waiting.Keys| + Held(s.budget.live) + s.shrinks + One(!s.budget.stopped)
  }

  lemma AttemptGoesOn(s: System, t: nat, bytes: nat)
    requires Moves(s, Attempt(t, bytes))
    ensures var s' := Next(s, Attempt(t, bytes));
      && s'.requests + |s'.budget.waiting.Keys| <= s.requests + |s.budget.waiting.Keys|
      && (WorkLeft(s') < WorkLeft(s)
          || (WorkLeft(s') == WorkLeft(s) && |Notified(s'.budget.waiting)| < |Notified(s.budget.waiting)|))
  {
    var s' := Next(s, Attempt(t, bytes));
    var waiting, waiting' := s.budget.waiting, s'.budget.waiting;
    HeldSnoc(s.budget.live, bytes);
    if AttemptOutcome(s.budget, bytes).Asleep? {
      assert waiting'.Keys == waiting.Keys + {t};
      if t in waiting {
        assert waiting'.Keys == waiting.Keys;
        assert Notified(waiting') == Notified(waiting) - {t};
      }
    } else {
      assert waiting'.Keys == waiting.Keys - {t};
    }
  }

  lemma StepGoesOn(s: System, e: Event)
    requires Moves(s, e)
    ensures var s' := Next(s, e);
      && s'.requests + |s'.budget.waiting.Keys| <= s.requests + |s.budget.waiting.Keys|
      && (WorkLeft(s') < WorkLeft(s)
          || (WorkLeft(s') == WorkLeft(s) && |Notified(s'.budget.waiting)| < |Notified(s.budget.waiting)|))
  {
    match e
    case Attempt(t, bytes) => AttemptGoesOn(s, t, bytes);
    case Shrink(id, bytes) => HeldUpdate(s.budget.live, id, Some(bytes));
    case Release(id) => HeldUpdate(s.budget.live, id, None);
    case Stop =>
  }

  /** How many steps a system with at most `threads` callers can still take. */
  ghost function StepsLeft(s: System, threads: nat): nat {
    WorkLeft(s) * (threads + 1) + |Notified(s.budget.waiting)|
  }

  /** A pair that gets smaller, as one number. */
  lemma PairLowers(work: nat, n: nat, work': nat, n': nat, width: nat)
    requires n' <= width && (work' < work || (work' == work && n' < n))
    ensures work' * (width + 1) + n' < work * (width + 1) + n
  {
    if work' < work {
      assert (work' + 1) * (width + 1) <= work * (width + 1);
    }
  }

  lemma StepLowersBound(s: System, e: Event, threads: nat)
    requires Moves(s, e) && s.requests + |s.budget.waiting.Keys| <= threads
    ensures StepsLeft(Next(s, e), threads) < StepsLeft(s, threads)
    ensures Next(s, e).requests + |Next(s, e).budget.waiting.Keys| <= threads
  {
    StepGoesOn(s, e);
    var before, after := s.budget.waiting, Next(s, e).budget.waiting;
    SubsetSize(Notified(after), after.Keys);
    PairLowers(WorkLeft(s), |Notified(before)|, WorkLeft(Next(s, e)), |Notified(after)|, threads);
  }

  lemma {:induction false} SubsetSize(a: set<nat>, b: set<nat>)
    requires a <= b
    ensures |a| <= |b|
  {
    if a == {} {
    } else {
      var x :| x in a;
      SubsetSize(a - {x}, b - {x});
    }
  }

  ghost predicate SystemRun(s: System, events: seq<Event>, s': System)
    decreases |events|
  {
    if events == [] then s' == s
    else Moves(s, events[0]) && SystemRun(Next(s, events[0]), events[1..], s')
  }

  lemma {:induction false} SystemRunIsBounded(s: System, events: seq<Event>, s': System, threads: nat)
    requires Inv(s.budget) && SystemRun(s, events, s') && s.requests + |s.budget.waiting.Keys| <= threads
    ensures Inv(s'.budget) && |events| + StepsLeft(s', threads) <= StepsLeft(s, threads)
    decreases |events|
  {
    if events == [] {
    } else {
      StepKeepsInv(s.budget, events[0]);
      StepLowersBound(s, events[0], threads);
      SystemRunIsBounded(Next(s, events[0]), events[1..], s', threads);
    }
  }

  lemma {:induction false} SomethingHeld(live: seq<Option<nat>>) returns (id: nat)
    requires TotalLive(live) > 0
    ensures id < |live| && live[id].Some?
  {
    if live[0].Some? {
      return 0;
    }
    id := SomethingHeld(live[1..]);
    id := id + 1;
  }

  /** Whoever sleeps without a notification sleeps behind a reservation that its holder can
      give back. */
  lemma WaiterGetsOn(s: State, t: nat) returns (e: Event)
    requires Inv(s) && t in s.waiting
    ensures Enabled(s, e)
    ensures if s.waiting[t].notified then e == Attempt(t, s.waiting[t].bytes) else e.Release?
  {
    if s.waiting[t].notified {
      return Attempt(t, s.waiting[t].bytes);
    }
    var id := SomethingHeld(s.live);
    return Release(id);
  }

  lemma SomethingMoves(s: System) returns (e: Event)
    requires Inv(s.budget) && (s.budget.waiting != map[] || s.budget.used > 0 || s.requests > 0)
    ensures Moves(s, e)
  {
    if t :| t in s.budget.waiting {
      e := WaiterGetsOn(s.budget, t);
    } else if s.budget.used > 0 {
      var id := SomethingHeld(s.budget.live);
      e := Release(id);
    } else {
      e := Attempt(0, 0);
    }
  }

  lemma StepsAtFirst(s: System)
    requires Initial(s.budget)
    ensures StepsLeft(s, s.requests) == (3 * s.requests + s.shrinks + 1) * (s.requests + 1)
    ensures |s.budget.waiting.Keys| == 0
  {
    assert s.budget.waiting.Keys == {} && Notified(s.budget.waiting) == {};
    assert WorkLeft(s) == 3 * s.requests + s.shrinks + 1;
  }

  /** Nobody waits for ever: every run is bounded in the calls that are to come, and goes on
      until everybody has been served and everything has been given back. */
  lemma EveryWaiterIsServed(s: System, events: seq<Event>, s': System)
    requires Initial(s.budget) && SystemRun(s, events, s')
    ensures |events| <= (3 * s.requests + s.shrinks + 1) * (s.requests + 1)
    ensures s'.budget.waiting != map[] || s'.budget.used > 0 || s'.requests > 0 ==> exists e :: Moves(s', e)
  {
    StepsAtFirst(s);
    SystemRunIsBounded(s, events, s', s.requests);
    if s'.budget.waiting != map[] || s'.budget.used > 0 || s'.requests > 0 {
      var e := SomethingMoves(s');
    }
  }

  // ----- the monitor object

  class Budget {
    const limit: nat
    var used: nat
    var stopped: bool
    // The reservations handed out, and the threads asleep on the condition variable.
    ghost var live: seq<Option<nat>>
    ghost var waiting: map<nat, Waiter>

    ghost function View(): State
      reads this
    {
      State(limit, used, stopped, live, waiting)
    }

    ghost predicate Valid()
      reads this
    {
      Inv(View())
    }

    constructor (limit: nat)
      requires limit > 0
      ensures Valid() && Initial(View()) && this.limit == limit
    {
      this.limit, used, stopped, live, waiting := limit, 0, false, [], map[];
    }

    method AttemptReserve(thread: nat, bytes: nat) returns (outcome: Outcome)
      requires Valid() && Enabled(View(), Attempt(thread, bytes))
      modifies this
      ensures Valid() && View() == Step(old(View()), Attempt(thread, bytes))
      ensures outcome.Granted? <==> bytes <= limit - old(used) && !old(stopped)
      ensures outcome.TooLarge? <==> bytes > limit
      ensures outcome.Stopped? <==> bytes <= limit && old(stopped)
      ensures outcome.Granted? ==> live == old(live) + [Some(bytes)] && used == old(used) + bytes
      ensures !outcome.Granted? ==> live == old(live) && used == old(used)
      ensures waiting ==
        if outcome.Asleep? then old(waiting)[thread := Waiter(bytes, false)] else old(waiting) - {thread}
    {
      StepKeepsInv(View(), Attempt(thread, bytes));
      if bytes > limit {
        waiting := waiting - {thread};
        return TooLarge;
      }
      if !stopped && bytes > limit - used {
        waiting := waiting[thread := Waiter(bytes, false)];
        return Asleep;
      }
      waiting := waiting - {thread};
      if stopped {
        return Outcome.Stopped;
      }
      used := used + bytes;
      live := live + [Some(bytes)];
      return Granted;
    }

    method ShrinkTo(ghost id: nat, held: nat, bytes: nat)
      requires Valid() && View().Holds(id) && live[id].value == held && bytes <= held
      modifies this
      ensures Valid() && View() == Step(old(View()), Shrink(id, bytes))
      ensures used == old(used) - (held - bytes) && live == old(live)[id := Some(bytes)]
      ensures waiting.Keys == old(waiting).Keys
      ensures forall t <- waiting :: waiting[t] == Waiter(old(waiting)[t].bytes, true)
    {
      StepKeepsInv(View(), Shrink(id, bytes));
      used := used - (held - bytes);
      live := live[id := Some(bytes)];
      waiting := NotifyAll(waiting);
    }

    method DropReservation(ghost id: nat, held: nat)
      requires Valid() && View().Holds(id) && live[id].value == held
      modifies this
      ensures Valid() && View() == Step(old(View()), Release(id))
      ensures used == old(used) - held && live == old(live)[id := None]
      ensures waiting.Keys == old(waiting).Keys
      ensures forall t <- waiting :: waiting[t] == Waiter(old(waiting)[t].bytes, true)
    {
      StepKeepsInv(View(), Release(id));
      used := used - held;
      live := live[id := None];
      waiting := NotifyAll(waiting);
    }

    method StopAll()
      requires Valid()
      modifies this
      ensures Valid() && View() == Step(old(View()), Stop)
      ensures stopped && used == old(used) && live == old(live)
      ensures waiting.Keys == old(waiting).Keys
      ensures forall t <- waiting :: waiting[t] == Waiter(old(waiting)[t].bytes, true)
    {
      StepKeepsInv(View(), Stop);
      stopped := true;
      waiting := NotifyAll(waiting);
    }
  }
}
