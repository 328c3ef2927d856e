/** The coordinator as a program: `submit` and `drain` perform the coordinator's own events in
    the program's order, and before, between and while waiting for them the other threads do
    whatever they like, any number of steps. */
module BatchCoordinator {
  import opened Bytes
  import opened Wrappers
  import opened Batching

  // ----- what the other threads can and cannot change

  /** The coordinator's own books, and which files are in the batch, are as before. */
  predicate SameBooks(s: State, s': State) {
    && s'.coordinator == s.coordinator && s'.next == s.next && s'.pending == s.pending
    && s'.received == s.received && s'.staged == s.staged && s'.acked == s.acked
    && (s.stopped ==> s'.stopped) && SameAdmissions(s, s')
  }

  predicate SameAdmissions(s: State, s': State) {
    |s'.files| == |s.files| && forall i :: 0 <= i < |s.files| ==> s'.files[i].admission == s.files[i].admission
  }

  /** The files collected from the guards are still the coordinator's to hand over. */
  predicate SameCollected(s: State, s': State) {
    |s'.files| == |s.files| && forall i :: 0 <= i < |s.files| ==> IsCollected(s'.files[i]) == IsCollected(s.files[i])
  }

  /** The batch of the first state is settled in the second, and nothing else is. */
  predicate BatchSettled(s: State, s': State) {
    && s'.next == s.next && s'.pending == 0 && |s'.files| == |s.files|
    && forall i :: 0 <= i < |s.files| ==>
      s'.files[i].admission == if s.files[i].admission.InBatch? then Settled else s.files[i].admission
  }

  lemma OthersStep(c: Config, s: State, i: nat, a: Action)
    requires Inv(c, s) && Enabled(c, s, FileAction(i, a))
    ensures var s' := Step(c, s, FileAction(i, a));
      SameBooks(s, s') && SameCollected(s, s') && TotalWork(s'.files) < TotalWork(s.files)
  {
    ActionKeepsFile(s.files[i], s.held[i], a, PhaseOf(s.coordinator));
    OthersLowerWork(c, s, i, a);
  }

  lemma OthersOnlyGiveBack(c: Config, s: State, i: nat, a: Action)
    requires Enabled(c, s, FileAction(i, a))
    ensures Step(c, s, FileAction(i, a)).used <= s.used
  {
  }

  lemma OthersLowerWork(c: Config, s: State, i: nat, a: Action)
    requires Inv(c, s) && Enabled(c, s, FileAction(i, a))
    ensures TotalWork(Step(c, s, FileAction(i, a)).files) < TotalWork(s.files)
  {
    ActionLowersWork(s.files[i], s.held[i], a);
    WorkUpdate(s.files, i, Act(s.files[i], s.held[i], a));
  }

  /** Some other thread can act. */
  predicate OthersCanAct(s: State) {
    |s.held| == |s.files| && exists i :: 0 <= i < |s.files| && CanAct(s.files[i], s.held[i], NextAction(s.files[i]))
  }

  lemma HolderCanAct(c: Config, s: State, i: nat)
    requires Inv(c, s) && i < |s.files|
    requires
      || s.files[i].guard.Held? || s.files[i].guard.Firing?
      || AtPublisherQueue(s.files[i]) || InPublisher(s.files[i])
    ensures OthersCanAct(s)
  {
    assert Consistent(s.files[i], s.held[i]);
    FileProgress(s.files[i], s.held[i]);
  }

  lemma QueuedCanAct(c: Config, s: State)
    requires Inv(c, s)
    ensures Count(s.files, AtReaderQueue) > 0 ==> OthersCanAct(s)
    ensures Count(s.files, AtPublisherQueue) > 0 ==> OthersCanAct(s)
  {
    CountZero(s.files, AtReaderQueue);
    if i: nat :| i < |s.files| && AtReaderQueue(s.files[i]) {
      assert Consistent(s.files[i], s.held[i]);
      HolderCanAct(c, s, i);
    }
    CountZero(s.files, AtPublisherQueue);
    if i: nat :| i < |s.files| && AtPublisherQueue(s.files[i]) {
      HolderCanAct(c, s, i);
    }
  }

  // ----- runs

  /** A state of the same run, no earlier. */
  ghost predicate Later(c: Config, s: State, s': State) {
    forall start :: Reaches(c, start, s) ==> Reaches(c, start, s')
  }

  lemma StepIsLater(c: Config, s: State, e: Event)
    requires Enabled(c, s, e)
    ensures Later(c, s, Step(c, s, e))
  {
    forall start | Reaches(c, start, s) ensures Reaches(c, start, Step(c, s, e)) {
      var events :| Run(c, start, events, s);
      RunSnoc(c, start, events, s, e);
    }
  }

  lemma NothingInBatch(c: Config, s: State)
    requires Inv(c, s) && s.pending == 0
    ensures forall i :: 0 <= i < |s.files| ==> !s.files[i].admission.InBatch?
  {
    CountZero(s.files, IsInBatch);
  }

  /** What came of submitting file `n`: refused, waiting in the batch, or, when it is larger
      than the target, alone in a batch about to be drained. */
  predicate Submitted(c: Config, s: State, s': State, n: nat)
    requires n < |c.sizes| == |s.files| == |s'.files|
  {
    && s'.next == n + 1 && (s'.coordinator.Receiving? ==> s'.received == 0)
    && s'.pending == s.pending + One(s'.files[n].admission.InBatch?)
    && (s.stopped ==> s'.stopped && !s'.files[n].admission.InBatch?)
    && (s'.files[n].admission.InBatch? ==> n < |s'.held| && s'.held[n] == Some(c.sizes[n]))
    && (forall i :: 0 <= i < |s.files| && i != n ==> s'.files[i].admission == s.files[i].admission)
    && (if c.sizes[n] > c.limit then s'.files[n].admission.Outside? && s'.coordinator.AtFile?
        else if s'.files[n].admission.InBatch? then
          s'.pending > 0 && s'.coordinator == if c.sizes[n] > c.target then StartDrain(s'.pending, ThenNext) else AtFile
        else s'.files[n].admission.Outside? && s'.stopped && s'.coordinator.AtFile?)
  }

  /** How a file ends up. */
  predicate DealtWith(c: Config, s: State, i: nat)
    requires i < |c.sizes| == |s.files|
  {
    if s.files[i].admission.Settled? then s.files[i].notices == 1
    else s.files[i] == NEW_FILE && (c.sizes[i] > c.limit || s.stopped)
  }

  class Batch {
    const c: Config
    var s: State

    ghost predicate Valid()
      reads this
    {
      Inv(c, s)
    }

    constructor (c: Config)
      requires c.Valid()
      ensures Valid() && Initial(c, s) && this.c == c
    {
      this.c := c;
      this.s := State(
        seq(|c.sizes|, i => NEW_FILE), seq(|c.sizes|, i => None), 0, false, AtFile, 0, 0, 0, 0, 0);
      new;
      InitialInv(c, s);
    }

    method Take(e: Event)
      requires Valid() && Enabled(c, s, e)
      modifies this`s
      ensures Valid() && s == Step(c, old(s), e) && Later(c, old(s), s)
    {
      StepKeepsInv(c, s, e);
      StepIsLater(c, s, e);
      s := Step(c, s, e);
    }

    /** One action of some other thread. */
    method Other(i: nat, a: Action)
      requires Valid() && Enabled(c, s, FileAction(i, a))
      modifies this`s
      ensures Valid() && Later(c, old(s), s) && SameBooks(old(s), s) && SameCollected(old(s), s)
      ensures TotalWork(s.files) < TotalWork(old(s).files) && s.used <= old(s).used
    {
      OthersStep(c, s, i, a);
      OthersOnlyGiveBack(c, s, i, a);
      Take(FileAction(i, a));
    }

    /** Any number of actions of any other threads. */
    method Others()
      requires Valid()
      modifies this`s
      ensures Valid() && Later(c, old(s), s) && SameBooks(old(s), s) && SameCollected(old(s), s)
      ensures TotalWork(s.files) <= TotalWork(old(s).files) && s.used <= old(s).used
    {
      var steps: int := *;
      while steps > 0
        invariant Valid() && Later(c, old(s), s) && SameBooks(old(s), s) && SameCollected(old(s), s)
        invariant TotalWork(s.files) <= TotalWork(old(s).files) && s.used <= old(s).used
      {
        steps := steps - 1;
        var i: nat, a: Action := *, *;
        if Enabled(c, s, FileAction(i, a)) {
          Other(i, a);
        }
      }
    }

    /** The coordinator is blocked: at least one action, of whichever other thread. */
    method Blocked()
      requires Valid() && OthersCanAct(s)
      modifies this`s
      ensures Valid() && Later(c, old(s), s) && SameBooks(old(s), s) && SameCollected(old(s), s)
      ensures TotalWork(s.files) < TotalWork(old(s).files)
    {
      var i: nat, a: Action := *, *;
      if !Enabled(c, s, FileAction(i, a)) {
        i :| i < |s.files| && CanAct(s.files[i], s.held[i], NextAction(s.files[i]));
        a := NextAction(s.files[i]);
      }
      Other(i, a);
      Others();
    }

    /** Receives one notice, waiting until there is one. */
    method ReceiveOneNotice()
      requires Valid() && s.coordinator.Receiving? && s.received < s.pending
      modifies this`s
      ensures Valid() && Later(c, old(s), s) && SameBooks(old(s), s.(received := old(s).received))
      ensures s.received == old(s).received + 1
    {
      Others();
      while !exists i :: 0 <= i < |s.files| && s.files[i].guard.Notified?
        invariant Valid() && Later(c, old(s), s) && SameBooks(old(s), s)
        decreases TotalWork(s.files)
      {
        ghost var i := Unreceived(c, s);
        HolderCanAct(c, s, i);
        Blocked();
      }
      var i: nat :| i < |s.files| && s.files[i].guard.Notified?;
      TakeNotice(i);
    }

    method TakeNotice(i: nat)
      requires Valid() && Enabled(c, s, ReceiveNotice(i))
      modifies this`s
      ensures Valid() && Later(c, old(s), s) && SameBooks(old(s), s.(received := old(s).received))
      ensures s.received == old(s).received + 1
    {
      Take(ReceiveNotice(i));
    }

    /** Receives as many notices as there are files in the batch. */
    method ReceiveNotices()
      requires Valid() && s.coordinator.Receiving? && s.received == 0
      modifies this`s
      ensures Valid() && Later(c, old(s), s) && SameBooks(old(s), s.(received := 0))
      ensures s.received == s.pending
    {
      for k := 0 to s.pending
        invariant Valid() && Later(c, old(s), s) && SameBooks(old(s), s.(received := 0))
        invariant s.received == k
      {
        ReceiveOneNotice();
      }
    }

    /** A send to the publishers' bounded queue waits until there is room. */
    method WaitForPublishers()
      requires Valid()
      modifies this`s
      ensures Valid() && Later(c, old(s), s) && SameBooks(old(s), s) && SameCollected(old(s), s)
      ensures TotalWork(s.files) <= TotalWork(old(s).files)
      ensures Count(s.files, AtPublisherQueue) < c.pools.publisherQueue
    {
      Others();
      while Count(s.files, AtPublisherQueue) >= c.pools.publisherQueue
        invariant Valid() && Later(c, old(s), s) && SameBooks(old(s), s) && SameCollected(old(s), s)
        invariant TotalWork(s.files) <= TotalWork(old(s).files)
        decreases TotalWork(s.files)
      {
        QueuedCanAct(c, s);
        Blocked();
      }
    }

    method SendToPublisher(i: nat)
      requires Valid() && CanMove(c, s, HandToPublisher(i))
      modifies this`s
      ensures Valid() && Later(c, old(s), s) && SameBooks(old(s), s) && TotalWork(s.files) < TotalWork(old(s).files)
    {
      HandOverKeepsFile(s.files[i], s.held[i]);
      WorkUpdate(s.files, i, s.files[i].(publication := PublisherQueued));
      Take(HandToPublisher(i));
    }

    /** Hands every staged file over. */
    method HandOver()
      requires Valid() && s.coordinator.Handing?
      modifies this`s
      ensures Valid() && Later(c, old(s), s) && SameBooks(old(s), s)
      ensures Enabled(c, s, AllHanded)
    {
      while exists i :: 0 <= i < |s.files| && IsCollected(s.files[i])
        invariant Valid() && Later(c, old(s), s) && SameBooks(old(s), s)
        decreases TotalWork(s.files)
      {
        var i: nat :| i < |s.files| && IsCollected(s.files[i]);
        WaitForPublishers();
        SendToPublisher(i);
      }
    }

    method TakeAck(i: nat)
      requires Valid() && Enabled(c, s, ReceiveAck(i))
      modifies this`s
      ensures Valid() && Later(c, old(s), s) && SameBooks(old(s), s.(acked := old(s).acked))
      ensures s.acked == old(s).acked + 1
    {
      Take(ReceiveAck(i));
    }

    /** Receives one acknowledgement, waiting until there is one. */
    method ReceiveOneAck()
      requires Valid() && s.coordinator.Acking? && s.acked < s.staged
      modifies this`s
      ensures Valid() && Later(c, old(s), s) && SameBooks(old(s), s.(acked := old(s).acked))
      ensures s.acked == old(s).acked + 1
    {
      Others();
      while !exists i :: 0 <= i < |s.files| && s.files[i].publication.AckSent?
        invariant Valid() && Later(c, old(s), s) && SameBooks(old(s), s)
        decreases TotalWork(s.files)
      {
        ghost var i := Unacked(c, s);
        HolderCanAct(c, s, i);
        Blocked();
      }
      var i: nat :| i < |s.files| && s.files[i].publication.AckSent?;
      TakeAck(i);
    }

    /** Receives as many acknowledgements as files were handed over. */
    method ReceiveAcks()
      requires Valid() && s.coordinator.Acking? && s.acked == 0
      modifies this`s
      ensures Valid() && Later(c, old(s), s) && SameBooks(old(s), s.(acked := 0))
      ensures s.acked == s.staged
    {
      for k := 0 to s.staged
        invariant Valid() && Later(c, old(s), s) && SameBooks(old(s), s.(acked := 0))
        invariant s.acked == k
      {
        ReceiveOneAck();
      }
    }

    /** From the receive loop to the acknowledgements. */
    method PublishBatch()
      requires Valid() && s.coordinator.Receiving? && s.received == 0
      modifies this`s
      ensures Valid() && Later(c, old(s), s) && s.coordinator == Flushing(old(s).coordinator.after)
      ensures s.next == old(s).next && s.pending == old(s).pending && SameAdmissions(old(s), s)
      ensures old(s).stopped ==> s.stopped
    {
      ReceiveNotices();
      Take(AllReceived);
      HandOver();
      Take(AllHanded);
      ReceiveAcks();
      Take(AllAcked);
    }

    method Flush() returns (ok: bool)
      requires Valid() && s.coordinator.Flushing?
      modifies this`s
      ensures Valid() && Later(c, old(s), s) && s.coordinator == Resume(old(s).coordinator.after)
      ensures BatchSettled(old(s), s) && (old(s).stopped ==> s.stopped) && (!ok ==> s.stopped)
    {
      Others();
      ok := *;
      Take(FlushVolumes(ok));
    }

    /** `drain`, on its way to wherever the coordinator goes on: nothing to do for an empty
        batch; otherwise collect the notices, hand over what was staged, collect the
        acknowledgements, flush. Whatever the other threads do it returns, with exactly this
        batch settled and nothing reserved; after a failed flush nothing more is admitted. */
    method Drain(after: After) returns (ok: bool)
      requires Valid() && s.coordinator == StartDrain(s.pending, after) && s.received == 0
      modifies this`s
      ensures Valid() && Later(c, old(s), s) && s.coordinator == Resume(after)
      ensures BatchSettled(old(s), s) && s.used == 0 && (old(s).stopped ==> s.stopped)
      ensures !ok ==> s.stopped
    {
      if s.pending == 0 {
        NothingInBatch(c, s);
        EmptyBatchHoldsNothing(c, s);
        return true;
      }
      PublishBatch();
      ok := Flush();
      EmptyBatchHoldsNothing(c, s);
    }

    /** The first part of `submit`: drain first if the file does not fit beside the batch, and
        only then. What is live can only shrink until that is looked at. */
    method MakeRoom()
      requires Valid() && s.coordinator.AtFile? && s.next < |c.sizes|
      modifies this`s
      ensures Valid() && Later(c, old(s), s) && s.coordinator.Reserving? && s.next == old(s).next
      ensures |s.files| == |old(s).files|
      ensures forall i :: 0 <= i < |s.files| ==> (s.files[i].admission.Outside? <==> old(s).files[i].admission.Outside?)
      ensures old(s).stopped ==> s.stopped
      ensures c.sizes[s.next] > c.limit || c.sizes[s.next] <= Saturating(c.target, old(s).used) ==>
        s.pending == old(s).pending && SameAdmissions(old(s), s)
    {
      Others();
      Take(CheckFile);
      if s.coordinator.Receiving? {
        var _ := Drain(ThenReserve);
      }
    }

    /** The reservation is granted or refused at once; an admitted file then waits for room in
        the readers' queue. The two are one event, so the waiting comes first. */
    method ReserveSpace()
      requires Valid() && s.coordinator.Reserving?
      modifies this`s
      ensures Valid() && Later(c, old(s), s) && |s.files| == |old(s).files| == |c.sizes| && old(s).next < |c.sizes|
      ensures Submitted(c, old(s), s, old(s).next)
      ensures Count(s.files, AtReaderQueue) <= c.pools.readerQueue
    {
      Others();
      while Count(s.files, AtReaderQueue) >= c.pools.readerQueue
        invariant Valid() && Later(c, old(s), s) && SameBooks(old(s), s)
        decreases TotalWork(s.files)
      {
        QueuedCanAct(c, s);
        Blocked();
      }
      ReserveOrRefuse();
    }

    method ReserveOrRefuse()
      requires Valid() && s.coordinator.Reserving? && Count(s.files, AtReaderQueue) < c.pools.readerQueue
      modifies this`s
      ensures Valid() && Later(c, old(s), s) && |s.files| == |old(s).files| == |c.sizes| && old(s).next < |c.sizes|
      ensures Submitted(c, old(s), s, old(s).next)
      ensures Count(s.files, AtReaderQueue) <= c.pools.readerQueue
    {
      if s.pending == 0 {
        EmptyBatchHoldsNothing(c, s);
      }
      CountUpdate(s.files, s.next, Admit(s.files[s.next]), AtReaderQueue);
      assert Consistent(s.files[s.next], s.held[s.next]);
      Take(Reserve);
    }

    /** `submit`: refuse the file, or take it into the batch, draining first when it does not
        fit beside what is reserved and afterwards when it is larger than the target. A file
        that does fit joins the batch, which stays as it is, also when the file is refused for
        being larger than the budget. */
    method Submit()
      requires Valid() && s.coordinator.AtFile? && s.next < |c.sizes|
      modifies this`s
      ensures Valid() && Later(c, old(s), s) && s.coordinator.AtFile? && s.next == old(s.next) + 1
      ensures |s.files| == |old(s).files| == |c.sizes|
      ensures forall i :: 0 <= i < old(s.next) ==>
        (s.files[i].admission.Outside? <==> old(s).files[i].admission.Outside?)
      ensures c.sizes[old(s.next)] > c.limit ==> s.files[old(s.next)].admission.Outside?
      ensures s.files[old(s.next)].admission.Outside? ==> c.sizes[old(s.next)] > c.limit || s.stopped
      ensures c.sizes[old(s.next)] > c.target ==> !s.files[old(s.next)].admission.InBatch?
      ensures old(s).stopped ==> s.stopped && s.files[old(s.next)].admission.Outside?
      ensures s.files[old(s.next)].admission.InBatch? ==>
        old(s.next) < |s.held| && s.held[old(s.next)] == Some(c.sizes[old(s.next)])
      ensures c.sizes[old(s.next)] > c.limit || c.sizes[old(s.next)] <= Saturating(c.target, old(s).used) ==>
        && (forall i :: 0 <= i < |s.files| && old(s).files[i].admission.InBatch? ==> s.files[i].admission.InBatch?)
        && s.pending == old(s).pending + One(s.files[old(s.next)].admission.InBatch?)
    {
      MakeRoom();
      ReserveSpace();
      if s.coordinator.Receiving? {
        var _ := Drain(ThenNext);
      }
    }

    /** The whole scan: every file submitted in turn, then the last batch drained. In the end
        each file has been staged or has failed, with one notice, or was refused. */
    method Scan()
      requires Valid() && Initial(c, s)
      modifies this`s
      ensures Valid() && s.coordinator.Finished? && Reaches(c, old(s), s)
      ensures s.used == 0 && |s.files| == |c.sizes|
      ensures forall i :: 0 <= i < |c.sizes| ==> DealtWith(c, s, i)
    {
      assert Run(c, s, [], s);
      while s.next < |c.sizes|
        invariant Valid() && s.coordinator.AtFile? && s.next <= |c.sizes| && Reaches(c, old(s), s)
        decreases |c.sizes| - s.next
      {
        Submit();
      }
      Others();
      Take(CheckFile);
      var _ := Drain(ThenEnd);
      ghost var events :| Run(c, old(s), events, s);
      forall i: nat | i < |c.sizes| ensures DealtWith(c, s, i) {
        FinishedIsClean(c, old(s), events, s, i);
      }
    }
  }
}
