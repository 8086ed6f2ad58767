/** Every step of the pool keeps the invariant of `PoolInv`. */
module PoolSteps {
  import opened Bytes

  import opened Worker
  import opened Pool
  import opened PoolInv
  import Delta

  /** A step that concerns one worker leaves the others' affairs alone. */
  lemma OneWorker(p: Pool, q: Pool, i: nat)
    requires Sized(p) && Sized(q) && |q.workers| == |p.workers| && i < |p.workers|
    requires WorkersInv(p)
    requires forall j :: 0 <= j < |p.workers| && j != i ==> ViewOf(q, j) == ViewOf(p, j)
    requires WorkerInv(ViewOf(q, i))
    requires forall j :: 0 <= j < |p.workers| ==> SentSoFar(q, j)
    ensures WorkersInv(q)
  {
    hide WorkerInv, SentSoFar;
    forall j | 0 <= j < |q.workers|
      ensures WorkerInv(ViewOf(q, j))
    {
      if j != i {
        assert WorkerInv(ViewOf(p, j));
      }
    }
  }

  lemma SameSent(p: Pool, q: Pool)
    requires Sized(p) && Sized(q) && WorkersInv(p)
    requires q.log == p.log && q.phase == p.phase && q.current == p.current
    ensures forall j :: 0 <= j < |q.workers| ==> SentSoFar(q, j)
  {
    forall j | 0 <= j < |q.workers|
      ensures SentSoFar(q, j)
    {
      assert SentSoFar(p, j);
    }
  }

  lemma TakeInv(p: Pool, i: nat)
    requires Inv(p) && Enabled(p, Take(i))
    ensures Inv(Apply(p, Take(i)))
  {
    hide WorkerInv, SentSoFar, OneEach;
    var q := Apply(p, Take(i));
    TakeView(ViewOf(p, i));
    SameSent(p, q);
    OneWorker(p, q, i);
  }

  lemma WorkInv(p: Pool, i: nat, files: seq<Delta.File>)
    requires Inv(p) && Enabled(p, Work(i, files))
    ensures Inv(Apply(p, Work(i, files)))
  {
    hide WorkerInv, SentSoFar, OneEach, Perform;
    var q := Apply(p, Work(i, files));
    WorkView(ViewOf(p, i), files, p.paths);
    SameSent(p, q);
    OneWorker(p, q, i);
  }

  lemma FailInv(p: Pool, i: nat, code: nat)
    requires Inv(p) && Enabled(p, Fail(i, code))
    ensures Inv(Apply(p, Fail(i, code)))
  {
    hide WorkerInv, SentSoFar, OneEach, Cause;
    var q := Apply(p, Fail(i, code));
    FailView(ViewOf(p, i), Cause(i, p.workers[i], code));
    SameSent(p, q);
    OneWorker(p, q, i);
  }

  lemma NoMoreJobsInv(p: Pool, i: nat)
    requires Inv(p) && Enabled(p, NoMoreJobs(i))
    ensures Inv(Apply(p, NoMoreJobs(i)))
  {
    hide WorkerInv, SentSoFar, OneEach;
    var q := Apply(p, NoMoreJobs(i));
    ExitView(ViewOf(p, i));
    SameSent(p, q);
    OneWorker(p, q, i);
  }

  lemma ReportInv(p: Pool, i: nat)
    requires Inv(p) && Enabled(p, Report(i))
    ensures Inv(Apply(p, Report(i)))
  {
    hide WorkerInv, SentSoFar, EventOf;
    var q := Apply(p, Report(i));
    var e := p.workers[i].status.event;
    ReportView(ViewOf(p, i));
    EventOfNone(p.events, i);
    forall j | 0 <= j < |p.workers|
      ensures EventOf(q.events, j) == if j == i then Some(e) else EventOf(p.events, j)
    {
      EventOfSnoc(p.events, e, j);
    }
    assert OneEach(q.events, |q.workers|);
    SameSent(p, q);
    OneWorker(p, q, i);
  }

  // ---------------------------------------------------------------- the reader sends

  lemma SendOpenInv(p: Pool)
    requires Inv(p) && Enabled(p, SendOpen)
    ensures Inv(Apply(p, SendOpen))
  {
    hide WorkerInv, OneEach;
    var q := Apply(p, SendOpen);
    var k := p.phase.k;
    assert SentSoFar(p, k);
    SendView(ViewOf(p, k), Open(p.current.value.ctx));
    forall j | 0 <= j < |p.workers|
      ensures SentSoFar(q, j)
    {
      assert SentSoFar(p, j);
    }
    OneWorker(p, q, k);
  }

  lemma SendRowsInv(p: Pool)
    requires Inv(p) && Enabled(p, SendRows)
    ensures Inv(Apply(p, SendRows))
  {
    hide WorkerInv, OneEach;
    var q := Apply(p, SendRows);
    var k := Target(p);
    assert SentSoFar(p, k);
    SendView(ViewOf(p, k), Rows(p.current.value.ctx.generation, p.todo[0].payload));
    forall j | 0 <= j < |p.workers|
      ensures SentSoFar(q, j)
    {
      assert SentSoFar(p, j);
    }
    OneWorker(p, q, k);
  }

  lemma SendCloseInv(p: Pool)
    requires Inv(p) && Enabled(p, SendClose)
    ensures Inv(Apply(p, SendClose))
  {
    hide WorkerInv, OneEach;
    var q := Apply(p, SendClose);
    var k := p.phase.k;
    assert SentSoFar(p, k);
    SendView(ViewOf(p, k), Close(p.current.value.ctx.generation));
    forall j | 0 <= j < |p.workers|
      ensures SentSoFar(q, j)
    {
      assert SentSoFar(p, j);
    }
    OneWorker(p, q, k);
  }

  /** Steps that only move the reader on. */
  lemma ReaderMovesInv(p: Pool, step: Step)
    requires Inv(p) && Enabled(p, step) && (step.Skip? || step.BeginClose? || step.DropJobs? || step.Join?)
    ensures Inv(Apply(p, step))
  {
    hide WorkerInv, OneEach;
    var q := Apply(p, step);
    forall j | 0 <= j < |p.workers|
      ensures SentSoFar(q, j) && WorkerInv(ViewOf(q, j))
    {
      assert SentSoFar(p, j) && WorkerInv(ViewOf(p, j));
      assert ViewOf(q, j) == ViewOf(p, j);
    }
  }

  lemma StartBlockInv(p: Pool)
    requires Inv(p) && Enabled(p, StartBlock)
    ensures Inv(Apply(p, StartBlock))
  {
    hide WorkerInv, OneEach;
    var q := Apply(p, StartBlock);
    forall j | 0 <= j < |p.workers|
      ensures SentSoFar(q, j) && WorkerInv(ViewOf(q, j))
    {
      assert SentSoFar(p, j);
      FreshView(ViewOf(p, j), Some(q.current.value.ctx));
    }
  }

  // ---------------------------------------------------------------- the reader listens, or returns

  /** Returning, with at most the front event taken off the channel. */
  lemma ReturnInv(p: Pool, outcome: Option<ReaderError>, taken: bool)
    requires Inv(p) && !p.phase.Returned? && (taken ==> p.events != [])
    ensures Inv(Return(if taken then p.(events := p.events[1..]) else p, outcome))
  {
    hide WorkerInv, EventOf, SentSoFar;
    var q := Return(if taken then p.(events := p.events[1..]) else p, outcome);
    if taken {
      EventOfTail(p.events, |p.workers|, 0);
    }
    forall j | 0 <= j < |p.workers|
      ensures WorkerInv(ViewOf(q, j))
    {
      assert WorkerInv(ViewOf(p, j));
      if taken {
        EventOfTail(p.events, |p.workers|, j);
      }
      ReturnView(ViewOf(p, j), EventOf(q.events, j));
    }
    ReturnedSent(q);
  }

  lemma ReturnedSent(q: Pool)
    requires Sized(q) && q.phase.Returned?
    ensures forall j :: 0 <= j < |q.workers| ==> SentSoFar(q, j)
  {
  }

  /** The acknowledgement at the front of the channel is that of a worker not yet counted. */
  lemma FrontAck(p: Pool)
    requires Inv(p) && p.phase.Collecting? && p.events != [] && p.events[0].Closed?
    ensures var c := p.events[0];
      && c.worker < |p.workers| && c.worker !in p.acks
      && EventOf(p.events, c.worker) == Some(c)
      && WorkerInv(ViewOf(p, c.worker).(mail := None, acked := true))
      && IsAck(c, p.log[c.worker], Some(p.current.value.ctx))
  {
    hide WorkerInv, IsAck, SentSoFar;
    var c := p.events[0];
    EventOfTail(p.events, |p.workers|, 0);
    assert WorkerInv(ViewOf(p, c.worker));
    AckView(ViewOf(p, c.worker));
  }

  lemma AcknowledgeViews(p: Pool)
    requires Inv(p) && p.phase.Collecting? && p.events != [] && p.events[0].Closed?
    ensures var q := Acknowledge(p, p.events[0]);
      && Sized(q) && OneEach(q.events, |q.workers|)
      && forall j :: 0 <= j < |q.workers| ==> WorkerInv(ViewOf(q, j))
  {
    hide WorkerInv, SentSoFar, EventOf, IsAck;
    var c := p.events[0];
    var q := Acknowledge(p, c);
    FrontAck(p);
    EventOfTail(p.events, |p.workers|, 0);
    forall j | 0 <= j < |p.workers|
      ensures WorkerInv(ViewOf(q, j))
    {
      assert WorkerInv(ViewOf(p, j));
      EventOfTail(p.events, |p.workers|, j);
      if j == c.worker {
        assert ViewOf(q, j) == ViewOf(p, j).(mail := None, acked := true);
      } else {
        assert ViewOf(q, j) == ViewOf(p, j);
      }
    }
  }

  /** When as many have acknowledged as there are workers, all have. */
  lemma {:induction false} AllAcked(acks: set<nat>, n: nat)
    requires |acks| == n && forall i :: i in acks ==> i < n
    ensures forall i :: 0 <= i < n ==> i in acks
    decreases n
  {
    if n > 0 {
      if n - 1 !in acks {
        Below(acks, n - 1);
      }
      var rest := acks - {n - 1};
      AllAcked(rest, n - 1);
      forall i | 0 <= i < n
        ensures i in acks
      {
        assert i < n - 1 ==> i in rest;
      }
    }
  }

  lemma CloseBooksInv(q: Pool)
    requires Sized(q) && OneEach(q.events, |q.workers|) && q.phase.Collecting? && q.current.Some? && q.todo != []
    requires q.jobsOpen && q.joined == 0
    requires forall j :: 0 <= j < |q.workers| ==> WorkerInv(ViewOf(q, j)) && j in q.acks
    ensures Inv(CloseBooks(q))
  {
    hide WorkerInv, OneEach;
    var r := CloseBooks(q);
    forall j | 0 <= j < |r.workers|
      ensures WorkerInv(ViewOf(r, j)) && SentSoFar(r, j)
    {
      NextBlockView(ViewOf(q, j));
    }
  }

  lemma CollectInv(p: Pool)
    requires Inv(p) && Enabled(p, Collect)
    ensures Inv(Apply(p, Collect))
  {
    hide WorkerInv, OneEach, EventOf, IsAck;
    if p.events[0].Failed? {
      ReturnInv(p, Some(FromWorker(p.events[0].worker, p.events[0].error)), true);
    } else {
      var q := Acknowledge(p, p.events[0]);
      FrontAck(p);
      AcknowledgeViews(p);
      assert q.acked == |q.acks|;
      if q.acked == |p.workers| {
        AllAcked(q.acks, |q.workers|);
        CloseBooksInv(q);
      } else {
        forall j | 0 <= j < |q.workers|
          ensures SentSoFar(q, j)
        {
          assert SentSoFar(p, j);
        }
      }
    }
  }

  /** Every step keeps the invariant. */
  lemma StepInv(p: Pool, step: Step)
    requires Inv(p) && Enabled(p, step)
    ensures Inv(Apply(p, step))
  {
    hide Inv, Enabled;
    assert Sized(p) by { InvSized(p); }
    match step
    case Skip => ReaderMovesInv(p, step);
    case StartBlock => StartBlockInv(p);
    case SendOpen => SendOpenInv(p);
    case SendRows => SendRowsInv(p);
    case BeginClose => ReaderMovesInv(p, step);
    case SendClose => SendCloseInv(p);
    case DispatchFails => ReturnStepInv(p, step);
    case Collect => CollectInv(p);
    case ChannelGone => ReturnStepInv(p, step);
    case Misplaced => ReturnStepInv(p, step);
    case Finish => ReturnStepInv(p, step);
    case GiveUp => ReturnStepInv(p, step);
    case DropJobs => ReaderMovesInv(p, step);
    case Join => ReaderMovesInv(p, step);
    case Take(i) => TakeInv(p, i);
    case NoMoreJobs(i) => NoMoreJobsInv(p, i);
    case Work(i, files) => WorkInv(p, i, files);
    case Fail(i, code) => FailInv(p, i, code);
    case Report(i) => ReportInv(p, i);
  }

  lemma InvSized(p: Pool)
    requires Inv(p)
    ensures Sized(p)
  {
  }

  lemma ReturnStepInv(p: Pool, step: Step)
    requires Inv(p) && Enabled(p, step)
    requires step.DispatchFails? || step.ChannelGone? || step.Misplaced? || step.Finish? || step.GiveUp?
    ensures Inv(Apply(p, step))
  {
    hide WorkersInv, OneEach;
    var q := Apply(p, step);
    assert !p.phase.Returned?;
    ReturnInv(p, q.phase.outcome, step.DispatchFails?);
  }

  // ---------------------------------------------------------------- block structure

  /** The reader's idea of the open block is that of the events it has handled. */
  ghost predicate Bracketed(p: Pool) {
    && Scan.Grammar(None, p.done + p.todo).Some?
    && Scan.Grammar(None, p.done).Some?
    && (p.skipping ==> p.current.None?)
    && (Scan.Grammar(None, p.done).value.Some? <==> p.skipping || p.current.Some?)
    && (p.current.Some? ==> Scan.Grammar(None, p.done).value == Some(p.current.value.table))
  }

  /** The next event fits the block structure. */
  lemma NextFits(p: Pool)
    requires Bracketed(p) && p.todo != []
    ensures Scan.Grammar(None, p.done + [p.todo[0]]).Some?
    ensures Scan.Grammar(None, p.done + [p.todo[0]]) == Scan.Grammar(Scan.Grammar(None, p.done).value, [p.todo[0]])
    ensures p.done + [p.todo[0]] + p.todo[1..] == p.done + p.todo
  {
    assert p.done + [p.todo[0]] + p.todo[1..] == p.done + p.todo;
    Scan.GrammarAppend(None, p.done + [p.todo[0]], p.todo[1..]);
    Scan.GrammarAppend(None, p.done, [p.todo[0]]);
  }

  lemma StepBracketed(p: Pool, step: Step)
    requires Bracketed(p) && ReaderInv(p) && Enabled(p, step)
    ensures Bracketed(Apply(p, step))
  {
    hide Scan.Grammar, OneEach, Perform;
    var q := Apply(p, step);
    if step.Skip? || step.StartBlock? || step.SendRows? || step.Collect? {
      HandledBracketed(p, step);
    } else {
      assert q.done == p.done && q.todo == p.todo && q.skipping == p.skipping && q.current == p.current;
    }
  }

  /** The steps that finish with an event. */
  lemma HandledBracketed(p: Pool, step: Step)
    requires Bracketed(p) && ReaderInv(p) && Enabled(p, step)
    requires step.Skip? || step.StartBlock? || step.SendRows? || step.Collect?
    ensures Bracketed(Apply(p, step))
  {
    hide Scan.Grammar, OneEach;
    NextFits(p);
    Scan.GrammarOne(Scan.Grammar(None, p.done).value, p.todo[0]);
    var q := Apply(p, step);
    if q.done != p.done {
      assert q.done == p.done + [p.todo[0]] && q.todo == p.todo[1..];
    }
  }

  /** The block-structure faults of the reader cannot happen. */
  lemma NeverMisplaced(p: Pool)
    requires Bracketed(p)
    ensures !IsMisplaced(p)
  {
    hide Scan.Grammar;
    if p.todo != [] {
      NextFits(p);
      Scan.GrammarOne(Scan.Grammar(None, p.done).value, p.todo[0]);
    }
  }
}
