/**
 * The bounded multi-producer, multi-consumer channel (src/chan.rs).
 *
 * The critical sections are the methods of `Shared`; the threads that run them, the two
 * condition variables and the notifications issued after the lock is released are a step
 * relation with an adversarial scheduler. A waiting thread may also wake for no reason.
 */
module Chan {
  import opened Bytes

  /** What the mutex guards. */
  datatype Locked<T> = Locked(items: seq<T>, senders: nat, receivers: nat)

  datatype SendTry = Rejected | Accepted | Full

  datatype RecvTry<T> = Took(value: T) | Closed | Empty

  /** One turn of the loop in `send`, under the lock. */
  function TrySend<T>(q: Locked<T>, capacity: nat, v: T): (r: (Locked<T>, SendTry)) {
    if q.receivers == 0 then (q, Rejected)
    else if |q.items| < capacity then (q.(items := q.items + [v]), Accepted)
    else (q, Full)
  }

  /** One turn of the loop in `recv`, under the lock. */
  function TryRecv<T>(q: Locked<T>): (r: (Locked<T>, RecvTry<T>)) {
    if q.items != [] then (q.(items := q.items[1..]), Took(q.items[0]))
    else if q.senders == 0 then (q, Closed)
    else (q, Empty)
  }

  class Shared<T> {
    var items: seq<T>
    var senders: nat
    var receivers: nat
    const capacity: nat

    ghost function Abs(): (q: Locked<T>)
      reads this
    {
      Locked(items, senders, receivers)
    }

    /** One handle of each kind; the capacity is clamped up to one. */
    constructor (capacity: nat)
      ensures Abs() == Locked([], 1, 1) && this.capacity >= 1
      ensures this.capacity == capacity || (capacity == 0 && this.capacity == 1)
    {
      items, senders, receivers := [], 1, 1;
      this.capacity := if capacity < 1 then 1 else capacity;
    }

    method Send(v: T) returns (r: SendTry)
      modifies this
      ensures (Abs(), r) == TrySend(old(Abs()), capacity, v)
    {
      if receivers == 0 {
        return Rejected;
      }
      if |items| < capacity {
        items := items + [v];
        return Accepted;
      }
      return Full;
    }

    method Recv() returns (r: RecvTry<T>)
      modifies this
      ensures (Abs(), r) == TryRecv(old(Abs()))
    {
      if items != [] {
        r := Took(items[0]);
        items := items[1..];
        return;
      }
      if senders == 0 {
        return Closed;
      }
      return Empty;
    }

    method DropSender() returns (wakeAll: bool)
      requires senders > 0
      modifies this
      ensures Abs() == old(Abs()).(senders := old(senders) - 1)
      ensures wakeAll <==> senders == 0
    {
      senders := senders - 1;
      return senders == 0;
    }

    method DropReceiver() returns (wakeAll: bool)
      requires receivers > 0
      modifies this
      ensures Abs() == old(Abs()).(receivers := old(receivers) - 1)
      ensures wakeAll <==> receivers == 0
    {
      receivers := receivers - 1;
      return receivers == 0;
    }
  }

  type Thread = nat
  type Handle = nat

  /**
   * The whole system. Threads inside `send` or `recv` are trying (running or about to take
   * the lock), asleep on their condition variable, or past the lock and about to notify.
   */
  datatype System<T> = System(
    q: Locked<T>,
    capacity: nat,
    sendHandles: set<Handle>,
    recvHandles: set<Handle>,
    using: map<Thread, Handle>,
    sending: map<Thread, T>,
    sendTrying: set<Thread>,
    sendAsleep: set<Thread>,
    recvTrying: set<Thread>,
    recvAsleep: set<Thread>,
    tellReceiver: set<Thread>,
    tellSender: set<Thread>,
    tellAllReceivers: set<Thread>,
    tellAllSenders: set<Thread>,
    accepted: seq<T>,
    delivered: seq<T>)

  function Busy<T>(s: System<T>): set<Thread> {
    s.sendTrying + s.sendAsleep + s.recvTrying + s.recvAsleep
    + s.tellReceiver + s.tellSender + s.tellAllReceivers + s.tellAllSenders
  }

  /** Threads whose call borrows a sending (receiving) handle. */
  function InSend<T>(s: System<T>): set<Thread> {
    s.sendTrying + s.sendAsleep + s.tellReceiver
  }

  function InRecv<T>(s: System<T>): set<Thread> {
    s.recvTrying + s.recvAsleep + s.tellSender
  }

  ghost predicate Init<T>(s: System<T>, capacity: nat) {
    exists tx: Handle, rx: Handle ::
      s == System(Locked([], 1, 1), if capacity < 1 then 1 else capacity, {tx}, {rx}, map[], map[],
                  {}, {}, {}, {}, {}, {}, {}, {}, [], [])
  }

  datatype Step<T> =
    | EnterSend(t: Thread, h: Handle, v: T)
    | LockSend(t: Thread)
    | EnterRecv(t: Thread, h: Handle)
    | LockRecv(t: Thread)
    | NotifyReceiver(t: Thread, woken: Option<Thread>)
    | NotifySender(t: Thread, woken: Option<Thread>)
    | NotifyAllReceivers(t: Thread)
    | NotifyAllSenders(t: Thread)
    | SpuriousSender(t: Thread)
    | SpuriousReceiver(t: Thread)
    | CloneSender(h: Handle, twin: Handle)
    | CloneReceiver(h: Handle, twin: Handle)
    | DropSender(t: Thread, h: Handle)
    | DropReceiver(t: Thread, h: Handle)

  ghost predicate Enabled<T>(s: System<T>, step: Step<T>) {
    match step
    case EnterSend(t, h, _) => t !in Busy(s) && h in s.sendHandles
    case LockSend(t) => t in s.sendTrying && t in s.sending
    case EnterRecv(t, h) => t !in Busy(s) && h in s.recvHandles
    case LockRecv(t) => t in s.recvTrying
    case NotifyReceiver(t, woken) => t in s.tellReceiver && Wakes(s.recvAsleep, woken)
    case NotifySender(t, woken) => t in s.tellSender && Wakes(s.sendAsleep, woken)
    case NotifyAllReceivers(t) => t in s.tellAllReceivers
    case NotifyAllSenders(t) => t in s.tellAllSenders
    case SpuriousSender(t) => t in s.sendAsleep
    case SpuriousReceiver(t) => t in s.recvAsleep
    case CloneSender(h, twin) => h in s.sendHandles && twin !in s.sendHandles
    case CloneReceiver(h, twin) => h in s.recvHandles && twin !in s.recvHandles
    case DropSender(t, h) => t !in Busy(s) && h in s.sendHandles && Unused(s, h, InSend(s)) && s.q.senders > 0
    case DropReceiver(t, h) => t !in Busy(s) && h in s.recvHandles && Unused(s, h, InRecv(s)) && s.q.receivers > 0
  }

  /** `notify_one` wakes some sleeper, if there is one. */
  predicate Wakes(asleep: set<Thread>, woken: Option<Thread>) {
    if asleep == {} then woken == None else woken.Some? && woken.value in asleep
  }

  /** No call borrows `h`. */
  ghost predicate Unused<T>(s: System<T>, h: Handle, calls: set<Thread>) {
    forall t :: t in calls && t in s.using ==> s.using[t] != h
  }

  function Apply<T>(s: System<T>, step: Step<T>): (r: System<T>)
    requires Enabled(s, step)
  {
    match step
    case EnterSend(t, h, v) =>
      s.(using := s.using[t := h], sending := s.sending[t := v], sendTrying := s.sendTrying + {t})
    case LockSend(t) =>
      (match TrySend(s.q, s.capacity, s.sending[t])
       case (_, Rejected) => s.(sendTrying := s.sendTrying - {t})
       case (q, Accepted) =>
         s.(q := q, accepted := s.accepted + [s.sending[t]],
            sendTrying := s.sendTrying - {t}, tellReceiver := s.tellReceiver + {t})
       case (_, Full) => s.(sendTrying := s.sendTrying - {t}, sendAsleep := s.sendAsleep + {t}))
    case EnterRecv(t, h) => s.(using := s.using[t := h], recvTrying := s.recvTrying + {t})
    case LockRecv(t) =>
      (match TryRecv(s.q)
       case (q, Took(v)) =>
         s.(q := q, delivered := s.delivered + [v],
            recvTrying := s.recvTrying - {t}, tellSender := s.tellSender + {t})
       case (_, Closed) => s.(recvTrying := s.recvTrying - {t})
       case (_, Empty) => s.(recvTrying := s.recvTrying - {t}, recvAsleep := s.recvAsleep + {t}))
    case NotifyReceiver(t, woken) =>
      var w := if woken.Some? then {woken.value} else {};
      s.(tellReceiver := s.tellReceiver - {t}, recvAsleep := s.recvAsleep - w, recvTrying := s.recvTrying + w)
    case NotifySender(t, woken) =>
      var w := if woken.Some? then {woken.value} else {};
      s.(tellSender := s.tellSender - {t}, sendAsleep := s.sendAsleep - w, sendTrying := s.sendTrying + w)
    case NotifyAllReceivers(t) =>
      s.(tellAllReceivers := s.tellAllReceivers - {t}, recvAsleep := {}, recvTrying := s.recvTrying + s.recvAsleep)
    case NotifyAllSenders(t) =>
      s.(tellAllSenders := s.tellAllSenders - {t}, sendAsleep := {}, sendTrying := s.sendTrying + s.sendAsleep)
    case SpuriousSender(t) => s.(sendAsleep := s.sendAsleep - {t}, sendTrying := s.sendTrying + {t})
    case SpuriousReceiver(t) => s.(recvAsleep := s.recvAsleep - {t}, recvTrying := s.recvTrying + {t})
    case CloneSender(_, twin) =>
      s.(q := s.q.(senders := s.q.senders + 1), sendHandles := s.sendHandles + {twin})
    case CloneReceiver(_, twin) =>
      s.(q := s.q.(receivers := s.q.receivers + 1), recvHandles := s.recvHandles + {twin})
    case DropSender(t, h) =>
      s.(q := s.q.(senders := s.q.senders - 1), sendHandles := s.sendHandles - {h},
         tellAllReceivers := if s.q.senders == 1 then s.tellAllReceivers + {t} else s.tellAllReceivers)
    case DropReceiver(t, h) =>
      s.(q := s.q.(receivers := s.q.receivers - 1), recvHandles := s.recvHandles - {h},
         tellAllSenders := if s.q.receivers == 1 then s.tellAllSenders + {t} else s.tellAllSenders)
  }

  // ---------------------------------------------------------------- the invariant

  /** Counts are those of the live handles, and a call's handle is live. */
  ghost predicate Counted<T>(s: System<T>) {
    && s.q.senders == |s.sendHandles|
    && s.q.receivers == |s.recvHandles|
    && (forall t :: t in InSend(s) ==> t in s.using && s.using[t] in s.sendHandles)
    && (forall t :: t in InRecv(s) ==> t in s.using && s.using[t] in s.recvHandles)
    && (forall t :: t in s.sendTrying + s.sendAsleep ==> t in s.sending)
  }

  /** Accepted values are the delivered ones, in order, then the queued ones. */
  ghost predicate Fifo<T>(s: System<T>) {
    && s.accepted == s.delivered + s.q.items
    && |s.q.items| <= s.capacity
    && 1 <= s.capacity
  }

  /** A thread is in one place at a time. */
  ghost predicate Placed<T>(s: System<T>) {
    && s.sendTrying !! s.sendAsleep !! s.recvTrying !! s.recvAsleep
    && (s.sendTrying + s.sendAsleep + s.recvTrying + s.recvAsleep)
       !! s.tellReceiver !! s.tellSender !! s.tellAllReceivers !! s.tellAllSenders
  }

  /**
   * Every queued item a sleeping receiver could take is matched by a receiver on its way to
   * the lock or a notification on its way; and likewise free places and senders. Once the
   * other side is gone, a `notify_all` is on its way to every sleeper.
   */
  ghost predicate Covered<T>(s: System<T>) {
    && (s.recvAsleep != {} ==> |s.q.items| <= |s.recvTrying| + |s.tellReceiver|)
    && (s.sendAsleep != {} && s.q.receivers > 0 ==> s.capacity - |s.q.items| <= |s.sendTrying| + |s.tellSender|)
    && (s.recvAsleep != {} && s.q.senders == 0 ==> s.tellAllReceivers != {})
    && (s.sendAsleep != {} && s.q.receivers == 0 ==> s.tellAllSenders != {})
  }

  ghost predicate Inv<T>(s: System<T>) {
    Counted(s) && Fifo(s) && Placed(s) && Covered(s)
  }

  lemma InitInv<T>(s: System<T>, capacity: nat)
    requires Init(s, capacity)
    ensures Inv(s)
  {
  }

  /** Calls that begin, or take the lock, leave the handle counts alone. */
  lemma StepCountedCalls<T>(s: System<T>, step: Step<T>)
    requires Counted(s) && Placed(s) && Enabled(s, step)
    requires step.EnterSend? || step.LockSend? || step.EnterRecv? || step.LockRecv?
    ensures Counted(Apply(s, step))
  {
  }

  /** So do notifications and threads that wake. */
  lemma StepCountedWakes<T>(s: System<T>, step: Step<T>)
    requires Counted(s) && Enabled(s, step)
    requires step.NotifyReceiver? || step.NotifySender? || step.NotifyAllReceivers? || step.NotifyAllSenders?
      || step.SpuriousSender? || step.SpuriousReceiver?
    ensures Counted(Apply(s, step))
  {
    WakesStayInside(s, step);
    hide Apply, Enabled, InSend, InRecv;
  }

  lemma WakesStayInside<T>(s: System<T>, step: Step<T>)
    requires Enabled(s, step)
    requires step.NotifyReceiver? || step.NotifySender? || step.NotifyAllReceivers? || step.NotifyAllSenders?
      || step.SpuriousSender? || step.SpuriousReceiver?
    ensures var r := Apply(s, step);
      && r.q == s.q && r.sendHandles == s.sendHandles && r.recvHandles == s.recvHandles
      && r.using == s.using && r.sending == s.sending
      && InSend(r) <= InSend(s) && InRecv(r) <= InRecv(s)
      && r.sendTrying + r.sendAsleep <= s.sendTrying + s.sendAsleep
  {
    hide TrySend, TryRecv;
  }

  /** Cloning and dropping handles keeps the counts and spares the handles in use. */
  lemma StepCountedHandles<T>(s: System<T>, step: Step<T>)
    requires Counted(s) && Enabled(s, step)
    requires step.CloneSender? || step.CloneReceiver? || step.DropSender? || step.DropReceiver?
    ensures Counted(Apply(s, step))
  {
  }

  lemma StepCounted<T>(s: System<T>, step: Step<T>)
    requires Counted(s) && Placed(s) && Enabled(s, step)
    ensures Counted(Apply(s, step))
  {
    hide *;
    if step.CloneSender? || step.CloneReceiver? || step.DropSender? || step.DropReceiver? {
      StepCountedHandles(s, step);
    } else if step.EnterSend? || step.LockSend? || step.EnterRecv? || step.LockRecv? {
      StepCountedCalls(s, step);
    } else {
      StepCountedWakes(s, step);
    }
  }

  lemma StepFifo<T>(s: System<T>, step: Step<T>)
    requires Fifo(s) && Enabled(s, step)
    ensures Fifo(Apply(s, step))
  {
    var r := Apply(s, step);
    if step.LockRecv? && s.q.items != [] {
      assert s.q.items == [s.q.items[0]] + s.q.items[1..];
    }
  }

  lemma StepPlaced<T>(s: System<T>, step: Step<T>)
    requires Placed(s) && Enabled(s, step)
    ensures Placed(Apply(s, step))
  {
  }

  /** A call that starts only adds a thread on its way to the lock. */
  lemma CoveredEnter<T>(s: System<T>, step: Step<T>)
    requires Covered(s) && Enabled(s, step)
    requires step.EnterSend? || step.EnterRecv?
    ensures Covered(Apply(s, step))
  {
    if step.EnterSend? {
      assert |s.sendTrying + {step.t}| >= |s.sendTrying|;
    } else {
      assert |s.recvTrying + {step.t}| >= |s.recvTrying|;
    }
  }

  /** A pushed item brings its own notification; a sender sleeps only on a full queue. */
  lemma CoveredLockSend<T>(s: System<T>, step: Step<T>)
    requires Covered(s) && Enabled(s, step)
    requires step.LockSend? && step.t !in s.tellReceiver
    ensures Covered(Apply(s, step))
  {
  }

  /** A popped item brings its own notification; a receiver sleeps only on an empty queue. */
  lemma CoveredLockRecv<T>(s: System<T>, step: Step<T>)
    requires Covered(s) && Enabled(s, step)
    requires step.LockRecv? && step.t !in s.tellSender
    ensures Covered(Apply(s, step))
  {
  }

  /** A notification turns a sleeper into a thread on its way to the lock. */
  lemma CoveredNotifyReceiver<T>(s: System<T>, step: Step<T>)
    requires Covered(s) && Enabled(s, step)
    requires step.NotifyReceiver? && s.recvTrying !! s.recvAsleep
    ensures Covered(Apply(s, step))
  {
  }

  /** The same for senders. */
  lemma CoveredNotifySender<T>(s: System<T>, step: Step<T>)
    requires Covered(s) && Enabled(s, step)
    requires step.NotifySender? && s.sendTrying !! s.sendAsleep
    ensures Covered(Apply(s, step))
  {
  }

  /** Waking every sleeper leaves nobody to cover. */
  lemma CoveredWake<T>(s: System<T>, step: Step<T>)
    requires Covered(s) && Enabled(s, step)
    requires step.NotifyAllReceivers? || step.NotifyAllSenders?
    ensures Covered(Apply(s, step))
  {
  }

  /** A sleeper that wakes for no reason is on its way to the lock. */
  lemma CoveredSpurious<T>(s: System<T>, step: Step<T>)
    requires Covered(s) && Enabled(s, step)
    requires (step.SpuriousSender? && s.sendTrying !! s.sendAsleep) || (step.SpuriousReceiver? && s.recvTrying !! s.recvAsleep)
    ensures Covered(Apply(s, step))
  {
  }

  /** Cloning needs a live handle, so it never reopens a closed side. */
  lemma CoveredClone<T>(s: System<T>, step: Step<T>)
    requires Covered(s) && Enabled(s, step)
    requires (step.CloneSender? && s.q.senders > 0) || (step.CloneReceiver? && s.q.receivers > 0)
    ensures Covered(Apply(s, step))
  {
  }

  /** The last handle of a side to go leaves a `notify_all` behind. */
  lemma CoveredDrop<T>(s: System<T>, step: Step<T>)
    requires Covered(s) && Enabled(s, step)
    requires step.DropSender? || step.DropReceiver?
    ensures Covered(Apply(s, step))
  {
  }

  lemma LiveHandle<T>(s: System<T>)
    requires Counted(s)
    ensures s.sendHandles != {} ==> s.q.senders > 0
    ensures s.recvHandles != {} ==> s.q.receivers > 0
  {
  }

  lemma PlacedApart<T>(s: System<T>)
    requires Placed(s)
    ensures s.sendTrying !! s.tellReceiver && s.recvTrying !! s.tellSender
    ensures s.sendTrying !! s.sendAsleep && s.recvTrying !! s.recvAsleep
  {
  }

  lemma StepCovered<T>(s: System<T>, step: Step<T>)
    requires Counted(s) && Placed(s) && Covered(s) && Enabled(s, step)
    ensures Covered(Apply(s, step))
  {
    hide Counted, Placed, Covered, Apply;
    LiveHandle(s);
    PlacedApart(s);
    match step
    case EnterSend(_, _, _) => CoveredEnter(s, step);
    case EnterRecv(_, _) => CoveredEnter(s, step);
    case LockSend(_) => CoveredLockSend(s, step);
    case LockRecv(_) => CoveredLockRecv(s, step);
    case NotifyReceiver(_, _) => CoveredNotifyReceiver(s, step);
    case NotifySender(_, _) => CoveredNotifySender(s, step);
    case NotifyAllReceivers(_) => CoveredWake(s, step);
    case NotifyAllSenders(_) => CoveredWake(s, step);
    case SpuriousSender(_) => CoveredSpurious(s, step);
    case SpuriousReceiver(_) => CoveredSpurious(s, step);
    case CloneSender(_, _) => CoveredClone(s, step);
    case CloneReceiver(_, _) => CoveredClone(s, step);
    case DropSender(_, _) => CoveredDrop(s, step);
    case DropReceiver(_, _) => CoveredDrop(s, step);
  }

  lemma StepInv<T>(s: System<T>, step: Step<T>)
    requires Inv(s) && Enabled(s, step)
    ensures Inv(Apply(s, step))
  {
    hide *;
    InvParts(s);
    StepCounted(s, step);
    StepFifo(s, step);
    StepPlaced(s, step);
    StepCovered(s, step);
    InvJoined(Apply(s, step));
  }

  lemma InvParts<T>(s: System<T>)
    requires Inv(s)
    ensures Counted(s) && Fifo(s) && Placed(s) && Covered(s)
  {
  }

  lemma InvJoined<T>(s: System<T>)
    requires Counted(s) && Fifo(s) && Placed(s) && Covered(s)
    ensures Inv(s)
  {
  }

  // ---------------------------------------------------------------- every run

  /** A run under any scheduling: the steps taken, and the states passed through. */
  ghost predicate IsRun<T>(run: seq<System<T>>, steps: seq<Step<T>>, capacity: nat) {
    && |run| == |steps| + 1
    && Init(run[0], capacity)
    && forall i :: 0 <= i < |steps| ==> Enabled(run[i], steps[i]) && run[i + 1] == Apply(run[i], steps[i])
  }

  lemma {:induction false} RunInv<T>(run: seq<System<T>>, steps: seq<Step<T>>, capacity: nat, i: nat)
    requires IsRun(run, steps, capacity) && i < |run|
    ensures Inv(run[i])
    decreases i
  {
    hide Inv, Init, Enabled, Apply;
    if i == 0 {
      InitInv(run[0], capacity);
    } else {
      RunInv(run, steps, capacity, i - 1);
      assert run[i] == Apply(run[i - 1], steps[i - 1]);
      StepInv(run[i - 1], steps[i - 1]);
    }
  }

  lemma StepHistory<T>(s: System<T>, step: Step<T>)
    requires Enabled(s, step)
    ensures var r := Apply(s, step);
      && (r.accepted == s.accepted || (step.LockSend? && step.t in s.sending && r.accepted == s.accepted + [s.sending[step.t]]))
      && (r.delivered == s.delivered || exists v :: r.delivered == s.delivered + [v])
      && r.capacity == s.capacity
  {
    if step.LockRecv? && s.q.items != [] {
      assert Apply(s, step).delivered == s.delivered + [s.q.items[0]];
    }
  }

  /**
   * Exactly once, in order, within capacity: at every moment of every run the values
   * delivered so far are the first of those accepted so far, the rest are the queue, and
   * neither history is ever rewritten.
   */
  lemma {:induction false} ExactlyOnceInOrder<T>(run: seq<System<T>>, steps: seq<Step<T>>, capacity: nat, i: nat, j: nat)
    requires IsRun(run, steps, capacity) && i <= j < |run|
    ensures run[j].accepted == run[j].delivered + run[j].q.items
    ensures |run[j].q.items| <= run[j].capacity == run[0].capacity
    ensures run[i].accepted <= run[j].accepted && run[i].delivered <= run[j].delivered
    decreases j
  {
    RunInv(run, steps, capacity, j);
    hide Init, Enabled, Apply, Counted, Placed, Covered;
    if j > 0 {
      assert run[j] == Apply(run[j - 1], steps[j - 1]);
      StepHistory(run[j - 1], steps[j - 1]);
      ExactlyOnceInOrder(run, steps, capacity, if i < j then i else 0, j - 1);
    }
  }

  /**
   * No wake-up is lost: whenever a receiver sleeps although there is an item for it or no
   * sender is left, or a sender sleeps although there is room or no receiver is left, some
   * thread of its kind is already on its way to the lock or a notification is about to be
   * issued; and each queued item (free place) is covered by its own.
   */
  lemma NoLostWakeUp<T>(run: seq<System<T>>, steps: seq<Step<T>>, capacity: nat, i: nat)
    requires IsRun(run, steps, capacity) && i < |run|
    ensures var s := run[i];
      && (s.recvAsleep != {} && s.q.items != [] ==>
            s.recvTrying + s.tellReceiver != {} && |s.q.items| <= |s.recvTrying| + |s.tellReceiver|)
      && (s.recvAsleep != {} && s.q.senders == 0 ==> s.tellAllReceivers != {})
      && (s.sendAsleep != {} && |s.q.items| < s.capacity ==>
            s.sendTrying + s.tellSender + s.tellAllSenders != {})
      && (s.sendAsleep != {} && s.q.receivers == 0 ==> s.tellAllSenders != {})
  {
    RunInv(run, steps, capacity, i);
    var s := run[i];
    hide IsRun, Counted, Placed, Fifo;
    assert s.recvTrying + s.tellReceiver == {} ==> s.recvTrying == {} && s.tellReceiver == {};
    assert s.sendTrying + s.tellSender == {} ==> s.sendTrying == {} && s.tellSender == {};
  }

  /** Nobody holds the lock, is on the way to it, or owes a notification. */
  ghost predicate Quiet<T>(s: System<T>) {
    s.sendTrying + s.recvTrying + s.tellReceiver + s.tellSender + s.tellAllReceivers + s.tellAllSenders == {}
  }

  /**
   * When nothing can move, everybody who sleeps has a reason to: receivers only on an open,
   * empty channel, senders only on an open, full one, and never both.
   */
  lemma QuietMeansBlocked<T>(run: seq<System<T>>, steps: seq<Step<T>>, capacity: nat, i: nat)
    requires IsRun(run, steps, capacity) && i < |run| && Quiet(run[i])
    ensures var s := run[i];
      && (s.recvAsleep != {} ==> s.q.items == [] && s.q.senders > 0)
      && (s.sendAsleep != {} ==> |s.q.items| == s.capacity && s.q.receivers > 0)
      && (s.recvAsleep == {} || s.sendAsleep == {})
  {
    RunInv(run, steps, capacity, i);
    var s := run[i];
    assert s.sendTrying == {} && s.recvTrying == {} && s.tellReceiver == {} && s.tellSender == {}
        && s.tellAllReceivers == {} && s.tellAllSenders == {} by {
      hide Inv, IsRun;
      var all := s.sendTrying + s.recvTrying + s.tellReceiver + s.tellSender + s.tellAllReceivers + s.tellAllSenders;
      assert s.sendTrying <= all && s.recvTrying <= all && s.tellReceiver <= all && s.tellSender <= all
          && s.tellAllReceivers <= all && s.tellAllSenders <= all;
    }
    hide IsRun, Counted, Placed;
  }

  lemma StepStaysClosed<T>(s: System<T>, step: Step<T>)
    requires Inv(s) && Enabled(s, step)
    ensures s.q.senders == 0 ==> Apply(s, step).q.senders == 0
    ensures s.q.senders == 0 && s.q.items == [] ==> Apply(s, step).q.items == []
    ensures s.q.receivers == 0 ==> Apply(s, step).q.receivers == 0
  {
    LiveHandle(s);
    if step.LockSend? {
      assert step.t in InSend(s);
      assert s.using[step.t] in s.sendHandles;
    }
  }

  /**
   * A closed channel stays closed: once `recv` has answered `None`, no later call can
   * receive anything, and once `send` has handed a value back, no later value is accepted.
   */
  lemma {:induction false} ClosedForGood<T>(run: seq<System<T>>, steps: seq<Step<T>>, capacity: nat, i: nat, j: nat, v: T, w: T)
    requires IsRun(run, steps, capacity) && i <= j < |run|
    ensures TryRecv(run[i].q).1 == Closed ==> TryRecv(run[j].q).1 == Closed
    ensures TrySend(run[i].q, run[i].capacity, v).1 == Rejected ==>
      TrySend(run[j].q, run[j].capacity, w).1 == Rejected
    decreases j
  {
    hide Inv, Init, Enabled, Apply;
    if i < j {
      ClosedForGood(run, steps, capacity, i, j - 1, v, w);
      RunInv(run, steps, capacity, j - 1);
      assert run[j] == Apply(run[j - 1], steps[j - 1]);
      StepStaysClosed(run[j - 1], steps[j - 1]);
    }
  }
}
