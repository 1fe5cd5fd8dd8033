/** The snapshot slots of the UI task and the worker, interleaved. */
module Snapshots {
  // There are two slots. One Step is one atomic action of one task; T is the saved state.

  import opened Core

  const SLOTS: nat := 2
  const QUEUE_MAX: nat := 8

  datatype Op = Record | Save | Export | Eject | Diagnostics | Sound | Clear | Sleep | BackupIgnores

  predicate Carries(op: Op) {
    op == Save || op == Sleep || op == BackupIgnores
  }

  /** value is the slot of a message that carries a snapshot; meant is what its sender put there. */
  datatype Message<T> = Message(op: Op, value: nat, meant: T)

  /** The sender: trying the slots in turn, copying, sending, or giving the slot back. */
  datatype Ui<T> =
    | Idle
    | Claiming(op: Op, meant: T, slot: nat)
    | Copying(op: Op, meant: T, slot: nat)
    | Sending(op: Op, meant: T, slot: nat)
    | Refused(meant: T, slot: nat)

  datatype Phase<T> =
    | Top
    | Receiving
    | Persisting(m: Message<T>)
    | Retaining(m: Message<T>)
    | Adopting(m: Message<T>)
    | Releasing(m: Message<T>)
    | Sleeping(m: Message<T>)
    | SleepReleasing(m: Message<T>, slept: bool)
    | Dropping(after: Phase<T>)
    | Forgetting(after: Phase<T>)
    | Asleep

  datatype Deferred<T> = Deferred(slot: int, manual: bool, meant: Option<T>)

  const NONE_DEFERRED: int := -1

  /** accepted and persisted are histories: the states taken by send, and those handed to persist. */
  datatype System<T> = System(
    busy: seq<bool>, state: seq<T>, ui: Ui<T>, queue: seq<Message<T>>, worker: Phase<T>, deferred: Deferred<T>,
    active: bool, initialized: bool, ejected: bool, accepted: seq<T>, persisted: seq<T>)

  datatype Event<T> =
    | Start(op: Op, meant: T)
    | Post(message: Message<T>)
    | UiStep
    | WorkerStep(recovered: bool, ok: bool)

  // ---- Steps of the sender ----

  function UiNext<T>(s: System<T>): System<T>
    requires |s.busy| == |s.state| == SLOTS
  {
    match s.ui
    case Idle => s
    case Claiming(op, meant, slot) =>
      if slot >= SLOTS then s.(ui := Idle)
      else if s.busy[slot] then s.(ui := Claiming(op, meant, slot + 1))
      else s.(busy := s.busy[slot := true], ui := Copying(op, meant, slot))
    case Copying(op, meant, slot) =>
      if slot >= SLOTS then s else s.(state := s.state[slot := meant], ui := Sending(op, meant, slot))
    case Sending(op, meant, slot) =>
      if |s.queue| < QUEUE_MAX
      then s.(queue := s.queue + [Message(op, slot, meant)], accepted := s.accepted + [meant], ui := Idle)
      else s.(ui := Refused(meant, slot))
    case Refused(_, slot) =>
      if slot >= SLOTS then s else s.(busy := s.busy[slot := false], ui := Idle)
  }

  // ---- Steps of the worker ----

  function Freed(busy: seq<bool>, slot: int): (r: seq<bool>)
    ensures |r| == |busy|
  {
    if 0 <= slot < |busy| then busy[slot := false] else busy
  }

  function WorkerNext<T>(s: System<T>, recovered: bool, ok: bool): System<T>
    requires |s.busy| == |s.state| == SLOTS
  {
    match s.worker
    case Top =>
      var active := s.active && !recovered;
      if !s.initialized && !active then
        s.(active := active, initialized := true, worker := if s.deferred.slot >= 0 then Dropping(Receiving)
            else Receiving)
      else s.(active := active, worker := Receiving)
    case Receiving =>
      if s.queue == [] then s.(worker := Top)
      else
        var m := s.queue[0];
        Received(s.(queue := s.queue[1..]), m)
    case Persisting(m) =>
      if m.value >= SLOTS then s
      else s.(persisted := s.persisted + [s.state[m.value]], worker := if ok
          && s.active then Retaining(m) else Releasing(m))
    case Retaining(m) => s.(busy := Freed(s.busy, s.deferred.slot), worker := Adopting(m))
    case Adopting(m) =>
      s.(deferred := Deferred(m.value, s.deferred.manual || m.op == BackupIgnores, Some(m.meant)), worker := Top)
    case Releasing(m) => s.(busy := Freed(s.busy, m.value), worker := Top)
    case Sleeping(m) =>
      if m.value >= SLOTS then s
      else s.(persisted := s.persisted + [s.state[m.value]], worker := SleepReleasing(m, ok))
    case SleepReleasing(m, slept) => s.(busy := Freed(s.busy, m.value), worker := if slept then Asleep else Top)
    case Dropping(after) => s.(busy := Freed(s.busy, s.deferred.slot), worker := Forgetting(after))
    case Forgetting(after) => s.(deferred := Deferred(NONE_DEFERRED, false, None), worker := after)
    case Asleep => s
  }

  /** The first action of the switch over the received message. */
  function Received<T>(s: System<T>, m: Message<T>): System<T> {
    match m.op
    case Save => s.(worker := Persisting(m))
    case BackupIgnores => s.(worker := Persisting(m))
    case Sleep => s.(active := false, initialized := true, worker := Dropping(Sleeping(m)))
    case Eject =>
      if s.ejected then s.(worker := Top)
      else s.(active := false, initialized := true, ejected := true, worker := Dropping(Top))
    case _ => s.(worker := Top)
  }

  /** Both tasks, one atomic action at a time. The UI starts nothing before its last send is over. */
  function Next<T>(s: System<T>, e: Event<T>): (r: System<T>)
    requires |s.busy| == |s.state| == SLOTS
    ensures |r.busy| == |r.state| == SLOTS
  {
    match e
    case Start(op, meant) => if s.ui.Idle? && Carries(op) then s.(ui := Claiming(op, meant, 0)) else s
    case Post(m) =>
      if s.ui.Idle? && !Carries(m.op) && |s.queue| < QUEUE_MAX then s.(queue := s.queue + [m]) else s
    case UiStep => UiNext(s)
    case WorkerStep(recovered, ok) => WorkerNext(s, recovered, ok)
  }

  function Run<T>(s: System<T>, events: seq<Event<T>>): (r: System<T>)
    requires |s.busy| == |s.state| == SLOTS
    ensures |r.busy| == |r.state| == SLOTS
  {
    if events == [] then s else Next(Run(s, events[..|events| - 1]), events[|events| - 1])
  }

  // ---- Ownership ----

  /** How many owners slot k has: the sender, queued messages, the message in hand, the deferred backup. */
  function Owners<T>(s: System<T>, k: nat): nat {
    UiOwns(s.ui, k) + Queued(s.queue, k) + Hands(s.worker, k) + (if DeferredOwns(s.deferred, s.worker, k) then 1 else 0)
  }

  function UiOwns<T>(ui: Ui<T>, k: nat): nat {
    if (ui.Copying? || ui.Sending? || ui.Refused?) && ui.slot == k then 1 else 0
  }

  function Queued<T>(queue: seq<Message<T>>, k: nat): nat {
    if queue == [] then 0
    else Queued(queue[..|queue| - 1], k) + Names(queue[|queue| - 1], k)
  }

  function Names<T>(m: Message<T>, k: nat): nat {
    if Carries(m.op) && m.value == k then 1 else 0
  }

  function Hands<T>(p: Phase<T>, k: nat): nat {
    match p
    case Dropping(after) => Hands(after, k)
    case Forgetting(after) => Hands(after, k)
    case Top => 0
    case Receiving => 0
    case Asleep => 0
    case _ => Names(p.m, k)
  }

  /** Between giving a deferred slot back and forgetting it, deferred.slot is a number nobody uses. */
  predicate DeferredOwns<T>(d: Deferred<T>, p: Phase<T>, k: nat) {
    d.slot == k && !p.Adopting? && !p.Forgetting?
  }

  ghost predicate Meant<T>(state: seq<T>, m: Message<T>) {
    m.value < |state| && state[m.value] == m.meant
  }

  /** The message in hand carries a snapshot that is still what was meant. */
  ghost predicate HandMeant<T>(state: seq<T>, p: Phase<T>) {
    match p
    case Dropping(after) => HandMeant(state, after)
    case Forgetting(after) => HandMeant(state, after)
    case Top => true
    case Receiving => true
    case Asleep => true
    case _ => Carries(p.m.op) && Meant(state, p.m)
  }

  ghost predicate QueueMeant<T>(state: seq<T>, queue: seq<Message<T>>) {
    forall i | 0 <= i < |queue| && Carries(queue[i].op) :: Meant(state, queue[i])
  }

  /** Every owner but a sender that has not copied yet finds the state that was meant. */
  ghost predicate Faithful<T>(s: System<T>) {
    && |s.state| == SLOTS && QueueMeant(s.state, s.queue) && HandMeant(s.state, s.worker)
    && (s.ui.Sending? ==> s.ui.slot < SLOTS && s.state[s.ui.slot] == s.ui.meant)
    && (forall k: nat | k < SLOTS && DeferredOwns(s.deferred, s.worker, k) :: s.deferred.meant == Some(s.state[k]))
  }

  /** Every busy slot has exactly one owner, every free slot none. */
  ghost predicate Owned<T>(s: System<T>) {
    |s.busy| == SLOTS && forall k: nat | k < SLOTS :: Owners(s, k) == if s.busy[k] then 1 else 0
  }

  /** What waits behind a deferred backup that is being dropped. */
  predicate Shape<T>(p: Phase<T>) {
    match p
    case Dropping(after) => after.Top? || after.Receiving? || after.Sleeping?
    case Forgetting(after) => after.Top? || after.Receiving? || after.Sleeping?
    case _ => true
  }

  /** The states accepted but not yet handed to persist, oldest first. */
  function Pending<T>(s: System<T>): seq<T> {
    InHand(s.worker) + Carried(s.queue)
  }

  function InHand<T>(p: Phase<T>): seq<T> {
    match p
    case Dropping(after) => InHand(after)
    case Forgetting(after) => InHand(after)
    case Persisting(m) => [m.meant]
    case Sleeping(m) => [m.meant]
    case _ => []
  }

  function Carried<T>(queue: seq<Message<T>>): seq<T> {
    if queue == [] then []
    else Carried(queue[..|queue| - 1]) + (var m := queue[|queue| - 1]; if Carries(m.op) then [m.meant] else [])
  }

  /** Where the two tasks can be. */
  ghost predicate Controlled<T>(s: System<T>) {
    && |s.queue| <= QUEUE_MAX && Shape(s.worker) && -1 <= s.deferred.slot < SLOTS
    && (s.ui.Copying? || s.ui.Sending? || s.ui.Refused? ==> s.ui.slot < SLOTS)
    && (s.ui.Claiming? || s.ui.Copying? || s.ui.Sending? ==> Carries(s.ui.op))
    && (s.initialized ==> !s.active)
    && (s.initialized && s.deferred.slot >= 0 ==> s.worker.Dropping? || s.worker.Forgetting?)
    && (s.worker.Retaining? || s.worker.Adopting? ==> !s.initialized)
  }

  ghost predicate Valid<T>(s: System<T>) {
    |s.busy| == |s.state| == SLOTS && Owned(s) && Faithful(s) && Controlled(s) && s.accepted == s.persisted + Pending(s)
  }

  // ---- The queue ----

  lemma Pushed<T>(queue: seq<Message<T>>, m: Message<T>)
    ensures forall k :: Queued(queue + [m], k) == Queued(queue, k) + Names(m, k)
    ensures Carried(queue + [m]) == Carried(queue) + if Carries(m.op) then [m.meant] else []
  {
    assert (queue + [m])[..|queue|] == queue;
  }

  lemma {:induction false} Popped<T>(queue: seq<Message<T>>)
    requires queue != []
    ensures forall k :: Queued(queue, k) == Names(queue[0], k) + Queued(queue[1..], k)
    ensures Carried(queue) == (if Carries(queue[0].op) then [queue[0].meant] else []) + Carried(queue[1..])
  {
    var n := |queue| - 1;
    if n == 0 {
      assert queue[1..] == queue[..n] == [];
    } else {
      Popped(queue[..n]);
      assert queue[..n][1..] == queue[1..][..n - 1];
    }
  }

  lemma {:induction false} QueueOwns<T>(queue: seq<Message<T>>, i: nat)
    requires i < |queue| && Carries(queue[i].op)
    ensures Queued(queue, queue[i].value) >= 1
  {
    if i < |queue| - 1 {
      QueueOwns(queue[..|queue| - 1], i);
    }
  }

  // ---- Every action keeps the invariant ----

  lemma {:induction false} HandOwns<T>(state: seq<T>, p: Phase<T>, k: nat, x: T)
    requires |state| == SLOTS && k < SLOTS && HandMeant(state, p) && Hands(p, k) == 0
    ensures HandMeant(state[k := x], p)
  {
    match p
    case Dropping(after) => HandOwns(state, after, k, x);
    case Forgetting(after) => HandOwns(state, after, k, x);
    case _ =>
  }

  lemma CopyFaithful<T>(s: System<T>)
    requires Valid(s) && s.ui.Copying?
    ensures Faithful(UiNext(s))
  {
    var k := s.ui.slot;
    assert Owners(s, k) <= 1;
    forall i | 0 <= i < |s.queue| && Carries(s.queue[i].op) ensures s.queue[i].value != k {
      QueueOwns(s.queue, i);
    }
    HandOwns(s.state, s.worker, k, s.ui.meant);
  }

  lemma UiFaithful<T>(s: System<T>)
    requires Valid(s)
    ensures Faithful(UiNext(s))
  {
    if s.ui.Copying? {
      CopyFaithful(s);
    }
  }

  lemma SendOwned<T>(s: System<T>)
    requires |s.busy| == |s.state| == SLOTS && Owned(s) && s.ui.Sending? && Carries(s.ui.op)
    ensures Owned(UiNext(s))
  {
    hide Owners, UiNext;
    SendOwners(s, 0);
    forall k: nat | k < SLOTS ensures Owners(UiNext(s), k) == Owners(s, k) {
      SendOwners(s, k);
    }
  }

  /** The slot goes from the sender to the queue, or stays with a sender that was refused. */
  lemma SendOwners<T>(s: System<T>, k: nat)
    requires |s.busy| == |s.state| == SLOTS && s.ui.Sending? && Carries(s.ui.op)
    ensures Owners(UiNext(s), k) == Owners(s, k) && UiNext(s).busy == s.busy
  {
    hide Queued, Hands, DeferredOwns, Carried;
    Pushed(s.queue, Message(s.ui.op, s.ui.slot, s.ui.meant));
  }

  lemma UiOwned<T>(s: System<T>)
    requires |s.busy| == |s.state| == SLOTS && Owned(s) && Controlled(s)
    ensures Owned(UiNext(s))
  {
    hide Shape, Hands, DeferredOwns, Queued;
    if s.ui.Sending? {
      SendOwned(s);
    }
  }

  lemma UiControlled<T>(s: System<T>)
    requires |s.busy| == |s.state| == SLOTS && Controlled(s)
    ensures var r := UiNext(s); |r.busy| == |r.state| == SLOTS && Controlled(r)
  {
    hide Shape;
  }

  lemma UiOrdered<T>(s: System<T>)
    requires |s.busy| == |s.state| == SLOTS && Controlled(s) && s.accepted == s.persisted + Pending(s)
    ensures var r := UiNext(s); r.accepted == r.persisted + Pending(r)
  {
    hide Shape, InHand, Carried;
    if s.ui.Sending? {
      Pushed(s.queue, Message(s.ui.op, s.ui.slot, s.ui.meant));
    }
  }

  lemma PostKeeps<T>(s: System<T>, m: Message<T>)
    requires Valid(s) && s.ui.Idle? && !Carries(m.op) && |s.queue| < QUEUE_MAX
    ensures Valid(s.(queue := s.queue + [m]))
  {
    Pushed(s.queue, m);
  }

  lemma QueueTail<T>(state: seq<T>, queue: seq<Message<T>>)
    requires QueueMeant(state, queue) && queue != []
    ensures QueueMeant(state, queue[1..]) && (Carries(queue[0].op) ==> Meant(state, queue[0]))
  {
  }

  /** What is in hand after a message has been received. */
  lemma ReceivedHand<T>(s: System<T>, m: Message<T>)
    ensures var r := Received(s, m);
            && (forall k :: Hands(r.worker, k) == Names(m, k))
            && InHand(r.worker) == (if Carries(m.op) then [m.meant] else [])
            && (HandMeant(s.state, r.worker) <==> Carries(m.op) ==> Meant(s.state, m))
            && !r.worker.Adopting? && !r.worker.Forgetting?
            && r == s.(worker := r.worker, active := r.active, initialized := r.initialized, ejected := r.ejected)
  {
    hide Meant;
    match m.op
    case Sleep =>
      assert HandMeant(s.state, Sleeping(m)) <==> Meant(s.state, m);
      assert forall k :: Hands(Sleeping(m), k) == Names(m, k);
      assert InHand(Sleeping(m)) == [m.meant];
    case Eject =>
      assert HandMeant(s.state, Top) && InHand<T>(Top) == [];
      assert forall k :: Hands<T>(Top, k) == 0;
    case _ =>
  }

  lemma TopHand<T>(state: seq<T>)
    ensures forall k :: Hands<T>(Dropping(Receiving), k) == Hands<T>(Receiving, k) == 0
    ensures HandMeant(state, Dropping(Receiving)) && InHand<T>(Dropping(Receiving)) == []
  {
    assert HandMeant(state, Receiving) && InHand<T>(Receiving) == [];
    assert forall k :: Hands<T>(Receiving, k) == 0;
  }

  lemma ReceivedFaithful<T>(s: System<T>)
    requires Faithful(s) && s.worker.Receiving? && s.queue != []
    ensures Faithful(Received(s.(queue := s.queue[1..]), s.queue[0]))
  {
    hide QueueMeant, Meant, Received, HandMeant;
    QueueTail(s.state, s.queue);
    ReceivedHand(s.(queue := s.queue[1..]), s.queue[0]);
  }

  lemma WorkerFaithful<T>(s: System<T>, recovered: bool, ok: bool)
    requires |s.busy| == SLOTS && Faithful(s) && Controlled(s)
    ensures Faithful(WorkerNext(s, recovered, ok))
  {
    hide QueueMeant, Received, Freed;
    TopHand(s.state);
    if s.worker.Receiving? && s.queue != [] {
      ReceivedFaithful(s);
    }
  }

  lemma ReceivedOwned<T>(s: System<T>)
    requires Owned(s) && s.worker.Receiving? && s.queue != []
    ensures Owned(Received(s.(queue := s.queue[1..]), s.queue[0]))
  {
    hide Queued, Received, Names;
    Popped(s.queue);
    ReceivedHand(s.(queue := s.queue[1..]), s.queue[0]);
  }

  /** One owner less, and the slot free. */
  lemma FreedOwned<T>(s: System<T>, r: System<T>, slot: int)
    requires Owned(s) && r.busy == Freed(s.busy, slot) && slot < SLOTS
    requires forall k: nat | k < SLOTS :: Owners(r, k) == Owners(s, k) - if k == slot then 1 else 0
    ensures Owned(r)
  {
    hide Owners;
  }

  lemma DropOwned<T>(s: System<T>, recovered: bool, ok: bool)
    requires |s.busy| == |s.state| == SLOTS && Owned(s) && s.deferred.slot < SLOTS && Shape(s.worker)
    requires s.worker.Retaining? || s.worker.Dropping?
    ensures Owned(WorkerNext(s, recovered, ok))
  {
    hide Queued, Freed, Owned;
    FreedOwned(s, WorkerNext(s, recovered, ok), s.deferred.slot);
  }

  lemma ReleaseOwned<T>(s: System<T>, recovered: bool, ok: bool)
    requires |s.busy| == |s.state| == SLOTS && Owned(s) && HandMeant(s.state, s.worker)
    requires s.worker.Releasing? || s.worker.SleepReleasing?
    ensures Owned(WorkerNext(s, recovered, ok))
  {
    hide Queued, Freed, Owned;
    FreedOwned(s, WorkerNext(s, recovered, ok), s.worker.m.value);
  }

  /** The owners move, the slots stay. */
  lemma MoveOwned<T>(s: System<T>, recovered: bool, ok: bool)
    requires |s.busy| == |s.state| == SLOTS && Owned(s) && HandMeant(s.state, s.worker) && Shape(s.worker)
    requires s.worker.Top? || s.worker.Persisting? || s.worker.Adopting? || s.worker.Sleeping? || s.worker.Forgetting?
    ensures Owned(WorkerNext(s, recovered, ok))
  {
    hide Queued;
    TopHand(s.state);
  }

  lemma WorkerOwned<T>(s: System<T>, recovered: bool, ok: bool)
    requires |s.busy| == |s.state| == SLOTS && Owned(s) && HandMeant(s.state, s.worker) && Controlled(s)
    ensures Owned(WorkerNext(s, recovered, ok))
  {
    hide Owned, Owners, HandMeant, Received, Freed;
    match s.worker
    case Receiving =>
      if s.queue != [] {
        ReceivedOwned(s);
      } else {
        SameOwned(s, s.(worker := Top));
      }
    case Retaining(_) => DropOwned(s, recovered, ok);
    case Dropping(_) => DropOwned(s, recovered, ok);
    case Releasing(_) => ReleaseOwned(s, recovered, ok);
    case SleepReleasing(_, _) => ReleaseOwned(s, recovered, ok);
    case Asleep =>
    case _ => MoveOwned(s, recovered, ok);
  }

  lemma SameOwned<T>(s: System<T>, r: System<T>)
    requires Owned(s) && s.worker.Receiving? && r == s.(worker := Top)
    ensures Owned(r)
  {
  }

  lemma ReceivedControlled<T>(s: System<T>)
    requires Controlled(s) && s.worker.Receiving? && s.queue != []
    ensures Controlled(Received(s.(queue := s.queue[1..]), s.queue[0]))
  {
  }

  lemma HandInRange<T>(state: seq<T>, p: Phase<T>)
    requires HandMeant(state, p)
    ensures p.Adopting? ==> p.m.value < |state|
  {
  }

  lemma WorkerControlled<T>(s: System<T>, recovered: bool, ok: bool)
    requires |s.busy| == |s.state| == SLOTS && HandMeant(s.state, s.worker) && Controlled(s)
    ensures var r := WorkerNext(s, recovered, ok); |r.busy| == |r.state| == SLOTS && Controlled(r)
  {
    hide Freed, Received, HandMeant, Meant, Carries;
    if s.worker.Receiving? && s.queue != [] {
      ReceivedControlled(s);
      ReceivedHand(s.(queue := s.queue[1..]), s.queue[0]);
    } else {
      HandInRange(s.state, s.worker);
    }
  }

  lemma HandedOver<T>(accepted: seq<T>, persisted: seq<T>, x: T, rest: seq<T>)
    requires accepted == persisted + ([x] + rest)
    ensures accepted == (persisted + [x]) + ([] + rest)
  {
  }

  lemma PersistOrdered<T>(s: System<T>, recovered: bool, ok: bool)
    requires |s.busy| == |s.state| == SLOTS && HandMeant(s.state, s.worker) && s.accepted == s.persisted + Pending(s)
    requires s.worker.Persisting? || s.worker.Sleeping?
    ensures var r := WorkerNext(s, recovered, ok); r.accepted == r.persisted + Pending(r)
  {
    hide Carried;
    HandedOver(s.accepted, s.persisted, s.worker.m.meant, Carried(s.queue));
  }

  lemma ReceiveOrdered<T>(s: System<T>)
    requires s.worker.Receiving? && s.queue != [] && s.accepted == s.persisted + Pending(s)
    ensures var r := Received(s.(queue := s.queue[1..]), s.queue[0]); r.accepted == r.persisted + Pending(r)
  {
    hide Carried, Received;
    Popped(s.queue);
    ReceivedHand(s.(queue := s.queue[1..]), s.queue[0]);
    NothingBefore(Carried(s.queue));
    NothingBefore(Carried(s.queue[1..]));
  }

  lemma NothingBefore<T>(x: seq<T>)
    ensures [] + x == x
  {
  }

  lemma WorkerOrdered<T>(s: System<T>, recovered: bool, ok: bool)
    requires |s.busy| == |s.state| == SLOTS && HandMeant(s.state, s.worker) && Controlled(s)
    requires s.accepted == s.persisted + Pending(s)
    ensures var r := WorkerNext(s, recovered, ok); r.accepted == r.persisted + Pending(r)
  {
    hide Freed, Carried, HandMeant, Received;
    if s.worker.Persisting? || s.worker.Sleeping? {
      PersistOrdered(s, recovered, ok);
    } else if s.worker.Receiving? && s.queue != [] {
      ReceiveOrdered(s);
    }
  }

  lemma StepKeeps<T>(s: System<T>, e: Event<T>)
    requires Valid(s)
    ensures Valid(Next(s, e))
  {
    hide UiNext, WorkerNext, Owned, QueueMeant, HandMeant, Meant, Controlled, Pending, DeferredOwns;
    match e
    case UiStep =>
      UiOwned(s);
      UiFaithful(s);
      UiControlled(s);
      UiOrdered(s);
    case WorkerStep(recovered, ok) =>
      WorkerOwned(s, recovered, ok);
      WorkerFaithful(s, recovered, ok);
      WorkerControlled(s, recovered, ok);
      WorkerOrdered(s, recovered, ok);
    case Post(m) =>
      if Next(s, e) != s {
        PostKeeps(s, m);
      }
    case Start(op, meant) => StartKeeps(s, op, meant);
  }

  lemma StartKeeps<T>(s: System<T>, op: Op, meant: T)
    requires Valid(s)
    ensures Valid(Next(s, Start(op, meant)))
  {
  }

  // ---- Every run ----

  function Initial<T>(blank: T): System<T> {
    System([false, false], [blank, blank], Idle, [], Top, Deferred(NONE_DEFERRED, false, None), true, false, false, [],
        [])
  }

  lemma InitialValid<T>(blank: T)
    ensures Valid(Initial(blank))
  {
    var s := Initial(blank);
    assert forall k: nat | k < SLOTS :: Owners(s, k) == 0;
    assert s.accepted == s.persisted + Pending(s);
  }

  lemma {:induction false} RunKeeps<T>(s: System<T>, events: seq<Event<T>>)
    requires Valid(s)
    ensures Valid(Run(s, events))
  {
    hide Owned, Faithful, Controlled, Pending, Next;
    if events != [] {
      RunKeeps(s, events[..|events| - 1]);
      StepKeeps(Run(s, events[..|events| - 1]), events[|events| - 1]);
    }
  }

  /** In every run a busy slot has exactly one owner and a free one has none. */
  lemma OneOwner<T>(blank: T, events: seq<Event<T>>, k: nat)
    requires k < SLOTS
    ensures var s := Run(Initial(blank), events); s.busy[k] <==> Owners(s, k) == 1
    ensures var s := Run(Initial(blank), events); !s.busy[k] <==> Owners(s, k) == 0
  {
    hide Run, Initial, Owners, Faithful, Controlled;
    InitialValid(blank);
    RunKeeps(Initial(blank), events);
  }

  /** In every run the states handed to persist are the accepted ones, in order, unchanged and none twice. */
  lemma PersistsAccepted<T>(blank: T, events: seq<Event<T>>)
    ensures var s := Run(Initial(blank), events);
            s.persisted <= s.accepted && (s.queue == [] && InHand(s.worker) == [] ==> s.persisted == s.accepted)
  {
    hide Run, Initial, Owned, Faithful, Controlled, InHand;
    InitialValid(blank);
    RunKeeps(Initial(blank), events);
    var s := Run(Initial(blank), events);
    assert s.queue == [] ==> Carried(s.queue) == [];
  }

  /** When both tasks are idle, only a deferred backup can hold a slot; after the startup check none does. */
  lemma NothingLeaks<T>(blank: T, events: seq<Event<T>>)
    requires var s := Run(Initial(blank), events);
             (s.ui.Idle? || s.ui.Claiming?) && s.queue == [] && (s.worker.Top? || s.worker.Receiving?)
    ensures var s := Run(Initial(blank), events);
            && (exists k: nat | k < SLOTS :: !s.busy[k])
            && (forall k: nat | k < SLOTS :: s.busy[k] <==> s.deferred.slot == k)
            && (s.initialized ==> s.busy == [false, false])
  {
    hide Run, Initial, Faithful;
    InitialValid(blank);
    RunKeeps(Initial(blank), events);
    var s := Run(Initial(blank), events);
    forall k: nat | k < SLOTS ensures s.busy[k] <==> s.deferred.slot == k {
      assert Owners(s, k) == if s.deferred.slot == k then 1 else 0;
    }
    assert s.deferred.slot != 0 ==> !s.busy[0];
    assert s.deferred.slot != 1 ==> !s.busy[1];
  }

  /** No action of either task writes the state of a slot that anyone but a copying sender owns. */
  lemma StateStands<T>(s: System<T>, e: Event<T>, k: nat)
    requires Valid(s) && k < SLOTS && Next(s, e).state[k] != s.state[k]
    ensures s.ui == Copying(s.ui.op, s.ui.meant, k) && Queued(s.queue, k) == 0 && Hands(s.worker, k) == 0
    ensures !DeferredOwns(s.deferred, s.worker, k) && Next(s, e).state[k] == s.ui.meant
  {
    hide Faithful, Controlled, Queued, Hands, DeferredOwns, WorkerNext;
    WorkerLeavesState(s, e);
    assert Owners(s, k) <= 1;
  }

  lemma WorkerLeavesState<T>(s: System<T>, e: Event<T>)
    requires |s.busy| == |s.state| == SLOTS
    ensures e.WorkerStep? ==> Next(s, e).state == s.state
  {
    hide Freed, UiNext;
  }

  /** The slot an undisturbed claim takes: the first free one. */
  function FirstFree(busy: seq<bool>, start: nat): (slot: int)
    requires start <= |busy|
    ensures slot == -1 || start <= slot < |busy|
    ensures slot >= 0 ==> !busy[slot] && forall i | start <= i < slot :: busy[i]
    ensures slot < 0 ==> forall i | start <= i < |busy| :: busy[i]
    decreases |busy| - start
  {
    if start == |busy| then -1 else if !busy[start] then start else FirstFree(busy, start + 1)
  }
}

/** The slots and the deferred backup as the two tasks change them in place. */
module SnapshotSlots {
  import opened Snapshots

  class Slots<T> {
    const busy: array<bool>
    const state: array<T>

    ghost predicate Valid()
      reads this
    {
      busy.Length == state.Length == SLOTS && busy as object != state as object
    }

    constructor (blank: T)
      ensures Valid() && fresh(busy) && fresh(state) && busy[..] == [false, false]
    {
      busy := new bool[SLOTS](_ => false);
      state := new T[SLOTS](_ => blank);
    }

    /** The sender's claim, when the worker does nothing meanwhile. */
    method Claim(st: T) returns (slot: int)
      requires Valid()
      modifies busy, state
      ensures slot == FirstFree(old(busy[..]), 0)
      ensures slot < 0 ==> busy[..] == old(busy[..]) && state[..] == old(state[..])
      ensures slot >= 0 ==> busy[..] == old(busy[..])[slot := true] && state[..] == old(state[..])[slot := st]
    {
      for i := 0 to SLOTS
        invariant FirstFree(busy[..], 0) == FirstFree(busy[..], i)
        invariant busy[..] == old(busy[..]) && state[..] == old(state[..])
      {
        if !busy[i] {
          busy[i] := true;
          state[i] := st;
          return i;
        }
      }
      return -1;
    }

    method Release(slot: nat)
      requires Valid() && slot < SLOTS
      modifies busy
      ensures busy[..] == Freed(old(busy[..]), slot)
    {
      busy[slot] := false;
    }
  }

  class DeferredBackup<T> {
    var slot: int
    var manual: bool

    ghost predicate Valid()
      reads this
    {
      -1 <= slot < SLOTS
    }

    constructor ()
      ensures Valid() && slot == NONE_DEFERRED && !manual
    {
      slot, manual := NONE_DEFERRED, false;
    }

    /** A newer snapshot takes the place of the deferred one, whose slot becomes free. */
    method Retain(slots: Slots<T>, next: nat, requested: bool)
      requires Valid() && slots.Valid() && next < SLOTS
      modifies this, slots.busy
      ensures Valid() && slot == next && manual == (old(manual) || requested)
      ensures slots.busy[..] == Freed(old(slots.busy[..]), old(slot))
    {
      if slot >= 0 {
        slots.Release(slot);
      }
      slot := next;
      manual := manual || requested;
    }

    method Release(slots: Slots<T>)
      requires Valid() && slots.Valid()
      modifies this, slots.busy
      ensures Valid() && slot == NONE_DEFERRED && !manual
      ensures slots.busy[..] == Freed(old(slots.busy[..]), old(slot))
    {
      if slot >= 0 {
        slots.Release(slot);
      }
      slot, manual := NONE_DEFERRED, false;
    }
  }
}
