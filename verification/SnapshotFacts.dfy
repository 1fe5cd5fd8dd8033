/** The snapshot protocol makes progress: a send with room succeeds, and the worker serves whatever was accepted. */
module SnapshotFacts {
  import opened Core
  import opened Snapshots

  // ---- A send that the worker does not disturb ----

  function UiRun<T>(s: System<T>, steps: nat): (r: System<T>)
    requires |s.busy| == |s.state| == SLOTS
    ensures |r.busy| == |r.state| == SLOTS
    decreases steps
  {
    if steps == 0 then s else UiRun(UiNext(s), steps - 1)
  }

  /** The first free slot is claimed, holds the state, and is queued and accepted. */
  predicate Sent<T(==)>(s: System<T>, r: System<T>, op: Op, meant: T, k: nat)
    requires |s.busy| == |s.state| == SLOTS
  {
    && k < SLOTS && !s.busy[k] && (forall i: nat | i < k :: s.busy[i])
    && r == s.(busy := s.busy[k := true], state := s.state[k := meant], queue := s.queue + [Message(op, k, meant)],
               accepted := s.accepted + [meant])
  }

  /** Nothing is accepted or kept; at most the content of a free slot has changed. */
  predicate GivenUp<T(==)>(s: System<T>, r: System<T>)
    requires |s.busy| == |s.state| == SLOTS
  {
    && r == s.(state := r.state) && |r.state| == SLOTS
    && forall k: nat | k < SLOTS && s.busy[k] :: r.state[k] == s.state[k]
  }

  /** Within six actions of its own a send is over; it succeeds if and only if a slot is free and the queue has room. */
  lemma SendEnds<T>(s: System<T>, op: Op, meant: T)
    requires |s.busy| == |s.state| == SLOTS && s.ui.Idle? && Carries(op) && |s.queue| <= 8
    ensures var r := UiRun(Next(s, Start(op, meant)), 6);
            if s.busy == [true, true] then r == s
            else if |s.queue| == 8 then GivenUp(s, r)
            else Sent(s, r, op, meant, 0) || Sent(s, r, op, meant, 1)
  {
    hide UiRun, GivenUp, Sent;
    var t := Next(s, Start(op, meant));
    assert t == s.(ui := Claiming(op, meant, 0));
    if !s.busy[0] {
      ClaimedEnds(s, t, op, meant, 0);
      UiRunAdds(t, 4, 2);
      StaysIdle(UiRun(t, 4), 2);
    } else {
      var u := s.(ui := Claiming(op, meant, 1));
      assert UiNext(t) == u;
      UiRunNext(t, 5);
      if !s.busy[1] {
        ClaimedEnds(s, u, op, meant, 1);
        UiRunAdds(u, 4, 1);
        StaysIdle(UiRun(u, 4), 1);
      } else {
        assert s.busy == [true, true];
        assert UiNext(u) == s.(ui := Claiming(op, meant, 2)) && UiNext(s.(ui := Claiming(op, meant, 2))) == s;
        UiRunNext(u, 4);
        UiRunNext(UiNext(u), 3);
        StaysIdle(s, 3);
      }
    }
  }

  lemma UiRunNext<T>(s: System<T>, steps: nat)
    requires |s.busy| == |s.state| == SLOTS
    ensures var t := UiNext(s); |t.busy| == |t.state| == SLOTS && UiRun(s, steps + 1) == UiRun(t, steps)
  {
    hide UiNext;
    UiSizes(s);
  }

  lemma UiSizes<T>(s: System<T>)
    requires |s.busy| == |s.state| == SLOTS
    ensures |UiNext(s).busy| == |UiNext(s).state| == SLOTS
  {
  }

  lemma {:induction false} UiRunAdds<T>(s: System<T>, a: nat, b: nat)
    requires |s.busy| == |s.state| == SLOTS
    ensures UiRun(s, a + b) == UiRun(UiRun(s, a), b)
    decreases a
  {
    hide UiNext;
    if a > 0 {
      UiSizes(s);
      UiRunAdds(UiNext(s), a - 1, b);
    }
  }

  lemma {:induction false} StaysIdle<T>(s: System<T>, steps: nat)
    requires |s.busy| == |s.state| == SLOTS && s.ui.Idle?
    ensures UiRun(s, steps) == s
    decreases steps
  {
    if steps > 0 {
      StaysIdle(s, steps - 1);
    }
  }

  /** From the claim of a free slot on: four actions. */
  lemma ClaimedEnds<T>(s: System<T>, t: System<T>, op: Op, meant: T, k: nat)
    requires |s.busy| == |s.state| == SLOTS && s.ui.Idle? && k < SLOTS && !s.busy[k]
    requires (forall i: nat | i < k :: s.busy[i]) && t == s.(ui := Claiming(op, meant, k)) && |s.queue| <= 8
    ensures var r := UiRun(t, 4);
            r.ui.Idle? && if |s.queue| == 8 then GivenUp(s, r) else Sent(s, r, op, meant, k)
  {
    hide UiRun;
    var claimed := s.(busy := s.busy[k := true], ui := Copying(op, meant, k));
    var copied := claimed.(state := s.state[k := meant], ui := Sending(op, meant, k));
    assert UiNext(t) == claimed && UiNext(claimed) == copied;
    UiRunNext(t, 3);
    UiRunNext(claimed, 2);
    UiRunNext(copied, 1);
    var sent := UiNext(copied);
    UiRunNext(sent, 0);
    StaysIdle(UiNext(sent), 0);
    if |s.queue| == 8 {
      assert UiNext(sent).busy == s.busy;
    }
  }

  // ---- The worker serves its queue ----

  function WorkerRun<T>(s: System<T>, outcomes: seq<(bool, bool)>): (r: System<T>)
    requires |s.busy| == |s.state| == SLOTS
    ensures |r.busy| == |r.state| == SLOTS
    decreases |outcomes|
  {
    if outcomes == [] then s else WorkerRun(WorkerNext(s, outcomes[0].0, outcomes[0].1), outcomes[1..])
  }

  /** What is left to do, if each message takes at most ten actions. */
  function Work<T>(s: System<T>): nat {
    10 * |s.queue| + Weight(s.worker)
  }

  function Weight<T>(p: Phase<T>): nat {
    match p
    case Top => 4
    case Receiving => 1
    case Persisting(_) => 7
    case Retaining(_) => 6
    case Adopting(_) => 5
    case Releasing(_) => 5
    case Sleeping(_) => 6
    case SleepReleasing(_, _) => 5
    case Dropping(after) => 2 + Weight(after)
    case Forgetting(after) => 1 + Weight(after)
    case Asleep => 0
  }

  lemma WorkShrinks<T>(s: System<T>, recovered: bool, ok: bool)
    requires |s.busy| == |s.state| == SLOTS && HandMeant(s.state, s.worker)
    requires s.queue != [] || InHand(s.worker) != []
    requires !s.worker.Asleep?
    ensures Work(WorkerNext(s, recovered, ok)) < Work(s)
    ensures WorkerNext(s, recovered, ok).accepted == s.accepted
  {
    hide Freed, Carries, HandMeant, Received;
    HandInSlot(s.state, s.worker);
    Weights<T>();
    if s.worker.Receiving? {
      ReceivedLight(s.(queue := s.queue[1..]), s.queue[0]);
    }
  }

  lemma ReceivedLight<T>(s: System<T>, m: Message<T>)
    ensures var r := Received(s, m); Weight(r.worker) <= 8 && r.queue == s.queue && r.accepted == s.accepted
  {
    Weights<T>();
  }

  lemma HandInSlot<T>(state: seq<T>, p: Phase<T>)
    requires HandMeant(state, p)
    ensures p.Persisting? || p.Sleeping? ==> p.m.value < |state|
  {
  }

  /** What is received, and what waits behind a drop, is little work. */
  lemma Weights<T>()
    ensures forall m: Message<T> :: Weight(Dropping(Sleeping(m))) == 8 && Weight(Forgetting(Sleeping(m))) == 7
    ensures Weight<T>(Dropping(Top)) == 6 && Weight<T>(Dropping(Receiving)) == 3
    ensures Weight<T>(Forgetting(Top)) == 5 && Weight<T>(Forgetting(Receiving)) == 2
  {
    assert forall m: Message<T> :: Weight(Sleeping(m)) == 6;
    assert Weight<T>(Top) == 4 && Weight<T>(Receiving) == 1;
  }

  /** Left alone, the worker hands every accepted state to persist in a bounded number of actions, or falls asleep. */
  lemma {:induction false} ServesAll<T>(s: System<T>, outcomes: seq<(bool, bool)>) returns (n: nat)
    requires Valid(s) && |outcomes| >= 10 * |s.queue| + 8
    ensures n <= |outcomes|
    ensures var r := WorkerRun(s, outcomes[..n]); r.worker.Asleep? || r.persisted == s.accepted
  {
    hide Valid, Weight, WorkerRun, WorkerNext;
    WeightSmall(s);
    n := ServesRest(s, outcomes);
  }

  lemma WeightSmall<T>(s: System<T>)
    requires Valid(s)
    ensures Work(s) <= 10 * |s.queue| + 8
  {
    hide Owned, Faithful, Pending;
    Weights<T>();
  }

  lemma WorkPositive<T>(s: System<T>)
    requires !s.worker.Asleep?
    ensures Work(s) > 0
  {
  }

  lemma {:induction false} ServesRest<T>(s: System<T>, outcomes: seq<(bool, bool)>) returns (n: nat)
    requires Valid(s) && |outcomes| >= Work(s)
    ensures n <= |outcomes|
    ensures var r := WorkerRun(s, outcomes[..n]); r.worker.Asleep? || r.persisted == s.accepted
    decreases |outcomes|
  {
    hide Owned, Faithful, Controlled, WorkerNext, Work, InHand;
    if s.worker.Asleep? || (s.queue == [] && InHand(s.worker) == []) {
      n := 0;
      assert s.queue == [] ==> Carried(s.queue) == [];
    } else {
      WorkPositive(s);
      var (recovered, ok) := outcomes[0];
      HandFaithful(s);
      WorkShrinks(s, recovered, ok);
      StepKeeps(s, WorkerStep(recovered, ok));
      n := ServesRest(WorkerNext(s, recovered, ok), outcomes[1..]);
      n := n + 1;
      assert outcomes[..n][1..] == outcomes[1..][..n - 1];
    }
  }

  lemma HandFaithful<T>(s: System<T>)
    requires Valid(s)
    ensures HandMeant(s.state, s.worker)
  {
  }
}
