/** The deauthentication burst detector. */
module Burst {
  // A small table of ring buffers against the plain history of frames.

  import opened Core

  const SLOTS: nat := 16
  const RING: nat := 20
  const WINDOW: nat := 10000

  datatype Burst = Burst(used: bool, address: seq<nat>, channel: nat, times: seq<nat>, count: nat, next: nat, last: nat)

  const UNUSED: Burst := Burst(false, [], 0, Repeat(0, RING), 0, 0, 0)

  // ---- One ring ----

  function Push(b: Burst, ms: nat): Burst
    requires |b.times| == RING && b.next < RING
  {
    b.(times := b.times[b.next := ms], next := (b.next + 1) % RING, count := Min(RING, b.count + 1), last := ms)
  }

  predicate Fires(b: Burst, ms: nat)
    requires |b.times| == RING && b.next < RING
  {
    b.count == RING && ms >= b.times[b.next] && ms - b.times[b.next] <= WINDOW
  }

  /** The ring holds the last frames of the history, the oldest of them at next once it is full. */
  ghost predicate Rings(b: Burst, history: seq<nat>) {
    && |b.times| == RING && b.count == Min(RING, |history|) && b.next == |history| % RING
    && b.last == (if history == [] then 0 else history[|history| - 1])
    && forall i | 0 <= i < |history| && i + RING >= |history| :: b.times[i % RING] == history[i]
  }

  /** The last frame and the 19 before it, in time order, span at most the window. */
  ghost predicate Bursts(history: seq<nat>) {
    && |history| >= 20
    && forall i | |history| - 20 <= i < |history| :: history[i] <= history[|history| - 1] <= history[i] + 10000
  }

  ghost predicate Ordered(history: seq<nat>) {
    forall i, j | 0 <= i < j < |history| :: history[i] <= history[j]
  }

  lemma NewRings(b: Burst)
    requires b.times == Repeat(0, RING) && b.count == b.next == b.last == 0
    ensures Rings(b, [])
  {
  }

  lemma PushRings(b: Burst, history: seq<nat>, ms: nat)
    requires Rings(b, history)
    ensures Rings(Push(b, ms), history + [ms])
  {
    var all, pushed, n := history + [ms], Push(b, ms), |history|;
    NextIndex(n);
    forall i | 0 <= i < |all| && i + RING >= |all| ensures pushed.times[i % RING] == all[i] {
      if i < n {
        Apart(i, n);
        assert b.times[i % RING] == history[i] == all[i];
      } else {
        assert i == n && all[i] == ms;
      }
    }
  }

  lemma NextIndex(n: nat)
    ensures (n % RING + 1) % RING == (n + 1) % RING
  {
  }

  lemma Apart(i: nat, n: nat)
    requires i < n < i + RING
    ensures i % RING != n % RING
  {
  }

  /** On ordered frames the ring fires exactly when the last twenty frames lie in the window. */
  lemma FiresExactly(b: Burst, history: seq<nat>, ms: nat)
    requires Rings(b, history) && Ordered(history + [ms])
    ensures Fires(Push(b, ms), ms) <==> Bursts(history + [ms])
  {
    hide Push;
    PushRings(b, history, ms);
    NextIsOldest(Push(b, ms), history + [ms]);
    hide Rings;
  }

  lemma NextIsOldest(b: Burst, all: seq<nat>)
    requires Rings(b, all)
    ensures |b.times| == RING && b.next < RING && (b.count == RING <==> |all| >= RING)
    ensures |all| >= RING ==> b.times[b.next] == all[|all| - RING]
  {
    if |all| >= RING {
      var oldest := |all| - RING;
      assert oldest % RING == |all| % RING;
      assert b.times[oldest % RING] == all[oldest];
    }
  }

  // ---- The table ----

  predicate Matches(b: Burst, address: seq<nat>, channel: nat) {
    b.used && b.address == address && b.channel == channel
  }

  /** histories[i] are the frames recorded in slot i since it was claimed. */
  ghost predicate Sound(table: seq<Burst>, histories: seq<seq<nat>>) {
    && |table| == |histories| == SLOTS
    && (forall i | 0 <= i < SLOTS :: Rings(table[i], histories[i]) && (table[i].used <==> histories[i] != []))
    && (forall i, j | 0 <= i < j < SLOTS && table[i].used && table[j].used ::
          table[i].address != table[j].address || table[i].channel != table[j].channel)
  }

  class BurstTable {
    const bursts: array<Burst>
    ghost var histories: seq<seq<nat>>

    ghost predicate Valid()
      reads this, bursts
    {
      bursts.Length == SLOTS && Sound(bursts[..], histories)
    }

    constructor ()
      ensures Valid() && fresh(bursts) && forall i | 0 <= i < SLOTS :: histories[i] == []
    {
      bursts := new Burst[SLOTS](_ => UNUSED);
      histories := Repeat([], SLOTS);
      new;
      NewRings(UNUSED);
    }

    method Find(address: seq<nat>, channel: nat) returns (slot: int)
      requires Valid()
      ensures -1 <= slot < SLOTS
      ensures slot >= 0 ==> Matches(bursts[slot], address, channel)
      ensures slot < 0 ==> forall i | 0 <= i < SLOTS :: !Matches(bursts[i], address, channel)
    {
      for i := 0 to SLOTS
        invariant forall k | 0 <= k < i :: !Matches(bursts[k], address, channel)
      {
        if Matches(bursts[i], address, channel) {
          return i;
        }
      }
      return -1;
    }

    /** The first unused slot, else the one whose last frame is the oldest. */
    method Victim() returns (slot: nat)
      requires Valid()
      ensures slot < SLOTS
      ensures bursts[slot].used ==> forall i | 0 <= i < SLOTS :: bursts[i].used && bursts[slot].last <= bursts[i].last
    {
      slot := 0;
      for i := 0 to SLOTS
        invariant slot < SLOTS && forall k | 0 <= k < i :: bursts[k].used && bursts[slot].last <= bursts[k].last
      {
        if !bursts[i].used {
          return i;
        }
        if bursts[i].last < bursts[slot].last {
          slot := i;
        }
      }
    }

    /**
     * One frame: recorded behind the earlier ones of its address and channel, or as the first of a slot claimed
     * for them; only that slot changes, and an identity that is present is never claimed a second time.
     */
    method Frame(address: seq<nat>, channel: nat, ms: nat) returns (fires: bool, ghost slot: nat)
      requires Valid()
      modifies this`histories, bursts
      ensures Valid() && slot < SLOTS && Matches(bursts[slot], address, channel)
      ensures forall i | 0 <= i < SLOTS && i != slot :: bursts[i] == old(bursts[i])
      ensures (exists i | 0 <= i < SLOTS :: Matches(old(bursts[i]), address, channel)) ==>
          Matches(old(bursts[slot]), address, channel)
      ensures var kept := if Matches(old(bursts[slot]), address, channel) then old(histories[slot]) else [];
              && histories == old(histories)[slot := kept + [ms]]
              && (Ordered(kept + [ms]) ==> (fires <==> Bursts(kept + [ms])))
      ensures !Matches(old(bursts[slot]), address, channel) && old(bursts[slot].used) ==>
                forall i | 0 <= i < SLOTS :: old(bursts[i].used) && old(bursts[slot].last) <= old(bursts[i].last)
    {
      var found := Find(address, channel);
      var b;
      if found >= 0 {
        slot, b := found, bursts[found];
      } else {
        found := Victim();
        slot, b := found, UNUSED.(used := true, address := address, channel := channel);
      }
      ghost var kept := if Matches(bursts[slot], address, channel) then histories[slot] else [];
      NewRings(UNUSED.(used := true, address := address, channel := channel));
      PushRings(b, kept, ms);
      if Ordered(kept + [ms]) {
        FiresExactly(b, kept, ms);
      }
      hide Rings, Bursts, Ordered, Fires;
      bursts[found] := Push(b, ms);
      histories := histories[slot := kept + [ms]];
      fires := Fires(bursts[found], ms);
    }
  }
}
