/** A tag that stays near is tracked from its first sighting on, and leads to a warning. */
module TagPresence {
  import opened Core
  import opened TagWatch

  /** What the calls of observe between two looks at the watch make of its entries. */
  ghost predicate Ran(states: seq<seq<Entry>>, log: seq<Sighting>, started: nat, demo: bool) {
    && |states| == |log| + 1
    && forall k | 0 <= k < |log| :: Stepped(states[k], states[k + 1], log[k], started, demo)
  }

  ghost predicate Stepped(before: seq<Entry>, after: seq<Entry>, s: Sighting, started: nat, demo: bool) {
    if Eligible(s, started, demo) && Timely(s) then Observed(before, after, s) else after == before
  }

  predicate Accepted(s: Sighting, started: nat, demo: bool, hash: nat) {
    Eligible(s, started, demo) && Timely(s) && s.hash == hash
  }

  /** The times at which the identity was seen, each later than the one before. */
  function Trail(log: seq<Sighting>, started: nat, demo: bool, hash: nat): seq<nat> {
    if log == [] then []
    else
      var s, t := log[|log| - 1], Trail(log[..|log| - 1], started, demo, hash);
      if Accepted(s, started, demo, hash) && (t == [] || t[|t| - 1] < s.d.lastMs) then t + [s.d.lastMs] else t
  }

  /** The score of the sighting that the trail ends with. */
  function LastScore(log: seq<Sighting>, started: nat, demo: bool, hash: nat): nat {
    if log == [] then 0
    else
      var s, init := log[|log| - 1], log[..|log| - 1];
      if Trail(log, started, demo, hash) != Trail(init, started, demo, hash) then s.d.score
      else LastScore(init, started, demo, hash)
  }

  /** The identity is near: never connected, and seen within two minutes before anything else is looked at. */
  predicate Near(log: seq<Sighting>, started: nat, demo: bool, hash: nat) {
    && log != [] && Accepted(log[0], started, demo, hash)
    && (forall k | 0 <= k < |log| && Accepted(log[k], started, demo, hash) :: !log[k].d.SamsungConnected())
    && forall k | 1 <= k < |log| :: Within(Trail(log[..k], started, demo, hash), log[k].now)
  }

  predicate Within(trail: seq<nat>, now: nat) {
    trail != [] && trail[|trail| - 1] <= now <= trail[|trail| - 1] + 120000
  }

  /** The minutes since the first sighting in which there was one. */
  ghost function Minutes(trail: seq<nat>): set<int>
    requires trail != []
  {
    set k | 0 <= k < |trail| :: MinuteOf(trail, trail[k])
  }

  function MinuteOf(trail: seq<nat>, at: nat): int
    requires trail != []
  {
    (at - trail[0]) / 60000
  }

  lemma MinutesAreBins(trail: seq<nat>)
    requires trail != []
    ensures Minutes(trail) == Bins(trail)
  {
    forall k | 0 <= k < |trail| ensures BinOf(trail, trail[k]) == MinuteOf(trail, trail[k]) {
    }
  }

  /** An entry that holds all there is to know of the trail. */
  ghost predicate Tracks(e: Entry, trail: seq<nat>, hash: nat, category: nat, score: nat) {
    && trail != [] && e.hash == hash && e.first == trail[0] && e.last == trail[|trail| - 1]
    && e.minutes == Min(65535, |Minutes(trail)|) && e.category == category && e.score == score && !e.acknowledged
  }

  ghost predicate Tracked(entries: seq<Entry>, trail: seq<nat>, hash: nat, category: nat, score: nat) {
    exists i: nat | i < |entries| :: Tracks(entries[i], trail, hash, category, score)
  }

  lemma NearBefore(log: seq<Sighting>, started: nat, demo: bool, hash: nat)
    requires Near(log, started, demo, hash) && |log| > 1
    ensures Near(log[..|log| - 1], started, demo, hash)
  {
    var init := log[..|log| - 1];
    forall k | 1 <= k < |init| ensures Within(Trail(init[..k], started, demo, hash), init[k].now) {
      assert init[..k] == log[..k];
    }
  }

  lemma {:induction false} TrailUnbroken(log: seq<Sighting>, started: nat, demo: bool, hash: nat)
    requires Near(log, started, demo, hash)
    ensures var t := Trail(log, started, demo, hash); t != [] && Unbroken(t)
  {
    hide Near, Within, Accepted, Trail, Unbroken;
    NearNonempty(log, started, demo, hash);
    var s, before := log[|log| - 1], Trail(log[..|log| - 1], started, demo, hash);
    TrailNext(log, started, demo, hash);
    if |log| == 1 {
      OneNear(log, started, demo, hash);
      TrailNone(log[..0], started, demo, hash);
    } else {
      NearBefore(log, started, demo, hash);
      TrailUnbroken(log[..|log| - 1], started, demo, hash);
      NearStep(log, started, demo, hash);
      InTime(before, s, started, demo, hash);
    }
    UnbrokenNext(before, s.d.lastMs);
  }

  lemma TrailNext(log: seq<Sighting>, started: nat, demo: bool, hash: nat)
    requires log != []
    ensures var s, t := log[|log| - 1], Trail(log[..|log| - 1], started, demo, hash);
            Trail(log, started, demo, hash)
            == if Accepted(s, started, demo, hash) && (t == [] || t[|t| - 1] < s.d.lastMs) then t + [s.d.lastMs] else t
  {
    hide Accepted;
  }

  lemma TrailNone(log: seq<Sighting>, started: nat, demo: bool, hash: nat)
    requires log == []
    ensures Trail(log, started, demo, hash) == []
  {
  }

  lemma UnbrokenNext(trail: seq<nat>, at: nat)
    ensures trail == [] ==> Unbroken(trail + [at])
    ensures trail != [] && Unbroken(trail) && trail[|trail| - 1] < at <= trail[|trail| - 1] + GAP ==>
              Unbroken(trail + [at])
  {
  }

  /** What is accepted while the identity is near lies within the gap. */
  lemma InTime(trail: seq<nat>, s: Sighting, started: nat, demo: bool, hash: nat)
    requires Within(trail, s.now)
    ensures trail != [] && (Accepted(s, started, demo, hash) ==> s.d.lastMs <= trail[|trail| - 1] + GAP)
  {
  }

  /**
   * If the table has room when it is first seen, the identity is tracked with its exact first and last time and
   * number of minutes, whatever else is observed between.
   */
  lemma {:induction false} NearIsTracked(states: seq<seq<Entry>>, log: seq<Sighting>, started: nat, demo: bool,
      hash: nat)
    requires Ran(states, log, started, demo) && Near(log, started, demo, hash)
    requires !Holds(states[0], hash) && exists i | 0 <= i < |states[0]| :: !states[0][i].Fresh(log[0].now)
    ensures Tracked(states[|log|], Trail(log, started, demo, hash), hash, log[0].d.category,
        LastScore(log, started, demo, hash))
  {
    if |log| == 1 {
      FirstTracked(states[0], states[1], log, started, demo, hash);
    } else {
      hide *;
      var init := log[..|log| - 1];
      RanBefore(states, log, started, demo);
      NearBefore(log, started, demo, hash);
      assert init[0] == log[0] by { NearNonempty(log, started, demo, hash); }
      NearIsTracked(states[..|log|], init, started, demo, hash);
      TrailUnbroken(init, started, demo, hash);
      NearStep(log, started, demo, hash);
      NextTracked(states[|log| - 1], states[|log|], log, started, demo, hash, log[0].d.category);
    }
  }

  lemma NearNonempty(log: seq<Sighting>, started: nat, demo: bool, hash: nat)
    requires Near(log, started, demo, hash)
    ensures log != []
  {
  }

  lemma RanBefore(states: seq<seq<Entry>>, log: seq<Sighting>, started: nat, demo: bool)
    requires Ran(states, log, started, demo) && log != []
    ensures Ran(states[..|log|], log[..|log| - 1], started, demo) && |states| == |log| + 1
    ensures Stepped(states[|log| - 1], states[|log|], log[|log| - 1], started, demo)
  {
  }

  lemma NearStep(log: seq<Sighting>, started: nat, demo: bool, hash: nat)
    requires Near(log, started, demo, hash) && |log| > 1
    ensures Within(Trail(log[..|log| - 1], started, demo, hash), log[|log| - 1].now)
    ensures Accepted(log[|log| - 1], started, demo, hash) ==> !log[|log| - 1].d.SamsungConnected()
    ensures hash != 0
  {
  }

  lemma FirstTracked(before: seq<Entry>, after: seq<Entry>, log: seq<Sighting>, started: nat, demo: bool, hash: nat)
    requires |log| == 1 && Near(log, started, demo, hash) && Stepped(before, after, log[0], started, demo)
    requires !Holds(before, hash) && exists i | 0 <= i < |before| :: !before[i].Fresh(log[0].now)
    ensures Tracked(after, Trail(log, started, demo, hash), hash, log[0].d.category,
        LastScore(log, started, demo, hash))
  {
    hide Near, Holds, Minutes, OnlySlot;
    var s := log[0];
    assert !s.d.SamsungConnected() by { OneNear(log, started, demo, hash); }
    assert Accepted(s, started, demo, hash) by { OneNear(log, started, demo, hash); }
    assert log[..0] == [];
    assert Trail(log, started, demo, hash) == [s.d.lastMs];
    MinutesAreBins([s.d.lastMs]);
    BinsOfOne(s.d.lastMs);
    var i: nat :| i < |before| && after[i] == Opened(s) && OnlySlot(before, after, i);
    assert Tracks(after[i], [s.d.lastMs], hash, s.d.category, s.d.score);
  }

  lemma OneNear(log: seq<Sighting>, started: nat, demo: bool, hash: nat)
    requires Near(log, started, demo, hash)
    ensures Accepted(log[0], started, demo, hash) && !log[0].d.SamsungConnected()
  {
  }

  lemma NextTracked(before: seq<Entry>, after: seq<Entry>, log: seq<Sighting>, started: nat, demo: bool, hash: nat,
      category: nat)
    requires log != [] && hash != 0 && Stepped(before, after, log[|log| - 1], started, demo)
    requires var t := Trail(log[..|log| - 1], started, demo, hash);
             Within(t, log[|log| - 1].now) && Unbroken(t)
    requires Accepted(log[|log| - 1], started, demo, hash) ==> !log[|log| - 1].d.SamsungConnected()
    requires Tracked(before, Trail(log[..|log| - 1], started, demo, hash), hash, category,
        LastScore(log[..|log| - 1], started, demo, hash))
    ensures Tracked(after, Trail(log, started, demo, hash), hash, category, LastScore(log, started, demo, hash))
  {
    hide Minutes, Unbroken, Eligible;
    var s, t, score := log[|log| - 1], Trail(log[..|log| - 1], started, demo, hash),
        LastScore(log[..|log| - 1], started, demo, hash);
    var i: nat :| i < |before| && Tracks(before[i], t, hash, category, score);
    if !Accepted(s, started, demo, hash) {
      assert after[i] == before[i] by {
        if Eligible(s, started, demo) && Timely(s) {
          FreshNeverDisplaced(before, after, s, i);
        }
      }
      assert Tracks(after[i], t, hash, category, score);
    } else {
      assert before[i].hash == hash;
      assert after[i] == Extended(before[i], s);
      if t[|t| - 1] < s.d.lastMs {
        TracksExtended(before[i], t, s, hash, category, score);
        assert Trail(log, started, demo, hash) == t + [s.d.lastMs];
      }
    }
  }

  lemma TracksExtended(e: Entry, t: seq<nat>, s: Sighting, hash: nat, category: nat, score: nat)
    requires Tracks(e, t, hash, category, score) && Unbroken(t) && e.first <= e.last
    requires e.last < s.d.lastMs <= e.last + 120000
    ensures Tracks(Extended(e, s), t + [s.d.lastMs], hash, category, s.d.score)
  {
    hide Minutes, Unbroken, Bins;
    MinutesAreBins(t);
    MinutesAreBins(t + [s.d.lastMs]);
    BinsGrow(t, s.d.lastMs);
  }

  /** A tracked identity is warned of exactly from ten minutes and eight occupied minutes on, for two minutes. */
  lemma WarnsExactly(e: Entry, trail: seq<nat>, hash: nat, category: nat, score: nat, now: nat)
    requires Tracks(e, trail, hash, category, score) && Unbroken(trail) && hash != 0
    ensures e.Ready(now) <==>
              && trail[|trail| - 1] >= trail[0] + 600000 && |Minutes(trail)| >= 8
              && trail[|trail| - 1] <= now <= trail[|trail| - 1] + 120000
  {
    hide Minutes;
    UnbrokenBelow(trail, 0, |trail| - 1);
  }
}
