/** What the parts of the engine mean: strengths and groups of rules, the tally of sightings, when a report is due. */
module EngineFacts {
  import opened Core
  import opened Engine

  // ---- Rules ----

  /** Payload-free clues: a generic rule, or a manufacturer prefix of a locally administered address. */
  predicate Weak(r: Rule, o: Observation) {
    r.generic || (r.kind == 0 && o.local)
  }

  /** The strength of a rule is the largest that its score, its cap, and the limits of 49 and 79 allow. */
  lemma StrengthIs(r: Rule, o: Observation, n: nat)
    ensures n <= CapOf(r, o) <==> n <= r.cap && (Weak(r, o) ==> n <= 49) && (1 <= r.kind <= 4 ==> n <= 79)
    ensures n <= Strength(r, o) <==> n <= r.score && n <= CapOf(r, o)
  {
  }

  /** Exact and prefix rules of network names share a group, those of device names another; no other kinds do. */
  lemma GroupsShared(a: nat, b: nat)
    requires a < KINDS && b < KINDS
    ensures Group(a) == Group(b) <==> a == b || {a, b} == {1, 2} || {a, b} == {3, 4}
  {
    assert {a, b} == {1, 2} <==> (a == 1 && b == 2) || (a == 2 && b == 1) by {
      assert 1 in {1, 2} && 2 in {1, 2} && a in {a, b} && b in {a, b};
    }
    assert {a, b} == {3, 4} <==> (a == 3 && b == 4) || (a == 4 && b == 3) by {
      assert 3 in {3, 4} && 4 in {3, 4} && a in {a, b} && b in {a, b};
    }
  }

  /** The rules that join are those of the category that hit, if it is switched on. */
  lemma {:induction false} JoiningIs(rules: seq<Rule>, enabled: seq<bool>, hits: seq<bool>, n: nat, c: nat, r: Rule)
    requires n <= |rules| == |hits| && forall r | r in rules :: ProperRule(r)
    ensures r in Joining(rules, enabled, hits, n, c) <==>
              c < |enabled| && enabled[c] && exists k: nat :: k < n && hits[k] && rules[k] == r && r.category == c
  {
    if n > 0 {
      JoiningIs(rules, enabled, hits, n - 1, c, r);
      if c < |enabled| && enabled[c] && hits[n - 1] && rules[n - 1] == r && r.category == c {
        assert Joins(rules, enabled, hits, n - 1, c);
      }
    }
  }

  // ---- Sightings ----

  /** The entry of an identity that was seen by these observations, and by nothing before. */
  function Sighted(c: nat, os: seq<Observation>): Entry
    requires os != []
    decreases |os|
  {
    var n := |os| - 1;
    Seen(if n == 0 then Claimed(c, os[0]) else Sighted(c, os[..n]), os[n])
  }

  function Sum(os: seq<Observation>): int {
    if os == [] then 0 else Sum(os[..|os| - 1]) + os[|os| - 1].rssi
  }

  ghost predicate Extremes(os: seq<Observation>, low: int, high: int) {
    && (forall k | 0 <= k < |os| :: low <= os[k].rssi <= high)
    && (exists k :: 0 <= k < |os| && os[k].rssi == low) && (exists k :: 0 <= k < |os| && os[k].rssi == high)
  }

  predicate LastSeen(d: Detection, o: Observation) {
    && d.lastMs == o.ms && d.address == o.address && d.addressType == o.addressType && d.channel == o.channel
    && d.samsung == if d.category == 7 && o.radio == Ble then o.samsung else NO_TAG
  }

  /** One more sighting, as long as it can be counted. */
  lemma SeenOnce(e: Entry, o: Observation)
    ensures var d, was := Seen(e, o).detection, e.detection;
            && d.category == was.category && d.radio == was.radio && d.firstMs == was.firstMs && LastSeen(d, o)
            && d.rssiMin == Min(was.rssiMin, o.rssi) && d.rssiMax == Max(was.rssiMax, o.rssi)
            && (was.seenCount < 0xffff_ffff ==>
                  d.seenCount == was.seenCount + 1 && d.rssiSum == was.rssiSum + o.rssi)
  {
  }

  /** The tally: how often, with which signal strengths, from when to when, and where it was seen last. */
  lemma {:induction false} SightedTally(c: nat, os: seq<Observation>)
    requires os != [] && |os| < 0x1_0000_0000
    ensures var d := Sighted(c, os).detection;
            && d.category == c && d.radio == os[0].radio && d.firstMs == os[0].ms && LastSeen(d, os[|os| - 1])
            && d.seenCount == |os| && d.rssiSum == Sum(os) && Extremes(os, d.rssiMin, d.rssiMax)
    decreases |os|
  {
    hide Seen, LastSeen;
    var n := |os| - 1;
    assert os == os[..n] + [os[n]];
    SeenOnce(if n == 0 then Claimed(c, os[0]) else Sighted(c, os[..n]), os[n]);
    if n == 0 {
      assert Sum(os[..0]) == 0 && Extremes(os, os[0].rssi, os[0].rssi);
    } else {
      SightedTally(c, os[..n]);
      var d := Sighted(c, os[..n]).detection;
      ExtremesNext(os[..n], os[n], d.rssiMin, d.rssiMax);
    }
  }

  lemma ExtremesNext(os: seq<Observation>, o: Observation, low: int, high: int)
    requires Extremes(os, low, high)
    ensures Extremes(os + [o], Min(low, o.rssi), Max(high, o.rssi))
  {
    var all := os + [o];
    var i :| 0 <= i < |os| && os[i].rssi == low;
    var j :| 0 <= j < |os| && os[j].rssi == high;
    assert all[i].rssi == low && all[j].rssi == high && all[|os|].rssi == o.rssi;
  }

  /** After more sightings than can be counted the count and the sum stand still, the extremes do not. */
  lemma Saturates(e: Entry, o: Observation)
    requires e.detection.seenCount == 0xffff_ffff
    ensures var d, was := Seen(e, o).detection, e.detection;
            && d.seenCount == was.seenCount && d.rssiSum == was.rssiSum && LastSeen(d, o)
            && d.rssiMin == Min(was.rssiMin, o.rssi) && d.rssiMax == Max(was.rssiMax, o.rssi)
  {
  }

  /**
   * An identity is found again: a Samsung tag whose identifier is readable both times by that identifier, anything
   * else by its address and the type of it; always by category and radio.
   */
  lemma FoundAgain(c: nat, os: seq<Observation>, o: Observation)
    requires os != [] && |os| < 0x1_0000_0000
    ensures var last := os[|os| - 1];
            var tag := c == 7 && os[0].radio == last.radio == Ble;
            Looks(Sighted(c, os).detection, c, o) <==>
              && o.radio == os[0].radio
              && if tag && last.samsung.state != Unavailable && o.samsung.state != Unavailable
                 then last.samsung.id == o.samsung.id
                 else last.address == o.address && last.addressType == o.addressType
  {
    hide Sighted, Extremes, Sum;
    SightedTally(c, os);
  }

  // ---- Reports ----

  /** A grade rises where the score passes 20, 50 or 80. */
  lemma GradeRises(was: nat, score: nat)
    ensures Grade(score) > Grade(was) <==> Passes(was, 20, score) || Passes(was, 50, score) || Passes(was, 80, score)
  {
  }

  predicate Passes(was: nat, line: nat, score: nat) {
    was < line <= score
  }

  /**
   * After a report at some time later than 0, the next is due when 30 s have passed, or before that as soon as the
   * grade rises or the tag claims another state.
   */
  lemma DueAgain(e: Entry, d: Detection, at: nat, ms: nat)
    requires e.emitted == at && 0 < at <= ms
    ensures Due(e, d, ms) <==>
              || ms >= at + 30000 || d.samsung.state != e.emittedState
              || Passes(e.detection.score, 20, d.score) || Passes(e.detection.score, 50, d.score)
              || Passes(e.detection.score, 80, d.score)
  {
    GradeRises(e.detection.score, d.score);
  }

  /** What was never reported is due at once. */
  lemma FirstDue(c: nat, os: seq<Observation>, e: Entry, d: Detection, ms: nat)
    requires os != [] && e.emitted == Sighted(c, os).emitted
    ensures Due(e, d, ms)
  {
    NotEmitted(c, os);
  }

  lemma {:induction false} NotEmitted(c: nat, os: seq<Observation>)
    requires os != []
    ensures Sighted(c, os).emitted == 0
    decreases |os|
  {
    if |os| > 1 {
      NotEmitted(c, os[..|os| - 1]);
    }
  }
}
