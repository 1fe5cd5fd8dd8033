/** Travel Watch: warns when one keyed identity has stayed near for a long time. */
module TagWatch {
  import opened Core

  const SLOTS: nat := 16
  const DURATION: nat := 600000
  const GAP: nat := 120000
  const BIN: nat := 60000
  const REQUIRED_MINUTES: nat := 8
  const MINUTES_MAX: nat := 65535
  const COUNTER_MAX: nat := 0xffff_ffff

  datatype Entry = Entry(hash: nat, first: nat, last: nat, minutes: nat, category: nat, score: nat,
      acknowledged: bool) {
    predicate Fresh(now: nat) {
      hash != 0 && now >= last && now - last <= GAP
    }

    predicate Ready(now: nat) {
      Fresh(now) && last >= first && last - first >= DURATION && minutes >= REQUIRED_MINUTES
    }
  }

  const EMPTY := Entry(0, 0, 0, 0, 0, 0, false)

  /** One call of observe: a detection, its keyed identity and the clock at the call. */
  datatype Sighting = Sighting(hash: nat, d: Detection, now: nat)

  predicate IsTag(category: nat) {
    category == AIRTAG || category == SAMSUNG_TAG || category == TILE || category == GOOGLE_TAG
  }

  /** The sightings that the watch looks at, before its clock tests. */
  predicate Eligible(s: Sighting, started: nat, demo: bool) {
    && s.hash != 0 && IsTag(s.d.category) && s.d.radio == Ble && s.d.demo == demo
    && 50 <= s.d.score <= 100 && s.d.lastMs >= started
  }

  predicate Timely(s: Sighting) {
    s.d.lastMs <= s.now && s.now - s.d.lastMs <= GAP
  }

  // ---- What justifies an entry ----

  /** The watch was offered such a sighting. */
  ghost predicate Seen(log: seq<Sighting>, started: nat, demo: bool, hash: nat, at: nat) {
    exists k | 0 <= k < |log| :: Counts(log[k], started, demo, hash, at)
  }

  /** An acceptable, unconnected sighting of this identity at this time. */
  predicate Counts(s: Sighting, started: nat, demo: bool, hash: nat, at: nat) {
    Eligible(s, started, demo) && Timely(s) && !s.d.SamsungConnected() && s.hash == hash && s.d.lastMs == at
  }

  function BinOf(chain: seq<nat>, at: nat): int
    requires chain != []
  {
    (at - chain[0]) / BIN
  }

  ghost function Bins(chain: seq<nat>): set<int>
    requires chain != []
  {
    set k | 0 <= k < |chain| :: BinOf(chain, chain[k])
  }

  /** Strictly later sightings, each within the gap of the one before. */
  ghost predicate Unbroken(chain: seq<nat>) {
    forall k | 0 < k < |chain| :: chain[k - 1] < chain[k] <= chain[k - 1] + GAP
  }

  ghost predicate Chain(chain: seq<nat>, log: seq<Sighting>, started: nat, demo: bool, hash: nat) {
    chain != [] && Unbroken(chain) && forall k | 0 <= k < |chain| :: Seen(log, started, demo, hash, chain[k])
  }

  /** The sightings behind a warning: long enough, unbroken, spread over enough minutes, recent. */
  ghost predicate Justifies(chain: seq<nat>, log: seq<Sighting>, started: nat, demo: bool, hash: nat, now: nat) {
    && Chain(chain, log, started, demo, hash)
    && chain[|chain| - 1] - chain[0] >= DURATION
    && |Bins(chain)| >= REQUIRED_MINUTES
    && chain[|chain| - 1] <= now <= chain[|chain| - 1] + GAP
  }

  ghost predicate Backed(e: Entry, chain: seq<nat>, log: seq<Sighting>, started: nat, demo: bool) {
    if e.hash == 0 then e == EMPTY && chain == []
    else
      && Chain(chain, log, started, demo, e.hash)
      && chain[0] == e.first && chain[|chain| - 1] == e.last
      && e.minutes == Min(MINUTES_MAX, |Bins(chain)|)
  }

  /** Every entry is backed by its own chain of sightings and no identity has two entries. */
  ghost predicate Sound(entries: seq<Entry>, chains: seq<seq<nat>>, log: seq<Sighting>, started: nat, demo: bool) {
    && |entries| == |chains| == SLOTS
    && (forall i | 0 <= i < SLOTS :: Backed(entries[i], chains[i], log, started, demo))
    && (forall i, j | 0 <= i < j < SLOTS && entries[i].hash != 0 :: entries[i].hash != entries[j].hash)
  }

  lemma ChainKept(chain: seq<nat>, log: seq<Sighting>, s: Sighting, started: nat, demo: bool, hash: nat)
    requires Chain(chain, log, started, demo, hash)
    ensures Chain(chain, log + [s], started, demo, hash)
  {
    forall k | 0 <= k < |chain| ensures Seen(log + [s], started, demo, hash, chain[k]) {
      var m :| 0 <= m < |log| && Counts(log[m], started, demo, hash, chain[k]);
      assert (log + [s])[m] == log[m];
    }
  }

  lemma SoundKept(entries: seq<Entry>, chains: seq<seq<nat>>, log: seq<Sighting>, s: Sighting, started: nat, demo: bool)
    requires Sound(entries, chains, log, started, demo)
    ensures Sound(entries, chains, log + [s], started, demo)
  {
    forall i | 0 <= i < SLOTS ensures Backed(entries[i], chains[i], log + [s], started, demo) {
      if entries[i].hash != 0 {
        ChainKept(chains[i], log, s, started, demo, entries[i].hash);
      }
    }
  }

  lemma {:induction false} UnbrokenBelow(chain: seq<nat>, i: nat, j: nat)
    requires Unbroken(chain) && i <= j < |chain|
    ensures chain[i] + (j - i) <= chain[j]
  {
    if i < j {
      UnbrokenBelow(chain, i, j - 1);
    }
  }

  lemma BinMonotone(chain: seq<nat>, a: nat, b: nat)
    requires chain != [] && chain[0] <= a <= b
    ensures 0 <= BinOf(chain, a) <= BinOf(chain, b)
  {
  }

  lemma BinsAppend(chain: seq<nat>, at: nat)
    requires chain != []
    ensures Bins(chain + [at]) == Bins(chain) + {BinOf(chain, at)}
  {
    var n, longer := |chain|, chain + [at];
    forall b | b in Bins(chain) + {BinOf(chain, at)} ensures b in Bins(longer) {
      if b == BinOf(chain, at) {
        assert longer[n] == at && BinOf(longer, longer[n]) == b;
      } else {
        var k :| 0 <= k < n && BinOf(chain, chain[k]) == b;
        assert longer[k] == chain[k] && BinOf(longer, longer[k]) == b;
      }
    }
    forall b | b in Bins(longer) ensures b in Bins(chain) + {BinOf(chain, at)} {
      var k :| 0 <= k < n + 1 && BinOf(longer, longer[k]) == b;
      if k < n {
        assert longer[k] == chain[k] && BinOf(chain, chain[k]) == b;
      }
    }
  }

  /** A later sighting opens a new minute exactly when its bin differs from the last one's. */
  lemma BinsGrow(chain: seq<nat>, at: nat)
    requires chain != [] && Unbroken(chain) && chain[|chain| - 1] < at
    ensures |Bins(chain + [at])|
         == |Bins(chain)| + if BinOf(chain, at) != BinOf(chain, chain[|chain| - 1]) then 1 else 0
  {
    var last, b := |chain| - 1, BinOf(chain, at);
    BinsAppend(chain, at);
    if b == BinOf(chain, chain[last]) {
      assert b in Bins(chain);
      assert Bins(chain) + {b} == Bins(chain);
    } else {
      UnbrokenBelow(chain, 0, last);
      BinMonotone(chain, chain[last], at);
      forall k | 0 <= k < |chain| ensures BinOf(chain, chain[k]) != b {
        UnbrokenBelow(chain, k, last);
        UnbrokenBelow(chain, 0, k);
        BinMonotone(chain, chain[k], chain[last]);
      }
      assert b !in Bins(chain);
    }
  }

  lemma BinsOfOne(at: nat)
    ensures Bins([at]) == {0}
  {
    assert BinOf([at], [at][0]) == 0;
    assert 0 in Bins([at]);
  }

  /** No flood of packets can fill minutes faster than the clock does. */
  lemma {:induction false} MinutesNeedTime(chain: seq<nat>)
    requires chain != [] && Unbroken(chain)
    ensures |Bins(chain)| <= (chain[|chain| - 1] - chain[0]) / BIN + 1
  {
    if |chain| == 1 {
      BinsOfOne(chain[0]);
      assert chain == [chain[0]];
    } else {
      var init, last := chain[..|chain| - 1], chain[|chain| - 1];
      MinutesNeedTime(init);
      assert chain == init + [last];
      BinsGrow(init, last);
      UnbrokenBelow(chain, 0, |chain| - 2);
    }
  }

  // ---- What one call does ----

  function Opened(s: Sighting): Entry {
    Entry(s.hash, s.d.lastMs, s.d.lastMs, 1, s.d.category, s.d.score, false)
  }

  /** The entry of the sighted identity afterwards: unchanged, extended, or restarted after a gap. */
  function Extended(e: Entry, s: Sighting): Entry
    requires e.first <= e.last
  {
    if s.d.lastMs <= e.last then e
    else if s.d.lastMs - e.last > GAP then Opened(s)
    else e.(minutes := if (s.d.lastMs - e.first) / BIN != (e.last - e.first) / BIN
                       then Min(MINUTES_MAX, e.minutes + 1) else e.minutes,
            last := s.d.lastMs, score := s.d.score)
  }

  ghost predicate Holds(entries: seq<Entry>, hash: nat) {
    exists i | 0 <= i < |entries| :: entries[i].hash == hash
  }

  ghost predicate OnlySlot(before: seq<Entry>, after: seq<Entry>, i: nat) {
    |before| == |after| && forall k | 0 <= k < |before| && k != i :: after[k] == before[k]
  }

  ghost predicate Observed(before: seq<Entry>, after: seq<Entry>, s: Sighting) {
    && |before| == |after|
    && (s.d.SamsungConnected() ==>
          forall i | 0 <= i < |before| ::
            after[i] == if before[i].hash == s.hash && s.d.lastMs >= before[i].last then EMPTY else before[i])
    && (!s.d.SamsungConnected() && Holds(before, s.hash) ==>
          forall i | 0 <= i < |before| ::
            if before[i].hash == s.hash then before[i].first <= before[i].last && after[i] == Extended(before[i], s)
            else after[i] == before[i])
    && (!s.d.SamsungConnected() && !Holds(before, s.hash) ==>
          if forall i | 0 <= i < |before| :: before[i].Fresh(s.now) then after == before
          else exists i: nat | i < |before| ::
            !before[i].Fresh(s.now) && after[i] == Opened(s) && OnlySlot(before, after, i))
  }

  /** The identity was seen again only after a gap, so its entry starts over. */
  ghost predicate Restarts(before: seq<Entry>, s: Sighting) {
    exists i | 0 <= i < |before| ::
      before[i].hash == s.hash && !s.d.SamsungConnected() && s.d.lastMs > before[i].last + GAP
  }

  /** The identity's entry is given up because the tag is in use. */
  ghost predicate Filters(before: seq<Entry>, s: Sighting) {
    exists i | 0 <= i < |before| ::
      before[i].hash == s.hash && s.d.SamsungConnected() && s.d.lastMs >= before[i].last
  }

  function Counted(n: nat, more: bool): nat {
    Min(COUNTER_MAX, if more then n + 1 else n)
  }

  /** A crowd never pushes out an identity that is still present. */
  lemma FreshNeverDisplaced(before: seq<Entry>, after: seq<Entry>, s: Sighting, i: nat)
    requires Observed(before, after, s) && i < |before|
    requires before[i].Fresh(s.now) && before[i].hash != s.hash
    ensures after[i] == before[i]
  {
  }

  lemma ExtendedBacked(e: Entry, chain: seq<nat>, log: seq<Sighting>, s: Sighting, started: nat, demo: bool)
    requires e.hash == s.hash && Backed(e, chain, log + [s], started, demo)
    requires Eligible(s, started, demo) && Timely(s) && !s.d.SamsungConnected()
    ensures e.first <= e.last && chain != []
    ensures Backed(Extended(e, s), Followed(chain, s), log + [s], started, demo)
  {
    UnbrokenBelow(chain, 0, |chain| - 1);
    SeenNow(log, s, started, demo);
    if e.last < s.d.lastMs && s.d.lastMs - e.last <= GAP {
      LongerBacked(e, chain, log, s, started, demo);
    } else if e.last < s.d.lastMs {
      OpenedBacked(log, s, started, demo);
    }
  }

  lemma LongerBacked(e: Entry, chain: seq<nat>, log: seq<Sighting>, s: Sighting, started: nat, demo: bool)
    requires e.hash == s.hash && Backed(e, chain, log + [s], started, demo) && e.hash != 0 && e.first <= e.last
    requires e.last < s.d.lastMs && s.d.lastMs - e.last <= GAP
    requires Seen(log + [s], started, demo, s.hash, s.d.lastMs)
    ensures Backed(Extended(e, s), chain + [s.d.lastMs], log + [s], started, demo)
  {
    BinsGrow(chain, s.d.lastMs);
    var longer := chain + [s.d.lastMs];
    assert Unbroken(longer);
    assert Chain(longer, log + [s], started, demo, s.hash);
  }

  /** The chain behind the entry that Extended returns. */
  function Followed(chain: seq<nat>, s: Sighting): seq<nat>
    requires chain != []
  {
    var last := chain[|chain| - 1];
    if s.d.lastMs <= last then chain
    else if s.d.lastMs - last > GAP then [s.d.lastMs]
    else chain + [s.d.lastMs]
  }

  lemma SeenNow(log: seq<Sighting>, s: Sighting, started: nat, demo: bool)
    requires Eligible(s, started, demo) && Timely(s) && !s.d.SamsungConnected()
    ensures Seen(log + [s], started, demo, s.hash, s.d.lastMs)
  {
    assert (log + [s])[|log|] == s;
  }

  lemma OpenedBacked(log: seq<Sighting>, s: Sighting, started: nat, demo: bool)
    requires Eligible(s, started, demo) && Timely(s) && !s.d.SamsungConnected()
    ensures Backed(Opened(s), [s.d.lastMs], log + [s], started, demo)
  {
    SeenNow(log, s, started, demo);
    BinsOfOne(s.d.lastMs);
  }

  ghost predicate Distinct(entries: seq<Entry>) {
    forall i, j | 0 <= i < j < |entries| && entries[i].hash != 0 :: entries[i].hash != entries[j].hash
  }

  lemma ObservedConnected(before: seq<Entry>, s: Sighting, i: nat)
    requires s.d.SamsungConnected() && Distinct(before) && s.hash != 0
    requires i < |before| && before[i].hash == s.hash
    ensures Observed(before, if s.d.lastMs >= before[i].last then before[i := EMPTY] else before, s)
  {
  }

  lemma ObservedNothing(before: seq<Entry>, s: Sighting)
    requires s.d.SamsungConnected() && !Holds(before, s.hash)
    ensures Observed(before, before, s)
  {
  }

  lemma HashNonzero(s: Sighting, started: nat, demo: bool)
    requires Eligible(s, started, demo)
    ensures s.hash != 0
  {
  }

  lemma ObservedExtended(before: seq<Entry>, s: Sighting, i: nat)
    requires !s.d.SamsungConnected() && Distinct(before) && s.hash != 0
    requires i < |before| && before[i].hash == s.hash && before[i].first <= before[i].last
    ensures Observed(before, before[i := Extended(before[i], s)], s)
  {
    assert before[i].hash == s.hash;
  }

  lemma ObservedOpened(before: seq<Entry>, s: Sighting, i: nat)
    requires !s.d.SamsungConnected() && !Holds(before, s.hash)
    requires i < |before| && !before[i].Fresh(s.now)
    ensures Observed(before, before[i := Opened(s)], s)
  {
    assert OnlySlot(before, before[i := Opened(s)], i);
  }

  class Watch {
    const entries: array<Entry>
    var started: nat
    var gapResets: nat
    var filterResets: nat
    var clockSkips: nat
    var armed: bool
    var demo: bool
    /** Every call of observe since the watch was started, and the chain behind each entry. */
    ghost var log: seq<Sighting>
    ghost var chains: seq<seq<nat>>

    ghost predicate Valid()
      reads this, entries
    {
      && entries.Length == SLOTS && Sound(entries[..], chains, log, started, demo)
      && gapResets <= COUNTER_MAX && filterResets <= COUNTER_MAX && clockSkips <= COUNTER_MAX
    }

    constructor ()
      ensures Valid() && !armed && log == [] && fresh(entries)
      ensures forall i | 0 <= i < SLOTS :: entries[i] == EMPTY
    {
      entries := new Entry[SLOTS](_ => EMPTY);
      started, gapResets, filterResets, clockSkips, armed, demo := 0, 0, 0, 0, false, false;
      log, chains := [], seq(SLOTS, _ => []);
    }

    method Erase()
      requires entries.Length == SLOTS
      modifies entries
      ensures forall i | 0 <= i < SLOTS :: entries[i] == EMPTY
    {
      for i := 0 to SLOTS
        invariant forall k | 0 <= k < i :: entries[k] == EMPTY
      {
        entries[i] := EMPTY;
      }
    }

    method Start(now: nat, synthetic: bool)
      requires Valid()
      modifies this, entries
      ensures Valid() && armed && started == now && demo == synthetic && log == []
      ensures forall i | 0 <= i < SLOTS :: entries[i] == EMPTY
      ensures gapResets == filterResets == clockSkips == 0
    {
      Erase();
      started, demo, armed := now, synthetic, true;
      gapResets, filterResets, clockSkips := 0, 0, 0;
      log, chains := [], seq(SLOTS, _ => []);
    }

    method Clear()
      requires Valid()
      modifies this, entries
      ensures Valid() && !armed && log == old(log)
      ensures forall i | 0 <= i < SLOTS :: entries[i] == EMPTY
    {
      Erase();
      armed := false;
      chains := seq(SLOTS, _ => []);
    }

    method Find(hash: nat) returns (slot: int)
      requires entries.Length == SLOTS
      ensures -1 <= slot < SLOTS
      ensures slot >= 0 ==> hash != 0 && entries[slot].hash == hash
      ensures slot < 0 && hash != 0 ==> !Holds(entries[..], hash)
    {
      for i := 0 to SLOTS
        invariant forall k | 0 <= k < i :: !(hash != 0 && entries[k].hash == hash)
      {
        if hash != 0 && entries[i].hash == hash {
          return i;
        }
      }
      return -1;
    }

    method CountReset(gapExpired: bool)
      requires gapResets <= COUNTER_MAX && filterResets <= COUNTER_MAX
      modifies this`gapResets, this`filterResets
      ensures gapResets == Min(COUNTER_MAX, old(gapResets) + if gapExpired then 1 else 0)
      ensures filterResets == Min(COUNTER_MAX, old(filterResets) + if gapExpired then 0 else 1)
    {
      if gapExpired {
        if gapResets != COUNTER_MAX { gapResets := gapResets + 1; }
      } else {
        if filterResets != COUNTER_MAX { filterResets := filterResets + 1; }
      }
    }

    method Drop(slot: nat, gapExpired: bool)
      requires Valid() && slot < SLOTS
      modifies this`gapResets, this`filterResets, this`chains, entries
      ensures Valid() && entries[..] == old(entries[..])[slot := EMPTY]
      ensures old(entries[slot]).hash == 0 ==> gapResets == old(gapResets) && filterResets == old(filterResets)
      ensures old(entries[slot]).hash != 0 ==>
                && gapResets == Min(COUNTER_MAX, old(gapResets) + if gapExpired then 1 else 0)
                && filterResets == Min(COUNTER_MAX, old(filterResets) + if gapExpired then 0 else 1)
    {
      if entries[slot].hash != 0 {
        CountReset(gapExpired);
        Place(slot, EMPTY, []);
      }
    }

    /** The user dismisses one warning; the identity stays watched. */
    method Acknowledge(slot: nat)
      requires Valid() && slot < SLOTS && entries[slot].hash != 0
      modifies entries
      ensures Valid() && entries[..] == old(entries[..])[slot := old(entries[slot]).(acknowledged := true)]
    {
      entries[slot] := entries[slot].(acknowledged := true);
    }

    method FirstStale(now: nat) returns (slot: int)
      requires entries.Length == SLOTS
      ensures -1 <= slot < SLOTS
      ensures slot >= 0 ==> !entries[slot].Fresh(now)
      ensures slot < 0 ==> forall i | 0 <= i < SLOTS :: entries[i].Fresh(now)
    {
      for i := 0 to SLOTS
        invariant forall k | 0 <= k < i :: entries[k].Fresh(now)
      {
        if !entries[i].Fresh(now) {
          return i;
        }
      }
      return -1;
    }

    /** Puts an entry and the chain behind it into a slot that no other entry contradicts. */
    method Place(slot: nat, e: Entry, ghost chain: seq<nat>)
      requires Valid() && slot < SLOTS && Backed(e, chain, log, started, demo)
      requires e.hash != 0 ==> forall i | 0 <= i < SLOTS && i != slot :: entries[i].hash != e.hash
      modifies entries, this`chains
      ensures Valid() && entries[..] == old(entries[..])[slot := e]
    {
      entries[slot] := e;
      chains := chains[slot := chain];
    }

    // The part of observe behind its filters; the sighting is already the last of the log.

    /** A new identity takes the first stale slot, if there is one. */
    method Open(hash: nat, d: Detection, now: nat)
      requires Valid() && log != [] && log[|log| - 1] == Sighting(hash, d, now)
      requires Eligible(log[|log| - 1], started, demo) && Timely(log[|log| - 1])
      requires !d.SamsungConnected() && !Holds(entries[..], hash)
      modifies this`gapResets, this`filterResets, this`chains, entries
      ensures Valid() && Observed(old(entries[..]), entries[..], Sighting(hash, d, now))
      ensures gapResets == old(gapResets) && filterResets == old(filterResets)
    {
      ghost var s, init := log[|log| - 1], log[..|log| - 1];
      assert log == init + [s];
      var slot := FirstStale(now);
      if slot >= 0 {
        ObservedOpened(entries[..], s, slot);
        OpenedBacked(init, s, started, demo);
        Place(slot, Entry(hash, d.lastMs, d.lastMs, 1, d.category, d.score, false), [d.lastMs]);
      }
    }

    method Extend(slot: nat, hash: nat, d: Detection, now: nat)
      requires Valid() && log != [] && log[|log| - 1] == Sighting(hash, d, now)
      requires Eligible(log[|log| - 1], started, demo) && Timely(log[|log| - 1])
      requires !d.SamsungConnected() && slot < SLOTS && entries[slot].hash == hash
      modifies this`gapResets, this`filterResets, this`chains, entries
      ensures Valid() && Observed(old(entries[..]), entries[..], Sighting(hash, d, now))
      ensures gapResets == Counted(old(gapResets), old(entries[slot].last) + GAP < d.lastMs)
      ensures filterResets == old(filterResets)
    {
      hide Observed, Timely, Backed, Followed, Holds;
      ghost var s, init := log[|log| - 1], log[..|log| - 1];
      assert log == init + [s];
      assert Backed(entries[..][slot], chains[slot], log, started, demo);
      ExtendedBacked(entries[slot], chains[slot], init, s, started, demo);
      ObservedExtended(entries[..], s, slot);
      var e := entries[slot];
      if d.lastMs <= e.last {
        assert entries[..][slot := e] == entries[..];
        return;
      }
      if d.lastMs - e.last > GAP {
        CountReset(true);
        e := Entry(hash, d.lastMs, d.lastMs, 1, d.category, d.score, false);
      } else {
        if (d.lastMs - e.first) / BIN != (e.last - e.first) / BIN {
          e := e.(minutes := Min(MINUTES_MAX, e.minutes + 1));
        }
        e := e.(last := d.lastMs, score := d.score);
      }
      assert e == Extended(entries[slot], s);
      Place(slot, e, Followed(chains[slot], s));
    }

    method Track(hash: nat, d: Detection, now: nat)
      requires Valid() && log != [] && log[|log| - 1] == Sighting(hash, d, now)
      requires Eligible(log[|log| - 1], started, demo) && Timely(log[|log| - 1])
      modifies this`gapResets, this`filterResets, this`chains, entries
      ensures Valid() && Observed(old(entries[..]), entries[..], Sighting(hash, d, now))
      ensures gapResets == Counted(old(gapResets), Restarts(old(entries[..]), Sighting(hash, d, now)))
      ensures filterResets == Counted(old(filterResets), Filters(old(entries[..]), Sighting(hash, d, now)))
    {
      hide Observed, Backed, Eligible, Timely;
      var slot := Find(hash);
      HashNonzero(log[|log| - 1], started, demo);
      if d.SamsungConnected() {
        if slot >= 0 {
          ObservedConnected(entries[..], log[|log| - 1], slot);
          if d.lastMs >= entries[slot].last {
            Drop(slot, false);
          }
        } else {
          ObservedNothing(entries[..], log[|log| - 1]);
        }
      } else if slot >= 0 {
        Extend(slot, hash, d, now);
      } else {
        Open(hash, d, now);
      }
    }

    method Observe(hash: nat, d: Detection, now: nat)
      requires Valid()
      modifies this, entries
      ensures Valid() && log == old(log) + [Sighting(hash, d, now)]
      ensures armed == old(armed) && started == old(started) && demo == old(demo)
      ensures var s := Sighting(hash, d, now);
              if armed && Eligible(s, started, demo) && Timely(s) then Observed(old(entries[..]), entries[..], s)
              else entries[..] == old(entries[..])
      ensures var s := Sighting(hash, d, now);
              var seen := armed && Eligible(s, started, demo);
              && clockSkips == Counted(old(clockSkips), seen && now < d.lastMs)
              && gapResets == Counted(old(gapResets), seen && Timely(s) && Restarts(old(entries[..]), s))
              && filterResets == Counted(old(filterResets), seen && Timely(s) && Filters(old(entries[..]), s))
    {
      ghost var s := Sighting(hash, d, now);
      SoundKept(entries[..], chains, log, s, started, demo);
      log := log + [s];
      if !armed || hash == 0 || !IsTag(d.category) || d.radio != Ble || d.demo != demo
         || d.score < 50 || d.score > 100 || d.lastMs < started {
        return;
      }
      if d.lastMs > now {
        if clockSkips != COUNTER_MAX { clockSkips := clockSkips + 1; }
        return;
      }
      if now - d.lastMs > GAP {
        return;
      }
      Track(hash, d, now);
    }

    /** The first unacknowledged ready entry; its warning is justified by a chain of sightings. */
    method Warning(now: nat) returns (slot: int)
      requires Valid()
      ensures -1 <= slot < SLOTS
      ensures slot >= 0 ==> armed && entries[slot].Ready(now) && !entries[slot].acknowledged
      ensures slot >= 0 ==> exists chain :: Justifies(chain, log, started, demo, entries[slot].hash, now)
      ensures slot < 0 && armed ==> forall i | 0 <= i < SLOTS && !entries[i].acknowledged :: !entries[i].Ready(now)
      ensures slot < 0 && armed ==>
                forall i | 0 <= i < SLOTS && !entries[i].acknowledged && entries[i].hash != 0 ::
                  !Justifies(chains[i], log, started, demo, entries[i].hash, now)
    {
      if armed {
        for i := 0 to SLOTS
          invariant forall k | 0 <= k < i :: !(entries[k].Ready(now) && !entries[k].acknowledged)
        {
          if entries[i].Ready(now) && !entries[i].acknowledged {
            assert Backed(entries[..][i], chains[i], log, started, demo);
            assert Justifies(chains[i], log, started, demo, entries[i].hash, now);
            return i;
          }
        }
        forall i | 0 <= i < SLOTS && !entries[i].acknowledged && entries[i].hash != 0
          ensures !Justifies(chains[i], log, started, demo, entries[i].hash, now)
        {
          assert Backed(entries[..][i], chains[i], log, started, demo);
        }
      }
      return -1;
    }
  }
}
