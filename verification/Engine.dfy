/** The detection engine: a cache of identities, their evidence and scores. */
module Engine {
  // Evidence is fused per group of clues. Which rules match an observation is an input; times are milliseconds of a
  // clock that never goes back.

  import opened Core

  const SLOTS: nat := 128
  const GROUPS: nat := 9
  const KINDS: nat := 11
  const FRESH_MS: nat := 30000
  const WRAP: nat := 0x1_0000_0000
  const SEEN_MAX: nat := WRAP - 1
  const RULES_MAX: nat := 4
  const EMIT_MS: nat := 100
  const RSSI_LOW: int := -127
  const RSSI_HIGH: int := 20
  const CHANNEL_MAX: nat := 14

  const OUI: nat := 0
  const SSID_EXACT: nat := 1
  const SSID_PREFIX: nat := 2
  const NAME_EXACT: nat := 3
  const NAME_PREFIX: nat := 4

  const GENERIC_CAP: nat := 49
  const NAMED_CAP: nat := 79

  /** local: the transmitter address is locally administered. */
  datatype Observation = Observation(ms: nat, address: seq<nat>, radio: Radio, addressType: nat, channel: nat,
      rssi: int, contradiction: bool, samsung: SamsungTag, local: bool)

  predicate Proper(o: Observation) {
    RSSI_LOW <= o.rssi <= RSSI_HIGH && o.channel <= CHANNEL_MAX && Octets(o.address)
  }

  predicate ProperRule(r: Rule) {
    r.category < CATEGORY_COUNT && r.kind < KINDS && 1 <= r.score <= r.cap <= 100
  }

  /** at is the 32-bit time that is stored; when is the whole time it stands for. */
  datatype Evidence = Evidence(rule: Rule, at: nat, when: nat)

  /** run: the sightings since the last gap, the newest last; it is a history, the code keeps only the newest. */
  datatype Entry = Entry(detection: Detection, emitted: nat, emittedState: SamsungState,
      evidence: seq<Option<Evidence>>, run: seq<nat>)

  const NO_TAG: SamsungTag := SamsungTag([], Unavailable)
  const BLANK: Detection := Detection(0, 0, 0, 0, [], 0, NO_TAG, [], 0, Wifi, 0, 0, 0, 0, 0, false, false)
  const NO_EVIDENCE: seq<Option<Evidence>> := Repeat(None, GROUPS)
  const EMPTY: Entry := Entry(BLANK, 0, Unavailable, NO_EVIDENCE, [])

  // ---- Rules ----

  /** Exact and prefix rules for network names, and for device names, share their evidence. */
  function Group(kind: nat): (g: nat)
    requires kind < KINDS
    ensures g < GROUPS
  {
    kind - (if kind >= SSID_PREFIX then 1 else 0) - (if kind >= NAME_PREFIX then 1 else 0)
  }

  function CapOf(r: Rule, o: Observation): nat {
    var general := if r.generic || (r.kind == OUI && o.local) then Min(r.cap, GENERIC_CAP) else r.cap;
    if SSID_EXACT <= r.kind <= NAME_PREFIX then Min(general, NAMED_CAP) else general
  }

  function Strength(r: Rule, o: Observation): nat {
    Min(r.score, CapOf(r, o))
  }

  // ---- One entry and one observation ----

  function Age(now: nat, at: nat): nat {
    (now - at) % WRAP
  }

  predicate Fresh(ev: Option<Evidence>, now: nat) {
    ev.Some? && Age(now, ev.value.at) <= FRESH_MS
  }

  /** An entry for an identity that is not in the cache. */
  function Claimed(category: nat, o: Observation): Entry {
    EMPTY.(detection := BLANK.(firstMs := o.ms, category := category, radio := o.radio, address := o.address,
                               addressType := o.addressType, rssiMin := o.rssi, rssiMax := o.rssi))
  }

  predicate Gap(d: Detection, ms: nat) {
    ms < d.lastMs || ms - d.lastMs > FRESH_MS
  }

  /** The identity is seen. */
  function Seen(e: Entry, o: Observation): Entry {
    var d := e.detection;
    var more := d.seenCount != SEEN_MAX;
    Entry(
      d.(lastMs := o.ms, address := o.address, addressType := o.addressType, channel := o.channel,
         samsung := if d.category == SAMSUNG_TAG && o.radio == Ble then o.samsung else NO_TAG,
         rssiMin := Min(d.rssiMin, o.rssi), rssiMax := Max(d.rssiMax, o.rssi),
         seenCount := if more then d.seenCount + 1 else d.seenCount,
         rssiSum := if more then d.rssiSum + o.rssi else d.rssiSum),
      e.emitted, e.emittedState,
      if Gap(d, o.ms) then NO_EVIDENCE else e.evidence,
      if Gap(d, o.ms) || d.seenCount == 0 then [o.ms] else e.run + [o.ms])
  }

  /** The rule joins the evidence of its group, unless a stronger one there is still fresh. */
  function Supported(e: Entry, r: Rule, o: Observation): Entry
    requires |e.evidence| == GROUPS && r.kind < KINDS
  {
    var ev := e.evidence[Group(r.kind)];
    if ev.None? || Age(o.ms, ev.value.at) > FRESH_MS || r.score >= ev.value.rule.score
    then e.(evidence := e.evidence[Group(r.kind) := Some(Evidence(r, o.ms % WRAP, o.ms))])
    else e
  }

  // ---- What an entry keeps ----

  /** Sightings without a gap. */
  ghost predicate Unbroken(run: seq<nat>) {
    forall i, j | 0 <= i < |run| && j == i + 1 < |run| :: run[i] <= run[j] <= run[i] + FRESH_MS
  }

  ghost predicate EvidenceSane(ev: Evidence, g: nat, run: seq<nat>, rules: seq<Rule>) {
    && ev.rule in rules && ProperRule(ev.rule) && Group(ev.rule.kind) == g
    && ev.at == ev.when % WRAP && ev.when in run
  }

  /** The counters of a detection agree with each other; it is of a real device. */
  predicate Consistent(d: Detection) {
    && d.category < CATEGORY_COUNT && 0 < d.seenCount <= SEEN_MAX && d.firstMs <= d.lastMs && d.channel <= CHANNEL_MAX
    && RSSI_LOW <= d.rssiMin <= d.rssiMax <= RSSI_HIGH && Octets(d.address) && !d.demo
    && d.seenCount * d.rssiMin <= d.rssiSum <= d.seenCount * d.rssiMax
  }

  ghost predicate Sane(e: Entry, rules: seq<Rule>) {
    && |e.evidence| == GROUPS
    && (e.detection.seenCount > 0 ==>
          && Consistent(e.detection)
          && e.run != [] && e.run[|e.run| - 1] == e.detection.lastMs && Unbroken(e.run)
          && forall g: nat | g < GROUPS && e.evidence[g].Some? :: EvidenceSane(e.evidence[g].value, g, e.run, rules))
  }

  /** The sum of the signal strengths stays between the extremes times the count. */
  lemma SumStays(seen: nat, sum: int, low: int, high: int, rssi: int)
    requires seen * low <= sum <= seen * high
    ensures (seen + 1) * Min(low, rssi) <= sum + rssi <= (seen + 1) * Max(high, rssi)
    ensures seen * Min(low, rssi) <= sum <= seen * Max(high, rssi)
  {
    var bottom, top := Min(low, rssi), Max(high, rssi);
    assert seen * bottom <= seen * low && seen * high <= seen * top;
    assert (seen + 1) * bottom == seen * bottom + bottom && (seen + 1) * top == seen * top + top;
  }

  lemma SeenConsistent(e: Entry, o: Observation)
    requires Proper(o) && o.ms >= e.detection.lastMs
    requires Consistent(e.detection) || (e.detection.category < CATEGORY_COUNT && e == Claimed(e.detection.category, o))
    ensures Consistent(Seen(e, o).detection)
  {
    var d := e.detection;
    SumStays(d.seenCount, d.rssiSum, d.rssiMin, d.rssiMax, o.rssi);
  }

  lemma RunGrows(run: seq<nat>, ms: nat)
    requires Unbroken(run) && (run != [] ==> run[|run| - 1] <= ms <= run[|run| - 1] + FRESH_MS)
    ensures Unbroken(run + [ms])
  {
  }

  lemma EvidenceLater(ev: Evidence, g: nat, run: seq<nat>, ms: nat, rules: seq<Rule>)
    requires EvidenceSane(ev, g, run, rules)
    ensures EvidenceSane(ev, g, run + [ms], rules)
  {
  }

  lemma OneUnbroken(ms: nat)
    ensures Unbroken([ms])
  {
  }

  lemma SeenSane(e: Entry, o: Observation, rules: seq<Rule>)
    requires Proper(o) && o.ms >= e.detection.lastMs
    requires (Sane(e, rules) && e.detection.seenCount > 0)
          || (e.detection.category < CATEGORY_COUNT && e == Claimed(e.detection.category, o))
    ensures Sane(Seen(e, o), rules)
  {
    hide Consistent, EvidenceSane, Unbroken;
    SeenConsistent(e, o);
    OneUnbroken(o.ms);
    if e.detection.seenCount > 0 && !Gap(e.detection, o.ms) {
      RunGrows(e.run, o.ms);
      forall g: nat | g < GROUPS && e.evidence[g].Some?
        ensures EvidenceSane(e.evidence[g].value, g, e.run + [o.ms], rules)
      {
        EvidenceLater(e.evidence[g].value, g, e.run, o.ms, rules);
      }
    } else {
      assert forall g: nat | g < GROUPS :: Seen(e, o).evidence[g] == None;
    }
  }

  lemma SupportedSane(e: Entry, r: Rule, o: Observation, rules: seq<Rule>)
    requires Sane(e, rules) && e.detection.seenCount > 0 && e.detection.lastMs == o.ms && r in rules && ProperRule(r)
    ensures Sane(Supported(e, r, o), rules) && Supported(e, r, o) == e.(evidence := Supported(e, r, o).evidence)
    ensures Fresh(Supported(e, r, o).evidence[Group(r.kind)], o.ms)
    ensures Supported(e, r, o).evidence[Group(r.kind)].value.rule.score >= r.score
  {
    hide Consistent, Unbroken;
    assert o.ms == e.run[|e.run| - 1];
    assert EvidenceSane(Evidence(r, o.ms % WRAP, o.ms), Group(r.kind), e.run, rules);
    AgeNow(o.ms);
    hide EvidenceSane;
  }

  lemma AgeNow(now: nat)
    ensures Age(now, now % WRAP) == 0
  {
  }

  lemma SupportedSupports(e: Entry, r: Rule, o: Observation, rules: seq<Rule>)
    requires Sane(e, rules) && e.detection.seenCount > 0 && e.detection.lastMs == o.ms && r in rules && ProperRule(r)
    ensures |e.evidence| == GROUPS
    ensures var s := Supported(e, r, o); Sane(s, rules) && s == e.(evidence := s.evidence) && Supports(s, o.ms)
  {
    SupportedSane(e, r, o, rules);
    assert Fresh(Supported(e, r, o).evidence[Group(r.kind)], o.ms);
  }

  // ---- The truncated clock ----

  lemma {:induction false} RunOrdered(run: seq<nat>, i: nat, j: nat)
    requires Unbroken(run) && i <= j < |run|
    ensures run[i] <= run[j]
    decreases j - i
  {
    if i < j {
      RunOrdered(run, i, j - 1);
      assert j == (j - 1) + 1;
    }
  }

  lemma AgeWraps(now: nat, when: nat)
    requires when <= now
    ensures Age(now, when % WRAP) == (now - when) % WRAP
    ensures now - when < WRAP ==> Age(now, when % WRAP) == now - when
  {
    var k := when / WRAP;
    assert now - when % WRAP == (now - when) + k * WRAP;
    assert ((now - when) + k * WRAP) % WRAP == (now - when) % WRAP;
  }

  /**
   * The 32-bit comparison takes evidence for fresh exactly if its age is at most 30 s up to multiples of 2^32 ms. So
   * what is fresh it takes for fresh, and what it takes for fresh is, unless the identity has been seen without a gap
   * for 2^32 ms since.
   */
  lemma FreshIsRecent(e: Entry, g: nat, rules: seq<Rule>)
    requires Sane(e, rules) && e.detection.seenCount > 0 && g < GROUPS && e.evidence[g].Some?
    ensures var ev, now := e.evidence[g].value, e.detection.lastMs;
            && ev.when <= now && ev.when in e.run && Unbroken(e.run)
            && (Fresh(e.evidence[g], now) <==> (now - ev.when) % 0x1_0000_0000 <= 30000)
            && (Fresh(e.evidence[g], now) && now - ev.when < 0x1_0000_0000 <==> now - ev.when <= 30000)
  {
    var ev, now := e.evidence[g].value, e.detection.lastMs;
    assert EvidenceSane(ev, g, e.run, rules);
    var i :| 0 <= i < |e.run| && e.run[i] == ev.when;
    RunOrdered(e.run, i, |e.run| - 1);
    AgeWraps(now, ev.when);
  }

  // ---- The score ----

  /** The rules whose evidence is fresh, by group. */
  function Active(evidence: seq<Option<Evidence>>, now: nat): (rules: seq<Rule>)
    ensures |rules| <= |evidence|
  {
    if evidence == [] then []
    else
      var n := |evidence| - 1;
      Active(evidence[..n], now) + if Fresh(evidence[n], now) then [evidence[n].value.rule] else []
  }

  ghost predicate Ranked(ranked: seq<Rule>, rules: seq<Rule>, o: Observation) {
    multiset(ranked) == multiset(rules) && Descending(ranked, o)
  }

  ghost predicate Descending(ranked: seq<Rule>, o: Observation) {
    forall i, j | 0 <= i < j < |ranked| :: Strength(ranked[i], o) >= Strength(ranked[j], o)
  }

  function Ceiling(rules: seq<Rule>, o: Observation): nat {
    if rules == [] then 0 else Max(Ceiling(rules[..|rules| - 1], o), CapOf(rules[|rules| - 1], o))
  }

  /** The strongest clue counts in full, a second one a quarter, if neither is generic. */
  function Fused(ranked: seq<Rule>, o: Observation): nat {
    if ranked == [] then 0
    else
      Strength(ranked[0], o)
      + if |ranked| > 1 && !ranked[0].generic && !ranked[1].generic then Strength(ranked[1], o) / 4 else 0
  }

  function Score(ranked: seq<Rule>, o: Observation): nat {
    var score := Min(Fused(ranked, o), Ceiling(ranked, o));
    if !o.contradiction then score else if score > 20 then score - 20 else 1
  }

  lemma {:induction false} CeilingIs(rules: seq<Rule>, o: Observation)
    requires rules != []
    ensures exists r :: r in rules && Ceiling(rules, o) == CapOf(r, o)
    ensures forall r | r in rules :: CapOf(r, o) <= Ceiling(rules, o)
  {
    var n := |rules| - 1;
    var last := rules[n];
    assert rules == rules[..n] + [last];
    if n == 0 {
      assert Ceiling(rules[..n], o) == 0;
      assert last in rules && Ceiling(rules, o) == CapOf(last, o);
    } else {
      CeilingIs(rules[..n], o);
      if Ceiling(rules, o) == CapOf(last, o) {
        assert last in rules;
      } else {
        var r :| r in rules[..n] && Ceiling(rules[..n], o) == CapOf(r, o);
        assert r in rules;
      }
    }
  }

  /** A score is positive, at most 100, and at most the cap of some rule that was fused. */
  lemma ScoreBounded(ranked: seq<Rule>, o: Observation)
    requires ranked != [] && forall r | r in ranked :: ProperRule(r)
    ensures 1 <= Score(ranked, o) <= 100
    ensures exists r :: r in ranked && Score(ranked, o) <= CapOf(r, o) <= r.cap
  {
    CeilingIs(ranked, o);
    assert ranked[0] in ranked;
    assert 1 <= Strength(ranked[0], o) <= Fused(ranked, o);
    assert CapOf(ranked[0], o) >= 1;
    var r :| r in ranked && Ceiling(ranked, o) == CapOf(r, o);
    assert ProperRule(r) && Score(ranked, o) <= CapOf(r, o);
  }

  lemma {:induction false} ActiveFrom(evidence: seq<Option<Evidence>>, now: nat, g: nat)
    requires g < |evidence| && Fresh(evidence[g], now)
    ensures evidence[g].value.rule in Active(evidence, now)
  {
    var n := |evidence| - 1;
    if g < n {
      ActiveFrom(evidence[..n], now, g);
    }
  }

  lemma {:induction false} ActiveOf(evidence: seq<Option<Evidence>>, now: nat, r: Rule) returns (g: nat)
    requires r in Active(evidence, now)
    ensures g < |evidence| && Fresh(evidence[g], now) && evidence[g].value.rule == r
  {
    var n := |evidence| - 1;
    if Fresh(evidence[n], now) && evidence[n].value.rule == r {
      g := n;
    } else {
      g := ActiveOf(evidence[..n], now, r);
    }
  }

  // ---- The cache ----

  /** The entry is of this category and of the identity observed. */
  predicate Looks(d: Detection, category: nat, o: Observation) {
    && d.seenCount > 0 && d.category == category && d.radio == o.radio
    && (if d.SamsungIdentity() && o.samsung.Valid() then d.samsung.id == o.samsung.id
        else d.address == o.address && d.addressType == o.addressType)
  }

  ghost predicate Stored(cache: seq<Entry>, rules: seq<Rule>, clock: nat) {
    |cache| == SLOTS && forall i: nat | i < SLOTS :: Sane(cache[i], rules) && cache[i].detection.lastMs <= clock
  }

  predicate SameKey(a: Detection, b: Detection) {
    && a.seenCount > 0 && b.seenCount > 0 && a.category == b.category != SAMSUNG_TAG
    && a.radio == b.radio && a.address == b.address && a.addressType == b.addressType
  }

  /** Outside Samsung tags, at most one entry per category, radio, address and type. */
  ghost predicate Unique(cache: seq<Entry>) {
    forall i: nat, j: nat | i < j < |cache| :: !SameKey(cache[i].detection, cache[j].detection)
  }

  lemma PlaceStored(cache: seq<Entry>, rules: seq<Rule>, clock: nat, slot: nat, e: Entry)
    requires Stored(cache, rules, clock) && slot < SLOTS && Sane(e, rules) && e.detection.lastMs <= clock
    ensures Stored(cache[slot := e], rules, clock)
  {
    hide Sane;
  }

  /** An entry that was found by looking, or claimed because nothing was found, shares its key with no other. */
  lemma PlaceUnique(cache: seq<Entry>, slot: nat, e: Entry, category: nat, o: Observation)
    requires |cache| == SLOTS && slot < SLOTS && Unique(cache) && e.detection.category == category
    requires e.detection.radio == o.radio && e.detection.address == o.address
        && e.detection.addressType == o.addressType
    requires Looks(cache[slot].detection, category, o) || forall i: nat | i < SLOTS ::
        !Looks(cache[i].detection, category, o)
    ensures Unique(cache[slot := e])
  {
    forall k: nat | k < SLOTS && k != slot
      ensures !SameKey(e.detection, cache[k].detection) && !SameKey(cache[k].detection, e.detection)
    {
      OtherKey(cache, slot, k, e, category, o);
    }
    hide SameKey, Looks;
  }

  lemma OtherKey(cache: seq<Entry>, slot: nat, k: nat, e: Entry, category: nat, o: Observation)
    requires |cache| == SLOTS && slot < SLOTS && k < SLOTS && k != slot && Unique(cache)
        && e.detection.category == category
    requires e.detection.radio == o.radio && e.detection.address == o.address
        && e.detection.addressType == o.addressType
    requires Looks(cache[slot].detection, category, o) || !Looks(cache[k].detection, category, o)
    ensures !SameKey(e.detection, cache[k].detection) && !SameKey(cache[k].detection, e.detection)
  {
    var mine, other := cache[slot].detection, cache[k].detection;
    assert if slot < k then !SameKey(mine, other) else !SameKey(other, mine);
    assert SameKey(e.detection, other) ==> Looks(other, category, o);
  }

  /** touched[c] is the slot that category c was given in this call, -1 for none. */
  ghost predicate Current(cache: seq<Entry>, touched: seq<int>, ms: nat) {
    && |cache| == SLOTS && |touched| == CATEGORY_COUNT
    && forall c: nat | c < CATEGORY_COUNT && touched[c] >= 0 ::
         touched[c] < SLOTS && Supports(cache[touched[c]], ms)
  }

  /** A live entry, seen now, with fresh evidence. */
  ghost predicate Supports(e: Entry, ms: nat) {
    && e.detection.seenCount > 0 && e.detection.lastMs == ms
    && exists g: nat :: g < |e.evidence| && Fresh(e.evidence[g], ms)
  }

  predicate Seated(d: Detection, category: nat, ms: nat) {
    d.category == category && d.seenCount > 0 && d.lastMs == ms
  }

  /** The slots touched in this call are those seen now, one for each category: no two categories share one. */
  ghost predicate Separate(cache: seq<Entry>, touched: seq<int>, ms: nat) {
    && |cache| == SLOTS && |touched| == CATEGORY_COUNT
    && (forall c: nat | c < CATEGORY_COUNT && touched[c] >= 0 ::
          touched[c] < SLOTS && Seated(cache[touched[c]].detection, c, ms))
    && (forall i: nat | i < SLOTS && cache[i].detection.seenCount > 0 && cache[i].detection.lastMs == ms ::
          cache[i].detection.category < CATEGORY_COUNT && touched[cache[i].detection.category] == i)
  }

  /** The least recently seen slot. */
  predicate Oldest(cache: seq<Entry>, slot: nat)
    requires slot < |cache|
  {
    cache[slot].detection.seenCount == 0
    || forall i: nat | i < |cache| :: cache[i].detection.seenCount > 0
        && cache[slot].detection.lastMs <= cache[i].detection.lastMs
  }

  ghost function Below(n: nat): set<nat>
    ensures |Below(n)| == n && forall i: nat :: i in Below(n) <==> i < n
  {
    if n == 0 then {} else Below(n - 1) + {n - 1}
  }

  lemma {:induction false} SubsetSize<T>(a: set<T>, b: set<T>)
    requires a <= b
    ensures |a| <= |b|
  {
    if a != {} {
      var x :| x in a;
      SubsetSize(a - {x}, b - {x});
    }
  }

  ghost function CategoriesOf(cache: seq<Entry>, n: nat): set<nat>
    requires n <= |cache|
  {
    set i: nat | i < n :: cache[i].detection.category
  }

  lemma {:induction false} DistinctCategories(cache: seq<Entry>, n: nat)
    requires n <= |cache| && forall i: nat, j: nat | i < j < n ::
        cache[i].detection.category != cache[j].detection.category
    ensures |CategoriesOf(cache, n)| == n
  {
    if n == 0 {
      assert CategoriesOf(cache, 0) == {};
    } else {
      DistinctCategories(cache, n - 1);
      assert CategoriesOf(cache, n) == CategoriesOf(cache, n - 1) + {cache[n - 1].detection.category};
    }
  }

  /** With 128 slots and 19 categories, the slot given up is never one that this call has touched. */
  lemma VictimUntouched(cache: seq<Entry>, touched: seq<int>, ms: nat, slot: nat)
    requires Separate(cache, touched, ms) && slot < SLOTS && Oldest(cache, slot)
    requires forall i: nat | i < SLOTS :: cache[i].detection.lastMs <= ms
    ensures cache[slot].detection.seenCount == 0 || cache[slot].detection.lastMs < ms
  {
    if cache[slot].detection.seenCount > 0 && cache[slot].detection.lastMs == ms {
      DistinctCategories(cache, SLOTS);
      SubsetSize(CategoriesOf(cache, SLOTS), Below(CATEGORY_COUNT));
      assert false;
    }
  }

  /** Giving a category the slot it was found in, or one that is no longer needed, keeps the slots separate. */
  lemma PlaceSeparate(cache: seq<Entry>, touched: seq<int>, ms: nat, category: nat, slot: nat, e: Entry)
    requires Separate(cache, touched, ms) && category < CATEGORY_COUNT && touched[category] < 0 && slot < SLOTS
    requires e.detection.category == category && e.detection.seenCount > 0 && e.detection.lastMs == ms
    requires (cache[slot].detection.seenCount > 0 && cache[slot].detection.category == category)
          || cache[slot].detection.seenCount == 0 || cache[slot].detection.lastMs < ms
    ensures forall c: nat | c < CATEGORY_COUNT :: touched[c] != slot
    ensures Separate(cache[slot := e], touched[category := slot], ms)
  {
  }

  // ---- Reports ----

  /** The entry shows the score and the strongest rules of its fresh evidence. */
  ghost predicate Scored(e: Entry, o: Observation) {
    exists ranked :: Shows(e, ranked, o)
  }

  ghost predicate Shows(e: Entry, ranked: seq<Rule>, o: Observation) {
    && Ranked(ranked, Active(e.evidence, o.ms), o) && e.detection.score == Score(ranked, o)
    && e.detection.rules == ranked[..Min(RULES_MAX, |ranked|)]
  }

  /** What every reported detection is. */
  ghost predicate Reported(d: Detection, o: Observation, rules: seq<Rule>) {
    && Consistent(d) && d.lastMs == o.ms && 1 <= d.score <= 100 && 1 <= |d.rules| <= RULES_MAX
    && forall r | r in d.rules :: r in rules && ProperRule(r)
  }

  lemma RankedMembers(ranked: seq<Rule>, rules: seq<Rule>, o: Observation)
    requires Ranked(ranked, rules, o)
    ensures |ranked| == |rules| && forall r :: r in ranked <==> r in rules
  {
    hide Descending;
    assert |multiset(ranked)| == |multiset(rules)|;
    forall r ensures r in ranked <==> r in rules {
      assert r in ranked <==> r in multiset(ranked);
      assert r in rules <==> r in multiset(rules);
    }
  }

  lemma ActiveProper(e: Entry, ms: nat, rules: seq<Rule>)
    requires Sane(e, rules) && e.detection.seenCount > 0
    ensures forall r | r in Active(e.evidence, ms) :: r in rules && ProperRule(r)
  {
    hide Consistent, Unbroken, Fresh;
    forall r | r in Active(e.evidence, ms) ensures r in rules && ProperRule(r) {
      var g := ActiveOf(e.evidence, ms, r);
      assert EvidenceSane(e.evidence[g].value, g, e.run, rules);
    }
  }

  /** A live entry that shows its fresh evidence may be reported. */
  lemma ScoredReported(e: Entry, o: Observation, rules: seq<Rule>)
    requires Sane(e, rules) && Supports(e, o.ms) && Scored(e, o)
    ensures Reported(e.detection, o, rules)
    ensures exists r :: r in Active(e.evidence, o.ms) && e.detection.score <= CapOf(r, o) <= r.cap
  {
    hide Score, CapOf, ProperRule, EvidenceSane, Unbroken, Fresh, Consistent;
    var ranked :| Shows(e, ranked, o);
    var g: nat :| g < |e.evidence| && Fresh(e.evidence[g], o.ms);
    ActiveFrom(e.evidence, o.ms, g);
    ActiveProper(e, o.ms, rules);
    RankedMembers(ranked, Active(e.evidence, o.ms), o);
    ScoreBounded(ranked, o);
  }

  /**
   * The score never exceeds the cap of some rule that matched within the last 30 seconds, or whose identity has been
   * seen without a gap for 2^32 milliseconds since.
   */
  lemma ScoreJustified(e: Entry, o: Observation, rules: seq<Rule>)
    requires Sane(e, rules) && Supports(e, o.ms) && Scored(e, o)
    ensures exists g: nat :: g < GROUPS && Justifies(e, g, o.ms)
  {
    hide Score, ProperRule, EvidenceSane, Unbroken, Fresh, Consistent, Scored, CapOf;
    ScoredReported(e, o, rules);
    var r :| r in Active(e.evidence, o.ms) && e.detection.score <= CapOf(r, o) <= r.cap;
    var g := ActiveOf(e.evidence, o.ms, r);
    FreshIsRecent(e, g, rules);
    assert Justifies(e, g, o.ms);
  }

  predicate Justifies(e: Entry, g: nat, now: nat) {
    && g < |e.evidence| && e.evidence[g].Some? && e.detection.score <= e.evidence[g].value.rule.cap
    && e.evidence[g].value.when in e.run && e.evidence[g].value.when <= now
    && (now - e.evidence[g].value.when <= FRESH_MS || now - e.evidence[g].value.when >= WRAP)
  }

  lemma Inserted(ranked: seq<Rule>, at: nat, r: Rule, o: Observation)
    requires Descending(ranked, o) && at <= |ranked|
    requires forall k | 0 <= k < at :: Strength(ranked[k], o) >= Strength(r, o)
    requires at < |ranked| ==> Strength(ranked[at], o) < Strength(r, o)
    ensures var all := ranked[..at] + [r] + ranked[at..];
            Descending(all, o) && multiset(all) == multiset(ranked) + multiset{r}
  {
    hide Strength;
    assert ranked == ranked[..at] + ranked[at..];
  }

  method Insert(ranked: seq<Rule>, r: Rule, o: Observation) returns (all: seq<Rule>)
    requires Descending(ranked, o)
    ensures Descending(all, o) && multiset(all) == multiset(ranked) + multiset{r}
  {
    hide Strength;
    var at := 0;
    while at < |ranked| && Strength(ranked[at], o) >= Strength(r, o)
      invariant 0 <= at <= |ranked| && forall k | 0 <= k < at :: Strength(ranked[k], o) >= Strength(r, o)
    {
      at := at + 1;
    }
    Inserted(ranked, at, r, o);
    all := ranked[..at] + [r] + ranked[at..];
  }

  method Rank(rules: seq<Rule>, o: Observation) returns (ranked: seq<Rule>)
    ensures Ranked(ranked, rules, o)
  {
    hide Strength, Descending;
    ranked := [];
    NothingDescends(o);
    for i := 0 to |rules|
      invariant multiset(ranked) == multiset(rules[..i]) && Descending(ranked, o)
    {
      assert rules[..i + 1] == rules[..i] + [rules[i]];
      ranked := Insert(ranked, rules[i], o);
    }
    assert rules[..|rules|] == rules;
  }

  lemma NothingDescends(o: Observation)
    ensures Descending([], o)
  {
  }

  /** The cache after the identity of slot has been seen. */
  lemma SeenPlaced(cache: seq<Entry>, slot: nat, e: Entry, category: nat, o: Observation, rules: seq<Rule>, clock: nat)
    requires Stored(cache, rules, clock) && Unique(cache) && slot < SLOTS && category < CATEGORY_COUNT
    requires Proper(o) && o.ms >= clock
    requires (e == cache[slot] && Looks(e.detection, category, o))
          || (e == Claimed(category, o) && forall i: nat | i < SLOTS :: !Looks(cache[i].detection, category, o))
    ensures var after := cache[slot := Seen(e, o)]; Stored(after, rules, o.ms) && Unique(after)
    ensures var d := Seen(e, o).detection; Seated(d, category, o.ms) && d.radio == o.radio && d.address == o.address
  {
    SeenParts(e, category, o);
    hide Looks, SameKey, Consistent;
    SeenSane(e, o, rules);
    PlaceUnique(cache, slot, Seen(e, o), category, o);
  }

  lemma LooksSeated(d: Detection, category: nat, o: Observation)
    requires Looks(d, category, o)
    ensures Seated(d, category, d.lastMs)
  {
  }

  lemma SeenParts(e: Entry, category: nat, o: Observation)
    requires Looks(e.detection, category, o) || e == Claimed(category, o)
    ensures var d := Seen(e, o).detection;
            && d.category == category && d.seenCount > 0 && d.lastMs == o.ms && d.radio == o.radio
            && d.address == o.address && d.addressType == o.addressType
    ensures e.detection.category == category
    ensures e.detection.seenCount > 0 || (e == Claimed(category, o) && e.detection.lastMs == 0)
  {
  }

  // ---- What a score means ----

  /** The entry holds fresh evidence of the rule. */
  ghost predicate Backs(e: Entry, r: Rule, ms: nat) {
    exists g: nat :: g < |e.evidence| && Fresh(e.evidence[g], ms) && e.evidence[g].value.rule == r
  }

  /** No other fresh rule, of those not named, is stronger. */
  ghost predicate Strongest(e: Entry, a: Rule, o: Observation, but: set<Rule>) {
    && Backs(e, a, o.ms) && a !in but
    && forall r | Backs(e, r, o.ms) && r !in but :: Strength(r, o) <= Strength(a, o)
  }

  ghost predicate HighestCap(e: Entry, top: nat, o: Observation) {
    && (exists r :: Backs(e, r, o.ms) && CapOf(r, o) == top)
    && forall r | Backs(e, r, o.ms) :: CapOf(r, o) <= top
  }

  /** What b adds to the strongest rule a. */
  function Extra(a: Rule, b: Rule, o: Observation): nat {
    if a.generic || b.generic then 0 else Strength(b, o) / 4
  }

  /**
   * What the fresh rules of an entry are worth: the strength of the only one; else the largest strength, and a quarter
   * of the next if neither is generic, but no more than the largest cap.
   */
  ghost predicate Worth(e: Entry, o: Observation, p: nat) {
    exists a :: Strongest(e, a, o, {}) && WorthOf(e, a, o, p)
  }

  ghost predicate WorthOf(e: Entry, a: Rule, o: Observation, p: nat) {
    if forall r | Backs(e, r, o.ms) :: r == a then p == Strength(a, o)
    else
      exists b, top: nat ::
        Strongest(e, b, o, {a}) && HighestCap(e, top, o) && p == Min(Strength(a, o) + Extra(a, b, o), top)
  }

  /** The score is that worth; a contradiction takes 20 from it, but leaves 1. The rules shown are the strongest. */
  ghost predicate FairlyScored(e: Entry, o: Observation) {
    && (exists p: nat :: Worth(e, o, p) && e.detection.score == if o.contradiction then Max(1, p - 20) else p)
    && (!o.contradiction ==> forall r | Backs(e, r, o.ms) :: e.detection.score >= Strength(r, o))
    && ShowsStrongest(e, o)
  }

  /** Up to four of the fresh rules, each once, the stronger first, and none that is weaker than one left out. */
  ghost predicate ShowsStrongest(e: Entry, o: Observation) {
    var shown := e.detection.rules;
    && |shown| <= RULES_MAX && Descending(shown, o)
    && (forall i, j | 0 <= i < j < |shown| :: shown[i] != shown[j])
    && (forall r | r in shown :: Backs(e, r, o.ms))
    && (forall r | Backs(e, r, o.ms) && r !in shown ::
          |shown| == RULES_MAX && Strength(r, o) <= Strength(shown[RULES_MAX - 1], o))
  }

  lemma {:induction false} ActiveDistinct(evidence: seq<Option<Evidence>>, ms: nat, i: nat, j: nat)
    requires forall g: nat | g < |evidence| && evidence[g].Some? ::
               evidence[g].value.rule.kind < KINDS && Group(evidence[g].value.rule.kind) == g
    requires i < j < |Active(evidence, ms)|
    ensures Active(evidence, ms)[i] != Active(evidence, ms)[j]
  {
    hide Fresh, Group;
    var n := |evidence| - 1;
    var before := Active(evidence[..n], ms);
    if j < |before| {
      ActiveDistinct(evidence[..n], ms, i, j);
    } else {
      var g := ActiveOf(evidence[..n], ms, before[i]);
      assert evidence[..n][g] == evidence[g];
      FreshSome(evidence[g], ms);
      FreshSome(evidence[n], ms);
    }
  }

  lemma CountsOnce(ranked: seq<Rule>, i: nat, j: nat)
    requires i < j < |ranked| && ranked[i] == ranked[j]
    ensures multiset(ranked)[ranked[i]] >= 2
  {
    assert ranked == ranked[..j] + [ranked[j]] + ranked[j + 1..];
    assert ranked[i] == ranked[..j][i];
    assert multiset(ranked[..j])[ranked[i]] >= 1;
  }

  lemma {:induction false} OnceEach(rules: seq<Rule>, r: Rule)
    requires forall i, j | 0 <= i < j < |rules| :: rules[i] != rules[j]
    ensures multiset(rules)[r] <= 1
  {
    if rules != [] {
      var n := |rules| - 1;
      assert rules == rules[..n] + [rules[n]];
      OnceEach(rules[..n], r);
      assert r == rules[n] ==> r !in rules[..n];
    }
  }

  /** The ranking of the fresh rules: each of them once. */
  lemma RankedFresh(e: Entry, ranked: seq<Rule>, o: Observation, rules: seq<Rule>)
    requires Sane(e, rules) && e.detection.seenCount > 0 && Ranked(ranked, Active(e.evidence, o.ms), o)
    ensures forall i, j | 0 <= i < j < |ranked| :: ranked[i] != ranked[j]
    ensures forall r :: r in ranked <==> Backs(e, r, o.ms)
  {
    hide Consistent, Unbroken, Fresh, Descending, Group;
    var active := Active(e.evidence, o.ms);
    forall g: nat | g < GROUPS && e.evidence[g].Some?
      ensures e.evidence[g].value.rule.kind < KINDS && Group(e.evidence[g].value.rule.kind) == g
    {
      assert EvidenceSane(e.evidence[g].value, g, e.run, rules);
    }
    forall i, j | 0 <= i < j < |active| ensures active[i] != active[j] {
      ActiveDistinct(e.evidence, o.ms, i, j);
    }
    RankedMembers(ranked, active, o);
    forall i, j | 0 <= i < j < |ranked| ensures ranked[i] != ranked[j] {
      if ranked[i] == ranked[j] {
        CountsOnce(ranked, i, j);
        OnceEach(active, ranked[i]);
      }
    }
    forall r ensures r in ranked <==> Backs(e, r, o.ms) {
      if r in active {
        var g := ActiveOf(e.evidence, o.ms, r);
      }
      if Backs(e, r, o.ms) {
        BacksActive(e, r, o.ms);
      }
    }
  }

  lemma BacksActive(e: Entry, r: Rule, ms: nat)
    requires Backs(e, r, ms)
    ensures r in Active(e.evidence, ms)
  {
    var g: nat :| g < |e.evidence| && Fresh(e.evidence[g], ms) && e.evidence[g].value.rule == r;
    ActiveFrom(e.evidence, ms, g);
  }

  lemma RankedWorth(e: Entry, ranked: seq<Rule>, o: Observation) returns (p: nat)
    requires ranked != [] && Descending(ranked, o) && (forall i, j | 0 <= i < j < |ranked| :: ranked[i] != ranked[j])
    requires forall r :: r in ranked <==> Backs(e, r, o.ms)
    ensures Worth(e, o, p) && p >= Strength(ranked[0], o)
    ensures Score(ranked, o) == if o.contradiction then Max(1, p - 20) else p
  {
    hide Backs, Strength, CapOf;
    var a := ranked[0];
    CeilingIs(ranked, o);
    StrengthUnderCap(a, o);
    p := Min(Fused(ranked, o), Ceiling(ranked, o));
    assert Strongest(e, a, o, {});
    if |ranked| == 1 {
      assert forall r | Backs(e, r, o.ms) :: r == a;
      assert p == Strength(a, o);
    } else {
      var b, top := ranked[1], Ceiling(ranked, o);
      assert b in ranked && Backs(e, b, o.ms) && b != a;
      SecondStrongest(e, ranked, o);
      assert HighestCap(e, top, o);
      assert p == Min(Strength(a, o) + Extra(a, b, o), top);
    }
    assert WorthOf(e, a, o, p);
  }

  lemma SecondStrongest(e: Entry, ranked: seq<Rule>, o: Observation)
    requires |ranked| > 1 && Descending(ranked, o) && ranked[0] != ranked[1]
    requires forall r :: r in ranked <==> Backs(e, r, o.ms)
    ensures Strongest(e, ranked[1], o, {ranked[0]})
  {
    hide Backs, Strength;
    assert ranked[1] in ranked;
    forall r | Backs(e, r, o.ms) && r != ranked[0] ensures Strength(r, o) <= Strength(ranked[1], o) {
      assert r in ranked;
    }
  }

  lemma StrengthUnderCap(r: Rule, o: Observation)
    ensures Strength(r, o) <= CapOf(r, o)
  {
  }

  lemma RankedShows(e: Entry, ranked: seq<Rule>, o: Observation)
    requires Descending(ranked, o) && (forall i, j | 0 <= i < j < |ranked| :: ranked[i] != ranked[j])
    requires forall r :: r in ranked <==> Backs(e, r, o.ms)
    requires e.detection.rules == ranked[..Min(RULES_MAX, |ranked|)]
    ensures ShowsStrongest(e, o)
  {
    hide Backs, Strength;
    var shown := e.detection.rules;
    forall r | r in shown ensures Backs(e, r, o.ms) {
      assert r in ranked;
    }
    forall r | Backs(e, r, o.ms) && r !in shown
      ensures |shown| == RULES_MAX && Strength(r, o) <= Strength(shown[RULES_MAX - 1], o)
    {
      assert r in ranked;
      var i :| 0 <= i < |ranked| && ranked[i] == r;
    }
  }

  /** Every entry that has been scored, and has fresh evidence, is scored fairly. */
  lemma ScoredFairly(e: Entry, o: Observation, rules: seq<Rule>)
    requires Sane(e, rules) && Supports(e, o.ms) && Scored(e, o)
    ensures FairlyScored(e, o)
  {
    hide Sane, Fresh, Strength, Score, Descending, Backs, Worth, ShowsStrongest;
    var ranked :| Shows(e, ranked, o);
    RankedFresh(e, ranked, o, rules);
    SupportsBacks(e, o.ms);
    RankedDescends(ranked, Active(e.evidence, o.ms), o);
    assert ranked != [];
    var p := RankedWorth(e, ranked, o);
    RankedShows(e, ranked, o);
    forall r | Backs(e, r, o.ms) ensures Strength(r, o) <= Strength(ranked[0], o) {
      FirstStrongest(ranked, r, o);
    }
  }

  lemma RankedDescends(ranked: seq<Rule>, rules: seq<Rule>, o: Observation)
    requires Ranked(ranked, rules, o)
    ensures Descending(ranked, o)
  {
  }

  lemma FirstStrongest(ranked: seq<Rule>, r: Rule, o: Observation)
    requires Descending(ranked, o) && r in ranked
    ensures Strength(r, o) <= Strength(ranked[0], o)
  {
    hide Strength;
  }

  lemma SupportsBacks(e: Entry, ms: nat)
    requires Supports(e, ms)
    ensures e.detection.seenCount > 0 && exists r :: Backs(e, r, ms)
  {
    hide Fresh;
    var g: nat :| g < |e.evidence| && Fresh(e.evidence[g], ms);
    FreshSome(e.evidence[g], ms);
    assert Backs(e, e.evidence[g].value.rule, ms);
  }

  lemma FreshSome(ev: Option<Evidence>, ms: nat)
    requires Fresh(ev, ms)
    ensures ev.Some?
  {
  }

  // ---- One call, category by category ----

  /** The entry that a category starts from: the one of the identity, else a new one. */
  function Base(e: Entry, category: nat, o: Observation): Entry {
    if Looks(e.detection, category, o) then e else Claimed(category, o)
  }

  /** The rules of one category among the first n that hit, if the category is switched on. */
  function Joining(rules: seq<Rule>, enabled: seq<bool>, hits: seq<bool>, n: nat, c: nat): (joining: seq<Rule>)
    requires n <= |rules| == |hits| && forall r | r in rules :: ProperRule(r)
    ensures forall r | r in joining :: r in rules && ProperRule(r) && r.category == c
  {
    if n == 0 then []
    else Joining(rules, enabled, hits, n - 1, c) + if Joins(rules, enabled, hits, n - 1, c) then [rules[n - 1]] else []
  }

  predicate Joins(rules: seq<Rule>, enabled: seq<bool>, hits: seq<bool>, k: nat, c: nat)
    requires k < |rules| == |hits|
  {
    hits[k] && rules[k].category == c && c < |enabled| && enabled[c]
  }

  /** An entry after rules have joined its evidence, in order. */
  function Gathered(e: Entry, joining: seq<Rule>, o: Observation): (after: Entry)
    requires |e.evidence| == GROUPS && forall r | r in joining :: ProperRule(r)
    ensures after == e.(evidence := after.evidence) && |after.evidence| == GROUPS
  {
    if joining == [] then e
    else
      var n := |joining| - 1;
      assert joining[n] in joining && ProperRule(joining[n]);
      Supported(Gathered(e, joining[..n], o), joining[n], o)
  }

  /** Some rule that joins has its evidence in this group. */
  predicate OfGroup(joining: seq<Rule>, g: nat) {
    exists r :: r in joining && r.kind < KINDS && Group(r.kind) == g
  }

  /**
   * In each group the strongest clue stands: what was fresh there if it outscores all that join, else one that joins
   * now. Where nothing joins nothing changes.
   */
  lemma {:induction false} GatheredStrongest(e: Entry, joining: seq<Rule>, o: Observation, g: nat)
    requires |e.evidence| == GROUPS && g < GROUPS && forall r | r in joining :: ProperRule(r)
    ensures !OfGroup(joining, g) ==> Gathered(e, joining, o).evidence[g] == e.evidence[g]
    ensures OfGroup(joining, g) ==>
              var ev := Gathered(e, joining, o).evidence[g];
              && Fresh(ev, o.ms)
              && (forall r | r in joining && Group(r.kind) == g :: r.score <= ev.value.rule.score)
              && (Fresh(e.evidence[g], o.ms) ==> e.evidence[g].value.rule.score <= ev.value.rule.score)
              && (if ev == e.evidence[g] then true
                  else ev.value.rule in joining && Group(ev.value.rule.kind) == g && ev.value.when == o.ms)
  {
    if joining != [] {
      var n := |joining| - 1;
      assert joining == joining[..n] + [joining[n]] && joining[n] in joining && ProperRule(joining[n]);
      GatheredStrongest(e, joining[..n], o, g);
      OfGroupNext(joining[..n], joining[n], g);
      SupportedIn(Gathered(e, joining[..n], o), joining[n], o, g);
      hide Supported, Fresh, OfGroup, Group, ProperRule;
    }
  }

  lemma OfGroupNext(joining: seq<Rule>, r: Rule, g: nat)
    requires r.kind < KINDS
    ensures OfGroup(joining + [r], g) <==> OfGroup(joining, g) || Group(r.kind) == g
  {
    assert r in joining + [r];
  }

  lemma SupportedIn(e: Entry, r: Rule, o: Observation, g: nat)
    requires |e.evidence| == GROUPS && ProperRule(r) && g < GROUPS
    ensures var ev, after := e.evidence[g], Supported(e, r, o).evidence[g];
            if Group(r.kind) != g || (Fresh(ev, o.ms) && ev.value.rule.score > r.score) then after == ev
            else after == Some(Evidence(r, o.ms % WRAP, o.ms)) && Fresh(after, o.ms)
  {
    AgeNow(o.ms);
  }

  /** The entries of a category: the one of its identity, or the least recently seen of those not given up before. */
  ghost predicate Chosen(start: seq<Entry>, touched: seq<int>, slot: nat, c: nat, o: Observation) {
    && slot < |start|
    && (Looks(start[slot].detection, c, o)
        || forall i: nat | i < |start| && i !in touched ::
             && !Looks(start[i].detection, c, o)
             && (start[slot].detection.seenCount == 0
                 || (start[i].detection.seenCount > 0 && start[slot].detection.lastMs <= start[i].detection.lastMs)))
  }

  ghost predicate Shaped(cache: seq<Entry>) {
    |cache| == SLOTS && forall i: nat | i < SLOTS :: |cache[i].evidence| == GROUPS
  }

  /** The entry of category c, once the first n rules have been looked at. */
  function Joined(e: Entry, c: nat, o: Observation, rules: seq<Rule>, enabled: seq<bool>, hits: seq<bool>,
      n: nat): Entry
    requires n <= |rules| == |hits| && |e.evidence| == GROUPS && forall r | r in rules :: ProperRule(r)
  {
    Gathered(Seen(Base(e, c, o), o), Joining(rules, enabled, hits, n, c), o)
  }

  /**
   * What the first n rules make of the cache, though rules of all categories take turns and slots are given up on the
   * way: each touched slot holds what the rules of its category alone make of it, and the others are as they were.
   */
  ghost predicate Merged(start: seq<Entry>, cache: seq<Entry>, touched: seq<int>, o: Observation, rules: seq<Rule>,
                         enabled: seq<bool>, hits: seq<bool>, n: nat)
    requires n <= |rules| == |hits| && Shaped(start) && forall r | r in rules :: ProperRule(r)
  {
    && |cache| == SLOTS && |touched| == CATEGORY_COUNT
    && (forall i: nat | i < SLOTS && i !in touched :: cache[i] == start[i])
    && (forall c: nat | c < CATEGORY_COUNT && touched[c] >= 0 ::
          touched[c] < SLOTS && Chosen(start, touched, touched[c], c, o)
          && cache[touched[c]] == Joined(start[touched[c]], c, o, rules, enabled, hits, n))
  }

  lemma MergedNone(cache: seq<Entry>, o: Observation, rules: seq<Rule>, enabled: seq<bool>, hits: seq<bool>)
    requires |rules| == |hits| && Shaped(cache) && forall r | r in rules :: ProperRule(r)
    ensures Merged(cache, cache, NONE_TOUCHED, o, rules, enabled, hits, 0)
  {
  }

  lemma MergedSkips(start: seq<Entry>, cache: seq<Entry>, touched: seq<int>, o: Observation, rules: seq<Rule>,
                    enabled: seq<bool>, hits: seq<bool>, n: nat)
    requires n < |rules| == |hits| && Shaped(start) && forall r | r in rules :: ProperRule(r)
    requires Merged(start, cache, touched, o, rules, enabled, hits, n)
    requires forall c :: !Joins(rules, enabled, hits, n, c)
    ensures Merged(start, cache, touched, o, rules, enabled, hits, n + 1)
  {
    hide Chosen, Gathered, Seen, Base, Joins, ProperRule;
    assert forall c: nat :: Joining(rules, enabled, hits, n + 1, c) == Joining(rules, enabled, hits, n, c);
  }

  /** The entry after one more rule of its category. */
  lemma JoinedNext(e: Entry, c: nat, o: Observation, rules: seq<Rule>, enabled: seq<bool>, hits: seq<bool>, n: nat)
    requires n < |rules| == |hits| && |e.evidence| == GROUPS && forall r | r in rules :: ProperRule(r)
    ensures Joins(rules, enabled, hits, n, c) ==>
              var before := Joined(e, c, o, rules, enabled, hits, n);
              Joined(e, c, o, rules, enabled, hits, n + 1) == Supported(before, rules[n], o)
    ensures !Joins(rules, enabled, hits, n, c) ==>
              Joined(e, c, o, rules, enabled, hits, n + 1) == Joined(e, c, o, rules, enabled, hits, n)
    ensures Joining(rules, enabled, hits, n, c) == [] ==>
        Joined(e, c, o, rules, enabled, hits, n) == Seen(Base(e, c, o), o)
  {
    hide Seen, Base, Joins, Supported, ProperRule;
    var joining := Joining(rules, enabled, hits, n, c);
    assert (joining + [rules[n]])[..|joining|] == joining;
    assert joining + [] == joining;
  }

  /** The entry as the rule finds it: its category's first rule in this call sees the identity. */
  function Met(e: Entry, first: bool, c: nat, o: Observation): (met: Entry)
    requires |e.evidence| == GROUPS
    ensures |met.evidence| == GROUPS
  {
    if first then Seen(Base(e, c, o), o) else e
  }

  lemma MergedNext(start: seq<Entry>, before: seq<Entry>, after: seq<Entry>, was: seq<int>, touched: seq<int>,
      o: Observation, rules: seq<Rule>, enabled: seq<bool>, hits: seq<bool>, n: nat, c: nat)
    requires n < |rules| == |hits| && Shaped(start) && Shaped(before) && |after| == SLOTS && forall r | r in rules ::
        ProperRule(r)
    requires Merged(start, before, was, o, rules, enabled, hits, n) && c < CATEGORY_COUNT
    requires Joins(rules, enabled, hits, n, c) && (was[c] >= 0 <==> Joining(rules, enabled, hits, n, c) != [])
    requires |touched| == CATEGORY_COUNT && 0 <= touched[c] < SLOTS && touched == was[c := touched[c]]
    requires forall d: nat | d < CATEGORY_COUNT && d != c :: touched[d] != touched[c]
    requires (was[c] >= 0 ==> was[c] == touched[c]) && ProperRule(rules[n])
    requires was[c] < 0 ==> Chosen(before, was, touched[c], c, o)
    requires after == before[touched[c] := Supported(Met(before[touched[c]], was[c] < 0, c, o), rules[n], o)]
    ensures Merged(start, after, touched, o, rules, enabled, hits, n + 1)
  {
    hide Seen, Base, Joined, Supported, ProperRule, Looks, Joining;
    var s := touched[c];
    forall d: nat | d < CATEGORY_COUNT ensures was[c] < 0 ==> was[d] != s {
      assert d != c ==> was[d] == touched[d];
    }
    assert was[c] < 0 ==> s !in was;
    forall i: nat | i < SLOTS && i !in touched ensures after[i] == start[i] && i !in was {
      assert i != touched[c] && forall d: nat | d < CATEGORY_COUNT && d != c :: was[d] == touched[d];
    }
    forall d: nat | d < CATEGORY_COUNT && touched[d] >= 0
      ensures touched[d] < SLOTS && Chosen(start, touched, touched[d], d, o)
      ensures after[touched[d]] == Joined(start[touched[d]], d, o, rules, enabled, hits, n + 1)
    {
      JoinedNext(start[touched[d]], d, o, rules, enabled, hits, n);
      assert d != c ==> was[d] == touched[d] && !Joins(rules, enabled, hits, n, d);
    }
  }

  // ---- The answer to a call ----

  function Grade(score: nat): nat {
    if score >= 80 then 3 else if score >= 50 then 2 else if score >= 20 then 1 else 0
  }

  /** The first report, one every 30 seconds, and one for each rise in grade or change of a tag's claim. */
  predicate Due(e: Entry, d: Detection, ms: nat) {
    e.emitted == 0 || ms < e.emitted || ms - e.emitted >= FRESH_MS || d.samsung.state != e.emittedState
    || Grade(d.score) > Grade(e.detection.score)
  }

  /** An entry at the end of a call: its score and rules are new, and it is marked if it was the one reported. */
  ghost predicate Settled(e: Entry, after: Entry, o: Observation, reported: bool) {
    && Scored(after, o)
    && after == e.(detection := e.detection.(rules := after.detection.rules, score := after.detection.score),
                   emitted := if reported then Max(1, o.ms) else e.emitted,
                   emittedState := if reported then e.detection.samsung.state else e.emittedState)
  }

  /**
   * The first n categories have been answered: the report is of the first one that is due, if the way is open, and
   * nothing else changes. who is its category, -1 for none.
   */
  ghost predicate Answered(before: seq<Entry>, after: seq<Entry>, touched: seq<int>, o: Observation, open: bool, n: nat,
                           who: int, out: seq<Detection>) {
    && |before| == |after| == SLOTS && |touched| == CATEGORY_COUNT && n <= CATEGORY_COUNT && who < n
    && (forall c: nat | c < CATEGORY_COUNT :: touched[c] < SLOTS)
    && (forall i: nat | i < SLOTS && i !in touched :: after[i] == before[i])
    && (forall c: nat | n <= c < CATEGORY_COUNT && touched[c] >= 0 :: after[touched[c]] == before[touched[c]])
    && (forall c: nat | c < n && touched[c] >= 0 :: Settled(before[touched[c]], after[touched[c]], o, c == who))
    && (forall c: nat | c < n && touched[c] >= 0 && (who < 0 || c < who) ::
          !(open && Due(before[touched[c]], after[touched[c]].detection, o.ms)))
    && if who < 0 then out == []
       else touched[who] >= 0 && open && Due(before[touched[who]], after[touched[who]].detection, o.ms)
            && out == [after[touched[who]].detection]
  }

  lemma AnsweredNone(cache: seq<Entry>, touched: seq<int>, o: Observation, open: bool)
    requires Current(cache, touched, o.ms)
    ensures Answered(cache, cache, touched, o, open, 0, -1, [])
  {
  }

  lemma AnsweredSkips(before: seq<Entry>, after: seq<Entry>, touched: seq<int>, o: Observation, open: bool, c: nat,
                      who: int, out: seq<Detection>)
    requires Answered(before, after, touched, o, open, c, who, out) && c < CATEGORY_COUNT && touched[c] < 0
    ensures Answered(before, after, touched, o, open, c + 1, who, out)
  {
    hide Settled, Due;
  }

  /** Scoring and marking settle an entry. */
  lemma SettledNow(e: Entry, after: Entry, o: Observation, reported: bool)
    requires Scored(after, o) && after.run == e.run && after.evidence == e.evidence
    requires after.detection == e.detection.(rules := after.detection.rules, score := after.detection.score)
    requires after.emitted == (if reported then Max(1, o.ms) else e.emitted)
    requires after.emittedState == (if reported then e.detection.samsung.state else e.emittedState)
    ensures Settled(e, after, o, reported)
  {
  }

  lemma AnsweredNext(before: seq<Entry>, was: seq<Entry>, after: seq<Entry>, touched: seq<int>, o: Observation,
      open: bool, c: nat, who: int, out: seq<Detection>, now: bool)
    requires Answered(before, was, touched, o, open, c, who, out) && c < CATEGORY_COUNT && touched[c] >= 0
    requires Separate(before, touched, o.ms)
    requires |after| == SLOTS && after == was[touched[c] := after[touched[c]]]
    requires Settled(was[touched[c]], after[touched[c]], o, now)
    requires now <==> who < 0 && open && Due(was[touched[c]], after[touched[c]].detection, o.ms)
    ensures Answered(before, after, touched, o, open, c + 1, if now then c else who,
                     if now then [after[touched[c]].detection] else out)
  {
    forall d: nat | d < CATEGORY_COUNT && d != c && touched[d] >= 0 ensures touched[d] != touched[c] {
      SeparateSlots(before, touched, o.ms, c, d);
    }
    hide Settled, Due, Separate;
  }

  class Engine {
    const rules: seq<Rule>
    const cache: array<Entry>
    var nextEmit: nat
    /** The time of the last observation. */
    ghost var clock: nat

    ghost predicate Valid()
      reads this, cache
    {
      cache.Length == SLOTS && Stored(cache[..], rules, clock) && Unique(cache[..]) && forall r | r in rules ::
          ProperRule(r)
    }

    constructor (pack: seq<Rule>)
      requires forall r | r in pack :: ProperRule(r)
      ensures Valid() && rules == pack && clock == 0 && nextEmit == 0 && fresh(cache) && NoneLive(cache[..])
    {
      rules := pack;
      cache := new Entry[SLOTS](_ => EMPTY);
      nextEmit, clock := 0, 0;
      new;
      assert forall i: nat | i < SLOTS :: Sane(cache[i], rules);
    }

    method Find(category: nat, o: Observation) returns (slot: int)
      requires cache.Length == SLOTS
      ensures -1 <= slot < SLOTS && (slot >= 0 ==> Looks(cache[slot].detection, category, o))
      ensures slot < 0 ==> forall i: nat | i < SLOTS :: !Looks(cache[i].detection, category, o)
    {
      hide Looks;
      for i := 0 to SLOTS
        invariant forall k: nat | k < i :: !Looks(cache[k].detection, category, o)
      {
        if Looks(cache[i].detection, category, o) {
          return i;
        }
      }
      return -1;
    }

    /** The first unused slot, else the one seen longest ago. */
    method Victim() returns (slot: nat)
      requires cache.Length == SLOTS
      ensures slot < SLOTS && Oldest(cache[..], slot)
    {
      slot := 0;
      for i := 0 to SLOTS
        invariant slot < SLOTS
        invariant forall k: nat | k < i ::
                    cache[k].detection.seenCount > 0 && cache[slot].detection.lastMs <= cache[k].detection.lastMs
      {
        if cache[i].detection.seenCount == 0 {
          return i;
        }
        if cache[i].detection.lastMs < cache[slot].detection.lastMs {
          slot := i;
        }
      }
    }

    /** The first rule of a category that matches: its identity is looked up, or takes the place of another. */
    method Touch(category: nat, o: Observation) returns (slot: nat)
      requires Valid() && category < CATEGORY_COUNT && Proper(o) && o.ms >= clock
      modifies cache
      ensures slot < SLOTS && Stored(cache[..], rules, o.ms) && Unique(cache[..])
      ensures var d := cache[slot].detection; Seated(d, category, o.ms) && d.radio == o.radio && d.address == o.address
      ensures cache[..] == old(cache[..])[slot := Seen(Base(old(cache[slot]), category, o), o)]
      ensures if Looks(old(cache[slot].detection), category, o) then
          Seated(old(cache[slot].detection), category, old(cache[slot].detection.lastMs))
              else Oldest(old(cache[..]), slot) && forall i: nat | i < SLOTS ::
                  !Looks(old(cache[i].detection), category, o)
    {
      hide Sane, Oldest, Looks, Unique, Seen, Claimed;
      var found := Find(category, o);
      var e;
      if found >= 0 {
        slot, e := found, cache[found];
        LooksSeated(e.detection, category, o);
      } else {
        slot := Victim();
        e := Claimed(category, o);
      }
      SeenPlaced(cache[..], slot, e, category, o, rules, clock);
      cache[slot] := Seen(e, o);
      assert cache[..] == old(cache[..])[slot := Seen(e, o)];
    }

    /**
     * The matching rules, in order: each joins the evidence of the identity its category was given first. On a clock
     * that has moved on, no two categories share a slot.
     */
    method Match(o: Observation, enabled: seq<bool>, hits: seq<bool>) returns (touched: seq<int>)
      requires Valid() && Proper(o) && o.ms >= clock && |enabled| == CATEGORY_COUNT && |hits| == |rules|
      modifies cache, this`clock
      ensures Valid() && clock == o.ms && Current(cache[..], touched, o.ms)
      ensures old(clock) < o.ms || NoneLive(old(cache[..])) ==> Separate(cache[..], touched, o.ms)
      ensures |touched| == CATEGORY_COUNT
      ensures forall c: nat | c < CATEGORY_COUNT :: touched[c] >= 0 <==> Joining(rules, enabled, hits, |rules|, c) != []
      ensures Shaped(old(cache[..]))
      ensures old(clock) < o.ms || NoneLive(old(cache[..])) ==>
                Merged(old(cache[..]), cache[..], touched, o, rules, enabled, hits, |rules|)
    {
      hide Stored, Unique, Current, Separate, Merged, Shaped, Joins, Supported, Met, Chosen;
      touched := NONE_TOUCHED;
      ghost var start := cache[..];
      ghost var strict := old(clock) < o.ms || NoneLive(start);
      Later(start, rules, clock, o.ms);
      StoredShaped(start, rules, clock);
      MergedNone(start, o, rules, enabled, hits);
      clock := o.ms;
      for k := 0 to |rules|
        invariant Valid() && clock == o.ms && Current(cache[..], touched, o.ms) && |touched| == CATEGORY_COUNT
        invariant strict ==> Separate(cache[..], touched, o.ms)
        invariant strict ==> Merged(start, cache[..], touched, o, rules, enabled, hits, k)
        invariant forall c: nat | c < CATEGORY_COUNT :: touched[c] >= 0 <==> Joining(rules, enabled, hits, k, c) != []
      {
        assert rules[k] in rules && ProperRule(rules[k]);
        JoinsOnly(rules, enabled, hits, k);
        if hits[k] && enabled[rules[k].category] {
          ghost var before, was := cache[..], touched;
          StoredShaped(before, rules, clock);
          touched := Admit(touched, rules[k], o, strict);
          if strict {
            MergedNext(start, before, cache[..], was, touched, o, rules, enabled, hits, k, rules[k].category);
          }
        } else if strict {
          MergedSkips(start, cache[..], touched, o, rules, enabled, hits, k);
        }
      }
    }

    method Admit(before: seq<int>, r: Rule, o: Observation, ghost strict: bool) returns (touched: seq<int>)
      requires Valid() && clock == o.ms && r in rules && Proper(o) && Current(cache[..], before, o.ms)
      requires strict ==> Separate(cache[..], before, o.ms)
      modifies cache
      ensures Valid() && Current(cache[..], touched, o.ms) && (strict ==> Separate(cache[..], touched, o.ms))
      ensures touched == before[r.category := touched[r.category]] && 0 <= touched[r.category] < SLOTS
      ensures before[r.category] >= 0 ==> touched == before
      ensures Shaped(old(cache[..]))
      ensures cache[..] == old(cache[..])[touched[r.category] :=
                             Supported(Met(old(cache[touched[r.category]]), before[r.category] < 0, r.category, o), r,
                                 o)]
      ensures strict ==> forall d: nat | d < CATEGORY_COUNT && d != r.category :: touched[d] != touched[r.category]
      ensures before[r.category] < 0 ==> Chosen(old(cache[..]), before, touched[r.category], r.category, o)
    {
      hide Sane, Unique, Oldest, Stored, Shaped, Chosen, Looks, Seen, Base, Supported;
      StoredShaped(cache[..], rules, clock);
      touched := before;
      var c := r.category;
      if before[c] < 0 {
        var slot := Touch(c, o);
        touched := before[c := slot];
        FoundChosen(old(cache[..]), before, slot, c, o);
        if strict {
          TouchedSeparate(old(cache[..]), cache[..], before, c, slot, o.ms, rules);
        }
      }
      ghost var mid := cache[..];
      Support(touched[c], r, o);
      if strict {
        SameSeparate(mid, cache[..], touched, o.ms);
      }
    }

    method Support(slot: nat, r: Rule, o: Observation)
      requires Valid() && slot < SLOTS && r in rules && cache[slot].detection.seenCount > 0
          && cache[slot].detection.lastMs == o.ms
      modifies cache
      ensures Valid() && Supports(cache[slot], o.ms) && cache[slot]
          == old(cache[slot]).(evidence := cache[slot].evidence)
      ensures |old(cache[slot].evidence)| == GROUPS
      ensures cache[..] == old(cache[..])[slot := Supported(old(cache[slot]), r, o)]
    {
      hide Sane, Supported, Fresh, Unique, Supports;
      assert Sane(cache[slot], rules) && ProperRule(r);
      SupportedSupports(cache[slot], r, o, rules);
      var e := Supported(cache[slot], r, o);
      PlaceStored(cache[..], rules, clock, slot, e);
      SameDetections(cache[..], slot, e);
      cache[slot] := e;
      assert cache[..] == old(cache[..])[slot := e];
    }

    method Rescore(slot: nat, o: Observation)
      requires Valid() && slot < SLOTS && Supports(cache[slot], o.ms)
      modifies cache
      ensures Valid() && Scored(cache[slot], o) && Supports(cache[slot], o.ms)
      ensures var was, now := old(cache[slot]).detection, cache[slot].detection;
              cache[slot] == old(cache[slot]).(detection := was.(rules := now.rules, score := now.score))
      ensures forall i: nat | i < SLOTS && i != slot :: cache[i] == old(cache[i])
    {
      hide Sane, Unique, Score, Active, Fresh, Consistent, Stored;
      var e := cache[slot];
      var ranked := Rank(Active(e.evidence, o.ms), o);
      var after := e.(detection := e.detection.(rules := ranked[..Min(RULES_MAX, |ranked|)],
          score := Score(ranked, o)));
      assert Shows(after, ranked, o);
      RescoredStored(cache[..], slot, after, rules, clock);
      cache[slot] := after;
      assert cache[..] == old(cache[..])[slot := after];
    }

    /**
     * The touched entries are scored again, in the order of the categories; the first that is due is reported, if the
     * last report is 100 ms ago. who is its category, -1 for none.
     */
    method Report(o: Observation, touched: seq<int>, room: nat) returns (out: seq<Detection>, ghost who: int)
      requires Valid() && Current(cache[..], touched, o.ms)
      modifies cache, this`nextEmit
      ensures Valid() && |out| <= Min(1, room) && (out != [] ==> Reported(out[0], o, rules))
      ensures if out == [] then nextEmit == old(nextEmit) else old(nextEmit) <= o.ms && nextEmit == o.ms + 100
      ensures forall c: nat | c < CATEGORY_COUNT && touched[c] >= 0 ::
                Scored(cache[touched[c]], o) && FairlyScored(cache[touched[c]], o)
      ensures Separate(old(cache[..]), touched, o.ms) ==>
                Answered(old(cache[..]), cache[..], touched, o, room > 0
                    && o.ms >= old(nextEmit), CATEGORY_COUNT, who, out)
    {
      hide Sane, Unique, Scored, Supports, Reported, Due, Separate, Answered, Settled, Stored, FairlyScored;
      out, who := [], -1;
      ghost var before, open := cache[..], room > 0 && o.ms >= nextEmit;
      ghost var apart := Separate(before, touched, o.ms);
      AnsweredNone(before, touched, o, open);
      for c := 0 to CATEGORY_COUNT
        invariant Valid() && Current(cache[..], touched, o.ms)
        invariant |out| <= Min(1, room) && (out != [] ==> Reported(out[0], o, rules)) && (out == [] <==> who < 0)
        invariant if out == [] then nextEmit == old(nextEmit) else old(nextEmit) <= o.ms && nextEmit == o.ms + EMIT_MS
        invariant forall k: nat | k < c && touched[k] >= 0 :: Scored(cache[touched[k]], o)
        invariant apart ==> Answered(before, cache[..], touched, o, open, c, who, out)
      {
        ghost var was, shown, now := cache[..], out, false;
        if touched[c] >= 0 {
          var slot := touched[c];
          var e := cache[slot];
          Rescore(slot, o);
          var d := cache[slot].detection;
          if Due(e, d, o.ms) && o.ms >= nextEmit && |out| < room {
            StoredSane(cache[..], rules, clock, slot);
            ScoredReported(cache[slot], o, rules);
            out := out + [d];
            assert out == [d];
            Mark(slot, o.ms);
            nextEmit := o.ms + EMIT_MS;
            now := true;
          }
          if apart {
            SettledNow(was[slot], cache[slot], o, now);
            AnsweredNext(before, was, cache[..], touched, o, open, c, who, shown, now);
          }
        } else if apart {
          AnsweredSkips(before, was, touched, o, open, c, who, out);
        }
        who := if now then c else who;
      }
      forall c: nat | c < CATEGORY_COUNT && touched[c] >= 0 ensures FairlyScored(cache[touched[c]], o) {
        StoredSane(cache[..], rules, clock, touched[c]);
        ScoredFairly(cache[touched[c]], o, rules);
      }
    }

    method Mark(slot: nat, ms: nat)
      requires Valid() && slot < SLOTS
      modifies cache
      ensures forall ms :: Supports(old(cache[slot]), ms) ==> Supports(cache[slot], ms)
      ensures forall o :: Scored(old(cache[slot]), o) ==> Scored(cache[slot], o)
      ensures Valid() && cache[slot] == old(cache[slot]).(emitted := Max(1, ms),
          emittedState := cache[slot].detection.samsung.state)
      ensures forall i: nat | i < SLOTS && i != slot :: cache[i] == old(cache[i])
    {
      hide Sane, Unique, Stored, Supports, Scored;
      var after := cache[slot].(emitted := Max(1, ms), emittedState := cache[slot].detection.samsung.state);
      MarkedStored(cache[..], slot, after, rules, clock);
      cache[slot] := after;
      assert cache[..] == old(cache[..])[slot := after];
    }

    /** One observation: its evidence is gathered into the cache, giving merged, and then it is answered. */
    method Ingest(o: Observation, enabled: seq<bool>, hits: seq<bool>, room: nat)
      returns (out: seq<Detection>, ghost touched: seq<int>, ghost merged: seq<Entry>, ghost who: int)
      requires Valid() && Proper(o) && o.ms >= clock && |enabled| == CATEGORY_COUNT && |hits| == |rules|
      modifies cache, this`clock, this`nextEmit
      ensures Valid() && clock == o.ms && |out| <= Min(1, room) && (out != [] ==> Reported(out[0], o, rules))
      ensures if out == [] then nextEmit == old(nextEmit) else old(nextEmit) <= o.ms && nextEmit == o.ms + 100
      ensures |touched| == CATEGORY_COUNT && Shaped(old(cache[..]))
      ensures forall c: nat | c < CATEGORY_COUNT && touched[c] >= 0 ::
                touched[c] < SLOTS && FairlyScored(cache[touched[c]], o)
      ensures forall c: nat | c < CATEGORY_COUNT :: touched[c] >= 0 <==> Joining(rules, enabled, hits, |rules|, c) != []
      ensures old(clock) < o.ms || NoneLive(old(cache[..])) ==>
                && Merged(old(cache[..]), merged, touched, o, rules, enabled, hits, |rules|)
                && Answered(merged, cache[..], touched, o, room > 0 && o.ms >= old(nextEmit), CATEGORY_COUNT, who, out)
    {
      hide Merged, Answered, Shaped, Separate, Supports, Stored, Unique, Reported, FairlyScored;
      var slots := Match(o, enabled, hits);
      touched, merged := slots, cache[..];
      out, who := Report(o, slots, room);
    }
  }

  const NONE_TOUCHED: seq<int> := Repeat(-1, CATEGORY_COUNT)

  predicate NoneLive(cache: seq<Entry>) {
    forall i: nat | i < |cache| :: cache[i].detection.seenCount == 0
  }

  /** At the start of a call nothing is touched. */
  lemma Later(cache: seq<Entry>, rules: seq<Rule>, clock: nat, ms: nat)
    requires Stored(cache, rules, clock) && clock <= ms
    ensures Stored(cache, rules, ms) && Current(cache, NONE_TOUCHED, ms)
    ensures clock < ms || NoneLive(cache) ==> Separate(cache, NONE_TOUCHED, ms)
  {
  }

  /** Evidence does not decide who an entry is. */
  lemma SameDetections(cache: seq<Entry>, slot: nat, e: Entry)
    requires Unique(cache) && slot < |cache| && e.detection == cache[slot].detection
    ensures Unique(cache[slot := e])
  {
    var after := cache[slot := e];
    assert forall i: nat | i < |cache| :: after[i].detection == cache[i].detection;
  }

  lemma FoundChosen(cache: seq<Entry>, touched: seq<int>, slot: nat, c: nat, o: Observation)
    requires slot < |cache|
    requires Looks(cache[slot].detection, c, o)
          || (Oldest(cache, slot) && forall i: nat | i < |cache| :: !Looks(cache[i].detection, c, o))
    ensures Chosen(cache, touched, slot, c, o)
  {
  }

  lemma StoredSane(cache: seq<Entry>, rules: seq<Rule>, clock: nat, slot: nat)
    requires Stored(cache, rules, clock) && slot < SLOTS
    ensures |cache| == SLOTS && Sane(cache[slot], rules)
  {
  }

  lemma StoredShaped(cache: seq<Entry>, rules: seq<Rule>, clock: nat)
    requires Stored(cache, rules, clock)
    ensures Shaped(cache)
  {
  }

  /** A rule joins in its own category or nowhere. */
  lemma JoinsOnly(rules: seq<Rule>, enabled: seq<bool>, hits: seq<bool>, k: nat)
    requires k < |rules| == |hits| && |enabled| == CATEGORY_COUNT && forall r | r in rules :: ProperRule(r)
    ensures forall c: nat :: Joins(rules, enabled, hits, k, c) <==>
                             hits[k] && rules[k].category == c < CATEGORY_COUNT && enabled[rules[k].category]
    ensures forall c: nat :: (Joining(rules, enabled, hits, k + 1, c) != []) <==>
                             (Joining(rules, enabled, hits, k, c) != [] || Joins(rules, enabled, hits, k, c))
    ensures forall c: nat :: Joining(rules, enabled, hits, 0, c) == []
  {
    assert rules[k] in rules;
  }

  lemma TouchedSeparate(before: seq<Entry>, after: seq<Entry>, touched: seq<int>, c: nat, slot: nat, ms: nat,
      rules: seq<Rule>)
    requires Separate(before, touched, ms) && Stored(before, rules, ms) && c < CATEGORY_COUNT && touched[c] < 0
        && slot < SLOTS
    requires |after| == SLOTS && (forall i: nat | i < SLOTS && i != slot :: after[i] == before[i])
    requires Seated(after[slot].detection, c, ms)
    requires Seated(before[slot].detection, c, before[slot].detection.lastMs) || Oldest(before, slot)
    ensures Separate(after, touched[c := slot], ms)
  {
    if Oldest(before, slot) {
      VictimUntouched(before, touched, ms, slot);
    }
    PlaceSeparate(before, touched, ms, c, slot, after[slot]);
    assert after == before[slot := after[slot]];
  }

  lemma SameSeparate(before: seq<Entry>, after: seq<Entry>, touched: seq<int>, ms: nat)
    requires Separate(before, touched, ms) && |after| == SLOTS
    requires forall i: nat | i < SLOTS :: after[i].detection == before[i].detection
    ensures Separate(after, touched, ms)
  {
  }

  /** Separate slots: no two categories of a call share one. */
  lemma SeparateSlots(cache: seq<Entry>, touched: seq<int>, ms: nat, c: nat, d: nat)
    requires Separate(cache, touched, ms) && c < CATEGORY_COUNT && d < CATEGORY_COUNT && c != d
    ensures touched[c] < 0 || touched[d] < 0 || touched[c] != touched[d]
  {
  }

  lemma RescoredStored(cache: seq<Entry>, slot: nat, e: Entry, rules: seq<Rule>, clock: nat)
    requires Stored(cache, rules, clock) && Unique(cache) && slot < SLOTS
    requires e == cache[slot].(detection := cache[slot].detection.(rules := e.detection.rules,
        score := e.detection.score))
    ensures Stored(cache[slot := e], rules, clock) && Unique(cache[slot := e])
    ensures forall ms :: Supports(cache[slot], ms) ==> Supports(e, ms)
  {
    assert Consistent(cache[slot].detection) ==> Consistent(e.detection);
    hide Consistent, EvidenceSane, Unbroken;
    assert Sane(e, rules);
    var after := cache[slot := e];
    forall i: nat, j: nat | i < j < |after| ensures !SameKey(after[i].detection, after[j].detection) {
      assert !SameKey(cache[i].detection, cache[j].detection);
    }
  }

  lemma MarkedStored(cache: seq<Entry>, slot: nat, e: Entry, rules: seq<Rule>, clock: nat)
    requires Stored(cache, rules, clock) && Unique(cache) && slot < SLOTS
    requires e == cache[slot].(emitted := e.emitted, emittedState := e.emittedState)
    ensures Stored(cache[slot := e], rules, clock) && Unique(cache[slot := e])
    ensures forall ms :: Supports(cache[slot], ms) ==> Supports(e, ms)
    ensures forall o :: Scored(cache[slot], o) ==> Scored(e, o)
  {
    SameDetections(cache, slot, e);
    assert Sane(e, rules);
    forall o | Scored(cache[slot], o) ensures Scored(e, o) {
      var ranked :| Shows(cache[slot], ranked, o);
      assert Shows(e, ranked, o);
    }
  }

  // ---- Old evidence that is fresh again ----

  /** A live entry of this identity, last seen at ms, that holds the evidence of a hit of the rule at o.ms. */
  ghost predicate Watched(e: Entry, o: Observation, r: Rule, ms: nat)
    requires ProperRule(r)
  {
    && |e.evidence| == GROUPS && e.detection.seenCount > 0 && e.detection.lastMs == ms
    && Looks(e.detection, r.category, o) && e.evidence[Group(r.kind)] == Some(Evidence(r, o.ms % WRAP, o.ms))
  }

  /** Two rules of one category whose evidence is kept apart. */
  predicate Companions(r: Rule, other: Rule) {
    ProperRule(r) && ProperRule(other) && r.category == other.category && Group(r.kind) != Group(other.kind)
  }

  const ALL_ON: seq<bool> := Repeat(true, CATEGORY_COUNT)

  lemma JoiningOne(r: Rule, other: Rule, first: bool, c: nat)
    requires Companions(r, other)
    ensures forall x | x in [r, other] :: ProperRule(x)
    ensures Joining([r, other], ALL_ON, [first, !first], 2, c)
         == if c == r.category then [if first then r else other] else []
  {
    var rules, hits := [r, other], [first, !first];
    assert Joining(rules, ALL_ON, hits, 0, c) == [];
    assert Joining(rules, ALL_ON, hits, 1, c) == if first && c == r.category then [r] else [];
  }

  /** The entry of the category after a call in which one of the two rules hits. */
  lemma JoinedOne(e: Entry, o: Observation, r: Rule, other: Rule, first: bool)
    requires Companions(r, other) && |e.evidence| == GROUPS
    ensures forall x | x in [r, other] :: ProperRule(x)
    ensures Joined(e, r.category, o, [r, other], ALL_ON, [first, !first], 2)
         == Supported(Seen(Base(e, r.category, o), o), if first then r else other, o)
  {
    hide Supported, Joining;
    JoiningOne(r, other, first, r.category);
    var x, e1 := if first then r else other, Seen(Base(e, r.category, o), o);
    assert [x][..|[x]| - 1] == [] && Gathered(e1, [], o) == e1;
    assert Gathered(e1, [x], o) == Supported(e1, x, o);
  }

  lemma FirstHit(e: Entry, o: Observation, r: Rule)
    requires ProperRule(r) && e.detection.seenCount == 0
    ensures Watched(Supported(Seen(Base(e, r.category, o), o), r, o), o, r, o.ms)
  {
  }

  lemma OtherHit(e: Entry, o: Observation, r: Rule, other: Rule, before: nat, ms: nat)
    requires Companions(r, other) && Watched(e, o, r, before) && before <= ms <= before + FRESH_MS
    ensures var now := o.(ms := ms); Watched(Supported(Seen(Base(e, r.category, now), now), other, now), o, r, ms)
  {
    hide Group;
  }

  lemma SettledWatched(e: Entry, after: Entry, p: Observation, reported: bool, o: Observation, r: Rule, ms: nat)
    requires ProperRule(r) && Settled(e, after, p, reported) && Watched(e, o, r, ms)
    ensures Watched(after, o, r, ms)
  {
    hide Scored;
  }

  /** Only this slot is in use. */
  ghost predicate Alone(cache: seq<Entry>, slot: nat) {
    |cache| == SLOTS && slot < SLOTS && forall i: nat | i < SLOTS && i != slot :: cache[i].detection.seenCount == 0
  }

  lemma TouchedOnly(touched: seq<int>, r: Rule, other: Rule, first: bool)
    requires Companions(r, other) && |touched| == CATEGORY_COUNT && forall x | x in [r, other] :: ProperRule(x)
    requires forall c: nat | c < CATEGORY_COUNT ::
               touched[c] >= 0 <==> Joining([r, other], ALL_ON, [first, !first], 2, c) != []
    ensures forall c: nat | c < CATEGORY_COUNT :: touched[c] >= 0 <==> c == r.category
  {
    hide Joining;
    forall c: nat | c < CATEGORY_COUNT ensures touched[c] >= 0 <==> c == r.category {
      JoiningOne(r, other, first, c);
    }
  }

  /** One call in which only one category is hit, over a cache in which at most its own entry is live. */
  lemma OneCategory(start: seq<Entry>, merged: seq<Entry>, after: seq<Entry>, touched: seq<int>, p: Observation,
      r: Rule, other: Rule, first: bool, slot: nat, open: bool, who: int, out: seq<Detection>) returns (s: nat)
    requires Companions(r, other) && Shaped(start) && (forall x | x in [r, other] :: ProperRule(x))
    requires Merged(start, merged, touched, p, [r, other], ALL_ON, [first, !first], 2)
    requires Answered(merged, after, touched, p, open, CATEGORY_COUNT, who, out)
    requires forall c: nat | c < CATEGORY_COUNT :: touched[c] >= 0 <==> c == r.category
    requires if first then NoneLive(start) else Alone(start, slot) && Looks(start[slot].detection, r.category, p)
    ensures Alone(after, s) && s < |merged| && |start[s].evidence| == GROUPS
    ensures if first then start[s].detection.seenCount == 0 else s == slot
    ensures Settled(merged[s], after[s], p, who == r.category)
    ensures merged[s] == Supported(Seen(Base(start[s], r.category, p), p), if first then r else other, p)
  {
    hide Seen, Base, Supported, Scored, Settled, Joined, Due;
    s := touched[r.category];
    JoinedOne(start[s], p, r, other, first);
    assert forall i: nat | i < SLOTS && i != s :: i !in touched;
  }

  /** One call in which one of the two rules hits: the first on a new engine, the other on an identity it watches. */
  method HitBy(engine: Engine, o: Observation, p: Observation, r: Rule, other: Rule, first: bool, ghost slot: nat)
    returns (ghost s: nat)
    requires engine.Valid() && engine.rules == [r, other] && Companions(r, other) && Proper(o) && p == o.(ms := p.ms)
    requires if first then p == o && engine.clock <= o.ms && NoneLive(engine.cache[..])
             else engine.clock < p.ms <= engine.clock + FRESH_MS && Alone(engine.cache[..], slot)
                  && Watched(engine.cache[slot], o, r, engine.clock)
    modifies engine.cache, engine`clock, engine`nextEmit
    ensures engine.Valid() && engine.clock == p.ms && Alone(engine.cache[..], s) && s < SLOTS
    ensures Watched(engine.cache[s], o, r, p.ms)
  {
    hide Merged, Answered, Looks, Shaped, Stored, Unique, Joining, Settled, Seen, Base, Supported, NoneLive, Proper,
         Watched;
    ghost var start, clock := engine.cache[..], engine.clock;
    ghost var open := 1 > 0 && p.ms >= engine.nextEmit;
    if !first {
      WatchedLooks(start[slot], o, p, r, clock);
    }
    SameProper(o, p);
    var out;
    ghost var touched, merged, who;
    out, touched, merged, who := engine.Ingest(p, ALL_ON, [first, !first], 1);
    TouchedOnly(touched, r, other, first);
    s := OneCategory(start, merged, engine.cache[..], touched, p, r, other, first, slot, open, who, out);
    if first {
      FirstHit(start[s], o, r);
    } else {
      OtherHit(start[s], o, r, other, clock, p.ms);
    }
    SettledWatched(merged[s], engine.cache[s], p, who == r.category, o, r, p.ms);
  }

  lemma WatchedLooks(e: Entry, o: Observation, p: Observation, r: Rule, ms: nat)
    requires ProperRule(r) && Watched(e, o, r, ms) && p == o.(ms := p.ms)
    ensures Looks(e.detection, r.category, p) && e.detection.seenCount > 0
  {
  }

  lemma SameProper(o: Observation, p: Observation)
    requires Proper(o) && p == o.(ms := p.ms)
    ensures Proper(p)
  {
  }

  lemma WatchedFresh(e: Entry, o: Observation, r: Rule, span: nat)
    requires ProperRule(r) && Watched(e, o, r, o.ms + span)
    ensures |e.evidence| == GROUPS
    ensures Fresh(e.evidence[Group(r.kind)], o.ms + span) <==> span % WRAP <= FRESH_MS
  {
    AgeWraps(o.ms + span, o.ms);
  }

  /**
   * An identity is hit once by a rule and from then on seen through another rule of its category, every 30 s, until
   * any time after: its evidence of that hit is taken for fresh exactly if its age is at most 30 s up to multiples of
   * 2^32 ms. So it is fresh again after seven weeks, and was not one millisecond earlier.
   */
  method WrapMakesFresh(o: Observation, r: Rule, other: Rule, span: nat) returns (engine: Engine, ghost slot: nat)
    requires Proper(o) && Companions(r, other)
    ensures engine.Valid() && engine.rules == [r, other] && engine.clock == o.ms + span && slot < SLOTS
    ensures Watched(engine.cache[slot], o, r, o.ms + span)
    ensures Fresh(engine.cache[slot].evidence[Group(r.kind)], o.ms + span) <==> span % WRAP <= FRESH_MS
    ensures span == WRAP ==> Fresh(engine.cache[slot].evidence[Group(r.kind)], o.ms + span)
    ensures span == WRAP - 1 ==> !Fresh(engine.cache[slot].evidence[Group(r.kind)], o.ms + span)
  {
    hide Watched, Merged, Answered, Alone, Looks, Fresh, Shaped, Stored, Unique;
    engine := new Engine([r, other]);
    slot := HitBy(engine, o, o, r, other, true, 0);
    var at := 0;
    while at < span
      invariant fresh(engine) && fresh(engine.cache) && engine.Valid() && engine.rules == [r, other]
      invariant at <= span && engine.clock == o.ms + at && Alone(engine.cache[..], slot) && slot < SLOTS
      invariant Watched(engine.cache[slot], o, r, o.ms + at)
    {
      at := Min(at + FRESH_MS, span);
      slot := HitBy(engine, o, o.(ms := o.ms + at), r, other, false, slot);
    }
    WatchedFresh(engine.cache[slot], o, r, span);
  }
}
