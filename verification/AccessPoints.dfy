/** Access points, and the rules about two that clash. */
module AccessPoints {
  // The rules are about a network that is open here and protected there.

  const APS: nat := 24
  const RECENT_MS: nat := 30000
  const BEACON: nat := 8
  const PROBE_RESPONSE: nat := 5
  const RSSI_APART: nat := 20

  type Address = a: seq<nat> | |a| == 6 witness [0, 0, 0, 0, 0, 0]

  datatype Beacon = Beacon(ms: nat, address: Address, ssid: seq<nat>, secured: bool, rsnCaps: bv16, rssi: int,
                           channel: nat, vendor: nat)

  datatype Frame = Frame(wifi: bool, subtype: nat, pwnagotchi: bool, beacon: Beacon) {
    predicate Announces() {
      wifi && (subtype == BEACON || subtype == PROBE_RESPONSE) && beacon.ssid != []
    }

    predicate Remembered() {
      Announces() && !pwnagotchi
    }
  }

  datatype Slot = Slot(used: bool, obs: Beacon)

  const UNUSED: Slot := Slot(false, Beacon(0, [0, 0, 0, 0, 0, 0], [], false, 0, 0, 0, 0))

  // ---- The rules ----

  /** Another access point has lately announced the same network with the other protection. */
  predicate Clashes(a: Beacon, o: Beacon) {
    a.ms <= o.ms <= a.ms + RECENT_MS && a.address != o.address && a.ssid == o.ssid && a.secured != o.secured
  }

  function Clues(a: Beacon, o: Beacon): nat {
    (if a.address[..3] != o.address[..3] then 1 else 0)
    + (if a.rsnCaps & 0xc0 != o.rsnCaps & 0xc0 then 1 else 0)
    + (if a.vendor != 0 && o.vendor != 0 && a.vendor != o.vendor then 1 else 0)
    + (if a.channel != o.channel && (a.rssi - o.rssi >= RSSI_APART || o.rssi - a.rssi >= RSSI_APART) then 1 else 0)
  }

  predicate Suspect(a: Beacon, o: Beacon, corroborated: bool) {
    Clashes(a, o) && (corroborated ==> Clues(a, o) >= 2)
  }

  predicate Both(p: bool, q: bool, r: bool, s: bool) {
    (p && (q || r || s)) || (q && (r || s)) || (r && s)
  }

  /**
   * A clash is of two access points that announce one network within 30 s, one of them open. It is corroborated by
   * two of: another maker, other protection of management frames, another vendor fingerprint, another place.
   */
  lemma SuspectIs(a: Beacon, o: Beacon, corroborated: bool)
    ensures Suspect(a, o, corroborated) <==>
              && 0 <= o.ms - a.ms <= 30000 && a.address != o.address && a.ssid == o.ssid && a.secured == !o.secured
              && (corroborated ==>
                    Both(exists i | 0 <= i < 3 :: a.address[i] != o.address[i],
                         a.rsnCaps & 192 != o.rsnCaps & 192,
                         a.vendor != o.vendor && 0 !in {a.vendor, o.vendor},
                         a.channel != o.channel && !(-20 < a.rssi - o.rssi < 20)))
  {
    assert a.address[..3] == o.address[..3] <==> forall i | 0 <= i < 3 :: a.address[i] == o.address[i] by {
      if a.address[..3] == o.address[..3] {
        forall i | 0 <= i < 3 ensures a.address[i] == o.address[i] {
          assert a.address[..3][i] == o.address[..3][i];
        }
      }
    }
    assert 0 in {a.vendor, o.vendor} <==> a.vendor == 0 || o.vendor == 0;
  }

  // ---- The table against everything that was announced ----

  /** The last beacon of its access point. */
  ghost predicate Newest(log: seq<Beacon>, k: int) {
    0 <= k < |log| && forall m | k < m < |log| :: log[m].address != log[k].address
  }

  /** The access points heard at or after a time. */
  ghost function Heard(log: seq<Beacon>, since: int): set<Address> {
    set m | 0 <= m < |log| && log[m].ms >= since :: log[m].address
  }

  ghost predicate Ordered(log: seq<Beacon>) {
    forall i, j | 0 <= i < j < |log| :: log[i].ms <= log[j].ms
  }

  /** No two beacons were remembered at the same time. */
  ghost predicate Strict(log: seq<Beacon>) {
    forall i, j | 0 <= i < j < |log| :: log[i].ms < log[j].ms
  }

  /** source[i] is the beacon that slot i holds, the newest of its access point; -1 for none. */
  ghost predicate Follows(table: seq<Slot>, source: seq<int>, log: seq<Beacon>) {
    && |table| == |source| == APS
    && (forall i | 0 <= i < APS ::
          if table[i].used then Newest(log, source[i]) && table[i].obs == log[source[i]] else source[i] == -1)
    && (forall i, j | 0 <= i < j < APS && table[i].used && table[j].used ::
          table[i].obs.address != table[j].obs.address)
  }

  /** What was forgotten is not newer than anything in the table, which is full. */
  ghost predicate KeepsLatest(table: seq<Slot>, source: seq<int>, log: seq<Beacon>) {
    forall k: int, i: int | Newest(log, k) && k !in source && 0 <= i < |table| ::
      table[i].used && log[k].ms <= table[i].obs.ms
  }

  lemma {:induction false} SubsetSize<T>(a: set<T>, b: set<T>)
    requires a <= b
    ensures |a| <= |b|
  {
    if a != {} {
      var x :| x in a;
      SubsetSize(a - {x}, b - {x});
    }
  }

  ghost function AddressesOf(beacons: seq<Beacon>, n: nat): set<Address>
    requires n <= |beacons|
  {
    set i | 0 <= i < n :: beacons[i].address
  }

  lemma {:induction false} AddressCount(beacons: seq<Beacon>, n: nat)
    requires n <= |beacons|
    ensures |AddressesOf(beacons, n)| <= n
    ensures (forall i, j | 0 <= i < j < n :: beacons[i].address != beacons[j].address) ==>
        |AddressesOf(beacons, n)| == n
  {
    if n == 0 {
      assert AddressesOf(beacons, 0) == {};
    } else {
      AddressCount(beacons, n - 1);
      OneMoreAddress(beacons, n - 1);
      hide AddressesOf;
    }
  }

  lemma OneMoreAddress(beacons: seq<Beacon>, n: nat)
    requires n < |beacons|
    ensures |AddressesOf(beacons, n + 1)| <= |AddressesOf(beacons, n)| + 1
    ensures (forall i | 0 <= i < n :: beacons[i].address != beacons[n].address) ==>
              |AddressesOf(beacons, n + 1)| == |AddressesOf(beacons, n)| + 1
  {
    assert AddressesOf(beacons, n + 1) == AddressesOf(beacons, n) + {beacons[n].address};
  }

  function Held(table: seq<Slot>): (beacons: seq<Beacon>)
    ensures |beacons| == |table| && forall i | 0 <= i < |table| :: beacons[i] == table[i].obs
  {
    seq(|table|, i requires 0 <= i < |table| => table[i].obs)
  }

  /** The slot of the access point, else the first unused one, else the first of those heard longest ago. */
  ghost predicate IsDestination(table: seq<Slot>, address: Address, dest: nat) {
    && dest < |table|
    && ((table[dest].used && table[dest].obs.address == address)
        || ((forall i | 0 <= i < |table| && table[i].used :: table[i].obs.address != address)
            && if table[dest].used then IsOldest(table, dest) else forall i | 0 <= i < dest :: table[i].used))
  }

  ghost predicate IsOldest(table: seq<Slot>, dest: nat)
    requires dest < |table|
  {
    && (forall i | 0 <= i < |table| :: table[i].used && table[dest].obs.ms <= table[i].obs.ms)
    && (forall i | 0 <= i < dest :: table[dest].obs.ms < table[i].obs.ms)
  }

  lemma StaysFollowing(table: seq<Slot>, source: seq<int>, log: seq<Beacon>, o: Beacon, dest: nat)
    requires Follows(table, source, log) && IsDestination(table, o.address, dest)
    ensures Follows(table[dest := Slot(true, o)], source[dest := |log|], log + [o])
  {
    forall i | 0 <= i < APS && i != dest && table[i].used
      ensures Newest(log + [o], source[i]) && table[i].obs.address != o.address
    {
      assert Newest(log, source[i]);
    }
  }

  lemma StaysLatest(table: seq<Slot>, source: seq<int>, log: seq<Beacon>, o: Beacon, dest: nat)
    requires Follows(table, source, log) && KeepsLatest(table, source, log) && IsDestination(table, o.address, dest)
    requires forall k | 0 <= k < |log| :: log[k].ms <= o.ms
    ensures KeepsLatest(table[dest := Slot(true, o)], source[dest := |log|], log + [o])
  {
    var next, source', table' := log + [o], source[dest := |log|], table[dest := Slot(true, o)];
    forall k: int, i: int | Newest(next, k) && k !in source' && 0 <= i < |table|
      ensures table'[i].used && next[k].ms <= table'[i].obs.ms
    {
      assert k != |log| by {
        assert source'[dest] == |log|;
      }
      assert next[|log|].address != next[k].address;
      assert Newest(log, k) by {
        assert forall m | k < m < |log| :: log[m] == next[m];
      }
      if k in source {
        var s :| 0 <= s < APS && source[s] == k;
        assert source'[s] == if s == dest then |log| else k;
        assert table[dest].used && table[dest].obs == log[k];
      }
    }
  }

  lemma {:induction false} NewestFrom(log: seq<Beacon>, m: nat) returns (k: nat)
    requires m < |log|
    ensures m <= k < |log| && Newest(log, k) && log[k].address == log[m].address
    decreases |log| - m
  {
    if j :| m < j < |log| && log[j].address == log[m].address {
      k := NewestFrom(log, j);
    } else {
      k := m;
    }
  }

  /** Once an access point is forgotten, each slot is another one's, heard no earlier. */
  lemma ForgottenEarliest(table: seq<Slot>, source: seq<int>, log: seq<Beacon>, k: nat, i: nat)
    requires Follows(table, source, log) && KeepsLatest(table, source, log) && Newest(log, k) && k !in source && i < APS
    ensures table[i].used && 0 <= source[i] < |log| && table[i].obs == log[source[i]]
    ensures log[source[i]].ms >= log[k].ms && table[i].obs.address != log[k].address
  {
    assert table[i].used && Newest(log, source[i]) && source[i] != k;
  }

  lemma FullDistinct(table: seq<Slot>, source: seq<int>, log: seq<Beacon>)
    requires Follows(table, source, log) && forall i | 0 <= i < APS :: table[i].used
    ensures |AddressesOf(Held(table), APS)| == APS
  {
    AddressCount(Held(table), APS);
  }

  /** The newest beacon of an access point is kept if no more than 24 have been heard from its time on. */
  lemma KeptIfFew(table: seq<Slot>, source: seq<int>, log: seq<Beacon>, k: nat)
    requires Follows(table, source, log) && KeepsLatest(table, source, log) && Newest(log, k)
    ensures |Heard(log, log[k].ms)| <= APS ==> k in source
  {
    if k !in source {
      var all, own := AddressesOf(Held(table), APS), log[k].address;
      forall i: nat | i < APS
        ensures table[i].used && table[i].obs == log[source[i]] && log[source[i]].ms >= log[k].ms
        ensures table[i].obs.address != own
      {
        ForgottenEarliest(table, source, log, k, i);
      }
      FullDistinct(table, source, log);
      hide Newest, KeepsLatest, Follows;
      forall a | a in all + {own} ensures a in Heard(log, log[k].ms) {
        if a != own {
          var i :| 0 <= i < APS && Held(table)[i].address == a;
          assert table[i].used && log[source[i]] == table[i].obs;
        }
      }
      SubsetSize(all + {own}, Heard(log, log[k].ms));
    }
  }

  /** Whatever was heard after a beacon that is kept is kept as well. */
  lemma LaterKept(table: seq<Slot>, source: seq<int>, log: seq<Beacon>, slot: nat, m: nat) returns (i: nat)
    requires Follows(table, source, log) && KeepsLatest(table, source, log) && Ordered(log)
    requires slot < APS && table[slot].used && m < |log| && log[m].ms > table[slot].obs.ms
    ensures i < APS && table[i].used && table[i].obs.address == log[m].address != table[slot].obs.address
  {
    var n := NewestFrom(log, m);
    assert log[n].ms >= log[m].ms;
    assert n in source;
    i :| 0 <= i < APS && source[i] == n;
    assert Newest(log, source[slot]) && table[slot].obs == log[source[slot]] && n > source[slot];
    assert table[i].used && table[i].obs == log[n];
  }

  /** And if more have been heard it is not kept, unless some were remembered at the very same time. */
  lemma LostIfMany(table: seq<Slot>, source: seq<int>, log: seq<Beacon>, k: nat)
    requires Follows(table, source, log) && KeepsLatest(table, source, log) && Ordered(log) && Newest(log, k)
        && k in source
    ensures |Heard(log, log[k].ms + 1)| < APS
  {
    var later, all, own := Heard(log, log[k].ms + 1), AddressesOf(Held(table), APS), log[k].address;
    var s :| 0 <= s < APS && source[s] == k;
    assert table[s].used && table[s].obs == log[k] && Held(table)[s].address == own;
    forall a | a in later ensures a in all - {own} {
      var m :| 0 <= m < |log| && log[m].ms >= log[k].ms + 1 && log[m].address == a;
      var i := LaterKept(table, source, log, s, m);
      assert Held(table)[i].address == a;
    }
    hide *;
    AddressCount(Held(table), APS);
    SubsetSize(later, all - {own});
  }

  /** So the table holds exactly the 24 access points heard last. */
  lemma KeptExactly(table: seq<Slot>, source: seq<int>, log: seq<Beacon>, k: nat)
    requires Follows(table, source, log) && KeepsLatest(table, source, log) && Strict(log) && Newest(log, k)
    ensures k in source <==> |Heard(log, log[k].ms)| <= APS
  {
    KeptIfFew(table, source, log, k);
    if k in source {
      LostIfMany(table, source, log, k);
      var later := Heard(log, log[k].ms + 1);
      assert Heard(log, log[k].ms) == later + {log[k].address};
    }
  }

  /** The newest beacon of an access point of which the rule asks, among the 24 heard last. */
  ghost predicate Known(log: seq<Beacon>, k: int, o: Beacon, corroborated: bool) {
    Newest(log, k) && Suspect(log[k], o, corroborated) && |Heard(log, log[k].ms)| <= APS
  }

  /** The same, when beacons of the same time do not count as heard later. */
  ghost predicate Surviving(log: seq<Beacon>, k: int, o: Beacon, corroborated: bool) {
    Newest(log, k) && Suspect(log[k], o, corroborated) && |Heard(log, log[k].ms + 1)| < APS
  }

  lemma KnownHeld(table: seq<Slot>, source: seq<int>, log: seq<Beacon>, o: Beacon, corroborated: bool, k: int)
    requires Follows(table, source, log) && KeepsLatest(table, source, log) && Known(log, k, o, corroborated)
    ensures exists i :: 0 <= i < APS && table[i].used && Suspect(table[i].obs, o, corroborated)
  {
    hide Suspect;
    KeptIfFew(table, source, log, k);
    var i :| 0 <= i < APS && source[i] == k;
    assert table[i].used && table[i].obs == log[k];
  }

  /** While no more than 24 are heard within 30 seconds, every newest beacon that the rule asks for is known. */
  lemma FewAllKnown(log: seq<Beacon>, o: Beacon, corroborated: bool, k: int)
    requires Newest(log, k) && Suspect(log[k], o, corroborated) && |Heard(log, o.ms - RECENT_MS)| <= APS
    ensures Known(log, k, o, corroborated)
  {
    SubsetSize(Heard(log, log[k].ms), Heard(log, o.ms - RECENT_MS));
  }

  ghost predicate HoldsSuspect(table: seq<Slot>, o: Beacon, corroborated: bool) {
    exists i :: 0 <= i < |table| && table[i].used && Suspect(table[i].obs, o, corroborated)
  }

  lemma HeldKnown(table: seq<Slot>, source: seq<int>, log: seq<Beacon>, i: nat, o: Beacon, corroborated: bool)
    requires Follows(table, source, log) && KeepsLatest(table, source, log) && i < APS && table[i].used
    requires Suspect(table[i].obs, o, corroborated) && Ordered(log)
    ensures Surviving(log, source[i], o, corroborated)
    ensures Strict(log) ==> Known(log, source[i], o, corroborated)
  {
    hide Suspect;
    LostIfMany(table, source, log, source[i]);
    if Strict(log) {
      KeptExactly(table, source, log, source[i]);
    }
  }

  lemma NoneHeld(table: seq<Slot>, source: seq<int>, log: seq<Beacon>, o: Beacon, corroborated: bool, k: int)
    requires Follows(table, source, log) && KeepsLatest(table, source, log)
    requires forall i | 0 <= i < APS :: !(table[i].used && Suspect(table[i].obs, o, corroborated))
    ensures !Known(log, k, o, corroborated)
  {
    hide Suspect, Follows, KeepsLatest;
    if Known(log, k, o, corroborated) {
      KnownHeld(table, source, log, o, corroborated, k);
    }
  }

  // ---- A clash that is missed ----

  const TWIN: Beacon := Beacon(26, [99, 0, 0, 0, 0, 0], [1], false, 0, 0, 0, 0)

  /** A secured network, and one after the other n of 24 others. */
  function Crowd(n: nat): (log: seq<Beacon>)
    ensures |log| == n && forall i | 0 <= i < n :: log[i] == Member(i)
  {
    seq(n, i requires 0 <= i < n => Member(i))
  }

  function Member(i: nat): Beacon {
    Beacon(i + 1, [i, 0, 0, 0, 0, 0], if i == 0 then [1] else [2], true, 0, 0, 0, 0)
  }

  lemma CrowdFacts()
    ensures var log := Crowd(APS + 1);
            && Strict(log) && Newest(log, 0) && Suspect(log[0], TWIN, false)
            && (forall k :: !Known(log, k, TWIN, false)) && |Heard(log, log[0].ms)| == APS + 1
  {
    var log := Crowd(APS + 1);
    assert forall i, j | 0 <= i < j < |log| :: log[i].address[0] != log[j].address[0];
    AddressCount(log, APS + 1);
    assert Heard(log, 1) == AddressesOf(log, APS + 1);
    forall k ensures !Known(log, k, TWIN, false) {
      if Newest(log, k) && k > 0 {
        assert log[k].ssid[0] != TWIN.ssid[0];
      }
    }
  }

  /** A run in which 24 other access points crowd out one of the two that clash: the rule stays silent. */
  method CrowdHidesClash() returns (fires: bool, ghost log: seq<Beacon>)
    ensures !fires && Newest(log, 0) && Suspect(log[0], TWIN, false) && |Heard(log, log[0].ms)| == APS + 1
  {
    var aps := new ApTable();
    for i := 0 to APS + 1
      invariant aps.Valid() && fresh(aps) && fresh(aps.aps) && aps.log == Crowd(i)
    {
      aps.Remember(Frame(true, BEACON, false, Member(i)));
    }
    CrowdFacts();
    log := aps.log;
    fires := aps.Fires(Frame(true, BEACON, false, TWIN), false);
  }

  class ApTable {
    const aps: array<Slot>
    /** Every beacon remembered so far, and which of them each slot holds. */
    ghost var log: seq<Beacon>
    ghost var source: seq<int>

    ghost predicate Valid()
      reads this, aps
    {
      Follows(aps[..], source, log) && KeepsLatest(aps[..], source, log) && Ordered(log)
    }

    constructor ()
      ensures Valid() && log == [] && fresh(aps)
    {
      aps := new Slot[APS](_ => UNUSED);
      log := [];
      source := seq(APS, _ => -1);
    }

    /**
     * A rule fires exactly if a clashing access point is in the table. So it fires on the newest beacon of another
     * one, if that is among the 24 heard last: on any that is so even when beacons of the same time are counted as
     * later, and on none that is not so even when they are not. If no two beacons were remembered at the same time,
     * it fires exactly on those.
     */
    method Fires(f: Frame, corroborated: bool) returns (fires: bool)
      requires Valid()
      ensures fires <==> f.Announces() && HoldsSuspect(aps[..], f.beacon, corroborated)
      ensures fires ==> f.Announces() && exists k :: Surviving(log, k, f.beacon, corroborated)
      ensures f.Announces() && (exists k :: Known(log, k, f.beacon, corroborated)) ==> fires
      ensures Strict(log) ==> (fires <==> f.Announces() && exists k :: Known(log, k, f.beacon, corroborated))
    {
      hide Suspect, Newest, Heard, Ordered, KeepsLatest, Strict, Known, Surviving;
      if !f.Announces() {
        return false;
      }
      for i := 0 to APS
        invariant forall k | 0 <= k < i :: !(aps[k].used && Suspect(aps[k].obs, f.beacon, corroborated))
      {
        if aps[i].used && Suspect(aps[i].obs, f.beacon, corroborated) {
          HeldKnown(aps[..], source, log, i, f.beacon, corroborated);
          assert aps[..][i] == aps[i];
          return true;
        }
      }
      forall k ensures !Known(log, k, f.beacon, corroborated) {
        NoneHeld(aps[..], source, log, f.beacon, corroborated, k);
      }
      return false;
    }

    method Destination(address: Address) returns (dest: nat)
      requires aps.Length == APS
      ensures IsDestination(aps[..], address, dest)
    {
      dest := 0;
      var free: int := -1;
      for i := 0 to APS
        invariant dest < APS && (forall k | 0 <= k < i :: aps[dest].obs.ms <= aps[k].obs.ms)
        invariant forall k | 0 <= k < dest :: aps[dest].obs.ms < aps[k].obs.ms
        invariant free < 0 ==> forall k | 0 <= k < i :: aps[k].used
        invariant free >= 0 ==> free < APS && !aps[free].used && forall k | 0 <= k < free :: aps[k].used
        invariant forall k | 0 <= k < i && aps[k].used :: aps[k].obs.address != address
      {
        if aps[i].used && aps[i].obs.address == address {
          return i;
        }
        if !aps[i].used && free < 0 {
          free := i;
        }
        if aps[i].obs.ms < aps[dest].obs.ms {
          dest := i;
        }
      }
      if free >= 0 {
        dest := free;
      }
    }

    method Remember(f: Frame)
      requires Valid() && (log != [] ==> log[|log| - 1].ms <= f.beacon.ms)
      modifies this, aps
      ensures Valid() && log == old(log) + if f.Remembered() then [f.beacon] else []
      ensures !f.Remembered() ==> aps[..] == old(aps[..])
      ensures f.Remembered() ==>
                exists dest: nat :: IsDestination(old(aps[..]), f.beacon.address, dest)
                  && aps[..] == old(aps[..])[dest := Slot(true, f.beacon)]
    {
      if f.Remembered() {
        var dest := Destination(f.beacon.address);
        StaysFollowing(aps[..], source, log, f.beacon, dest);
        StaysLatest(aps[..], source, log, f.beacon, dest);
        hide Follows, KeepsLatest, IsDestination;
        aps[dest] := Slot(true, f.beacon);
        assert aps[..] == old(aps[..])[dest := Slot(true, f.beacon)];
        log, source := log + [f.beacon], source[dest := |log|];
      }
    }
  }
}
