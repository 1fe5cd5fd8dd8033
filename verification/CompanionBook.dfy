/** The companion's book: what it has discovered, and which devices it ignores. */
module CompanionBook {
  import opened Core
  import opened StateRecords

  const OBSERVATIONS_MAX: nat := 0xffff_ffff
  const SCORE_MAX: nat := 100

  /** What a detection adds to the scent of its category. */
  function Noted(s: Scent, d: Detection): Scent {
    Scent(if s.observations == 0 then d.unixSeconds else s.firstUtc, d.unixSeconds,
          if s.observations < OBSERVATIONS_MAX then s.observations + 1 else s.observations,
          Max(s.bestScore, d.score), d.score, Max(s.strongest, d.rssiMax))
  }

  const NEW_SCENT: Scent := Scent(0, 0, 0, 0, 0, -127)

  function NotedAll(ds: seq<Detection>): Scent {
    if ds == [] then NEW_SCENT else Noted(NotedAll(ds[..|ds| - 1]), ds[|ds| - 1])
  }

  /** A scent tells of all detections of its category: how many, the first and last, and the best of them. */
  lemma {:induction false} ScentTells(ds: seq<Detection>)
    requires ds != [] && forall d | d in ds :: d.rssiMax >= -127
    ensures var s := NotedAll(ds);
            && s.observations == Min(|ds|, OBSERVATIONS_MAX)
            && s.firstUtc == ds[0].unixSeconds && s.lastUtc == ds[|ds| - 1].unixSeconds
            && s.lastScore == ds[|ds| - 1].score
            && (forall d | d in ds :: d.score <= s.bestScore && d.rssiMax <= s.strongest)
            && (exists d :: d in ds && d.score == s.bestScore) && (exists d :: d in ds && d.rssiMax == s.strongest)
  {
    var n := |ds| - 1;
    var before, last := ds[..n], ds[n];
    assert ds == before + [last];
    if n == 0 {
      assert NotedAll(before) == NEW_SCENT;
      assert last in ds;
    } else {
      ScentTells(before);
      var past := NotedAll(before);
      var best :| best in before && best.score == past.bestScore;
      var loud :| loud in before && loud.rssiMax == past.strongest;
      assert best in ds && loud in ds && last in ds;
    }
  }

  lemma NotedValid(s: Scent, d: Detection)
    requires ValidScent(s) && d.score <= SCORE_MAX && d.unixSeconds <= UTC_MAX
    ensures ValidScent(Noted(s, d))
  {
  }

  ghost predicate Lists(ignored: seq<Ignored>, hash: nat) {
    exists i :: 0 <= i < |ignored| && ignored[i].hash == hash
  }

  /** The list after a device was put into its first free slot, at k. */
  ghost predicate PutFirst(before: seq<Ignored>, after: seq<Ignored>, k: nat, entry: Ignored) {
    && k < |before| && before[k].hash == 0 && (forall i | 0 <= i < k :: before[i].hash != 0)
    && after == before[k := entry]
  }

  class Book {
    const scents: array<Scent>
    const ignored: array<Ignored>

    ghost predicate Valid()
      reads this, scents, ignored
    {
      && scents.Length == CATEGORY_COUNT && (forall i | 0 <= i < CATEGORY_COUNT :: ValidScent(scents[i]))
      && ignored.Length == IGNORE_CAPACITY && ValidIgnores(ignored[..])
    }

    constructor ()
      ensures Valid() && fresh(scents) && fresh(ignored)
      ensures forall i | 0 <= i < IGNORE_CAPACITY :: ignored[i].hash == 0
    {
      scents := new Scent[CATEGORY_COUNT](_ => NEW_SCENT);
      ignored := new Ignored[IGNORE_CAPACITY](_ => Ignored(0, 0));
    }

    method Observe(d: Detection)
      requires Valid() && d.score <= SCORE_MAX && d.unixSeconds <= UTC_MAX
      modifies scents
      ensures Valid()
      ensures scents[..] == if d.category < CATEGORY_COUNT
                            then old(scents[..])[d.category := Noted(old(scents[..])[d.category], d)]
                            else old(scents[..])
    {
      if d.category >= CATEGORY_COUNT {
        return;
      }
      NotedValid(scents[d.category], d);
      scents[d.category] := Noted(scents[d.category], d);
    }

    method Discoveries() returns (n: nat)
      ensures n == StateRecords.Discoveries(scents[..])
    {
      n := 0;
      for i := 0 to scents.Length
        invariant n == StateRecords.Discoveries(scents[..i])
      {
        assert scents[..i + 1][..i] == scents[..i];
        if scents[i].observations != 0 {
          n := n + 1;
        }
      }
      assert scents[..scents.Length] == scents[..];
    }

    method IsIgnored(hash: nat) returns (found: bool)
      ensures found <==> hash != 0 && Lists(ignored[..], hash)
    {
      if hash == 0 {
        return false;
      }
      for i := 0 to ignored.Length
        invariant forall k | 0 <= k < i :: ignored[k].hash != hash
      {
        if ignored[i].hash == hash {
          assert ignored[..][i].hash == hash;
          return true;
        }
      }
      return false;
    }

    /**
     * A device is ignored from now on if it was already, or there is a free slot: the first one is taken. No other
     * device is ever given up for it.
     */
    method Ignore(hash: nat, category: nat) returns (ok: bool)
      requires Valid()
      modifies ignored
      ensures Valid()
      ensures ok <==> hash != 0 && category < CATEGORY_COUNT
                      && (Lists(old(ignored[..]), hash)
                          || exists i | 0 <= i < IGNORE_CAPACITY :: old(ignored[i].hash) == 0)
      ensures if ok && !Lists(old(ignored[..]), hash)
              then exists k: nat :: PutFirst(old(ignored[..]), ignored[..], k, Ignored(hash, category))
              else ignored[..] == old(ignored[..])
      ensures ok ==> Lists(ignored[..], hash)
      ensures forall h | h != 0 && Lists(old(ignored[..]), h) :: Lists(ignored[..], h)
    {
      if hash == 0 || category >= CATEGORY_COUNT {
        return false;
      }
      var already := IsIgnored(hash);
      if already {
        return true;
      }
      for i := 0 to IGNORE_CAPACITY
        invariant forall k | 0 <= k < i :: ignored[k].hash != 0
      {
        if ignored[i].hash == 0 {
          ghost var before := ignored[..];
          PutKeeps(before, i, Ignored(hash, category));
          ignored[i] := Ignored(hash, category);
          assert ignored[..] == before[i := Ignored(hash, category)];
          assert PutFirst(before, ignored[..], i, Ignored(hash, category));
          return true;
        }
      }
      return false;
    }

    method IgnoredCount() returns (n: nat)
      ensures n == |set i | 0 <= i < ignored.Length && ignored[i].hash != 0|
    {
      n := 0;
      ghost var used: set<int> := {};
      for i := 0 to ignored.Length
        invariant used == set k | 0 <= k < i && ignored[k].hash != 0
        invariant n == |used|
      {
        if ignored[i].hash != 0 {
          used := used + {i};
          n := n + 1;
        }
      }
    }
  }

  lemma PutKeeps(before: seq<Ignored>, k: nat, entry: Ignored)
    requires ValidIgnores(before) && k < |before| && before[k].hash == 0
    requires entry.hash != 0 && entry.category < CATEGORY_COUNT && !Lists(before, entry.hash)
    ensures var after := before[k := entry];
            && ValidIgnores(after) && Lists(after, entry.hash)
            && forall h | h != 0 && Lists(before, h) :: Lists(after, h)
  {
    var after := before[k := entry];
    assert after[k].hash == entry.hash;
    forall h | h != 0 && Lists(before, h) ensures Lists(after, h) {
      var i :| 0 <= i < |before| && before[i].hash == h;
      assert after[i].hash == h;
    }
    forall i, j | 0 <= j < i < |after| && after[i].hash != 0 ensures after[j].hash != after[i].hash {
      assert forall m | 0 <= m < |before| :: before[m].hash != entry.hash;
    }
  }
}
