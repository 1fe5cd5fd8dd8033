/** How many identities were seen lately. */
module RecentCounts {
  // The loop over pairs of cache entries against a count of identities.

  import opened Core

  const RECENT_MS: nat := 90000
  const HIGH: nat := 80
  const MEDIUM: nat := 50
  const LOW: nat := 20

  /** enabled[c]: category c is switched on. */
  predicate Active(d: Detection, now: nat, enabled: seq<bool>) {
    && d.seenCount > 0 && d.score >= LOW && now >= d.lastMs && now - d.lastMs <= RECENT_MS
    && d.category < |enabled| && enabled[d.category]
  }

  /** The "same identity" test of two entries. */
  predicate Same(a: Detection, b: Detection) {
    if a.SamsungIdentity() && b.SamsungIdentity() then a.samsung.id == b.samsung.id
    else a.address == b.address && a.radio == b.radio && a.addressType == b.addressType
  }

  /** Entry j counts in place of entry i. */
  predicate Beats(cache: seq<Detection>, j: nat, i: nat)
    requires i < |cache| && j < |cache|
  {
    i != j && Same(cache[i], cache[j]) && (cache[j].score > cache[i].score
        || (cache[j].score == cache[i].score && j < i))
  }

  predicate Counted(cache: seq<Detection>, now: nat, enabled: seq<bool>, i: nat)
    requires i < |cache|
  {
    && Active(cache[i], now, enabled)
    && forall j: nat | j < |cache| && Active(cache[j], now, enabled) :: !Beats(cache, j, i)
  }

  function Bucket(score: nat): (b: nat)
    ensures b < 3
  {
    if score >= HIGH then 0 else if score >= MEDIUM then 1 else 2
  }

  function CountedIn(cache: seq<Detection>, now: nat, enabled: seq<bool>, b: nat, n: nat): (s: set<nat>)
    requires n <= |cache|
    ensures forall i | i in s :: i < n
  {
    set i: nat | i < n && Counted(cache, now, enabled, i) && Bucket(cache[i].score) == b
  }

  method Counts(cache: seq<Detection>, now: nat, enabled: seq<bool>) returns (counts: seq<nat>)
    ensures |counts| == 3 && forall b: nat | b < 3 :: counts[b] == |CountedIn(cache, now, enabled, b, |cache|)|
  {
    counts := [0, 0, 0];
    assert forall b: nat :: CountedIn(cache, now, enabled, b, 0) == {};
    for i := 0 to |cache|
      invariant |counts| == 3 && forall b: nat | b < 3 :: counts[b] == |CountedIn(cache, now, enabled, b, i)|
    {
      CountOne(cache, now, enabled, i);
      if Active(cache[i], now, enabled) {
        var already := Already(cache, now, enabled, i);
        if !already {
          var b := Bucket(cache[i].score);
          counts := counts[b := counts[b] + 1];
        }
      }
    }
  }

  method Already(cache: seq<Detection>, now: nat, enabled: seq<bool>, i: nat) returns (already: bool)
    requires i < |cache| && Active(cache[i], now, enabled)
    ensures already <==> !Counted(cache, now, enabled, i)
  {
    var j := 0;
    while j < |cache|
      invariant 0 <= j <= |cache|
      invariant forall k: nat | k < j && Active(cache[k], now, enabled) :: !Beats(cache, k, i)
    {
      if Active(cache[j], now, enabled) && Beats(cache, j, i) {
        return true;
      }
      j := j + 1;
    }
    return false;
  }

  lemma CountOne(cache: seq<Detection>, now: nat, enabled: seq<bool>, i: nat)
    requires i < |cache|
    ensures forall b: nat :: |CountedIn(cache, now, enabled, b, i + 1)|
                          == |CountedIn(cache, now, enabled, b, i)|
                           + if Counted(cache, now, enabled, i) && Bucket(cache[i].score) == b then 1 else 0
  {
    hide Counted, Bucket;
    forall b: nat
      ensures |CountedIn(cache, now, enabled, b, i + 1)|
           == |CountedIn(cache, now, enabled, b, i)|
            + if Counted(cache, now, enabled, i) && Bucket(cache[i].score) == b then 1 else 0
    {
      var before, after := CountedIn(cache, now, enabled, b, i), CountedIn(cache, now, enabled, b, i + 1);
      assert after == if Counted(cache, now, enabled, i) && Bucket(cache[i].score) == b then before + {i} else before;
    }
  }

  // ---- What a bucket being empty means ----

  /** The entry was seen within 90 s, in a category that is switched on, with at least this score. */
  predicate Recently(d: Detection, now: nat, enabled: seq<bool>, score: nat) {
    && d.seenCount > 0 && d.lastMs <= now <= d.lastMs + 90000 && d.score >= score
    && d.category < |enabled| && enabled[d.category]
  }

  /** No active entry is better: none has a higher score, and none before it the same. */
  ghost predicate Top(cache: seq<Detection>, now: nat, enabled: seq<bool>, i: nat) {
    && i < |cache| && Active(cache[i], now, enabled)
    && forall j: nat | j < |cache| && Active(cache[j], now, enabled) ::
         cache[j].score < cache[i].score || (cache[j].score == cache[i].score && i <= j)
  }

  lemma {:induction false} TopOf(cache: seq<Detection>, now: nat, enabled: seq<bool>, n: nat) returns (i: nat)
    requires n <= |cache| && exists k :: 0 <= k < n && Active(cache[k], now, enabled)
    ensures i < n && Top(cache[..n], now, enabled, i)
  {
    hide Active;
    if exists k :: 0 <= k < n - 1 && Active(cache[k], now, enabled) {
      i := TopOf(cache, now, enabled, n - 1);
      assert cache[..n][i] == cache[..n - 1][i];
      if Active(cache[n - 1], now, enabled) && cache[n - 1].score > cache[i].score {
        i := n - 1;
      }
      forall j: nat | j < n && Active(cache[..n][j], now, enabled)
        ensures cache[j].score < cache[i].score || (cache[j].score == cache[i].score && i <= j)
      {
        assert j < n - 1 ==> cache[..n - 1][j] == cache[j];
      }
    } else {
      i := n - 1;
    }
  }

  /** An identity of at least 80, 50 or 20 was seen lately exactly if the counts down to there are not all zero. */
  lemma CountsTell(cache: seq<Detection>, now: nat, enabled: seq<bool>, counts: seq<nat>)
    requires |counts| == 3 && forall b: nat | b < 3 :: counts[b] == |CountedIn(cache, now, enabled, b, |cache|)|
    ensures counts[0] > 0 <==> exists i :: 0 <= i < |cache| && Recently(cache[i], now, enabled, 80)
    ensures counts[0] + counts[1] > 0 <==> exists i :: 0 <= i < |cache| && Recently(cache[i], now, enabled, 50)
    ensures counts[0] + counts[1] + counts[2] > 0 <==>
              exists i :: 0 <= i < |cache| && Recently(cache[i], now, enabled, 20)
  {
    hide Counted;
    CountsTellLine(cache, now, enabled, counts, 80, 0);
    CountsTellLine(cache, now, enabled, counts, 50, 1);
    CountsTellLine(cache, now, enabled, counts, 20, 2);
  }

  lemma CountsTellLine(cache: seq<Detection>, now: nat, enabled: seq<bool>, counts: seq<nat>, score: nat, b: nat)
    requires |counts| == 3 && forall b: nat | b < 3 :: counts[b] == |CountedIn(cache, now, enabled, b, |cache|)|
    requires (score == 80 && b == 0) || (score == 50 && b == 1) || (score == 20 && b == 2)
    ensures (exists c: nat :: c <= b && counts[c] > 0) <==>
              exists i :: 0 <= i < |cache| && Recently(cache[i], now, enabled, score)
  {
    if c: nat :| c <= b && counts[c] > 0 {
      CountedSeen(cache, now, enabled, c, score);
    }
    if i :| 0 <= i < |cache| && Recently(cache[i], now, enabled, score) {
      assert Active(cache[i], now, enabled);
      var best := TopOf(cache, now, enabled, |cache|);
      assert cache[..|cache|] == cache;
      assert Counted(cache, now, enabled, best);
      var c := Bucket(cache[best].score);
      assert best in CountedIn(cache, now, enabled, c, |cache|);
      assert counts[c] > 0;
    }
  }

  lemma CountedSeen(cache: seq<Detection>, now: nat, enabled: seq<bool>, c: nat, score: nat)
    requires c < 3 && |CountedIn(cache, now, enabled, c, |cache|)| > 0 && score <= [80, 50, 20][c]
    ensures exists i :: 0 <= i < |cache| && Recently(cache[i], now, enabled, score)
  {
    var i :| i in CountedIn(cache, now, enabled, c, |cache|);
    assert Recently(cache[i], now, enabled, score);
  }

  // ---- No identity is counted twice ----

  /** Of two active entries that are the same identity, one keeps the other from being counted. */
  lemma NoneTwice(cache: seq<Detection>, now: nat, enabled: seq<bool>, i: nat, j: nat)
    requires i < |cache| && j < |cache| && i != j
    requires Counted(cache, now, enabled, i) && Counted(cache, now, enabled, j)
    ensures !Same(cache[i], cache[j])
  {
    assert !Beats(cache, i, j) && !Beats(cache, j, i);
  }

  // ---- Every identity is counted once, in the bucket of its best score ----

  datatype Identity = Tag(id: seq<nat>) | Place(address: seq<nat>, radio: Radio, addressType: nat)

  /** The identity the reader is told of: the broadcast ID of a Samsung tag, otherwise radio, address and type. */
  function IdentityOf(d: Detection): Identity {
    if d.SamsungIdentity() then Tag(d.samsung.id) else Place(d.address, d.radio, d.addressType)
  }

  predicate Present(cache: seq<Detection>, now: nat, enabled: seq<bool>, i: nat) {
    i < |cache| && Active(cache[i], now, enabled)
  }

  ghost function Identities(cache: seq<Detection>, now: nat, enabled: seq<bool>): set<Identity> {
    set i: nat | i < |cache| && Active(cache[i], now, enabled) :: IdentityOf(cache[i])
  }

  /** The best score with which an identity is present lies in this bucket. */
  ghost predicate BestIn(cache: seq<Detection>, now: nat, enabled: seq<bool>, who: Identity, b: nat) {
    exists i: nat :: Present(cache, now, enabled, i) && IdentityOf(cache[i]) == who && Bucket(cache[i].score) == b
      && forall j: nat | Present(cache, now, enabled, j) && IdentityOf(cache[j]) == who ::
          cache[j].score <= cache[i].score
  }

  ghost function IdentitiesIn(cache: seq<Detection>, now: nat, enabled: seq<bool>, b: nat): set<Identity> {
    set who | who in Identities(cache, now, enabled) && BestIn(cache, now, enabled, who, b)
  }

  /** The entry that stands for its identity: of the best score, the first of those. */
  predicate Best(cache: seq<Detection>, now: nat, enabled: seq<bool>, i: nat) {
    && Present(cache, now, enabled, i)
    && forall j: nat | j < |cache| && Active(cache[j], now, enabled) && IdentityOf(cache[j]) == IdentityOf(cache[i]) ::
         cache[j].score < cache[i].score || (cache[j].score == cache[i].score && i <= j)
  }

  /** No entry that stands for its identity is beaten by an active entry of another identity. */
  predicate Undisturbed(cache: seq<Detection>, now: nat, enabled: seq<bool>) {
    forall i: nat, j: nat | i < |cache| && j < |cache| && Best(cache, now, enabled, i) && Active(cache[j], now, enabled)
                            && IdentityOf(cache[j]) != IdentityOf(cache[i]) :: !Beats(cache, j, i)
  }

  ghost function BestsIn(cache: seq<Detection>, now: nat, enabled: seq<bool>, b: nat): set<nat> {
    set i: nat | i < |cache| && Best(cache, now, enabled, i) && Bucket(cache[i].score) == b
  }

  lemma {:induction false} BestAmong(cache: seq<Detection>, now: nat, enabled: seq<bool>, who: Identity,
      n: nat) returns (i: int)
    requires n <= |cache|
    ensures -1 <= i < n
    ensures i < 0 ==> forall j: nat | j < n && Present(cache, now, enabled, j) :: IdentityOf(cache[j]) != who
    ensures i >= 0 ==> Present(cache, now, enabled, i) && IdentityOf(cache[i]) == who
    ensures i >= 0 ==> forall j: nat | j < n && Present(cache, now, enabled, j) && IdentityOf(cache[j]) == who ::
                         cache[j].score < cache[i].score || (cache[j].score == cache[i].score && i <= j)
  {
    hide Active, IdentityOf;
    if n == 0 {
      i := -1;
    } else {
      i := BestAmong(cache, now, enabled, who, n - 1);
      if Present(cache, now, enabled, n - 1) && IdentityOf(cache[n - 1]) == who
          && (i < 0 || cache[n - 1].score > cache[i].score) {
        i := n - 1;
      }
    }
  }

  /** Every identity has exactly one entry that stands for it. */
  lemma BestOf(cache: seq<Detection>, now: nat, enabled: seq<bool>, who: Identity) returns (i: nat)
    requires who in Identities(cache, now, enabled)
    ensures Best(cache, now, enabled, i) && IdentityOf(cache[i]) == who
    ensures forall k: nat | Best(cache, now, enabled, k) && IdentityOf(cache[k]) == who :: k == i
  {
    hide Active, IdentityOf;
    var r := BestAmong(cache, now, enabled, who, |cache|);
    var w: nat :| w < |cache| && Active(cache[w], now, enabled) && IdentityOf(cache[w]) == who;
    assert Present(cache, now, enabled, w);
    i := r;
    forall j: nat | j < |cache| && Active(cache[j], now, enabled) && IdentityOf(cache[j]) == who
      ensures cache[j].score < cache[i].score || (cache[j].score == cache[i].score && i <= j)
    {
      assert Present(cache, now, enabled, j);
    }
  }

  /** Its bucket is the one of the identity's best score. */
  lemma BestBucket(cache: seq<Detection>, now: nat, enabled: seq<bool>, i: nat)
    requires Best(cache, now, enabled, i)
    ensures IdentityOf(cache[i]) in Identities(cache, now, enabled)
    ensures forall b :: BestIn(cache, now, enabled, IdentityOf(cache[i]), b) <==> b == Bucket(cache[i].score)
  {
    hide Active, IdentityOf, Bucket;
    forall j: nat | Present(cache, now, enabled, j) && IdentityOf(cache[j]) == IdentityOf(cache[i])
      ensures cache[j].score <= cache[i].score
    {
    }
    assert BestIn(cache, now, enabled, IdentityOf(cache[i]), Bucket(cache[i].score));
  }

  /** Whatever is counted stands for its identity, since equal identities always pass the "same" test. */
  lemma CountedBest(cache: seq<Detection>, now: nat, enabled: seq<bool>, i: nat)
    requires i < |cache| && Counted(cache, now, enabled, i)
    ensures Best(cache, now, enabled, i)
  {
    forall j: nat | j < |cache| && Active(cache[j], now, enabled) && IdentityOf(cache[j]) == IdentityOf(cache[i])
      ensures cache[j].score < cache[i].score || (cache[j].score == cache[i].score && i <= j)
    {
      assert !Beats(cache, j, i);
    }
  }

  /** An entry that stands for its identity is counted exactly if no other identity beats it. */
  lemma BestCounted(cache: seq<Detection>, now: nat, enabled: seq<bool>, i: nat)
    requires Best(cache, now, enabled, i)
    ensures Counted(cache, now, enabled, i) <==>
              forall j: nat | j < |cache| && Active(cache[j], now, enabled)
                  && IdentityOf(cache[j]) != IdentityOf(cache[i]) ::
                !Beats(cache, j, i)
  {
    hide Active, IdentityOf, Same;
  }

  lemma {:induction false} ImageSize<A, B>(s: set<A>, f: A -> B, image: set<B>)
    requires forall x, y | x in s && y in s && f(x) == f(y) :: x == y
    requires forall x | x in s :: f(x) in image
    requires forall y | y in image :: exists x :: x in s && f(x) == y
    ensures |image| == |s|
  {
    if s == {} {
      assert image == {};
    } else {
      var x :| x in s;
      ImageSize(s - {x}, f, image - {f(x)});
    }
  }

  lemma {:induction false} PartSize<T>(a: set<T>, b: set<T>)
    requires a <= b
    ensures |a| <= |b| && (|a| == |b| <==> a == b)
  {
    assert b == a + (b - a);
  }

  lemma BestsAreIdentities(cache: seq<Detection>, now: nat, enabled: seq<bool>, b: nat)
    ensures |BestsIn(cache, now, enabled, b)| == |IdentitiesIn(cache, now, enabled, b)|
  {
    hide Best, BestIn, Bucket, IdentityOf, Active, Identities;
    var s := BestsIn(cache, now, enabled, b);
    var f := (i: nat) => if i < |cache| then IdentityOf(cache[i]) else Tag([]);
    forall i | i in s ensures f(i) in IdentitiesIn(cache, now, enabled, b) {
      BestBucket(cache, now, enabled, i);
    }
    forall i, j | i in s && j in s && f(i) == f(j) ensures i == j {
      BestBucket(cache, now, enabled, i);
      var k := BestOf(cache, now, enabled, f(i));
    }
    forall who | who in IdentitiesIn(cache, now, enabled, b) ensures exists k :: k in s && f(k) == who {
      var k := BestOf(cache, now, enabled, who);
      BestBucket(cache, now, enabled, k);
      BestPresent(cache, now, enabled, k);
      assert k in s && f(k) == who;
    }
    ImageSize(s, f, IdentitiesIn(cache, now, enabled, b));
  }

  lemma BestPresent(cache: seq<Detection>, now: nat, enabled: seq<bool>, i: nat)
    requires Best(cache, now, enabled, i)
    ensures i < |cache| && Active(cache[i], now, enabled)
  {
  }

  lemma BucketsSplit(cache: seq<Detection>, now: nat, enabled: seq<bool>)
    ensures var all := Identities(cache, now, enabled);
            |IdentitiesIn(cache, now, enabled, 0)| + |IdentitiesIn(cache, now, enabled, 1)|
                + |IdentitiesIn(cache, now, enabled, 2)|
            == |all|
  {
    hide Best, BestIn, IdentityOf, Active, Identities;
    var all := Identities(cache, now, enabled);
    var high, medium, low := IdentitiesIn(cache, now, enabled, 0), IdentitiesIn(cache, now, enabled, 1),
        IdentitiesIn(cache, now, enabled, 2);
    forall who | who in all
      ensures who in high + medium + low
      ensures !(who in high && who in medium) && !(who in high && who in low) && !(who in medium && who in low)
    {
      var k := BestOf(cache, now, enabled, who);
      BestBucket(cache, now, enabled, k);
      BestPresent(cache, now, enabled, k);
      assert BestIn(cache, now, enabled, who, Bucket(cache[k].score));
    }
    assert high + medium + low == all && high * medium == {} && (high + medium) * low == {};
  }

  lemma BucketAtMost(cache: seq<Detection>, now: nat, enabled: seq<bool>, b: nat)
    ensures |CountedIn(cache, now, enabled, b, |cache|)| <= |IdentitiesIn(cache, now, enabled, b)|
    ensures |CountedIn(cache, now, enabled, b, |cache|)| == |IdentitiesIn(cache, now, enabled, b)|
       <==> CountedIn(cache, now, enabled, b, |cache|) == BestsIn(cache, now, enabled, b)
  {
    hide Best, Counted, Bucket, IdentitiesIn;
    forall i | i in CountedIn(cache, now, enabled, b, |cache|) ensures i in BestsIn(cache, now, enabled, b) {
      CountedBest(cache, now, enabled, i);
    }
    PartSize(CountedIn(cache, now, enabled, b, |cache|), BestsIn(cache, now, enabled, b));
    BestsAreIdentities(cache, now, enabled, b);
  }

  /** Undisturbed: all that stand for an identity are counted. */
  lemma UndisturbedCounts(cache: seq<Detection>, now: nat, enabled: seq<bool>)
    ensures Undisturbed(cache, now, enabled) <==>
              forall b: nat | b < 3 :: CountedIn(cache, now, enabled, b, |cache|) == BestsIn(cache, now, enabled, b)
  {
    hide Counted, Active, IdentityOf, Beats, Best;
    forall i: nat | Best(cache, now, enabled, i)
      ensures i < |cache|
      ensures Counted(cache, now, enabled, i) <==>
                forall j: nat | j < |cache| && Active(cache[j], now, enabled)
                    && IdentityOf(cache[j]) != IdentityOf(cache[i]) ::
                  !Beats(cache, j, i)
    {
      BestPresent(cache, now, enabled, i);
      BestCounted(cache, now, enabled, i);
    }
    forall i: nat | i < |cache| && Counted(cache, now, enabled, i) ensures Best(cache, now, enabled, i) {
      CountedBest(cache, now, enabled, i);
    }
    if forall b: nat | b < 3 :: CountedIn(cache, now, enabled, b, |cache|) == BestsIn(cache, now, enabled, b) {
      forall i: nat | Best(cache, now, enabled, i) ensures Counted(cache, now, enabled, i) {
        assert i in BestsIn(cache, now, enabled, Bucket(cache[i].score));
      }
    }
  }

  /**
   * No bucket ever counts more than the identities whose best score lies in it, and together they count at most all
   * of them. All are counted, each in its bucket, exactly if no entry that stands for its identity is beaten by one of
   * another identity.
   */
  lemma CountsExactly(cache: seq<Detection>, now: nat, enabled: seq<bool>)
    ensures forall b: nat | b < 3 :: |CountedIn(cache, now, enabled, b, |cache|)| <= |IdentitiesIn(cache, now, enabled,
        b)|
    ensures Undisturbed(cache, now, enabled) <==>
              forall b: nat | b < 3 :: |CountedIn(cache, now, enabled, b, |cache|)|
                  == |IdentitiesIn(cache, now, enabled, b)|
    ensures var total := |CountedIn(cache, now, enabled, 0, |cache|)| + |CountedIn(cache, now, enabled, 1, |cache|)|
                         + |CountedIn(cache, now, enabled, 2, |cache|)|;
            && total <= |Identities(cache, now, enabled)|
            && (total == |Identities(cache, now, enabled)| <==> Undisturbed(cache, now, enabled))
  {
    hide *;
    BucketAtMost(cache, now, enabled, 0);
    BucketAtMost(cache, now, enabled, 1);
    BucketAtMost(cache, now, enabled, 2);
    BucketsSplit(cache, now, enabled);
    UndisturbedCounts(cache, now, enabled);
  }

  /** While no active tag shares its address with an active entry of another kind, every identity is counted. */
  lemma CountsAreIdentities(cache: seq<Detection>, now: nat, enabled: seq<bool>)
    requires forall i: nat, j: nat | i < |cache| && j < |cache| && Active(cache[i], now, enabled)
        && Active(cache[j], now, enabled)
                                     && cache[i].SamsungIdentity() && !cache[j].SamsungIdentity() ::
                                         !Same(cache[i], cache[j])
    ensures forall b: nat | b < 3 ::
              |CountedIn(cache, now, enabled, b, |cache|)| == |IdentitiesIn(cache, now, enabled, b)|
    ensures |CountedIn(cache, now, enabled, 0, |cache|)| + |CountedIn(cache, now, enabled, 1, |cache|)|
            + |CountedIn(cache, now, enabled, 2, |cache|)| == |Identities(cache, now, enabled)|
  {
    hide *;
    ApartUndisturbed(cache, now, enabled);
    CountsExactly(cache, now, enabled);
  }

  lemma ApartUndisturbed(cache: seq<Detection>, now: nat, enabled: seq<bool>)
    requires forall i: nat, j: nat | i < |cache| && j < |cache| && Active(cache[i], now, enabled)
        && Active(cache[j], now, enabled)
                                     && cache[i].SamsungIdentity() && !cache[j].SamsungIdentity() ::
                                         !Same(cache[i], cache[j])
    ensures Undisturbed(cache, now, enabled)
  {
    forall i: nat, j: nat | i < |cache| && j < |cache| && Best(cache, now, enabled, i) && Active(cache[j], now, enabled)
                            && IdentityOf(cache[j]) != IdentityOf(cache[i]) ensures !Beats(cache, j, i)
    {
      assert cache[i].SamsungIdentity() && !cache[j].SamsungIdentity() ==> !Same(cache[i], cache[j]);
      assert cache[j].SamsungIdentity() && !cache[i].SamsungIdentity() ==> !Same(cache[j], cache[i]);
    }
  }

  const SHARED: seq<nat> := [2, 0, 0, 0, 0, 9]
  const FIRST_TAG: seq<nat> := [1, 0, 0, 0, 0, 0, 0, 0]
  const SECOND_TAG: seq<nat> := [2, 0, 0, 0, 0, 0, 0, 0]
  const NO_TAG: seq<nat> := [0, 0, 0, 0, 0, 0, 0, 0]

  function Sighting(category: nat, id: seq<nat>, state: SamsungState, score: nat): Detection {
    Detection(0, 0, 0, 0, [], 1, SamsungTag(id, state), SHARED, category, Ble, 0, 0, score, 0, 0, false, false)
  }

  /** Two tags, and an entry of another kind with their address. */
  const SHARING: seq<Detection> := [
    Sighting(SAMSUNG_TAG, FIRST_TAG, Offline, 30), Sighting(AIRTAG, NO_TAG, Unavailable, 90),
    Sighting(SAMSUNG_TAG, SECOND_TAG, Offline, 40)]

  /**
   * Where a tag does share its address, identities can go missing: "same" is not transitive, so one entry of
   * another kind stands in for two tags that are different identities.
   */
  lemma SharedAddressLoses()
    ensures var enabled := Repeat(true, CATEGORY_COUNT);
            && Octets(SHARED)
            && Same(SHARING[0], SHARING[1]) && Same(SHARING[1], SHARING[2]) && !Same(SHARING[0], SHARING[2])
            && !Counted(SHARING, 0, enabled, 0) && Counted(SHARING, 0, enabled, 1) && !Counted(SHARING, 0, enabled, 2)
            && |Identities(SHARING, 0, enabled)| == 3
  {
    var enabled := Repeat(true, CATEGORY_COUNT);
    assert Beats(SHARING, 1, 0) && Beats(SHARING, 1, 2);
    assert IdentityOf(SHARING[0]) == Tag(FIRST_TAG) && IdentityOf(SHARING[2]) == Tag(SECOND_TAG);
    assert IdentityOf(SHARING[1]) == Place(SHARED, Ble, 0);
    assert FIRST_TAG[0] != SECOND_TAG[0];
    assert Identities(SHARING, 0, enabled) == {Tag(FIRST_TAG), Place(SHARED, Ble, 0), Tag(SECOND_TAG)} by {
      assert forall i: nat | i < 3 :: Active(SHARING[i], 0, enabled);
      assert IdentityOf(SHARING[0]) in Identities(SHARING, 0, enabled);
      assert IdentityOf(SHARING[1]) in Identities(SHARING, 0, enabled);
      assert IdentityOf(SHARING[2]) in Identities(SHARING, 0, enabled);
    }
  }
}
