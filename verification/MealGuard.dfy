/** The feeding cooldown table: which radio source may earn a meal, and when again. */
module MealGuard {
  import opened Core

  const SLOTS: nat := 128
  const DEAUTH: nat := 17
  const COOLDOWN: nat := 1800000
  const DEAUTH_COOLDOWN: nat := 600000
  const GLOBAL_GAP: nat := 5000
  const CATEGORY_GAP: nat := 30000

  /** A table slot. The field the code calls remaining_ms holds the absolute deadline here. */
  datatype Stamp = Stamp(hash: nat, deadline: nat)

  /** One meal that was awarded. */
  datatype Award = Award(hash: nat, at: nat, category: nat) {
    function Deadline(): nat {
      at + if category == DEAUTH then DEAUTH_COOLDOWN else COOLDOWN
    }
  }

  // ---- What a history of awards must look like ----
  //
  // The first base entries of a history stand for sources that were restored at boot: meals at time 0, since the
  // restored cooldowns are counted from there. The rest are the meals awarded since.

  ghost predicate Carried(log: seq<Award>, base: nat) {
    && base <= |log| && base <= SLOTS
    && (forall k | 0 <= k < base :: log[k].at == 0 && log[k].category != DEAUTH)
    && (forall i, j | 0 <= i < j < base :: log[i].hash != log[j].hash)
  }

  ghost predicate Spaced(log: seq<Award>, base: nat) {
    forall i, j | base <= i < j < |log| :: log[i].at + GLOBAL_GAP * (j - i) <= log[j].at
  }

  /** j is the first award to the source of i after i. */
  ghost predicate NextOfSource(log: seq<Award>, i: int, j: int)
    requires 0 <= i < j < |log|
  {
    log[i].hash == log[j].hash && forall m | i < m < j :: log[m].hash != log[i].hash
  }

  /**
   * A source fed outside the DEAUTH category is fed again only after the whole cooldown, unless at least as many
   * other meals came in between as the table has slots that were not restored.
   */
  ghost predicate CoolsDown(log: seq<Award>, base: nat) {
    forall i, j | 0 <= i < j < |log| && base <= j && NextOfSource(log, i, j) && log[i].category != DEAUTH ::
      log[i].at + COOLDOWN <= log[j].at || j - Max(i + 1, base) >= SLOTS - base
  }

  ghost predicate CategoriesSpaced(log: seq<Award>, base: nat) {
    forall i, j | base <= i < j < |log| && log[i].category == log[j].category ::
      log[i].at + CATEGORY_GAP <= log[j].at
  }

  /** Eviction can never cut a cooldown below 129 global gaps, less one for each source that was restored. */
  lemma NeverFedEarly(log: seq<Award>, base: nat, i: int, j: int)
    requires Carried(log, base) && Spaced(log, base) && CoolsDown(log, base)
    requires 0 <= i < j < |log| && base <= j && log[i].hash == log[j].hash
    requires forall m | i <= m < j && log[m].hash == log[i].hash :: log[m].category != DEAUTH
    ensures log[j].at >= log[i].at + GLOBAL_GAP * (SLOTS - base + if i < base then 0 else 1)
    decreases j - i
  {
    if NextOfSource(log, i, j) {
      assert log[i].category != DEAUTH;
      if i < base < j {
        assert log[base].at + GLOBAL_GAP * (j - base) <= log[j].at;
      }
    } else {
      var m :| i < m < j && log[m].hash == log[i].hash;
      NeverFedEarly(log, base, i, m);
      assert log[m].at <= log[j].at;
    }
  }

  // ---- Counting ----

  ghost function Between(lo: int, hi: int): (s: set<int>)
    requires lo < hi
    ensures |s| == hi - lo - 1 && forall x :: x in s <==> lo < x < hi
    decreases hi - lo
  {
    if hi == lo + 1 then {} else Between(lo, hi - 1) + {hi - 1}
  }

  ghost function Others(xs: seq<int>, skip: nat, n: nat): set<int>
    requires n <= |xs|
  {
    set i | 0 <= i < n && i != skip :: xs[i]
  }

  lemma {:induction false} OthersSize(xs: seq<int>, skip: nat, n: nat)
    requires skip < |xs| && n <= |xs|
    requires forall i, j | 0 <= i < j < |xs| && i != skip && j != skip :: xs[i] != xs[j]
    ensures |Others(xs, skip, n)| == if skip < n then n - 1 else n
  {
    if n == 0 {
      assert Others(xs, skip, 0) == {};
    } else {
      OthersSize(xs, skip, n - 1);
      OthersStep(xs, skip, n);
      var fewer := Others(xs, skip, n - 1);
      assert xs[n - 1] !in fewer ==> |fewer + {xs[n - 1]}| == |fewer| + 1;
      hide Others;
    }
  }

  lemma OthersStep(xs: seq<int>, skip: nat, n: nat)
    requires skip < |xs| && 0 < n <= |xs|
    requires forall i, j | 0 <= i < j < |xs| && i != skip && j != skip :: xs[i] != xs[j]
    ensures n - 1 == skip ==> Others(xs, skip, n) == Others(xs, skip, n - 1)
    ensures n - 1 != skip ==> Others(xs, skip, n) == Others(xs, skip, n - 1) + {xs[n - 1]}
    ensures n - 1 != skip ==> xs[n - 1] !in Others(xs, skip, n - 1)
  {
  }

  lemma {:induction false} SubsetSize<T>(a: set<T>, b: set<T>)
    requires a <= b
    ensures |a| <= |b|
  {
    if a == {} {
    } else {
      var x :| x in a;
      SubsetSize(a - {x}, b - {x});
    }
  }

  /** Distinct numbers of a set are no more than the set has. */
  lemma Pigeonhole(xs: seq<int>, skip: nat, holes: set<int>)
    requires skip < |xs|
    requires forall i, j | 0 <= i < j < |xs| && i != skip && j != skip :: xs[i] != xs[j]
    requires forall i | 0 <= i < |xs| && i != skip :: xs[i] in holes
    ensures |xs| - 1 <= |holes|
  {
    OthersSize(xs, skip, |xs|);
    SubsetSize(Others(xs, skip, |xs|), holes);
  }

  // ---- The table against the history ----

  /** source[i] is the meal that filled slot i (-1: none), the latest of its source. */
  ghost predicate Follows(table: seq<Stamp>, source: seq<int>, log: seq<Award>) {
    && |table| == |source| == SLOTS
    && (forall i | 0 <= i < SLOTS :: -1 <= source[i] < |log|)
    && (forall i | 0 <= i < SLOTS && source[i] == -1 :: table[i] == Stamp(0, 0))
    && (forall i | 0 <= i < SLOTS && source[i] != -1 ::
          table[i] == Stamp(log[source[i]].hash, log[source[i]].Deadline()) && Latest(log, source[i]))
    && (forall i, j | 0 <= i < j < SLOTS && source[i] != -1 :: source[i] != source[j])
  }

  ghost predicate Latest(log: seq<Award>, k: int)
    requires 0 <= k < |log|
  {
    log[k].hash != 0 && forall m | k < m < |log| :: log[m].hash != log[k].hash
  }

  /** The latest meal of a source is still in the table, or many others have come since. */
  ghost predicate Remembered(source: seq<int>, log: seq<Award>, base: nat) {
    forall k | 0 <= k < |log| && log[k].category != DEAUTH && Latest(log, k) ::
      k in source || |log| - Max(k + 1, base) >= SLOTS - base
  }

  ghost predicate IsCoolingIn(table: seq<Stamp>, hash: nat, now: nat) {
    exists i | 0 <= i < |table| :: table[i].hash == hash && now < table[i].deadline
  }

  ghost predicate IsDestination(table: seq<Stamp>, hash: nat, dest: nat) {
    && dest < |table|
    && (if table[dest].hash == hash then forall k | 0 <= k < dest :: table[k].hash != hash
        else
          && (forall k | 0 <= k < |table| :: table[k].hash != hash)
          && (forall k | 0 <= k < |table| :: table[dest].deadline <= table[k].deadline)
          && (forall k | 0 <= k < dest :: table[dest].deadline < table[k].deadline))
  }

  lemma StaysSpaced(log: seq<Award>, base: nat, meal: Award)
    requires Spaced(log, base) && (|log| > base ==> log[|log| - 1].at + GLOBAL_GAP <= meal.at)
    ensures Spaced(log + [meal], base)
  {
    var next, n := log + [meal], |log|;
    forall i, j | base <= i < j < |next| ensures next[i].at + GLOBAL_GAP * (j - i) <= next[j].at {
      if j == n && i < n - 1 {
        assert log[i].at + GLOBAL_GAP * (n - 1 - i) <= log[n - 1].at;
      }
    }
  }

  /** Feeding a source that is not cooling down keeps the history lawful. */
  lemma StaysCool(table: seq<Stamp>, source: seq<int>, log: seq<Award>, base: nat, meal: Award)
    requires Follows(table, source, log) && Remembered(source, log, base) && CoolsDown(log, base)
    requires meal.hash != 0 && !IsCoolingIn(table, meal.hash, meal.at)
    requires forall k | 0 <= k < |log| :: log[k].hash != 0
    ensures CoolsDown(log + [meal], base)
  {
    var next, n := log + [meal], |log|;
    forall i, j | 0 <= i < j < |next| && base <= j && NextOfSource(next, i, j) && next[i].category != DEAUTH
      ensures next[i].at + COOLDOWN <= next[j].at || j - Max(i + 1, base) >= SLOTS - base
    {
      if j < n {
        assert NextOfSource(log, i, j) by {
          assert forall m | i < m < j :: log[m] == next[m];
        }
      } else {
        assert Latest(log, i) by {
          assert forall m | i < m < n :: log[m] == next[m];
        }
        if i in source {
          var s :| 0 <= s < SLOTS && source[s] == i;
          assert table[s].hash == meal.hash;
        }
      }
    }
  }

  /** Taking over the earliest deadline forgets only a source that many others have followed. */
  lemma EvictedLongAgo(table: seq<Stamp>, source: seq<int>, log: seq<Award>, base: nat, dest: nat)
    requires Follows(table, source, log) && Carried(log, base) && Spaced(log, base) && dest < SLOTS
    requires forall k | 0 <= k < SLOTS :: table[dest].deadline <= table[k].deadline
    requires source[dest] != -1 && log[source[dest]].category != DEAUTH
    ensures |log| - Max(source[dest] + 1, base) >= SLOTS - base - 1
  {
    var k := source[dest];
    if k < base {
      var holes := Between(-1, |log|) - {k};
      forall i | 0 <= i < SLOTS && i != dest ensures source[i] in holes {
        assert table[dest].deadline <= table[i].deadline;
      }
      Pigeonhole(source, dest, holes);
    } else {
      var later, restored := Between(k, |log|), Between(-1, base);
      forall i | 0 <= i < SLOTS && i != dest ensures source[i] in later + restored {
        assert table[dest].deadline <= table[i].deadline;
      }
      Pigeonhole(source, dest, later + restored);
      assert |later + restored| <= |later| + |restored|;
    }
  }

  lemma StaysRemembered(table: seq<Stamp>, source: seq<int>, log: seq<Award>, base: nat, meal: Award, dest: nat)
    requires Follows(table, source, log) && Remembered(source, log, base) && Carried(log, base) && Spaced(log, base)
    requires IsDestination(table, meal.hash, dest) && meal.hash != 0
    ensures Remembered(source[dest := |log|], log + [meal], base)
  {
    var next, n, source' := log + [meal], |log|, source[dest := |log|];
    forall k | 0 <= k < |next| && next[k].category != DEAUTH && Latest(next, k)
      ensures k in source' || |next| - Max(k + 1, base) >= SLOTS - base
    {
      if k == n {
        assert source'[dest] == k;
      } else {
        assert next[n].hash != next[k].hash;
        assert Latest(log, k) by {
          assert forall m | k < m < n :: log[m] == next[m];
        }
        if k in source {
          var s :| 0 <= s < SLOTS && source[s] == k;
          if s == dest {
            EvictedLongAgo(table, source, log, base, dest);
          } else {
            assert source'[s] == k;
          }
        }
      }
    }
  }

  lemma StaysFollowing(table: seq<Stamp>, source: seq<int>, log: seq<Award>, meal: Award, dest: nat)
    requires Follows(table, source, log)
    requires IsDestination(table, meal.hash, dest) && meal.hash != 0
    ensures Follows(table[dest := Stamp(meal.hash, meal.Deadline())], source[dest := |log|], log + [meal])
  {
    var next, n, source' := log + [meal], |log|, source[dest := |log|];
    var table' := table[dest := Stamp(meal.hash, meal.Deadline())];
    forall i | 0 <= i < SLOTS && source'[i] != -1
      ensures table'[i] == Stamp(next[source'[i]].hash, next[source'[i]].Deadline()) && Latest(next, source'[i])
    {
      if i != dest {
        assert Latest(log, source[i]);
      }
    }
  }

  // ---- Without DEAUTH meals: exactly who is remembered ----

  ghost predicate NoDeauth(log: seq<Award>) {
    forall k | 0 <= k < |log| :: log[k].category != DEAUTH
  }

  /** Whatever was forgotten cools down no later than anything in the table, which is full. */
  ghost predicate KeepsLatest(table: seq<Stamp>, source: seq<int>, log: seq<Award>) {
    forall k: int, i: int | 0 <= k < |log| && Latest(log, k) && k !in source && 0 <= i < |table| && i < |source| ::
      source[i] != -1 && log[k].Deadline() <= table[i].deadline
  }

  /** The sources fed at or after a time. */
  ghost function FedFrom(log: seq<Award>, since: int): set<nat> {
    set m | 0 <= m < |log| && log[m].at >= since :: log[m].hash
  }

  ghost function HashesOf(xs: seq<nat>, n: nat): set<nat>
    requires n <= |xs|
  {
    set i | 0 <= i < n :: xs[i]
  }

  lemma {:induction false} HashCount(xs: seq<nat>, n: nat)
    requires n <= |xs|
    ensures |HashesOf(xs, n)| <= n
    ensures (forall i, j | 0 <= i < j < n :: xs[i] != xs[j]) ==> |HashesOf(xs, n)| == n
  {
    if n == 0 {
      assert HashesOf(xs, 0) == {};
    } else {
      HashCount(xs, n - 1);
      OneMoreHash(xs, n - 1);
      hide HashesOf;
    }
  }

  lemma OneMoreHash(xs: seq<nat>, n: nat)
    requires n < |xs|
    ensures |HashesOf(xs, n + 1)| <= |HashesOf(xs, n)| + 1
    ensures (forall i | 0 <= i < n :: xs[i] != xs[n]) ==> |HashesOf(xs, n + 1)| == |HashesOf(xs, n)| + 1
  {
    assert HashesOf(xs, n + 1) == HashesOf(xs, n) + {xs[n]};
  }

  function Hashes(table: seq<Stamp>): (xs: seq<nat>)
    ensures |xs| == |table| && forall i | 0 <= i < |table| :: xs[i] == table[i].hash
  {
    seq(|table|, i requires 0 <= i < |table| => table[i].hash)
  }

  lemma StaysLatest(table: seq<Stamp>, source: seq<int>, log: seq<Award>, meal: Award, dest: nat)
    requires Follows(table, source, log) && KeepsLatest(table, source, log) && IsDestination(table, meal.hash, dest)
    requires NoDeauth(log + [meal]) && meal.hash != 0 && forall k | 0 <= k < |log| :: log[k].at <= meal.at
    ensures KeepsLatest(table[dest := Stamp(meal.hash, meal.Deadline())], source[dest := |log|], log + [meal])
  {
    var next, source' := log + [meal], source[dest := |log|];
    var table' := table[dest := Stamp(meal.hash, meal.Deadline())];
    assert next[|log|] == meal && source'[dest] == |log|;
    forall k: int, i: int | 0 <= k < |next| && Latest(next, k) && k !in source' && 0 <= i < SLOTS
      ensures source'[i] != -1 && next[k].Deadline() <= table'[i].deadline
    {
      assert next[|log|].hash != next[k].hash && next[k] == log[k];
      assert Latest(log, k) by {
        assert forall m | k < m < |log| :: log[m] == next[m];
      }
      if k in source {
        var s :| 0 <= s < SLOTS && source[s] == k;
        assert source'[s] == if s == dest then |log| else k;
        assert table[dest].deadline == log[k].Deadline() > 0;
        assert table[dest].deadline <= table[i].deadline;
      }
    }
  }

  lemma {:induction false} LatestFrom(log: seq<Award>, m: nat) returns (k: nat)
    requires m < |log| && log[m].hash != 0
    ensures m <= k < |log| && Latest(log, k) && log[k].hash == log[m].hash
    decreases |log| - m
  {
    if j :| m < j < |log| && log[j].hash == log[m].hash {
      k := LatestFrom(log, j);
    } else {
      k := m;
    }
  }

  /** Once a source is forgotten, each slot is another one's, fed no earlier. */
  lemma ForgottenEarliest(table: seq<Stamp>, source: seq<int>, log: seq<Award>, k: nat, i: nat)
    requires Follows(table, source, log) && KeepsLatest(table, source, log) && NoDeauth(log)
    requires k < |log| && Latest(log, k) && k !in source && i < SLOTS
    ensures source[i] != -1 && table[i].hash == log[source[i]].hash != log[k].hash && log[source[i]].at >= log[k].at
  {
    assert source[i] != -1 && log[k].Deadline() <= table[i].deadline;
    assert Latest(log, source[i]) && source[i] != k;
  }

  lemma FullDistinct(table: seq<Stamp>, source: seq<int>, log: seq<Award>)
    requires Follows(table, source, log) && forall i | 0 <= i < SLOTS :: source[i] != -1
    ensures |HashesOf(Hashes(table), SLOTS)| == SLOTS
  {
    forall i, j | 0 <= i < j < SLOTS ensures table[i].hash != table[j].hash {
      assert Latest(log, source[i]) && Latest(log, source[j]) && source[i] != source[j];
    }
    HashCount(Hashes(table), SLOTS);
  }

  lemma KeptIfFew(table: seq<Stamp>, source: seq<int>, log: seq<Award>, k: nat)
    requires Follows(table, source, log) && KeepsLatest(table, source, log) && NoDeauth(log)
    requires k < |log| && Latest(log, k)
    ensures |FedFrom(log, log[k].at)| <= SLOTS ==> k in source
  {
    if k !in source {
      var all, own := HashesOf(Hashes(table), SLOTS), log[k].hash;
      forall i: nat | i < SLOTS
        ensures source[i] != -1 && table[i].hash == log[source[i]].hash != own && log[source[i]].at >= log[k].at
      {
        ForgottenEarliest(table, source, log, k, i);
      }
      FullDistinct(table, source, log);
      hide Latest, KeepsLatest, NoDeauth;
      forall a | a in all + {own} ensures a in FedFrom(log, log[k].at) {
        if a != own {
          var i :| 0 <= i < SLOTS && Hashes(table)[i] == a;
          assert log[source[i]].hash == a;
        }
      }
      SubsetSize(all + {own}, FedFrom(log, log[k].at));
    }
  }

  /** Meals are in the order of time; those of restored sources come first. */
  lemma InOrder(log: seq<Award>, base: nat, i: int, j: int)
    requires Carried(log, base) && Spaced(log, base) && 0 <= i < j < |log|
    ensures log[i].at <= log[j].at && (base == 0 || log[j].at > 0 ==> log[i].at < log[j].at)
  {
    if i >= base {
      assert log[i].at + GLOBAL_GAP * (j - i) <= log[j].at;
    }
  }

  lemma LaterIndex(log: seq<Award>, base: nat, i: int, j: int)
    requires Carried(log, base) && Spaced(log, base) && 0 <= i < |log| && 0 <= j < |log| && log[i].at < log[j].at
    ensures i < j
  {
    if j < i {
      InOrder(log, base, j, i);
    }
  }

  /** Whatever was fed after a meal that is remembered is remembered as well. */
  lemma LaterKept(table: seq<Stamp>, source: seq<int>, log: seq<Award>, base: nat, slot: nat, m: nat) returns (i: nat)
    requires Follows(table, source, log) && KeepsLatest(table, source, log) && NoDeauth(log)
    requires Carried(log, base) && Spaced(log, base)
    requires slot < SLOTS && source[slot] != -1 && m < |log| && log[m].hash != 0 && log[m].at > log[source[slot]].at
    ensures i < SLOTS && source[i] != -1 && table[i].hash == log[m].hash != table[slot].hash
  {
    LaterIndex(log, base, source[slot], m);
    var n := LatestFrom(log, m);
    if m < n {
      InOrder(log, base, m, n);
    }
    assert table[slot].deadline == log[source[slot]].Deadline();
    assert n in source;
    i :| 0 <= i < SLOTS && source[i] == n;
    assert Latest(log, source[slot]);
  }

  lemma LostIfMany(table: seq<Stamp>, source: seq<int>, log: seq<Award>, base: nat, k: nat)
    requires Follows(table, source, log) && KeepsLatest(table, source, log) && NoDeauth(log)
    requires Carried(log, base) && Spaced(log, base) && forall m | 0 <= m < |log| :: log[m].hash != 0
    requires k < |log| && Latest(log, k) && k in source && (base == 0 || log[k].at > 0)
    ensures |FedFrom(log, log[k].at)| <= SLOTS
  {
    var all := HashesOf(Hashes(table), SLOTS);
    var s :| 0 <= s < SLOTS && source[s] == k;
    assert table[s].hash == log[k].hash == Hashes(table)[s];
    forall a | a in FedFrom(log, log[k].at) ensures a in all {
      var m :| 0 <= m < |log| && log[m].at >= log[k].at && log[m].hash == a;
      if m != k {
        if m < k {
          InOrder(log, base, m, k);
        } else {
          InOrder(log, base, k, m);
        }
        var i := LaterKept(table, source, log, base, s, m);
        assert Hashes(table)[i] == a;
      }
    }
    hide *;
    SubsetSize(FedFrom(log, log[k].at), all);
    HashCount(Hashes(table), SLOTS);
  }

  /** The last meal of a source, while it cools down and no more than 128 sources have been fed from then on. */
  ghost predicate Recalls(log: seq<Award>, k: int, hash: nat, now: nat) {
    && 0 <= k < |log| && Latest(log, k) && log[k].hash == hash && now < log[k].at + COOLDOWN
    && |FedFrom(log, log[k].at)| <= SLOTS
  }

  ghost predicate Refuses(log: seq<Award>, hash: nat, now: nat) {
    exists k :: Recalls(log, k, hash, now)
  }

  /** The source was restored at boot, and not fed since. */
  ghost predicate AwaitsMeal(log: seq<Award>, base: nat, hash: nat) {
    base > 0 && exists k :: 0 <= k < |log| && Latest(log, k) && log[k].hash == hash && log[k].at == 0
  }

  /**
   * Without DEAUTH meals, a source cools down exactly if its last meal is less than 1800 s ago and it is among the 128
   * sources fed last. Only for a source that was restored and not fed since, the order of its likes may decide.
   */
  lemma CoolingExactly(table: seq<Stamp>, source: seq<int>, log: seq<Award>, base: nat, hash: nat, now: nat)
    requires Follows(table, source, log) && KeepsLatest(table, source, log) && NoDeauth(log)
    requires Carried(log, base) && Spaced(log, base) && hash != 0 && forall m | 0 <= m < |log| :: log[m].hash != 0
    ensures Refuses(log, hash, now) ==> IsCoolingIn(table, hash, now)
    ensures IsCoolingIn(table, hash, now) ==> Refuses(log, hash, now) || AwaitsMeal(log, base, hash)
  {
    if IsCoolingIn(table, hash, now) {
      var i :| 0 <= i < SLOTS && table[i].hash == hash && now < table[i].deadline;
      assert Latest(log, source[i]);
      if base == 0 || log[source[i]].at > 0 {
        LostIfMany(table, source, log, base, source[i]);
        assert Recalls(log, source[i], hash, now);
      }
    }
    if k :| Recalls(log, k, hash, now) {
      KeptIfFew(table, source, log, k);
      var i :| 0 <= i < SLOTS && source[i] == k;
      assert table[i].hash == hash;
    }
  }

  ghost predicate TimersFollow(categoryUntil: seq<nat>, globalUntil: nat, log: seq<Award>, base: nat) {
    && |categoryUntil| == CATEGORY_COUNT
    && (|log| > base ==> globalUntil == log[|log| - 1].at + GLOBAL_GAP)
    && (forall k | 0 <= k < |log| :: log[k].hash != 0 && log[k].category < CATEGORY_COUNT)
    && (forall k | base <= k < |log| :: log[k].at + CATEGORY_GAP <= categoryUntil[log[k].category])
  }

  ghost predicate Lawful(table: seq<Stamp>, categoryUntil: seq<nat>, globalUntil: nat, source: seq<int>,
      log: seq<Award>, base: nat) {
    && Follows(table, source, log) && Remembered(source, log, base) && Carried(log, base)
    && (NoDeauth(log) ==> KeepsLatest(table, source, log))
    && TimersFollow(categoryUntil, globalUntil, log, base)
    && Spaced(log, base) && CoolsDown(log, base) && CategoriesSpaced(log, base)
  }

  lemma StaysTimed(categoryUntil: seq<nat>, globalUntil: nat, log: seq<Award>, base: nat, meal: Award)
    requires TimersFollow(categoryUntil, globalUntil, log, base) && CategoriesSpaced(log, base) && Spaced(log, base)
    requires meal.hash != 0 && meal.category < CATEGORY_COUNT
    requires meal.at >= globalUntil && meal.at >= categoryUntil[meal.category]
    ensures CategoriesSpaced(log + [meal], base)
    ensures TimersFollow(categoryUntil[meal.category := meal.at + CATEGORY_GAP], meal.at + GLOBAL_GAP, log + [meal],
        base)
  {
    var next, n := log + [meal], |log|;
    forall k | base <= k < n ensures log[k].at <= meal.at {
      if k < n - 1 {
        assert log[k].at + GLOBAL_GAP * (n - 1 - k) <= log[n - 1].at;
      }
    }
  }

  lemma StaysLawful(table: seq<Stamp>, categoryUntil: seq<nat>, globalUntil: nat, source: seq<int>, log: seq<Award>,
      base: nat, meal: Award, dest: nat)
    requires Lawful(table, categoryUntil, globalUntil, source, log, base)
    requires meal.hash != 0 && meal.category < CATEGORY_COUNT && !IsCoolingIn(table, meal.hash, meal.at)
    requires meal.at >= globalUntil && meal.at >= categoryUntil[meal.category]
    requires IsDestination(table, meal.hash, dest)
    ensures Lawful(table[dest := Stamp(meal.hash, meal.Deadline())],
                   categoryUntil[meal.category := meal.at + CATEGORY_GAP], meal.at + GLOBAL_GAP,
                   source[dest := |log|], log + [meal], base)
  {
    StaysTimed(categoryUntil, globalUntil, log, base, meal);
    StaysSpaced(log, base, meal);
    StaysCool(table, source, log, base, meal);
    StaysRemembered(table, source, log, base, meal, dest);
    StaysFollowing(table, source, log, meal, dest);
    if NoDeauth(log + [meal]) {
      NoDeauthBefore(log, meal);
      AllBefore(log, base, meal);
      StaysLatest(table, source, log, meal, dest);
    }
  }

  lemma NoDeauthBefore(log: seq<Award>, meal: Award)
    requires NoDeauth(log + [meal])
    ensures NoDeauth(log)
  {
    assert forall k | 0 <= k < |log| :: (log + [meal])[k] == log[k];
  }

  lemma AllBefore(log: seq<Award>, base: nat, meal: Award)
    requires Carried(log, base) && Spaced(log, base) && (|log| > base ==> log[|log| - 1].at <= meal.at)
    ensures forall k | 0 <= k < |log| :: log[k].at <= meal.at
  {
    forall k | base <= k < |log| - 1 ensures log[k].at <= meal.at {
      assert log[k].at + GLOBAL_GAP * (|log| - 1 - k) <= log[|log| - 1].at;
    }
  }

  lemma RecallsLawful(table: seq<Stamp>, categoryUntil: seq<nat>, globalUntil: nat, source: seq<int>, log: seq<Award>,
                      base: nat, hash: nat, now: nat)
    requires Lawful(table, categoryUntil, globalUntil, source, log, base)
    ensures NoDeauth(log) && hash != 0 ==>
              && (Refuses(log, hash, now) ==> IsCoolingIn(table, hash, now))
              && (IsCoolingIn(table, hash, now) ==> Refuses(log, hash, now) || AwaitsMeal(log, base, hash))
  {
    hide Refuses, AwaitsMeal, IsCoolingIn, NoDeauth, KeepsLatest, Follows;
    if NoDeauth(log) && hash != 0 {
      CoolingExactly(table, source, log, base, hash, now);
    }
  }

  lemma LawfulShape(table: seq<Stamp>, categoryUntil: seq<nat>, globalUntil: nat, source: seq<int>, log: seq<Award>,
      base: nat)
    requires Lawful(table, categoryUntil, globalUntil, source, log, base)
    ensures |table| == |source| == SLOTS && |categoryUntil| == CATEGORY_COUNT && DEAUTH < CATEGORY_COUNT
  {
  }

  // ---- Across a restart ----

  const SAVED: nat := 32
  const NO_STAMP: Stamp := Stamp(0, 0)

  /** What is saved of a slot: the time left, in the same field. */
  function Left(s: Stamp, now: nat): Stamp {
    if s.deadline > now then Stamp(s.hash, s.deadline - now) else NO_STAMP
  }

  /** sorted is the table in the given order, the latest deadline first. */
  ghost predicate Sorted(sorted: seq<Stamp>, table: seq<Stamp>, order: seq<nat>) {
    && |sorted| == |order| == |table|
    && (forall i | 0 <= i < |order| :: order[i] < |table| && sorted[i] == table[order[i]])
    && (forall i, j | 0 <= i < j < |order| :: order[i] != order[j] && sorted[i].deadline >= sorted[j].deadline)
    && (forall k: nat | k < |table| :: k in order)
  }

  ghost predicate Longest(saved: seq<Stamp>, table: seq<Stamp>, now: nat) {
    |saved| == SAVED <= |table| && exists sorted, order :: Sorted(sorted, table, order) && TakenFrom(saved, sorted, now)
  }

  predicate TakenFrom(saved: seq<Stamp>, sorted: seq<Stamp>, now: nat) {
    |saved| <= |sorted| && forall i | 0 <= i < |saved| :: saved[i] == Left(sorted[i], now)
  }

  ghost predicate DistinctSources(stamps: seq<Stamp>) {
    forall i, j | 0 <= i < j < |stamps| && stamps[i].hash != 0 :: stamps[i].hash != stamps[j].hash
  }

  /** The saved slots in use, each with a whole cooldown: nothing tells how long the device was off. */
  function Kept(saved: seq<Stamp>): (kept: seq<Stamp>)
    ensures |kept| <= |saved|
  {
    if saved == [] then []
    else
      var n := |saved| - 1;
      Kept(saved[..n]) + if saved[n].hash != 0 && saved[n].deadline != 0 then [Stamp(saved[n].hash, COOLDOWN)] else []
  }

  function Restored(saved: seq<Stamp>): (table: seq<Stamp>)
    ensures |table| == SLOTS
  {
    var kept := Kept(saved);
    if |kept| >= SLOTS then kept[..SLOTS] else kept + Repeat(NO_STAMP, SLOTS - |kept|)
  }

  function RestoredCount(saved: seq<Stamp>): nat {
    Min(|Kept(saved)|, SLOTS)
  }

  lemma KeptNone(saved: seq<Stamp>)
    ensures Kept(saved[..0]) == []
  {
  }

  lemma KeptNext(saved: seq<Stamp>, k: nat)
    requires k < |saved|
    ensures Kept(saved[..k + 1]) ==
            Kept(saved[..k]) + if saved[k].hash != 0 && saved[k].deadline != 0 then [Stamp(saved[k].hash, COOLDOWN)]
                else []
  {
    assert saved[..k + 1][..k] == saved[..k];
  }

  lemma {:induction false} KeptFrom(saved: seq<Stamp>, i: nat)
    requires i < |Kept(saved)|
    ensures Kept(saved)[i].deadline == COOLDOWN && Kept(saved)[i].hash != 0
    ensures exists k :: 0 <= k < |saved| && saved[k].hash == Kept(saved)[i].hash && saved[k].deadline != 0
  {
    var n := |saved| - 1;
    if i < |Kept(saved[..n])| {
      KeptFrom(saved[..n], i);
      var k :| 0 <= k < n && saved[..n][k].hash == Kept(saved[..n])[i].hash && saved[..n][k].deadline != 0;
      assert saved[k] == saved[..n][k];
    } else {
      assert saved[n].hash == Kept(saved)[i].hash;
    }
  }

  lemma {:induction false} KeptHas(saved: seq<Stamp>, k: nat)
    requires k < |saved| && saved[k].hash != 0 && saved[k].deadline != 0
    ensures Stamp(saved[k].hash, COOLDOWN) in Kept(saved)
  {
    var n := |saved| - 1;
    if k < n {
      KeptHas(saved[..n], k);
    }
  }

  lemma {:induction false} KeptDistinct(saved: seq<Stamp>)
    requires DistinctSources(saved)
    ensures DistinctSources(Kept(saved))
  {
    if saved != [] {
      var n := |saved| - 1;
      KeptDistinct(saved[..n]);
      forall i | 0 <= i < |Kept(saved[..n])| ensures Kept(saved[..n])[i].hash != saved[n].hash {
        KeptFrom(saved[..n], i);
      }
    }
  }

  /** A restored table is as lawful as if each of its sources had been fed when the device started. */
  lemma RestoredLawful(saved: seq<Stamp>, categoryUntil: seq<nat>, globalUntil: nat, source: seq<int>, log: seq<Award>)
    requires DistinctSources(saved) && |categoryUntil| == CATEGORY_COUNT && |source| == SLOTS
    requires |log| == RestoredCount(saved) && forall i | 0 <= i < |log| :: log[i] == Award(Kept(saved)[i].hash, 0, 0)
    requires forall i | 0 <= i < SLOTS :: source[i] == if i < |log| then i else -1
    ensures Lawful(Restored(saved), categoryUntil, globalUntil, source, log, |log|)
  {
    KeptDistinct(saved);
    forall i | 0 <= i < |log| ensures Restored(saved)[i] == Stamp(log[i].hash, COOLDOWN) && log[i].hash != 0 {
      KeptFrom(saved, i);
    }
    assert forall i | |log| <= i < SLOTS :: Restored(saved)[i] == NO_STAMP;
    CarriedLawful(Restored(saved), categoryUntil, globalUntil, source, log);
  }

  lemma CarriedLawful(table: seq<Stamp>, categoryUntil: seq<nat>, globalUntil: nat, source: seq<int>, log: seq<Award>)
    requires |table| == |source| == SLOTS && |categoryUntil| == CATEGORY_COUNT && |log| <= SLOTS
    requires forall i | 0 <= i < SLOTS :: source[i] == if i < |log| then i else -1
    requires forall i | 0 <= i < SLOTS :: table[i] == if i < |log| then Stamp(log[i].hash, COOLDOWN) else NO_STAMP
    requires forall i | 0 <= i < |log| :: log[i] == Award(log[i].hash, 0, 0) && log[i].hash != 0
    requires forall i, j | 0 <= i < j < |log| :: log[i].hash != log[j].hash
    ensures Lawful(table, categoryUntil, globalUntil, source, log, |log|)
  {
    forall k | 0 <= k < |log| ensures k in source && Latest(log, k) {
      assert source[k] == k;
    }
  }

  /** Sources stand once each in a table, and no cooldown is longer than the usual one. */
  lemma TableDistinct(table: seq<Stamp>, source: seq<int>, log: seq<Award>, now: nat)
    requires Follows(table, source, log) && forall k | 0 <= k < |log| :: log[k].at <= now
    ensures |table| == SLOTS && DistinctSources(table) && forall i | 0 <= i < SLOTS ::
        table[i].deadline <= now + COOLDOWN
    ensures forall i | 0 <= i < SLOTS && table[i].hash == 0 :: table[i].deadline == 0
  {
    forall i, j | 0 <= i < j < SLOTS && table[i].hash != 0 ensures table[i].hash != table[j].hash {
      assert source[i] != -1 && Latest(log, source[i]);
      if source[j] != -1 {
        assert Latest(log, source[j]);
      }
    }
  }

  /** Saved are sources of the table, once each, and all of them unless 32 others have at least as long to go. */
  lemma SavedFrom(saved: seq<Stamp>, table: seq<Stamp>, now: nat)
    requires Longest(saved, table, now) && DistinctSources(table)
    ensures |saved| == SAVED && DistinctSources(saved)
    ensures forall i | 0 <= i < SAVED && saved[i].deadline > 0 ::
              exists k :: 0 <= k < |table| && table[k].deadline > now && saved[i] == Left(table[k], now)
    ensures forall k | 0 <= k < |table| && table[k].deadline > now ::
              Left(table[k], now) in saved || forall i | 0 <= i < SAVED :: saved[i].deadline >= table[k].deadline - now
  {
    var sorted: seq<Stamp>, order: seq<nat> :| Sorted(sorted, table, order) && TakenFrom(saved, sorted, now);
    forall i, j | 0 <= i < j < SAVED && saved[i].hash != 0 ensures saved[i].hash != saved[j].hash {
      assert order[i] != order[j];
    }
    forall i | 0 <= i < SAVED && saved[i].deadline > 0
      ensures exists k :: 0 <= k < |table| && table[k].deadline > now && saved[i] == Left(table[k], now)
    {
      assert table[order[i]] == sorted[i];
    }
    forall k | 0 <= k < |table| && table[k].deadline > now
      ensures Left(table[k], now) in saved || forall i | 0 <= i < SAVED :: saved[i].deadline >= table[k].deadline - now
    {
      assert (k as nat) in order;
      var at :| 0 <= at < |order| && order[at] == k;
      if at < SAVED {
        assert saved[at] == Left(table[k], now);
      } else {
        assert forall i | 0 <= i < SAVED :: sorted[i].deadline >= sorted[at].deadline;
      }
    }
  }

  /**
   * A restart neither invents a cooldown nor shortens one that is carried over, and every cooldown is carried over
   * unless 32 saved ones have at least as long to go.
   */
  lemma RestartKeepsCooling(table: seq<Stamp>, source: seq<int>, log: seq<Award>, now: nat, saved: seq<Stamp>,
      hash: nat, t: nat)
    requires Follows(table, source, log) && Longest(saved, table, now) && forall k | 0 <= k < |log| :: log[k].at <= now
    ensures DistinctSources(saved)
    ensures IsCoolingIn(Restored(saved), hash, t) ==> t < COOLDOWN && IsCoolingIn(table, hash, now)
    ensures IsCoolingIn(table, hash, now + t) && !IsCoolingIn(Restored(saved), hash, t) ==>
              |saved| == SAVED && forall i | 0 <= i < SAVED :: saved[i].deadline > t
  {
    hide Follows, Longest, DistinctSources, Kept, Restored;
    TableDistinct(table, source, log, now);
    SavedFrom(saved, table, now);
    if IsCoolingIn(Restored(saved), hash, t) {
      RestoredWasCooling(table, now, saved, hash, t);
    }
    if IsCoolingIn(table, hash, now + t) {
      var k :| 0 <= k < |table| && table[k].hash == hash && now + t < table[k].deadline;
      if Left(table[k], now) in saved {
        CarriedOver(saved, hash, table[k].deadline - now, t);
      }
    }
  }

  lemma RestoredWasCooling(table: seq<Stamp>, now: nat, saved: seq<Stamp>, hash: nat, t: nat)
    requires IsCoolingIn(Restored(saved), hash, t) && |saved| == SAVED
    requires forall i | 0 <= i < SAVED && saved[i].deadline > 0 ::
               exists k :: 0 <= k < |table| && table[k].deadline > now && saved[i] == Left(table[k], now)
    ensures t < COOLDOWN && IsCoolingIn(table, hash, now)
  {
    var i :| 0 <= i < SLOTS && Restored(saved)[i].hash == hash && t < Restored(saved)[i].deadline;
    assert i < |Kept(saved)|;
    KeptFrom(saved, i);
    var s :| 0 <= s < |saved| && saved[s].hash == hash && saved[s].deadline != 0;
    var k :| 0 <= k < |table| && table[k].deadline > now && saved[s] == Left(table[k], now);
    assert table[k].hash == hash;
  }

  lemma CarriedOver(saved: seq<Stamp>, hash: nat, left: nat, t: nat)
    requires Stamp(hash, left) in saved && hash != 0 && t < left <= COOLDOWN && |saved| == SAVED
    ensures IsCoolingIn(Restored(saved), hash, t)
  {
    var i :| 0 <= i < |saved| && saved[i] == Stamp(hash, left);
    KeptHas(saved, i);
    var k :| 0 <= k < |Kept(saved)| && Kept(saved)[k] == Stamp(hash, COOLDOWN);
    assert Restored(saved)[k] == Kept(saved)[k];
  }

  lemma PlacedSorted(sorted: seq<Stamp>, table: seq<Stamp>, order: seq<nat>, at: nat, s: Stamp)
    requires Sorted(sorted, table, order) && at <= |sorted|
    requires forall i | 0 <= i < at :: sorted[i].deadline >= s.deadline
    requires at < |sorted| ==> sorted[at].deadline < s.deadline
    ensures Sorted(sorted[..at] + [s] + sorted[at..], table + [s], order[..at] + [|table|] + order[at..])
  {
    PlacedOnto(order, at, |table|);
  }

  lemma PlacedOnto(order: seq<nat>, at: nat, n: nat)
    requires at <= |order| && forall k: nat | k < n :: k in order
    ensures forall k: nat | k < n + 1 :: k in order[..at] + [n] + order[at..]
  {
    var after := order[..at] + [n] + order[at..];
    assert after[at] == n;
    forall k: nat | k < n ensures k in after {
      assert k in order;
      var i :| 0 <= i < |order| && order[i] == k;
      assert after[if i < at then i else i + 1] == k;
    }
  }

  lemma NothingSorted()
    ensures Sorted([], [], [])
  {
  }

  /** A copy of the table, the latest deadline first. */
  method Sort(table: seq<Stamp>) returns (sorted: seq<Stamp>, ghost order: seq<nat>)
    ensures Sorted(sorted, table, order)
  {
    hide Sorted;
    sorted, order := [], [];
    NothingSorted();
    for n := 0 to |table|
      invariant Sorted(sorted, table[..n], order) && |sorted| == |order| == n
    {
      var at := 0;
      while at < |sorted| && sorted[at].deadline >= table[n].deadline
        invariant 0 <= at <= |sorted| && forall i | 0 <= i < at :: sorted[i].deadline >= table[n].deadline
      {
        at := at + 1;
      }
      PlacedSorted(sorted, table[..n], order, at, table[n]);
      sorted, order := sorted[..at] + [table[n]] + sorted[at..], order[..at] + [n] + order[at..];
      assert table[..n + 1] == table[..n] + [table[n]];
    }
    assert table[..|table|] == table;
  }

  const RESTED: seq<nat> := Repeat(0, CATEGORY_COUNT)

  class Guard {
    const stamps: array<Stamp>
    const categoryUntil: array<nat>
    var globalUntil: nat
    /** Every meal awarded so far, and for each slot the meal that filled it. */
    ghost var log: seq<Award>
    ghost var source: seq<int>
    /** How many of them stand for restored sources. */
    ghost var base: nat

    ghost predicate Valid()
      reads this, stamps, categoryUntil
    {
      Lawful(stamps[..], categoryUntil[..], globalUntil, source, log, base)
    }

    constructor ()
      ensures Valid() && log == [] && base == 0 && fresh(stamps) && fresh(categoryUntil)
      ensures globalUntil == 0 && categoryUntil[..] == RESTED
    {
      stamps := new Stamp[SLOTS](_ => Stamp(0, 0));
      categoryUntil := new nat[CATEGORY_COUNT](_ => 0);
      globalUntil := 0;
      log, base := [], 0;
      source := seq(SLOTS, _ => -1);
    }

    method IsCooling(hash: nat, now: nat) returns (cooling: bool)
      ensures cooling == IsCoolingIn(stamps[..], hash, now)
    {
      for i := 0 to stamps.Length
        invariant forall k | 0 <= k < i :: !(stamps[k].hash == hash && now < stamps[k].deadline)
      {
        if stamps[i].hash == hash && now < stamps[i].deadline {
          assert stamps[..][i].hash == hash;
          return true;
        }
      }
      return false;
    }

    /** The slot of the source if it has one, else the first slot with the earliest deadline. */
    method Destination(hash: nat) returns (dest: nat)
      requires stamps.Length > 0
      ensures IsDestination(stamps[..], hash, dest)
    {
      dest := 0;
      for i := 1 to stamps.Length
        invariant dest < i
        invariant forall k | 0 <= k < i :: stamps[dest].deadline <= stamps[k].deadline
        invariant forall k | 0 <= k < dest :: stamps[dest].deadline < stamps[k].deadline
      {
        if stamps[i].deadline < stamps[dest].deadline {
          dest := i;
        }
      }
      for i := 0 to stamps.Length
        invariant dest < stamps.Length
        invariant forall k | 0 <= k < stamps.Length :: stamps[dest].deadline <= stamps[k].deadline
        invariant forall k | 0 <= k < dest :: stamps[dest].deadline < stamps[k].deadline
        invariant forall k | 0 <= k < i :: stamps[k].hash != hash
      {
        if stamps[i].hash == hash {
          return i;
        }
      }
    }

    method AwardMeal(hash: nat, now: nat, category: nat, score: nat, low: bool) returns (awarded: bool)
      requires Valid() && category < CATEGORY_COUNT
      modifies this, stamps, categoryUntil
      ensures Valid()
      ensures awarded == (hash != 0 && score >= (if low then 20 else 50) && now >= old(globalUntil)
                          && now >= old(categoryUntil[category]) && !IsCoolingIn(old(stamps[..]), hash, now))
      ensures base == old(base) && log == old(log) + (if awarded then [Award(hash, now, category)] else [])
      ensures NoDeauth(old(log)) && hash != 0 ==>
                && (Refuses(old(log), hash, now) ==> IsCoolingIn(old(stamps[..]), hash, now))
                && (IsCoolingIn(old(stamps[..]), hash, now) ==>
                      Refuses(old(log), hash, now) || AwaitsMeal(old(log), old(base), hash))
      ensures !awarded ==> stamps[..] == old(stamps[..]) && globalUntil == old(globalUntil)
                           && categoryUntil[..] == old(categoryUntil[..])
      ensures awarded ==>
                && (exists dest: nat :: IsDestination(old(stamps[..]), hash, dest)
                     && stamps[..] == old(stamps[..])[dest := Stamp(hash, now + if category == 17 then 600000
                         else 1800000)])
                && globalUntil == now + 5000
                && categoryUntil[..] == old(categoryUntil[..])[category := now + 30000]
    {
      hide Lawful, IsCoolingIn, IsDestination, Refuses, AwaitsMeal, NoDeauth;
      RecallsLawful(stamps[..], categoryUntil[..], globalUntil, source, log, base, hash, now);
      LawfulShape(stamps[..], categoryUntil[..], globalUntil, source, log, base);
      if hash == 0 || score < (if low then 20 else 50) {
        return false;
      }
      if now < globalUntil || now < categoryUntil[category] {
        return false;
      }
      var cooling := IsCooling(hash, now);
      if cooling {
        return false;
      }
      var dest := Destination(hash);
      ghost var meal := Award(hash, now, category);
      StaysLawful(stamps[..], categoryUntil[..], globalUntil, source, log, base, meal, dest);
      Feed(dest, hash, now, category);
      return true;
    }

    /** The 32 longest cooldowns, to be saved. */
    method Snapshot(now: nat) returns (saved: seq<Stamp>)
      requires Valid()
      ensures Longest(saved, stamps[..], now)
    {
      var sorted;
      ghost var order;
      sorted, order := Sort(stamps[..]);
      saved := [];
      for i := 0 to SAVED
        invariant |saved| == i && TakenFrom(saved, sorted, now)
      {
        saved := saved + [Left(sorted[i], now)];
      }
    }

    /** The table takes up what was saved before the restart. */
    method Restore(saved: seq<Stamp>)
      requires Valid()
      modifies this`log, this`source, this`base, stamps
      ensures stamps[..] == Restored(saved)
      ensures DistinctSources(saved) ==> Valid() && base == |log| == RestoredCount(saved)
    {
      hide Lawful, Kept, DistinctSources;
      LawfulShape(stamps[..], categoryUntil[..], globalUntil, source, log, base);
      for i := 0 to SLOTS
        invariant stamps.Length == SLOTS && forall k | 0 <= k < i :: stamps[k] == NO_STAMP
      {
        stamps[i] := NO_STAMP;
      }
      var n := 0;
      KeptNone(saved);
      for k := 0 to |saved|
        invariant stamps.Length == SLOTS && n == RestoredCount(saved[..k])
        invariant forall i | 0 <= i < SLOTS :: stamps[i] == if i < n then Kept(saved[..k])[i] else NO_STAMP
      {
        KeptNext(saved, k);
        if saved[k].hash != 0 && saved[k].deadline != 0 && n < SLOTS {
          stamps[n] := Stamp(saved[k].hash, COOLDOWN);
          n := n + 1;
        }
      }
      assert saved[..|saved|] == saved;
      log, base := seq(n, i requires 0 <= i < n => Award(Kept(saved)[i].hash, 0, 0)), n;
      source := seq(SLOTS, i => if i < n then i else -1);
      if DistinctSources(saved) {
        RestoredLawful(saved, categoryUntil[..], globalUntil, source, log);
      }
    }

    method Feed(dest: nat, hash: nat, now: nat, category: nat)
      requires dest < stamps.Length == |source| && category < categoryUntil.Length
      modifies this`globalUntil, this`log, this`source, stamps, categoryUntil
      ensures stamps[..] == old(stamps[..])[dest := Stamp(hash, Award(hash, now, category).Deadline())]
      ensures categoryUntil[..] == old(categoryUntil[..])[category := now + CATEGORY_GAP]
      ensures globalUntil == now + GLOBAL_GAP
      ensures source == old(source)[dest := |old(log)|] && log == old(log) + [Award(hash, now, category)]
    {
      stamps[dest] := Stamp(hash, now + if category == DEAUTH then DEAUTH_COOLDOWN else COOLDOWN);
      globalUntil := now + GLOBAL_GAP;
      categoryUntil[category] := now + CATEGORY_GAP;
      source := source[dest := |log|];
      log := log + [Award(hash, now, category)];
    }
  }

  // ---- A source that is fed again early ----

  /** One source after another is fed, every 5 s, in six categories by turns. */
  function Feast(n: nat): (log: seq<Award>)
    ensures |log| == n && forall i | 0 <= i < n :: log[i] == Award(i + 1, GLOBAL_GAP * i, i % 6)
  {
    seq(n, i requires 0 <= i < n => Award(i + 1, GLOBAL_GAP * i, i % 6))
  }

  lemma FeastFresh(n: nat, now: nat)
    ensures NoDeauth(Feast(n)) && !Refuses(Feast(n), n + 1, now)
  {
  }

  lemma FeastForgets(now: nat)
    ensures !Refuses(Feast(SLOTS + 1), 1, now)
  {
    var log := Feast(SLOTS + 1);
    var hashes := seq(SLOTS + 1, i requires 0 <= i < SLOTS + 1 => log[i].hash);
    HashCount(hashes, SLOTS + 1);
    forall i | 0 <= i < SLOTS + 1 ensures hashes[i] in FedFrom(log, 0) {
      assert log[i].hash == hashes[i];
    }
    SubsetSize(HashesOf(hashes, SLOTS + 1), FedFrom(log, 0));
  }

  /** How many meals lie between the n-th and the next of a category. */
  function Turn(c: nat, n: nat): nat {
    if c >= n % 6 then c - n % 6 else c + 6 - n % 6
  }

  /** Each of the six categories may be fed when its turn comes. */
  ghost predicate Rested(until: seq<nat>, n: nat) {
    |until| == CATEGORY_COUNT && forall c: nat | c < 6 :: until[c] <= GLOBAL_GAP * (n + Turn(c, n))
  }

  lemma RestedNext(until: seq<nat>, n: nat)
    requires Rested(until, n)
    ensures n % 6 < |until| && until[n % 6] <= GLOBAL_GAP * n
    ensures Rested(until[n % 6 := GLOBAL_GAP * n + CATEGORY_GAP], n + 1)
  {
    assert (n + 1) % 6 == if n % 6 == 5 then 0 else n % 6 + 1;
  }

  /** The first of 129 sources is fed again 645 s after its meal, long before its cooldown has passed. */
  method FedAgainEarly() returns (again: bool, ghost log: seq<Award>)
    ensures again && |log| == SLOTS + 2 && log[0].hash == log[SLOTS + 1].hash && NoDeauth(log)
    ensures log[SLOTS + 1].at == log[0].at + GLOBAL_GAP * (SLOTS + 1) < log[0].at + COOLDOWN
  {
    hide Lawful, NoDeauth, Refuses, IsCoolingIn, IsDestination, Rested;
    var guard := new Guard();
    NothingFed();
    for n := 0 to SLOTS + 1
      invariant guard.Valid() && fresh(guard) && fresh(guard.stamps) && fresh(guard.categoryUntil)
      invariant guard.log == Feast(n) && guard.base == 0 && guard.globalUntil <= GLOBAL_GAP * n
      invariant Rested(guard.categoryUntil[..], n)
    {
      FeastFresh(n, GLOBAL_GAP * n);
      RestedNext(guard.categoryUntil[..], n);
      var fed := guard.AwardMeal(n + 1, GLOBAL_GAP * n, n % 6, 50, false);
    }
    FeastFresh(SLOTS + 1, 0);
    FeastForgets(GLOBAL_GAP * (SLOTS + 1));
    RestedNext(guard.categoryUntil[..], SLOTS + 1);
    again := guard.AwardMeal(1, GLOBAL_GAP * (SLOTS + 1), (SLOTS + 1) % 6, 50, false);
    log := guard.log;
    FeastWithout(Feast(SLOTS + 1), log[SLOTS + 1]);
  }

  lemma NothingFed()
    ensures Rested(RESTED, 0) && Feast(0) == []
  {
  }

  lemma FeastWithout(log: seq<Award>, meal: Award)
    requires NoDeauth(log) && meal.category != DEAUTH
    ensures NoDeauth(log + [meal])
  {
  }
}
