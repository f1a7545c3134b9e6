// Whether severities survive deduplication. It compares none: an absorbed finding leaves nothing of
// its severity behind.
module DeduplicateSeverity {
  import opened Sorting
  import opened Evidence
  import opened Related
  import opened Deduplicate
  import opened DeduplicateLedger

  function Rank(f: Finding): int { SeverityRank(f.severity) }

  // The cluster that an input position belongs to.
  ghost function Keeper(env: Env, fs: seq<Finding>, k: nat): (i: nat)
    requires k < |fs|
    ensures i < |Clusters(env, Enumerate(fs))| && Holds(Clusters(env, Enumerate(fs))[i], Item(k, fs[k]))
  {
    NothingIsLost(env, fs);
    assert Enumerate(fs)[k] == Item(k, fs[k]);
    assert Item(k, fs[k]) in Enumerate(fs);
    var i: nat :| i < |Clusters(env, Enumerate(fs))| && Holds(Clusters(env, Enumerate(fs))[i], Item(k, fs[k]));
    i
  }

  lemma {:induction false} KeeperUnique(env: Env, fs: seq<Finding>, k: nat, i: nat)
    requires k < |fs| && i < |Clusters(env, Enumerate(fs))| && Holds(Clusters(env, Enumerate(fs))[i], Item(k, fs[k]))
    ensures i == Keeper(env, fs, k)
  {
    NothingIsLost(env, fs);
  }

  // The survivor that stands for an input position.
  ghost function Survivor(env: Env, fs: seq<Finding>, k: nat): (f: Finding)
    requires k < |fs|
    ensures f in Deduplicated(env, fs)
  {
    Deduplicated(env, fs)[Keeper(env, fs, k)]
  }

  // Every input position is stood for by a survivor that ranks at least as high.
  ghost predicate RanksKept(env: Env, fs: seq<Finding>) {
    forall k | 0 <= k < |fs| :: Rank(fs[k]) <= Rank(Survivor(env, fs, k))
  }

  // A survivor has the severity of the earliest finding it stands for.
  lemma {:induction false} SurvivorOf(env: Env, fs: seq<Finding>, k: nat) returns (h: nat)
    requires k < |fs|
    ensures h <= k && Survivor(env, fs, k).severity == fs[h].severity
    ensures h == Clusters(env, Enumerate(fs))[Keeper(env, fs, k)].head.index
  {
    var i := Keeper(env, fs, k);
    var c := Clusters(env, Enumerate(fs))[i];
    NothingIsLost(env, fs);
    SurvivorIsItsHead(env, fs, i);
    h := c.head.index;
    if c.head != Item(k, fs[k]) { assert Item(k, fs[k]) in c.absorbed; }
  }

  // ---- In order of severity nothing is lost ----

  ghost predicate RanksFall(fs: seq<Finding>) {
    forall i, j | 0 <= i < j < |fs| :: Rank(fs[j]) <= Rank(fs[i])
  }

  lemma {:induction false} FallingRanksAreKept(env: Env, fs: seq<Finding>)
    requires RanksFall(fs)
    ensures RanksKept(env, fs)
  {
    forall k | 0 <= k < |fs| ensures Rank(fs[k]) <= Rank(Survivor(env, fs, k)) {
      var h := SurvivorOf(env, fs, k);
    }
  }

  // ---- What can be absorbed after what ----

  // Some findings that a growing finding takes in one after the other.
  ghost predicate Takes(env: Env, primary: Finding, dups: seq<Finding>)
    decreases |dups|
  {
    dups == [] || (AreFindingsRelated(env, primary, dups[0]) && Takes(env, Absorb(primary, dups[0]), dups[1..]))
  }

  function ItsFinding(x: Item): Finding { x.finding }

  lemma {:induction false} TakesPrefix(env: Env, primary: Finding, dups: seq<Finding>, n: nat)
    requires n <= |dups| && Takes(env, primary, dups)
    ensures Takes(env, primary, dups[..n])
    decreases n
  {
    if n > 0 {
      TakesPrefix(env, Absorb(primary, dups[0]), dups[1..], n - 1);
      assert dups[..n][1..] == dups[1..][..n - 1];
    }
  }

  lemma {:induction false} MapTail(xs: seq<Item>)
    requires xs != []
    ensures Map(ItsFinding, xs)[1..] == Map(ItsFinding, xs[1..])
  {
  }

  // What a pass absorbs, it takes in turn.
  lemma {:induction false} SweepTakes(env: Env, primary: Finding, rest: seq<Item>)
    ensures Takes(env, primary, Map(ItsFinding, Sweep(env, primary, rest).absorbed))
    decreases |rest|
  {
    if rest != [] {
      var dup := rest[0].finding;
      if AreFindingsRelated(env, primary, dup) {
        SweepTakes(env, Absorb(primary, dup), rest[1..]);
        var s := Sweep(env, primary, rest);
        MapTail(s.absorbed);
        assert s.absorbed[1..] == Sweep(env, Absorb(primary, dup), rest[1..]).absorbed;
      } else {
        SweepTakes(env, primary, rest[1..]);
      }
    }
  }

  // What it could take in turn, and stands first, it absorbs.
  lemma {:induction false} TakenFirst(env: Env, primary: Finding, xs: seq<Item>, rest: seq<Item>)
    requires Takes(env, primary, Map(ItsFinding, xs))
    ensures xs <= Sweep(env, primary, xs + rest).absorbed
    decreases |xs|
  {
    if xs != [] {
      var dup := xs[0].finding;
      MapTail(xs);
      TakenFirst(env, Absorb(primary, dup), xs[1..], rest);
      assert (xs + rest)[1..] == xs[1..] + rest;
    }
  }

  // A cluster's head takes what it absorbs in turn, in order of position.
  ghost predicate TakesInOrder(env: Env, c: Cluster) {
    Takes(env, c.head.finding, Map(ItsFinding, c.absorbed)) && Increasing([c.head] + c.absorbed)
  }

  lemma {:induction false} FirstTakesInOrder(env: Env, items: seq<Item>)
    requires items != [] && Increasing(items) && Increasing(Sweep(env, items[0].finding, items[1..]).absorbed)
    requires forall a | a in Sweep(env, items[0].finding, items[1..]).absorbed :: a in items[1..]
    ensures TakesInOrder(env, FirstCluster(env, items))
  {
    SweepTakes(env, items[0].finding, items[1..]);
    var c := FirstCluster(env, items);
    forall k | 0 <= k < |c.absorbed| ensures items[0].index < c.absorbed[k].index {
      assert c.absorbed[k] in items[1..];
    }
  }

  lemma {:induction false} ClustersTake(env: Env, items: seq<Item>, i: nat)
    requires Increasing(items) && i < |Clusters(env, items)|
    ensures TakesInOrder(env, Clusters(env, items)[i])
    decreases |items|
  {
    SweepPartition(env, items[0].finding, items[1..]);
    if i > 0 {
      ClustersTake(env, Leftover(env, items), i - 1);
    } else {
      FirstTakesInOrder(env, items);
    }
  }

  // ---- Which findings lose their severity in some order ----

  ghost predicate DistinctPositions(q: seq<nat>, n: nat) {
    (forall i | 0 <= i < |q| :: q[i] < n) && forall i, j | 0 <= i < j < |q| :: q[i] != q[j]
  }

  // The finding at q[0] would take those at q[1], q[2], ... in turn, and the last of them outranks it.
  ghost predicate HidesHigher(env: Env, fs: seq<Finding>, q: seq<nat>) {
    && DistinctPositions(q, |fs|) && |q| > 1
    && Takes(env, fs[q[0]], Permute(q[1..], fs))
    && Rank(fs[q[|q| - 1]]) > Rank(fs[q[0]])
  }

  // Positions not in q.
  function Others(n: nat, q: seq<nat>): (r: seq<nat>)
    ensures forall k: nat :: k in r <==> k < n && k !in q
    ensures forall i, j | 0 <= i < j < |r| :: r[i] != r[j]
  {
    if n == 0 then [] else Others(n - 1, q) + if n - 1 in q then [] else [n - 1]
  }

  lemma {:induction false} CountPositions(p: seq<nat>, n: nat)
    requires (forall k: nat :: k in p <==> k < n) && forall i, j | 0 <= i < j < |p| :: p[i] != p[j]
    ensures |p| == n
  {
    assert p != [] ==> p[0] in p;
    if n > 0 {
      assert n - 1 in p;
      var i :| 0 <= i < |p| && p[i] == n - 1;
      var rest := p[..i] + p[i + 1..];
      forall k: nat ensures k in rest <==> k < n - 1 {
        if k in p && k != n - 1 {
          var j :| 0 <= j < |p| && p[j] == k;
          assert rest[if j < i then j else j - 1] == k;
        }
        if k in rest { assert k in p; }
      }
      CountPositions(rest, n - 1);
    }
  }

  lemma {:induction false} ThenOthersPermutes(n: nat, q: seq<nat>)
    requires DistinctPositions(q, n)
    ensures IsPermutation(q + Others(n, q), n)
  {
    var p := q + Others(n, q);
    forall i, j | 0 <= i < j < |p| ensures p[i] != p[j] {
      assert p[i] in q || p[i] in Others(n, q);
    }
    forall k: nat ensures k in p <==> k < n {
      assert k in p <==> k in q || k in Others(n, q);
    }
    CountPositions(p, n);
    forall i | 0 <= i < |p| ensures p[i] < n {
      assert p[i] in p;
    }
  }

  lemma {:induction false} EnumerateFront(fs: seq<Finding>, q: seq<nat>, p: seq<nat>) returns (rest: seq<Item>)
    requires IsPermutation(p, |fs|) && q <= p && q != []
    ensures var items := Enumerate(Permute(p, fs));
            && |items| >= |q| && items[0] == Item(0, fs[q[0]])
            && items[1..] == items[1..|q|] + rest && Map(ItsFinding, items[1..|q|]) == Permute(q[1..], fs)
            && items[|q| - 1] == Item(|q| - 1, fs[q[|q| - 1]])
  {
    var items := Enumerate(Permute(p, fs));
    rest := items[|q|..];
    assert items[1..] == items[1..|q|] + rest;
  }

  // Put first, such a chain loses the severity of its last finding.
  lemma {:induction false} ChainFirstLoses(env: Env, fs: seq<Finding>, q: seq<nat>)
    requires HidesHigher(env, fs, q)
    ensures var p := q + Others(|fs|, q); IsPermutation(p, |fs|) && !RanksKept(env, Permute(p, fs))
  {
    var p := q + Others(|fs|, q);
    ThenOthersPermutes(|fs|, q);
    var gs, items := Permute(p, fs), Enumerate(Permute(p, fs));
    var rest := EnumerateFront(fs, q, p);
    TakenFirst(env, fs[q[0]], items[1..|q|], rest);
    var c := Clusters(env, items)[0];
    assert c == FirstCluster(env, items);
    var last := items[|q| - 1];
    assert items[1..|q|][|q| - 2] == last;
    assert c.absorbed[|q| - 2] == last;
    assert last in c.absorbed;
    assert gs[|q| - 1] == fs[q[|q| - 1]];
    KeeperUnique(env, gs, |q| - 1, 0);
    var h := SurvivorOf(env, gs, |q| - 1);
  }

  function ItsIndex(x: Item): nat { x.index }

  lemma {:induction false} PermuteDistinctPositions(p: seq<nat>, q: seq<nat>, n: nat)
    requires IsPermutation(p, n) && DistinctPositions(q, n)
    ensures DistinctPositions(Permute(q, p), n)
  {
    forall i, j | 0 <= i < j < |q| ensures p[q[i]] != p[q[j]] {
      if q[i] < q[j] { assert p[q[i]] != p[q[j]]; } else { assert p[q[j]] != p[q[i]]; }
    }
  }

  lemma {:induction false} ItemsOfCluster(env: Env, fs: seq<Finding>, i: nat, x: Item)
    requires i < |Clusters(env, Enumerate(fs))| && Holds(Clusters(env, Enumerate(fs))[i], x)
    ensures x.index < |fs| && x == Item(x.index, fs[x.index])
  {
    NothingIsLost(env, fs);
    assert x in Enumerate(fs);
  }

  lemma {:induction false} MapPrefix(xs: seq<Item>, n: nat)
    requires n <= |xs|
    ensures Map(ItsFinding, xs[..n]) == Map(ItsFinding, xs)[..n]
  {
  }

  lemma {:induction false} IncreasingFront(h: Item, xs: seq<Item>, n: nat)
    requires Increasing([h] + xs) && n <= |xs|
    ensures Increasing([h] + xs[..n])
  {
    var all, front := [h] + xs, [h] + xs[..n];
    forall i, j | 0 <= i < j < |front| ensures front[i].index < front[j].index {
      assert front[i] == all[i] && front[j] == all[j];
    }
  }

  ghost predicate ItemsOf(fs: seq<Finding>, xs: seq<Item>) {
    forall i | 0 <= i < |xs| :: xs[i].index < |fs| && xs[i] == Item(xs[i].index, fs[xs[i].index])
  }

  // The findings at some positions, taken in turn in order of position by the one at h.
  ghost predicate TakenBy(env: Env, fs: seq<Finding>, h: nat, taken: seq<Item>) {
    && h < |fs| && ItemsOf(fs, taken)
    && Takes(env, fs[h], Map(ItsFinding, taken)) && Increasing([Item(h, fs[h])] + taken)
  }

  lemma {:induction false} ClusterIsTaken(env: Env, fs: seq<Finding>, i: nat)
    requires i < |Clusters(env, Enumerate(fs))|
    ensures var c := Clusters(env, Enumerate(fs))[i];
            TakenBy(env, fs, c.head.index, c.absorbed) && c.head == Item(c.head.index, fs[c.head.index])
  {
    var c := Clusters(env, Enumerate(fs))[i];
    ItemsOfCluster(env, fs, i, c.head);
    ClustersTake(env, Enumerate(fs), i);
    forall j | 0 <= j < |c.absorbed|
      ensures c.absorbed[j].index < |fs| && c.absorbed[j] == Item(c.absorbed[j].index, fs[c.absorbed[j].index])
    {
      ItemsOfCluster(env, fs, i, c.absorbed[j]);
    }
  }

  lemma {:induction false} TakenPrefix(env: Env, fs: seq<Finding>, h: nat, taken: seq<Item>, n: nat)
    requires TakenBy(env, fs, h, taken) && n <= |taken|
    ensures TakenBy(env, fs, h, taken[..n])
  {
    TakesPrefix(env, fs[h], Map(ItsFinding, taken), n);
    MapPrefix(taken, n);
    IncreasingFront(Item(h, fs[h]), taken, n);
  }

  lemma {:induction false} AbsorbedAt(env: Env, fs: seq<Finding>, k: nat) returns (h: nat, m: nat)
    requires k < |fs| && Rank(fs[k]) > Rank(Survivor(env, fs, k))
    ensures var c := Clusters(env, Enumerate(fs))[Keeper(env, fs, k)];
            && h == c.head.index < |fs| && Rank(fs[k]) > Rank(fs[h])
            && m < |c.absorbed| && c.absorbed[m] == Item(k, fs[k])
  {
    var c := Clusters(env, Enumerate(fs))[Keeper(env, fs, k)];
    h := SurvivorOf(env, fs, k);
    m :| m < |c.absorbed| && c.absorbed[m] == Item(k, fs[k]);
  }

  lemma {:induction false} LostTo(env: Env, fs: seq<Finding>, k: nat) returns (h: nat, taken: seq<Item>)
    requires k < |fs| && Rank(fs[k]) > Rank(Survivor(env, fs, k))
    ensures taken != [] && taken[|taken| - 1] == Item(k, fs[k])
    ensures TakenBy(env, fs, h, taken) && Rank(fs[k]) > Rank(fs[h])
  {
    var m: nat;
    h, m := AbsorbedAt(env, fs, k);
    var i := Keeper(env, fs, k);
    var all := Clusters(env, Enumerate(fs))[i].absorbed;
    ClusterIsTaken(env, fs, i);
    TakenPrefix(env, fs, h, all, m + 1);
    taken := all[..m + 1];
  }

  lemma {:induction false} IndicesDiffer(all: seq<Item>, n: nat)
    requires Increasing(all) && forall i | 0 <= i < |all| :: all[i].index < n
    ensures DistinctPositions(Map(ItsIndex, all), n)
  {
    forall i, j | 0 <= i < j < |all| ensures Map(ItsIndex, all)[i] != Map(ItsIndex, all)[j] {
      assert all[i].index < all[j].index;
    }
  }

  // A severity lost in some order is lost to such a chain.
  lemma {:induction false} LossHasChain(env: Env, fs: seq<Finding>, p: seq<nat>, h: nat, taken: seq<Item>)
    returns (q: seq<nat>)
    requires IsPermutation(p, |fs|) && TakenBy(env, Permute(p, fs), h, taken) && taken != []
    requires Rank(taken[|taken| - 1].finding) > Rank(fs[p[h]])
    ensures HidesHigher(env, fs, q)
  {
    var all := [Item(h, fs[p[h]])] + taken;
    IndicesDiffer(all, |fs|);
    q := Permute(Map(ItsIndex, all), p);
    PermuteDistinctPositions(p, Map(ItsIndex, all), |fs|);
    assert Permute(q[1..], fs) == Map(ItsFinding, taken);
  }

  // Every order of a run's findings keeps every rank exactly when no finding would take in turn some
  // others of which the last outranks it.
  lemma {:induction false} RanksKeptInEveryOrderExactly(env: Env, fs: seq<Finding>)
    ensures (forall p | IsPermutation(p, |fs|) :: RanksKept(env, Permute(p, fs)))
       <==> forall q :: !HidesHigher(env, fs, q)
  {
    forall q | HidesHigher(env, fs, q) ensures exists p | IsPermutation(p, |fs|) :: !RanksKept(env, Permute(p, fs)) {
      ChainFirstLoses(env, fs, q);
    }
    if p :| IsPermutation(p, |fs|) && !RanksKept(env, Permute(p, fs)) {
      var k: nat :| k < |fs| && Rank(Permute(p, fs)[k]) > Rank(Survivor(env, Permute(p, fs), k));
      var h, taken := LostTo(env, Permute(p, fs), k);
      var q := LossHasChain(env, fs, p, h, taken);
    }
  }

  // So a related pair of unequal ranks loses the higher one when it stands second, and the pair first.
  lemma {:induction false} RelatedPairLoses(env: Env, fs: seq<Finding>, i: nat, j: nat)
    requires i < |fs| && j < |fs| && AreFindingsRelated(env, fs[i], fs[j]) && Rank(fs[j]) > Rank(fs[i])
    ensures var p := [i, j] + Others(|fs|, [i, j]); IsPermutation(p, |fs|) && !RanksKept(env, Permute(p, fs))
  {
    var q := [i, j];
    assert Permute(q[1..], fs) == [fs[j]];
    assert Takes(env, Absorb(fs[i], fs[j]), []);
    assert HidesHigher(env, fs, q);
    ChainFirstLoses(env, fs, q);
  }

  // ---- Findings of one id ----

  ghost predicate OfOneID(fs: seq<Finding>, id: string) {
    forall k | 0 <= k < |fs| :: fs[k].id == id
  }

  lemma {:induction false} OneIDIsTaken(env: Env, primary: Finding, dups: seq<Finding>)
    requires primary.id != "" && OfOneID(dups, primary.id)
    ensures Takes(env, primary, dups)
    decreases |dups|
  {
    if dups != [] { OneIDIsTaken(env, Absorb(primary, dups[0]), dups[1..]); }
  }

  // A run whose findings all carry one id keeps the first one's severity alone: nothing is lost
  // exactly when no finding outranks the first.
  lemma {:induction false} OneIDKeepsFirstExactly(env: Env, fs: seq<Finding>)
    requires fs != [] && fs[0].id != "" && OfOneID(fs, fs[0].id)
    ensures |Deduplicated(env, fs)| == 1 && Deduplicated(env, fs)[0].severity == fs[0].severity
    ensures RanksKept(env, fs) <==> forall k | 0 <= k < |fs| :: Rank(fs[k]) <= Rank(fs[0])
  {
    var items := Enumerate(fs);
    OneIDIsTaken(env, fs[0], Map(ItsFinding, items[1..]));
    TakenFirst(env, fs[0], items[1..], []);
    assert items[1..] + [] == items[1..];
    SweepCounts(env, fs[0], items[1..]);
    var cs := Clusters(env, items);
    assert Leftover(env, items) == [];
    assert Clusters(env, []) == [];
    assert cs == [FirstCluster(env, items)] + Clusters(env, Leftover(env, items));
    SurvivorIsItsHead(env, fs, 0);
    assert cs[0].head == items[0];
    forall k | 0 <= k < |fs| ensures Survivor(env, fs, k) == Deduplicated(env, fs)[0] {
      assert Keeper(env, fs, k) == 0;
    }
  }

  lemma {:induction false} SweepCounts(env: Env, primary: Finding, rest: seq<Item>)
    ensures |Sweep(env, primary, rest).absorbed| + |Sweep(env, primary, rest).kept| == |rest|
    decreases |rest|
  {
    if rest != [] {
      if AreFindingsRelated(env, primary, rest[0].finding) {
        SweepCounts(env, Absorb(primary, rest[0].finding), rest[1..]);
      } else {
        SweepCounts(env, primary, rest[1..]);
      }
    }
  }
}
