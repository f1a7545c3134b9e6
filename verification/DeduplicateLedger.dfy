// What Deduplicate keeps track of: every input is a survivor or is absorbed by exactly one earlier
// survivor, which records its id, its details and its places.
module DeduplicateLedger {
  import opened Text
  import opened Evidence
  import opened Related
  import opened Deduplicate

  ghost predicate Increasing(items: seq<Item>) {
    forall i, j | 0 <= i < j < |items| :: items[i].index < items[j].index
  }

  // ---- One pass ----

  // rest falls into two increasing parts.
  ghost predicate SplitsInto(rest: seq<Item>, a: seq<Item>, b: seq<Item>) {
    && Increasing(a) && Increasing(b)
    && (forall x :: x in rest <==> x in a || x in b)
    && (forall x | x in a :: x !in b)
  }

  lemma {:induction false} SplitsCons(h: Item, rest: seq<Item>, a: seq<Item>, b: seq<Item>)
    requires SplitsInto(rest, a, b) && Increasing([h] + rest)
    ensures SplitsInto([h] + rest, [h] + a, b)
  {
    forall x | x in rest ensures h.index < x.index {
      var i :| 0 <= i < |rest| && rest[i] == x;
      assert ([h] + rest)[0].index < ([h] + rest)[i + 1].index;
    }
    forall i | 0 <= i < |a| ensures h.index < a[i].index {
      assert a[i] in rest;
    }
  }

  lemma {:induction false} SplitsSwap(rest: seq<Item>, a: seq<Item>, b: seq<Item>)
    requires SplitsInto(rest, a, b)
    ensures SplitsInto(rest, b, a)
  {
  }

  lemma {:induction false} SweepPartition(env: Env, primary: Finding, rest: seq<Item>)
    requires Increasing(rest)
    ensures var s := Sweep(env, primary, rest); SplitsInto(rest, s.absorbed, s.kept)
    decreases |rest|
  {
    if rest != [] {
      assert rest == [rest[0]] + rest[1..];
      var dup := rest[0].finding;
      if AreFindingsRelated(env, primary, dup) {
        SweepPartition(env, Absorb(primary, dup), rest[1..]);
        var s := Sweep(env, Absorb(primary, dup), rest[1..]);
        SplitsCons(rest[0], rest[1..], s.absorbed, s.kept);
      } else {
        SweepPartition(env, primary, rest[1..]);
        var s := Sweep(env, primary, rest[1..]);
        SplitsSwap(rest[1..], s.absorbed, s.kept);
        SplitsCons(rest[0], rest[1..], s.kept, s.absorbed);
        SplitsSwap(rest, [rest[0]] + s.kept, s.absorbed);
      }
    }
  }

  // The fields a pass leaves alone, and the growth of the two it changes.
  ghost predicate GrownFrom(f: Finding, g: Finding) {
    && g == f.(locations := g.locations, details := g.details)
    && f.locations <= g.locations && f.details <= g.details
  }

  lemma {:induction false} SweepGrows(env: Env, primary: Finding, rest: seq<Item>)
    ensures GrownFrom(primary, Sweep(env, primary, rest).primary)
    decreases |rest|
  {
    if rest != [] {
      if AreFindingsRelated(env, primary, rest[0].finding) {
        SweepGrows(env, Absorb(primary, rest[0].finding), rest[1..]);
      } else {
        SweepGrows(env, primary, rest[1..]);
      }
    }
  }

  lemma {:induction false} SweepKeepsOthers(env: Env, primary: Finding, rest: seq<Item>)
    ensures forall k | k in Sweep(env, primary, rest).kept :: !SameIdentity(primary, k.finding)
    decreases |rest|
  {
    if rest != [] {
      if AreFindingsRelated(env, primary, rest[0].finding) {
        SweepKeepsOthers(env, Absorb(primary, rest[0].finding), rest[1..]);
      } else {
        SweepKeepsOthers(env, primary, rest[1..]);
      }
    }
  }

  // What the absorbing finding and its collected ids hold of one it absorbed.
  ghost predicate Remembers(head: Finding, merged: Finding, ids: seq<string>, dup: Finding) {
    && (dup.id != "" && dup.id != head.id ==> dup.id in ids)
    && (forall d | d in dup.duplicates :: d in ids)
    && (dup.details != "" ==> Contains(merged.details, dup.details))
    && (forall l | l in dup.locations :: HasPlace(merged.locations, l))
  }

  lemma {:induction false} ContainsPrefix(a: string, b: string, sub: string)
    requires a <= b && Contains(a, sub)
    ensures Contains(b, sub)
  {
    assert b == a + b[|a|..];
    ContainsAppend(a, b[|a|..], sub);
  }

  lemma {:induction false} RemembersAfterwards(head: Finding, merged: Finding, merged': Finding, ids: seq<string>,
                                               ids': seq<string>, dup: Finding)
    requires Remembers(head, merged, ids, dup) && GrownFrom(merged, merged')
    requires forall d | d in ids :: d in ids'
    ensures Remembers(head, merged', ids', dup)
  {
    if dup.details != "" {
      ContainsPrefix(merged.details, merged'.details, dup.details);
    }
    forall l | l in dup.locations ensures HasPlace(merged'.locations, l) {
      var p :| p in merged.locations && SamePlace(p, l);
      assert p in merged'.locations;
    }
  }

  lemma {:induction false} SweepRemembers(env: Env, primary: Finding, rest: seq<Item>)
    ensures var s := Sweep(env, primary, rest);
            forall a | a in s.absorbed :: Remembers(primary, s.primary, s.ids, a.finding)
    decreases |rest|
  {
    if rest != [] {
      var s := Sweep(env, primary, rest);
      var dup := rest[0].finding;
      if AreFindingsRelated(env, primary, dup) {
        var grown := Absorb(primary, dup);
        var s' := Sweep(env, grown, rest[1..]);
        SweepRemembers(env, grown, rest[1..]);
        SweepGrows(env, grown, rest[1..]);
        assert Remembers(primary, grown, DuplicateIDs(primary, dup), dup);
        RemembersAfterwards(primary, grown, s.primary, DuplicateIDs(primary, dup), s.ids, dup);
        forall a | a in s'.absorbed ensures Remembers(primary, s.primary, s.ids, a.finding) {
          assert Remembers(grown, s'.primary, s'.ids, a.finding);
        }
      } else {
        SweepRemembers(env, primary, rest[1..]);
      }
    }
  }

  // The ids collected are ids or duplicate ids of what was absorbed.
  ghost predicate ComesFrom(d: string, absorbed: seq<Item>) {
    exists a | a in absorbed :: d == a.finding.id || d in a.finding.duplicates
  }

  lemma {:induction false} SweepInventsNothing(env: Env, primary: Finding, rest: seq<Item>, d: string)
    requires d in Sweep(env, primary, rest).ids
    ensures ComesFrom(d, Sweep(env, primary, rest).absorbed)
    decreases |rest|
  {
    var s := Sweep(env, primary, rest);
    if AreFindingsRelated(env, primary, rest[0].finding) {
      var s' := Sweep(env, Absorb(primary, rest[0].finding), rest[1..]);
      if d in DuplicateIDs(primary, rest[0].finding) {
        assert rest[0] in s.absorbed;
      } else {
        SweepInventsNothing(env, Absorb(primary, rest[0].finding), rest[1..], d);
        var a :| a in s'.absorbed && (d == a.finding.id || d in a.finding.duplicates);
        assert a in s.absorbed;
      }
    } else {
      SweepInventsNothing(env, primary, rest[1..], d);
    }
  }

  // ---- One cluster ----

  ghost predicate Holds(c: Cluster, x: Item) {
    x == c.head || x in c.absorbed
  }

  // A survivor differs from the input it came from in four fields, keeps what those held, and records
  // each absorbed finding.
  ghost predicate Traces(c: Cluster) {
    var h, m := c.head.finding, c.merged;
    && m == h.(locations := m.locations, details := m.details, duplicates := m.duplicates, related := m.related)
    && h.locations <= m.locations && h.details <= m.details
    && (m.duplicates == h.duplicates || forall d | d in Cleaned(h.duplicates) :: d in m.duplicates)
    && (m.related == h.related || forall d | d in Cleaned(h.related) :: d in m.related)
    && (forall a | a in c.absorbed :: Recorded(c, a.finding))
    && (forall d | d in m.duplicates ::
         d in h.duplicates || d in Cleaned(h.duplicates)
         || exists a | a in c.absorbed :: d == TrimSpace(a.finding.id) || d in Cleaned(a.finding.duplicates))
  }

  ghost predicate Recorded(c: Cluster, dup: Finding) {
    && (TrimSpace(dup.id) != "" && dup.id != c.head.finding.id ==>
         TrimSpace(dup.id) in c.merged.duplicates && TrimSpace(dup.id) in c.merged.related)
    && (forall d | d in Cleaned(dup.duplicates) :: d in c.merged.duplicates && d in c.merged.related)
    && (dup.details != "" ==> Contains(c.merged.details, dup.details))
    && (forall l | l in dup.locations :: HasPlace(c.merged.locations, l))
  }

  lemma {:induction false} CleanedHas(xs: seq<string>, s: string)
    requires s in xs && TrimSpace(s) != ""
    ensures TrimSpace(s) in Cleaned(xs)
  {
  }

  lemma {:induction false} CleanedAppend(xs: seq<string>, ys: seq<string>)
    ensures Cleaned(xs + ys) == Cleaned(xs) + Cleaned(ys)
  {
  }

  lemma {:induction false} FinishRecords(c: Cluster, grown: Finding, ids: seq<string>, dup: Finding)
    requires c.merged == Finish(grown, ids) && GrownFrom(c.head.finding, grown)
    requires Remembers(c.head.finding, grown, ids, dup)
    ensures Recorded(c, dup)
  {
    CleanedAppend(grown.duplicates, ids);
    CleanedAppend(grown.related, ids);
    if TrimSpace(dup.id) != "" && dup.id != c.head.finding.id {
      CleanedHas(ids, dup.id);
    }
    forall d | d in Cleaned(dup.duplicates) ensures d in Cleaned(ids) {
      var x :| x in dup.duplicates && TrimSpace(x) != "" && TrimSpace(x) == d;
      CleanedHas(ids, x);
    }
  }

  lemma {:induction false} FinishInventsNothing(c: Cluster, grown: Finding, ids: seq<string>, d: string)
    requires c.merged == Finish(grown, ids) && GrownFrom(c.head.finding, grown)
    requires forall x | x in ids :: ComesFrom(x, c.absorbed)
    requires d in c.merged.duplicates && d !in c.head.finding.duplicates && d !in Cleaned(c.head.finding.duplicates)
    ensures exists a | a in c.absorbed :: d == TrimSpace(a.finding.id) || d in Cleaned(a.finding.duplicates)
  {
    CleanedAppend(grown.duplicates, ids);
    var x :| x in ids && TrimSpace(x) != "" && TrimSpace(x) == d;
    assert ComesFrom(x, c.absorbed);
    var a :| a in c.absorbed && (x == a.finding.id || x in a.finding.duplicates);
    if x in a.finding.duplicates {
      CleanedHas(a.finding.duplicates, x);
    }
  }

  lemma {:induction false} FinishKeepsOwnIDs(grown: Finding, ids: seq<string>)
    requires ids != []
    ensures forall d | d in Cleaned(grown.duplicates) :: d in Finish(grown, ids).duplicates
    ensures forall d | d in Cleaned(grown.related) :: d in Finish(grown, ids).related
  {
    CleanedAppend(grown.duplicates, ids);
    CleanedAppend(grown.related, ids);
  }

  lemma {:induction false} FirstClusterTraces(env: Env, items: seq<Item>)
    requires items != []
    ensures Traces(FirstCluster(env, items))
  {
    var c, s := FirstCluster(env, items), Sweep(env, items[0].finding, items[1..]);
    SweepGrows(env, items[0].finding, items[1..]);
    SweepRemembers(env, items[0].finding, items[1..]);
    forall d | d in s.ids ensures ComesFrom(d, s.absorbed) {
      SweepInventsNothing(env, items[0].finding, items[1..], d);
    }
    forall a | a in c.absorbed ensures Recorded(c, a.finding) {
      FinishRecords(c, s.primary, s.ids, a.finding);
    }
    if s.ids != [] { FinishKeepsOwnIDs(s.primary, s.ids); }
    var h, m := c.head.finding, c.merged;
    forall d | d in m.duplicates && d !in h.duplicates && d !in Cleaned(h.duplicates)
      ensures exists a | a in c.absorbed :: d == TrimSpace(a.finding.id) || d in Cleaned(a.finding.duplicates)
    {
      FinishInventsNothing(c, s.primary, s.ids, d);
    }
  }

  // ---- The whole run ----

  ghost predicate Partition(cs: seq<Cluster>, items: seq<Item>) {
    && (forall x :: x in items <==> exists i | 0 <= i < |cs| :: Holds(cs[i], x))
    && (forall i, j, x | 0 <= i < j < |cs| && Holds(cs[i], x) :: !Holds(cs[j], x))
    && (forall i, j | 0 <= i < j < |cs| :: cs[i].head.index < cs[j].head.index)
    && (forall i, a | 0 <= i < |cs| && a in cs[i].absorbed :: cs[i].head.index < a.index)
  }

  lemma {:induction false} PartitionCons(c: Cluster, cs: seq<Cluster>, items: seq<Item>, kept: seq<Item>)
    requires Partition(cs, kept) && items != [] && c.head == items[0] && Increasing(items)
    requires forall x :: x in items <==> Holds(c, x) || x in kept
    requires forall x | Holds(c, x) :: x !in kept
    requires forall a | a in c.absorbed :: a.index > items[0].index
    ensures Partition([c] + cs, items)
  {
    var all := [c] + cs;
    forall x ensures x in items <==> exists i | 0 <= i < |all| :: Holds(all[i], x) {
      if x in kept {
        var i :| 0 <= i < |cs| && Holds(cs[i], x);
        assert Holds(all[i + 1], x);
      }
      if Holds(c, x) { assert Holds(all[0], x); }
      if i :| 0 <= i < |all| && Holds(all[i], x) {
        if i > 0 { assert Holds(cs[i - 1], x); }
      }
    }
    forall j | 0 <= j < |cs| ensures c.head.index < cs[j].head.index {
      assert Holds(cs[j], cs[j].head);
      assert cs[j].head in items;
    }
    forall j, x | 0 <= j < |cs| && Holds(c, x) ensures !Holds(cs[j], x) {
      assert x !in kept;
    }
  }

  lemma {:induction false} ClustersPartition(env: Env, items: seq<Item>)
    requires Increasing(items)
    ensures Partition(Clusters(env, items), items)
    decreases |items|
  {
    if items != [] {
      var c, kept := FirstCluster(env, items), Leftover(env, items);
      SweepPartition(env, items[0].finding, items[1..]);
      ClustersPartition(env, kept);
      assert forall x :: x in items <==> x == items[0] || x in items[1..];
      PartitionCons(c, Clusters(env, kept), items, kept);
    }
  }

  lemma {:induction false} ClustersTrace(env: Env, items: seq<Item>)
    ensures forall c | c in Clusters(env, items) :: Traces(c)
    decreases |items|
  {
    if items != [] {
      FirstClusterTraces(env, items);
      ClustersTrace(env, Leftover(env, items));
    }
  }

  lemma {:induction false} FirstDiffers(env: Env, items: seq<Item>)
    requires items != [] && Increasing(Leftover(env, items))
    ensures var cs := Clusters(env, Leftover(env, items));
            forall j | 0 <= j < |cs| :: !SameIdentity(items[0].finding, cs[j].head.finding)
  {
    var kept := Leftover(env, items);
    var cs := Clusters(env, kept);
    SweepKeepsOthers(env, items[0].finding, items[1..]);
    ClustersPartition(env, kept);
    forall j | 0 <= j < |cs| ensures !SameIdentity(items[0].finding, cs[j].head.finding) {
      assert Holds(cs[j], cs[j].head);
      assert cs[j].head in kept;
    }
  }

  ghost predicate HeadsDiffer(cs: seq<Cluster>) {
    forall i, j | 0 <= i < j < |cs| :: !SameIdentity(cs[i].head.finding, cs[j].head.finding)
  }

  // No two survivors share a non-empty id or a non-empty fingerprint.
  lemma {:induction false} ClustersDiffer(env: Env, items: seq<Item>)
    requires Increasing(items)
    ensures HeadsDiffer(Clusters(env, items))
    decreases |items|
  {
    if items != [] {
      SweepPartition(env, items[0].finding, items[1..]);
      ClustersDiffer(env, Leftover(env, items));
      FirstDiffers(env, items);
      assert Clusters(env, items) == [FirstCluster(env, items)] + Clusters(env, Leftover(env, items));
    }
  }

  ghost predicate PairwiseDistinct(fs: seq<Finding>) {
    forall i, j | 0 <= i < j < |fs| :: !SameIdentity(fs[i], fs[j])
  }

  lemma {:induction false} SurvivorsDiffer(env: Env, fs: seq<Finding>)
    ensures PairwiseDistinct(Deduplicated(env, fs))
  {
    var cs, out := Clusters(env, Enumerate(fs)), Deduplicated(env, fs);
    ClustersTrace(env, Enumerate(fs));
    ClustersDiffer(env, Enumerate(fs));
    forall i, j | 0 <= i < j < |out| ensures !SameIdentity(out[i], out[j]) {
      assert out[i] == Merged(cs[i]) && out[j] == Merged(cs[j]);
      assert cs[i] in cs && cs[j] in cs;
      assert !SameIdentity(cs[i].head.finding, cs[j].head.finding);
      SameIdentityOfHeads(cs[i], cs[j]);
    }
  }

  // The ledger of Deduplicate. Every input position is in exactly one cluster; a cluster's head is
  // the earliest of its members; survivors come in the order of their heads.
  lemma {:induction false} NothingIsLost(env: Env, fs: seq<Finding>)
    ensures var cs, out := Clusters(env, Enumerate(fs)), Deduplicated(env, fs);
            && |out| == |cs| && (forall i | 0 <= i < |cs| :: out[i] == cs[i].merged)
            && Partition(cs, Enumerate(fs))
            && (forall c | c in cs :: Traces(c))
            && PairwiseDistinct(out)
  {
    ClustersPartition(env, Enumerate(fs));
    ClustersTrace(env, Enumerate(fs));
    SurvivorsDiffer(env, fs);
  }

  lemma {:induction false} SameIdentityOfHeads(c: Cluster, d: Cluster)
    requires Traces(c) && Traces(d)
    ensures SameIdentity(c.merged, d.merged) == SameIdentity(c.head.finding, d.head.finding)
  {
  }

  // Neither a severity nor an id is among the things a survivor takes over: it keeps its own, whatever
  // it absorbs.
  lemma {:induction false} SurvivorIsItsHead(env: Env, fs: seq<Finding>, i: nat)
    requires i < |Deduplicated(env, fs)|
    ensures var h, f := Clusters(env, Enumerate(fs))[i].head.index, Deduplicated(env, fs)[i];
            h < |fs| && f.severity == fs[h].severity && f.id == fs[h].id
  {
    var cs := Clusters(env, Enumerate(fs));
    NothingIsLost(env, fs);
    assert Traces(cs[i]) && Holds(cs[i], cs[i].head);
    assert cs[i].head in Enumerate(fs);
  }
}
