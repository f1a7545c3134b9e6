// Deduplicate: within one run, each finding absorbs the later ones related to it. The absorbing
// finding changes as it goes, so whether a later finding is related is asked of what it has become.
module Deduplicate {
  import opened Text
  import opened Sorting
  import opened Evidence
  import opened Related

  datatype Item = Item(index: nat, finding: Finding)

  // ---- Merging one duplicate ----

  predicate HasPlace(locs: seq<Location>, loc: Location) {
    exists l | l in locs :: SamePlace(l, loc)
  }

  // primary.Locations grown by the locations of another finding that are in no place it has yet.
  function MergeLocations(into: seq<Location>, from: seq<Location>): (r: seq<Location>)
    ensures into <= r
    ensures forall l | l in from :: HasPlace(r, l)
    ensures forall l | l in r :: l in into || l in from
    decreases |from|
  {
    if from == [] then into
    else
      var next := if HasPlace(into, from[0]) then into else into + [from[0]];
      assert HasPlace(next, from[0]) by { if !HasPlace(into, from[0]) { assert from[0] in next; } }
      var r := MergeLocations(next, from[1..]);
      assert HasPlace(r, from[0]) by {
        var l :| l in next && SamePlace(l, from[0]);
        assert l in r[..|next|];
      }
      r
  }

  function MergeDetails(into: string, from: string): (r: string)
    ensures from != "" ==> Contains(r, from)
    ensures into <= r
  {
    if from != "" && !Contains(into, from) then
      ContainsSuffix(into + "\n", from);
      assert into + "\n" + from == into + ("\n" + from);
      into + "\n" + from
    else into
  }

  function Absorb(primary: Finding, dup: Finding): Finding {
    primary.(locations := MergeLocations(primary.locations, dup.locations),
             details := MergeDetails(primary.details, dup.details))
  }

  function DuplicateIDs(primary: Finding, dup: Finding): seq<string> {
    (if dup.id != "" && dup.id != primary.id then [dup.id] else []) + dup.duplicates
  }

  function Finish(primary: Finding, ids: seq<string>): Finding {
    if ids == [] then primary
    else primary.(duplicates := DedupeSorted(primary.duplicates + ids),
                  related := DedupeSorted(primary.related + ids))
  }

  // ---- What one pass, and the whole, compute ----

  // One finding's pass over the rest: what it becomes, the ids it collects, what it absorbs, what it leaves.
  datatype Swept = Swept(primary: Finding, ids: seq<string>, absorbed: seq<Item>, kept: seq<Item>)

  function Sweep(env: Env, primary: Finding, rest: seq<Item>): (s: Swept)
    ensures |s.kept| <= |rest|
    decreases |rest|
  {
    if rest == [] then Swept(primary, [], [], [])
    else
      var dup := rest[0].finding;
      if AreFindingsRelated(env, primary, dup) then
        var s := Sweep(env, Absorb(primary, dup), rest[1..]);
        s.(ids := DuplicateIDs(primary, dup) + s.ids, absorbed := [rest[0]] + s.absorbed)
      else
        var s := Sweep(env, primary, rest[1..]);
        s.(kept := [rest[0]] + s.kept)
  }

  datatype Cluster = Cluster(head: Item, absorbed: seq<Item>, merged: Finding)

  function FirstCluster(env: Env, items: seq<Item>): Cluster
    requires items != []
  {
    var s := Sweep(env, items[0].finding, items[1..]);
    Cluster(items[0], s.absorbed, Finish(s.primary, s.ids))
  }

  function Leftover(env: Env, items: seq<Item>): (rest: seq<Item>)
    requires items != []
    ensures |rest| < |items|
  {
    Sweep(env, items[0].finding, items[1..]).kept
  }

  function Clusters(env: Env, items: seq<Item>): seq<Cluster>
    decreases |items|
  {
    if items == [] then [] else [FirstCluster(env, items)] + Clusters(env, Leftover(env, items))
  }

  function Merged(c: Cluster): Finding { c.merged }

  function Enumerate(fs: seq<Finding>): seq<Item> {
    seq(|fs|, i requires 0 <= i < |fs| => Item(i, fs[i]))
  }

  // The survivors, in order.
  function Deduplicated(env: Env, fs: seq<Finding>): seq<Finding> {
    Map(Merged, Clusters(env, Enumerate(fs)))
  }

  // ---- The algorithm ----

  // Positions lo..hi not yet seen.
  ghost function Unseen(fs: seq<Finding>, seen: set<nat>, lo: nat, hi: nat): (r: seq<Item>)
    requires lo <= hi <= |fs|
    ensures |r| <= hi - lo
    decreases hi - lo
  {
    if lo == hi then []
    else (if lo in seen then [] else [Item(lo, fs[lo])]) + Unseen(fs, seen, lo + 1, hi)
  }

  lemma {:induction false} UnseenSplit(fs: seq<Finding>, seen: set<nat>, lo: nat, mid: nat, hi: nat)
    requires lo <= mid <= hi <= |fs|
    ensures Unseen(fs, seen, lo, hi) == Unseen(fs, seen, lo, mid) + Unseen(fs, seen, mid, hi)
    decreases mid - lo
  {
    if lo < mid { UnseenSplit(fs, seen, lo + 1, mid, hi); }
  }

  lemma {:induction false} UnseenSame(fs: seq<Finding>, seen: set<nat>, seen': set<nat>, lo: nat, hi: nat)
    requires lo <= hi <= |fs| && forall k | lo <= k < hi :: k in seen <==> k in seen'
    ensures Unseen(fs, seen', lo, hi) == Unseen(fs, seen, lo, hi)
    decreases hi - lo
  {
    if lo < hi {
      assert lo in seen <==> lo in seen';
      UnseenSame(fs, seen, seen', lo + 1, hi);
    }
  }

  lemma {:induction false} UnseenAll(fs: seq<Finding>, lo: nat)
    requires lo <= |fs|
    ensures Unseen(fs, {}, lo, |fs|) == Enumerate(fs)[lo..]
    decreases |fs| - lo
  {
    if lo < |fs| { UnseenAll(fs, lo + 1); }
  }

  // The inner location loop with its break.
  method LocationExists(locs: seq<Location>, loc: Location) returns (found: bool)
    ensures found == HasPlace(locs, loc)
  {
    found := false;
    for k := 0 to |locs|
      invariant !found
      invariant forall i | 0 <= i < k :: !SamePlace(locs[i], loc)
    {
      if SamePlace(locs[k], loc) {
        return true;
      }
    }
  }

  lemma {:induction false} MergeLocationsSnoc(into: seq<Location>, from: seq<Location>, loc: Location)
    ensures var r := MergeLocations(into, from);
            MergeLocations(into, from + [loc]) == if HasPlace(r, loc) then r else r + [loc]
    decreases |from|
  {
    if from != [] {
      assert (from + [loc])[1..] == from[1..] + [loc];
      var next := if HasPlace(into, from[0]) then into else into + [from[0]];
      MergeLocationsSnoc(next, from[1..], loc);
    }
  }

  lemma {:induction false} MergeLocationsStep(into: seq<Location>, from: seq<Location>, k: nat)
    requires k < |from|
    ensures var r := MergeLocations(into, from[..k]);
            MergeLocations(into, from[..k + 1]) == if HasPlace(r, from[k]) then r else r + [from[k]]
  {
    assert from[..k + 1] == from[..k] + [from[k]];
    MergeLocationsSnoc(into, from[..k], from[k]);
  }

  method AddLocations(into: seq<Location>, from: seq<Location>) returns (r: seq<Location>)
    ensures r == MergeLocations(into, from)
  {
    r := into;
    for k := 0 to |from|
      invariant r == MergeLocations(into, from[..k])
    {
      MergeLocationsStep(into, from, k);
      var locExists := LocationExists(r, from[k]);
      if !locExists {
        r := r + [from[k]];
      }
    }
    assert from[..|from|] == from;
  }

  // Part way through the loop over j: what is done, joined to what remains, is the whole pass.
  ghost predicate Midway(env: Env, fs: seq<Finding>, i: nat, seenIndex: set<nat>, j: nat, done: Swept, seen: set<nat>)
    requires i < j <= |fs|
  {
    && seenIndex <= seen
    && done.kept == Unseen(fs, seen, i + 1, j)
    && Unseen(fs, seen, j, |fs|) == Unseen(fs, seenIndex, j, |fs|)
    && var s := Sweep(env, done.primary, Unseen(fs, seen, j, |fs|));
       Sweep(env, fs[i], Unseen(fs, seenIndex, i + 1, |fs|))
       == Swept(s.primary, done.ids + s.ids, done.absorbed + s.absorbed, done.kept + s.kept)
  }

  lemma {:induction false} SeenSkipped(fs: seq<Finding>, seen: set<nat>, j: nat)
    requires j < |fs| && j in seen
    ensures Unseen(fs, seen, j, |fs|) == Unseen(fs, seen, j + 1, |fs|)
    ensures Unseen(fs, seen, j, j + 1) == []
  {
  }

  lemma {:induction false} SkipStep(env: Env, fs: seq<Finding>, i: nat, seenIndex: set<nat>, j: nat, done: Swept,
                                    seen: set<nat>)
    requires i < j < |fs| && Midway(env, fs, i, seenIndex, j, done, seen)
    requires j in seen && j in seenIndex
    ensures Midway(env, fs, i, seenIndex, j + 1, done, seen)
  {
    UnseenSplit(fs, seen, i + 1, j, j + 1);
    SeenSkipped(fs, seen, j);
    SeenSkipped(fs, seenIndex, j);
  }

  lemma {:induction false} MidwayStart(env: Env, fs: seq<Finding>, i: nat, seenIndex: set<nat>)
    requires i < |fs|
    ensures Midway(env, fs, i, seenIndex, i + 1, Swept(fs[i], [], [], []), seenIndex)
  {
    var s := Sweep(env, fs[i], Unseen(fs, seenIndex, i + 1, |fs|));
    assert Swept(s.primary, [] + s.ids, [] + s.absorbed, [] + s.kept) == s;
  }

  lemma {:induction false} MidwayEnd(env: Env, fs: seq<Finding>, i: nat, seenIndex: set<nat>, done: Swept,
                                     seen: set<nat>)
    requires i < |fs| && Midway(env, fs, i, seenIndex, |fs|, done, seen)
    ensures Sweep(env, fs[i], Unseen(fs, seenIndex, i + 1, |fs|)) == done
    ensures done.kept == Unseen(fs, seen, i + 1, |fs|)
  {
    assert Unseen(fs, seen, |fs|, |fs|) == [];
    assert Swept(done.primary, done.ids + [], done.absorbed + [], done.kept + []) == done;
  }

  lemma {:induction false} KeepStep(env: Env, fs: seq<Finding>, i: nat, seenIndex: set<nat>, j: nat, done: Swept,
                                    seen: set<nat>)
    requires i < j < |fs| && Midway(env, fs, i, seenIndex, j, done, seen)
    requires j !in seen && !AreFindingsRelated(env, done.primary, fs[j])
    ensures Midway(env, fs, i, seenIndex, j + 1, done.(kept := done.kept + [Item(j, fs[j])]), seen)
  {
    UnseenSplit(fs, seen, i + 1, j, j + 1);
    var rest := Unseen(fs, seen, j, |fs|);
    assert rest == [Item(j, fs[j])] + Unseen(fs, seen, j + 1, |fs|);
    assert Unseen(fs, seen, j, j + 1) == [Item(j, fs[j])];
    var s := Sweep(env, done.primary, rest[1..]);
    assert done.kept + ([Item(j, fs[j])] + s.kept) == done.kept + [Item(j, fs[j])] + s.kept;
  }

  lemma {:induction false} SweepAbsorbs(env: Env, primary: Finding, item: Item, rest: seq<Item>)
    requires AreFindingsRelated(env, primary, item.finding)
    ensures var s := Sweep(env, Absorb(primary, item.finding), rest);
            Sweep(env, primary, [item] + rest)
            == s.(ids := DuplicateIDs(primary, item.finding) + s.ids, absorbed := [item] + s.absorbed)
  {
    assert ([item] + rest)[1..] == rest;
  }

  lemma {:induction false} UnseenNext(fs: seq<Finding>, seen: set<nat>, j: nat)
    requires j < |fs| && j !in seen
    ensures Unseen(fs, seen, j, |fs|) == [Item(j, fs[j])] + Unseen(fs, seen, j + 1, |fs|)
  {
  }

  lemma {:induction false} AbsorbKept(fs: seq<Finding>, seen: set<nat>, i: nat, j: nat)
    requires i < j < |fs| && j !in seen
    ensures Unseen(fs, seen + {j}, i + 1, j + 1) == Unseen(fs, seen, i + 1, j)
    ensures Unseen(fs, seen + {j}, j + 1, |fs|) == Unseen(fs, seen, j + 1, |fs|)
  {
    UnseenSame(fs, seen, seen + {j}, i + 1, j);
    UnseenSame(fs, seen, seen + {j}, j + 1, |fs|);
    UnseenSplit(fs, seen + {j}, i + 1, j, j + 1);
    SeenSkipped(fs, seen + {j}, j);
  }

  lemma {:induction false} AbsorbStep(env: Env, fs: seq<Finding>, i: nat, seenIndex: set<nat>, j: nat, done: Swept,
                                      seen: set<nat>)
    requires i < j < |fs| && Midway(env, fs, i, seenIndex, j, done, seen) && (j in seenIndex ==> j in seen)
    requires j !in seen && AreFindingsRelated(env, done.primary, fs[j])
    ensures Midway(env, fs, i, seenIndex, j + 1,
      Swept(Absorb(done.primary, fs[j]), done.ids + DuplicateIDs(done.primary, fs[j]),
            done.absorbed + [Item(j, fs[j])], done.kept), seen + {j})
  {
    var item, rest := Item(j, fs[j]), Unseen(fs, seen, j + 1, |fs|);
    AbsorbKept(fs, seen, i, j);
    UnseenNext(fs, seen, j);
    UnseenNext(fs, seenIndex, j);
    AbsorbKept(fs, seenIndex, i, j);
    SweepAbsorbs(env, done.primary, item, rest);
    var s, ids := Sweep(env, Absorb(done.primary, fs[j]), rest), DuplicateIDs(done.primary, fs[j]);
    assert done.ids + (ids + s.ids) == done.ids + ids + s.ids;
    assert done.absorbed + ([item] + s.absorbed) == done.absorbed + [item] + s.absorbed;
    assert ([item] + Unseen(fs, seenIndex, j + 1, |fs|))[1..] == ([item] + rest)[1..];
  }

  // What a pass from position i computes: the absorbing finding, the ids, and what stays unseen.
  ghost predicate IsPass(fs: seq<Finding>, i: nat, s: Swept, primary: Finding, duplicateIDs: seq<string>, seen: set<nat>)
    requires i < |fs|
  {
    primary == s.primary && duplicateIDs == s.ids && Unseen(fs, seen, i + 1, |fs|) == s.kept
  }

  // The loop over j: primary absorbs every later unseen finding it is related to.
  method SweepFrom(env: Env, fs: seq<Finding>, i: nat, seenIndex: set<nat>)
    returns (primary: Finding, duplicateIDs: seq<string>, seen: set<nat>)
    requires i < |fs|
    ensures IsPass(fs, i, Sweep(env, fs[i], Unseen(fs, seenIndex, i + 1, |fs|)), primary, duplicateIDs, seen)
  {
    primary, duplicateIDs, seen := fs[i], [], seenIndex;
    ghost var absorbed: seq<Item>, kept: seq<Item> := [], [];
    MidwayStart(env, fs, i, seenIndex);
    for j := i + 1 to |fs|
      invariant forall k | j <= k < |fs| :: k in seen <==> k in seenIndex
      invariant Midway(env, fs, i, seenIndex, j, Swept(primary, duplicateIDs, absorbed, kept), seen)
    {
      ghost var done := Swept(primary, duplicateIDs, absorbed, kept);
      if j in seen {
        SkipStep(env, fs, i, seenIndex, j, done, seen);
      } else if AreFindingsRelated(env, primary, fs[j]) {
        AbsorbStep(env, fs, i, seenIndex, j, done, seen);
        seen := seen + {j};
        duplicateIDs := duplicateIDs + DuplicateIDs(primary, fs[j]);
        var locations := AddLocations(primary.locations, fs[j].locations);
        primary := primary.(locations := locations, details := MergeDetails(primary.details, fs[j].details));
        absorbed := absorbed + [Item(j, fs[j])];
      } else {
        KeepStep(env, fs, i, seenIndex, j, done, seen);
        kept := kept + [Item(j, fs[j])];
      }
    }
    MidwayEnd(env, fs, i, seenIndex, Swept(primary, duplicateIDs, absorbed, kept), seen);
  }

  lemma {:induction false} AtMostOne(env: Env, fs: seq<Finding>)
    requires |fs| <= 1
    ensures Deduplicated(env, fs) == fs
  {
    if |fs| == 1 {
      var items := Enumerate(fs);
      assert items[1..] == [];
      assert Clusters(env, items) == [Cluster(items[0], [], fs[0])];
    }
  }

  // Before position i: what is out, joined to what the unseen rest will give, is the whole answer.
  ghost predicate Pending(env: Env, fs: seq<Finding>, out: seq<Finding>, seen: set<nat>, i: nat)
    requires i <= |fs|
  {
    Deduplicated(env, fs) == out + Map(Merged, Clusters(env, Unseen(fs, seen, i, |fs|)))
  }

  lemma {:induction false} ClustersStep(env: Env, items: seq<Item>)
    requires items != []
    ensures Map(Merged, Clusters(env, items))
         == [FirstCluster(env, items).merged] + Map(Merged, Clusters(env, Leftover(env, items)))
  {
  }

  lemma {:induction false} PendingStart(env: Env, fs: seq<Finding>)
    ensures Pending(env, fs, [], {}, 0)
  {
    UnseenAll(fs, 0);
    assert Enumerate(fs)[0..] == Enumerate(fs);
  }

  lemma {:induction false} PendingEnd(env: Env, fs: seq<Finding>, out: seq<Finding>, seen: set<nat>)
    requires Pending(env, fs, out, seen, |fs|)
    ensures out == Deduplicated(env, fs)
  {
    assert Unseen(fs, seen, |fs|, |fs|) == [];
    assert Map(Merged, Clusters(env, [])) == [];
  }

  lemma {:induction false} SkippedStep(env: Env, fs: seq<Finding>, out: seq<Finding>, seen: set<nat>, i: nat)
    requires i < |fs| && Pending(env, fs, out, seen, i) && i in seen
    ensures Pending(env, fs, out, seen, i + 1)
  {
    assert Unseen(fs, seen, i, |fs|) == Unseen(fs, seen, i + 1, |fs|);
  }

  lemma {:induction false} SurvivorStep(env: Env, fs: seq<Finding>, out: seq<Finding>, seenIndex: set<nat>, i: nat,
                                        s: Swept, seen: set<nat>)
    requires i < |fs| && Pending(env, fs, out, seenIndex, i) && i !in seenIndex
    requires s == Sweep(env, fs[i], Unseen(fs, seenIndex, i + 1, |fs|))
    requires s.kept == Unseen(fs, seen, i + 1, |fs|)
    ensures Pending(env, fs, out + [Finish(s.primary, s.ids)], seen, i + 1)
  {
    var items, rest := Unseen(fs, seenIndex, i, |fs|), Unseen(fs, seenIndex, i + 1, |fs|);
    assert items == [Item(i, fs[i])] + rest;
    ClustersStep(env, items);
    assert items[1..] == rest;
    var later := Map(Merged, Clusters(env, s.kept));
    assert out + ([Finish(s.primary, s.ids)] + later) == out + [Finish(s.primary, s.ids)] + later;
  }

  method Deduplicate(env: Env, findings: seq<Finding>) returns (out: seq<Finding>)
    ensures out == Deduplicated(env, findings)
  {
    if |findings| <= 1 {
      AtMostOne(env, findings);
      return findings;
    }
    out := [];
    var seenIndex: set<nat> := {};
    PendingStart(env, findings);
    for i := 0 to |findings|
      invariant Pending(env, findings, out, seenIndex, i)
    {
      if i in seenIndex {
        SkippedStep(env, findings, out, seenIndex, i);
      } else {
        var primary, duplicateIDs, seen := SweepFrom(env, findings, i, seenIndex);
        SurvivorStep(env, findings, out, seenIndex, i,
          Sweep(env, findings[i], Unseen(findings, seenIndex, i + 1, |findings|)), seen);
        if |duplicateIDs| > 0 {
          var dups := DedupeAndSortStrings(primary.duplicates + duplicateIDs);
          var rels := DedupeAndSortStrings(primary.related + duplicateIDs);
          primary := primary.(duplicates := dups, related := rels);
        }
        out := out + [primary];
        seenIndex := seen;
      }
    }
    PendingEnd(env, findings, out, seenIndex);
  }

  // ---- Places and pairs, by their fields ----

  // One file, and the very same pointers, or none, to where it starts.
  ghost predicate Coincide(a: Location, b: Location) {
    && a.uri == b.uri
    && (a.startLine == b.startLine == Nil || (a.startLine.At? && b.startLine.At? && a.startLine.addr == b.startLine.addr))
    && (a.startColumn == b.startColumn == Nil ||
        (a.startColumn.At? && b.startColumn.At? && a.startColumn.addr == b.startColumn.addr))
  }

  // Some location of the first n coincides with this one.
  ghost predicate Placed(ls: seq<Location>, n: nat, l: Location)
    requires n <= |ls|
  {
    exists k | 0 <= k < n :: Coincide(ls[k], l)
  }

  lemma {:induction false} PlacedExactly(ls: seq<Location>, l: Location)
    ensures Placed(ls, |ls|, l) <==> HasPlace(ls, l)
  {
    if HasPlace(ls, l) {
      var p :| p in ls && SamePlace(p, l);
      var k :| 0 <= k < |ls| && ls[k] == p;
    }
    if Placed(ls, |ls|, l) {
      var k :| 0 <= k < |ls| && Coincide(ls[k], l);
      assert ls[k] in ls && SamePlace(ls[k], l);
    }
  }

  lemma {:induction false} AddedAreNew(into: seq<Location>, from: seq<Location>, k: nat)
    requires |into| <= k < |MergeLocations(into, from)|
    ensures var r := MergeLocations(into, from); r[k] in from && !Placed(r, k, r[k])
    decreases |from|
  {
    if from != [] {
      var r, next := MergeLocations(into, from), if HasPlace(into, from[0]) then into else into + [from[0]];
      if k < |next| {
        assert r[k] == next[k] == from[0];
        PlacedExactly(into, from[0]);
        assert forall j | 0 <= j < k :: r[j] == into[j];
      } else {
        AddedAreNew(next, from[1..], k);
      }
    }
  }

  // Merging locations keeps the first list, adds of the second what coincides with nothing there yet, and
  // leaves nothing of it without a place.
  lemma {:induction false} MergeLocationsExactly(into: seq<Location>, from: seq<Location>)
    ensures var r := MergeLocations(into, from);
            && into <= r
            && (forall k | |into| <= k < |r| :: r[k] in from && !Placed(r, k, r[k]))
            && (forall l | l in from :: Placed(r, |r|, l))
  {
    var r := MergeLocations(into, from);
    forall k | |into| <= k < |r| ensures r[k] in from && !Placed(r, k, r[k]) {
      AddedAreNew(into, from, k);
    }
    forall l | l in from ensures Placed(r, |r|, l) {
      PlacedExactly(r, l);
    }
  }

  // A run of two related findings becomes one: the first, with the second's places and its details on a
  // line of their own, unless they are there already, and with the second's ids, its own before what it
  // lists, among its duplicates and what it is related to.
  lemma {:induction false} RelatedPairBecomes(env: Env, f: Finding, g: Finding)
    requires AreFindingsRelated(env, f, g)
    ensures var ids := (if g.id == "" || g.id == f.id then [] else [g.id]) + g.duplicates;
            Deduplicated(env, [f, g]) ==
              [f.(locations := MergeLocations(f.locations, g.locations),
                  details := if g.details == "" || Contains(f.details, g.details) then f.details
                             else f.details + "\n" + g.details,
                  duplicates := if ids == [] then f.duplicates else DedupeSorted(f.duplicates + ids),
                  related := if ids == [] then f.related else DedupeSorted(f.related + ids))]
  {
    var items := Enumerate([f, g]);
    assert items == [Item(0, f), Item(1, g)];
    assert items[1..] == [Item(1, g)] && items[1..][1..] == [];
    var grown := Absorb(f, g);
    assert Sweep(env, grown, []) == Swept(grown, [], [], []);
    assert Sweep(env, f, items[1..]) == Swept(grown, DuplicateIDs(f, g) + [], [Item(1, g)] + [], []);
    assert DuplicateIDs(f, g) + [] == DuplicateIDs(f, g);
    ClustersStep(env, items);
    assert Map(Merged, Clusters(env, [])) == [];
  }

  // And of two unrelated findings both are left as they are.
  lemma {:induction false} UnrelatedPairStays(env: Env, f: Finding, g: Finding)
    requires !AreFindingsRelated(env, f, g)
    ensures Deduplicated(env, [f, g]) == [f, g]
  {
    var items := Enumerate([f, g]);
    assert items == [Item(0, f), Item(1, g)];
    assert items[1..] == [Item(1, g)] && items[1..][1..] == [];
    assert Sweep(env, f, []) == Swept(f, [], [], []);
    assert Sweep(env, f, items[1..]) == Swept(f, [], [], [Item(1, g)] + []);
    ClustersStep(env, items);
    ClustersStep(env, [Item(1, g)]);
    assert Sweep(env, g, []) == Swept(g, [], [], []);
    assert Map(Merged, Clusters(env, [])) == [];
  }
}
