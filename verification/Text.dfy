// Strings as the Go standard library handles them: trimming, splitting, joining, containment,
// and the order in which sort.Strings arranges them.
module Text {
  // unicode.IsSpace
  predicate IsSpace(c: char) {
    c in {'\t', '\n', '\U{0B}', '\U{0C}', '\r', ' ', '\U{85}', '\U{A0}', '\U{1680}',
          '\U{2028}', '\U{2029}', '\U{202F}', '\U{205F}', '\U{3000}'} ||
    '\U{2000}' <= c <= '\U{200A}'
  }

  function TrimLeft(s: string): (r: string)
    ensures r != "" ==> !IsSpace(r[0])
    ensures |r| <= |s|
  {
    if s != "" && IsSpace(s[0]) then TrimLeft(s[1..]) else s
  }

  function TrimRight(s: string): (r: string)
    ensures r != "" ==> !IsSpace(r[|r| - 1]) && s != "" && r[0] == s[0]
    ensures |r| <= |s|
  {
    if s != "" && IsSpace(s[|s| - 1]) then TrimRight(s[..|s| - 1]) else s
  }

  // strings.TrimSpace
  function TrimSpace(s: string): (r: string)
    ensures r != "" ==> !IsSpace(r[0]) && !IsSpace(r[|r| - 1])
  {
    TrimRight(TrimLeft(s))
  }

  lemma {:induction false} TrimSpaceIdempotent(s: string)
    ensures TrimSpace(TrimSpace(s)) == TrimSpace(s)
  {
  }

  predicate OccursAt(s: string, sub: string, i: int) {
    0 <= i <= |s| - |sub| && s[i..i + |sub|] == sub
  }

  // strings.Contains
  predicate Contains(s: string, sub: string) {
    exists i | 0 <= i <= |s| :: OccursAt(s, sub, i)
  }

  lemma {:induction false} ContainsAppend(a: string, b: string, sub: string)
    requires Contains(a, sub)
    ensures Contains(a + b, sub)
  {
    var i :| 0 <= i <= |a| && OccursAt(a, sub, i);
    assert (a + b)[i..i + |sub|] == sub;
    assert OccursAt(a + b, sub, i);
  }

  lemma {:induction false} ContainsSuffix(a: string, b: string)
    ensures Contains(a + b, b)
  {
    assert OccursAt(a + b, b, |a|);
  }

  lemma {:induction false} ContainsSelf(a: string)
    ensures Contains(a, a)
  {
    assert OccursAt(a, a, 0);
  }

  lemma {:induction false} ContainsTransitive(a: string, b: string, c: string)
    requires Contains(a, b) && Contains(b, c)
    ensures Contains(a, c)
  {
    var i :| 0 <= i <= |a| && OccursAt(a, b, i);
    var j :| 0 <= j <= |b| && OccursAt(b, c, j);
    forall k | 0 <= k < |c| ensures a[i + j + k] == c[k] {
      assert a[i..i + |b|][j + k] == b[j + k] && b[j..j + |c|][k] == c[k];
    }
    assert OccursAt(a, c, i + j);
  }

  predicate HasSuffix(s: string, suffix: string) {
    |suffix| <= |s| && s[|s| - |suffix|..] == suffix
  }

  // strings.Split(s, ",")
  function SplitComma(s: string): (parts: seq<string>)
    ensures parts != []
    ensures forall p | p in parts :: ',' !in p
  {
    if s == "" then [""]
    else
      var rest := SplitComma(s[1..]);
      if s[0] == ',' then [""] + rest else [[s[0]] + rest[0]] + rest[1..]
  }

  // strings.Join
  function Join(parts: seq<string>, sep: string): string {
    if |parts| == 0 then "" else if |parts| == 1 then parts[0]
    else parts[0] + sep + Join(parts[1..], sep)
  }

  lemma {:induction false} JoinContains(parts: seq<string>, sep: string, k: nat)
    requires k < |parts|
    ensures Contains(Join(parts, sep), parts[k])
  {
    if |parts| == 1 {
      ContainsSelf(parts[0]);
    } else if k == 0 {
      ContainsSelf(parts[0]);
      ContainsAppend(parts[0], sep + Join(parts[1..], sep), parts[0]);
      assert parts[0] + (sep + Join(parts[1..], sep)) == Join(parts, sep);
    } else {
      JoinContains(parts[1..], sep, k - 1);
      ContainsSuffix(parts[0] + sep, Join(parts[1..], sep));
      ContainsTransitive(Join(parts, sep), Join(parts[1..], sep), parts[k]);
    }
  }

  // strconv.Itoa
  function Itoa(n: int): string
    decreases n < 0, if n < 0 then -n else n
  {
    if n < 0 then "-" + Itoa(-n)
    else if n < 10 then [('0' as int + n) as char]
    else Itoa(n / 10) + [('0' as int + n % 10) as char]
  }

  function SetOf(xs: seq<string>): set<string> { set x | x in xs }

  // ---- Order ----

  predicate StrLe(a: string, b: string) {
    a == "" || (b != "" && (a[0] < b[0] || (a[0] == b[0] && StrLe(a[1..], b[1..]))))
  }

  predicate StrLess(a: string, b: string) {
    a != b && StrLe(a, b)
  }

  lemma {:induction false} StrLeTotal(a: string, b: string)
    ensures StrLe(a, b) || StrLe(b, a)
    ensures StrLe(a, b) && StrLe(b, a) ==> a == b
  {
    if a != "" && b != "" && a[0] == b[0] {
      StrLeTotal(a[1..], b[1..]);
      assert a == [a[0]] + a[1..] && b == [b[0]] + b[1..];
    }
  }

  lemma {:induction false} StrLeTransitive(a: string, b: string, c: string)
    requires StrLe(a, b) && StrLe(b, c)
    ensures StrLe(a, c)
  {
    if a != "" && a[0] == b[0] && b[0] == c[0] {
      StrLeTransitive(a[1..], b[1..], c[1..]);
    }
  }

  ghost predicate SortedStrings(xs: seq<string>) {
    forall i, j | 0 <= i < j < |xs| :: StrLe(xs[i], xs[j])
  }

  ghost predicate DistinctStrings(xs: seq<string>) {
    forall i, j | 0 <= i < j < |xs| :: xs[i] != xs[j]
  }

  ghost predicate Ascending(xs: seq<string>) {
    forall i, j | 0 <= i < j < |xs| :: StrLess(xs[i], xs[j])
  }

  function InsertString(x: string, xs: seq<string>): (r: seq<string>)
    ensures multiset(r) == multiset(xs) + multiset{x}
  {
    if xs == [] || StrLe(x, xs[0]) then [x] + xs
    else
      assert xs == [xs[0]] + xs[1..];
      [xs[0]] + InsertString(x, xs[1..])
  }

  lemma {:induction false} InsertStringSorted(x: string, xs: seq<string>)
    requires SortedStrings(xs)
    ensures SortedStrings(InsertString(x, xs))
  {
    if xs != [] {
      StrLeTotal(x, xs[0]);
      if StrLe(x, xs[0]) {
        forall j | 1 <= j < |xs| ensures StrLe(x, xs[j]) {
          StrLeTransitive(x, xs[0], xs[j]);
        }
      } else {
        InsertStringSorted(x, xs[1..]);
        var rest := InsertString(x, xs[1..]);
        forall k | 0 <= k < |rest| ensures StrLe(xs[0], rest[k]) {
          assert rest[k] in multiset(rest);
          assert rest[k] == x || rest[k] in xs[1..];
        }
      }
    }
  }

  // sort.Strings
  function SortStrings(xs: seq<string>): (r: seq<string>)
    ensures SortedStrings(r)
    ensures multiset(r) == multiset(xs)
  {
    if xs == [] then []
    else
      InsertStringSorted(xs[0], SortStrings(xs[1..]));
      assert xs == [xs[0]] + xs[1..];
      InsertString(xs[0], SortStrings(xs[1..]))
  }

  lemma {:induction false} SortStringsMembers(xs: seq<string>)
    ensures forall s :: s in SortStrings(xs) <==> s in xs
  {
    forall s ensures s in SortStrings(xs) <==> s in xs {
      assert s in multiset(SortStrings(xs)) <==> s in multiset(xs);
    }
  }

  lemma {:induction false} LeastFirst(xs: seq<string>, ys: seq<string>)
    requires xs != [] && ys != [] && SortedStrings(xs) && SortedStrings(ys)
    requires xs[0] in ys && ys[0] in xs
    ensures xs[0] == ys[0]
  {
    var i :| 0 <= i < |ys| && ys[i] == xs[0];
    var j :| 0 <= j < |xs| && xs[j] == ys[0];
    StrLeTotal(xs[0], ys[0]);
  }

  // A multiset of strings has one sorted arrangement, so every correct sort gives SortStrings.
  lemma {:induction false} SortedArrangementUnique(xs: seq<string>, ys: seq<string>)
    requires SortedStrings(xs) && SortedStrings(ys) && multiset(xs) == multiset(ys)
    ensures xs == ys
    decreases |xs|
  {
    assert |multiset(xs)| == |xs| && |multiset(ys)| == |ys|;
    if xs != [] {
      assert xs[0] in multiset(ys) && ys[0] in multiset(xs);
      LeastFirst(xs, ys);
      var xt, yt := xs[1..], ys[1..];
      assert xs == [xs[0]] + xt && ys == [ys[0]] + yt;
      assert multiset(xs) == multiset{xs[0]} + multiset(xt);
      assert multiset(ys) == multiset{xs[0]} + multiset(yt);
      assert multiset(xt) == multiset(xs) - multiset{xs[0]};
      assert multiset(yt) == multiset(ys) - multiset{xs[0]};
      SortedArrangementUnique(xt, yt);
    }
  }

  lemma {:induction false} AscendingUnique(xs: seq<string>, ys: seq<string>)
    requires Ascending(xs) && Ascending(ys)
    requires forall s :: s in xs <==> s in ys
    ensures xs == ys
  {
    assert xs != [] ==> xs[0] in ys;
    assert ys != [] ==> ys[0] in xs;
    if xs != [] {
      LeastFirst(xs, ys);
      forall s ensures s in xs[1..] <==> s in ys[1..] {
        assert s in xs <==> s in ys;
      }
      AscendingUnique(xs[1..], ys[1..]);
    }
  }

  // ---- Trimmed, de-duplicated, sorted ----

  // The trimmed non-empty strings of a list.
  ghost function Cleaned(xs: seq<string>): set<string> {
    set s | s in xs && TrimSpace(s) != "" :: TrimSpace(s)
  }

  function DropRepeats(xs: seq<string>): (out: seq<string>)
    ensures forall s :: s in out <==> s in Cleaned(xs)
    ensures DistinctStrings(out)
  {
    if xs == [] then []
    else
      var n := |xs| - 1;
      var rest := DropRepeats(xs[..n]);
      assert xs == xs[..n] + [xs[n]];
      var s := TrimSpace(xs[n]);
      assert Cleaned(xs) == Cleaned(xs[..n]) + if s == "" then {} else {s} by {
        forall t ensures t in Cleaned(xs) <==> t in Cleaned(xs[..n]) + if s == "" then {} else {s} {
          if t in Cleaned(xs) {
            var x :| x in xs && TrimSpace(x) != "" && TrimSpace(x) == t;
            assert x in xs[..n] || x == xs[n];
          }
        }
      }
      if s == "" || s in rest then rest else rest + [s]
  }

  lemma {:induction false} SortedDistinctAscends(xs: seq<string>)
    requires DistinctStrings(xs)
    ensures Ascending(SortStrings(xs))
    ensures forall s :: s in SortStrings(xs) <==> s in xs
  {
    var r := SortStrings(xs);
    SortStringsMembers(xs);
    forall i, j | 0 <= i < j < |r| ensures r[i] != r[j] {
      if r[i] == r[j] {
        MultiplicityTwo(r, i, j);
        DistinctMultiplicity(xs, r[i]);
      }
    }
  }

  lemma {:induction false} MultiplicityTwo(xs: seq<string>, i: nat, j: nat)
    requires i < j < |xs| && xs[i] == xs[j]
    ensures multiset(xs)[xs[i]] >= 2
  {
    assert xs == xs[..j] + [xs[j]] + xs[j + 1..];
    assert xs[i] in xs[..j];
  }

  lemma {:induction false} DistinctMultiplicity(xs: seq<string>, s: string)
    requires DistinctStrings(xs)
    ensures multiset(xs)[s] <= 1
  {
    if xs != [] {
      assert xs == [xs[0]] + xs[1..];
      DistinctMultiplicity(xs[1..], s);
    }
  }

  // What dedupeAndSortStrings returns.
  function DedupeSorted(xs: seq<string>): (out: seq<string>)
    ensures Ascending(out)
    ensures forall s :: s in out <==> s in Cleaned(xs)
  {
    SortedDistinctAscends(DropRepeats(xs));
    SortStrings(DropRepeats(xs))
  }

  // dedupeAndSortStrings: a seen-set and an output list, then a sort.
  method DedupeAndSortStrings(slice: seq<string>) returns (out: seq<string>)
    ensures out == DedupeSorted(slice)
    ensures Ascending(out) && forall s :: s in out <==> s in Cleaned(slice)
  {
    var seen: set<string> := {};
    out := [];
    for k := 0 to |slice|
      invariant out == DropRepeats(slice[..k])
      invariant forall s :: s in seen <==> s in out
    {
      assert slice[..k + 1][..k] == slice[..k];
      var s := TrimSpace(slice[k]);
      if s != "" && s !in seen {
        seen := seen + {s};
        out := out + [s];
      }
    }
    assert slice[..|slice|] == slice;
    out := SortStrings(out);
  }

  // ---- What these functions are, character by character ----

  // White space is these code points.
  lemma {:induction false} SpacesExactly(c: char)
    ensures IsSpace(c) <==>
      var n := c as int;
      9 <= n <= 13 || n in {32, 0x85, 0xA0, 0x1680, 0x2028, 0x2029, 0x202F, 0x205F, 0x3000} || 0x2000 <= n <= 0x200A
  {
  }

  ghost predicate AllSpace(s: string) {
    forall i | 0 <= i < |s| :: IsSpace(s[i])
  }

  // t is s between two stretches of white space, and neither begins nor ends with any.
  ghost predicate IsTrimmed(s: string, t: string) {
    && (exists l, r :: s == l + t + r && AllSpace(l) && AllSpace(r))
    && (t != "" ==> !IsSpace(t[0]) && !IsSpace(t[|t| - 1]))
  }

  lemma {:induction false} TrimLeftIs(s: string) returns (l: string)
    ensures s == l + TrimLeft(s) && AllSpace(l)
  {
    if s != "" && IsSpace(s[0]) {
      l := TrimLeftIs(s[1..]);
      l := [s[0]] + l;
    } else {
      l := "";
    }
  }

  lemma {:induction false} TrimRightIs(s: string) returns (r: string)
    ensures s == TrimRight(s) + r && AllSpace(r)
  {
    if s != "" && IsSpace(s[|s| - 1]) {
      r := TrimRightIs(s[..|s| - 1]);
      r := r + [s[|s| - 1]];
    } else {
      r := "";
    }
  }

  // Trimming takes off the white space at both ends, all of it and nothing else.
  lemma {:induction false} TrimSpaceExactly(s: string)
    ensures IsTrimmed(s, TrimSpace(s))
  {
    var l := TrimLeftIs(s);
    var r := TrimRightIs(TrimLeft(s));
    assert s == l + TrimSpace(s) + r;
  }

  // Splitting at commas and joining with them is the text again, and no part holds a comma.
  lemma {:induction false} SplitJoins(s: string)
    ensures Join(SplitComma(s), ",") == s
  {
    if s != "" {
      SplitJoins(s[1..]);
      var rest := SplitComma(s[1..]);
      if s[0] == ',' {
        assert SplitComma(s)[1..] == rest;
      } else if |rest| > 1 {
        assert SplitComma(s)[1..] == rest[1..];
        assert [s[0]] + rest[0] + "," + Join(rest[1..], ",") == [s[0]] + (rest[0] + "," + Join(rest[1..], ","));
      }
      assert s == [s[0]] + s[1..];
    }
  }

  // a is before b where they first differ, or ends there.
  ghost predicate ComesFirst(a: string, b: string) {
    exists i | 0 <= i <= |a| && i < |b| :: a[..i] == b[..i] && (i == |a| || a[i] < b[i])
  }

  lemma {:induction false} SharedHead(a: string, b: string, i: nat)
    requires 0 < i <= |a| && i <= |b| && a[..i] == b[..i]
    ensures a[0] == b[0]
  {
    assert a[..i][0] == a[0] && b[..i][0] == b[0];
  }

  // The order of strings is that of their first differing characters, a prefix coming first.
  lemma {:induction false} StrLessExactly(a: string, b: string)
    ensures StrLess(a, b) <==> ComesFirst(a, b)
    decreases |a|
  {
    if a == "" {
      if b != "" { assert a[..0] == b[..0]; }
    } else if b != "" {
      StrLessExactly(a[1..], b[1..]);
      if a[0] == b[0] {
        if ComesFirst(a[1..], b[1..]) {
          var i :| 0 <= i <= |a| - 1 && i < |b| - 1 && a[1..][..i] == b[1..][..i] && (i == |a| - 1 || a[1..][i] < b[1..][i]);
          assert a[..i + 1] == [a[0]] + a[1..][..i] && b[..i + 1] == [b[0]] + b[1..][..i];
        }
        if ComesFirst(a, b) {
          var i :| 0 <= i <= |a| && i < |b| && a[..i] == b[..i] && (i == |a| || a[i] < b[i]);
          assert i > 0 && a[1..][..i - 1] == a[..i][1..] && b[1..][..i - 1] == b[..i][1..];
        }
        assert a == [a[0]] + a[1..] && b == [b[0]] + b[1..];
      } else {
        if a[0] < b[0] { assert a[..0] == b[..0]; }
        if ComesFirst(a, b) {
          var i :| 0 <= i <= |a| && i < |b| && a[..i] == b[..i] && (i == |a| || a[i] < b[i]);
          if i > 0 { SharedHead(a, b, i); }
        }
      }
    }
  }

  // The number that decimal digits write.
  function Atoi(s: string): int
    decreases |s|
  {
    if s == "" then 0
    else if s[0] == '-' then -Atoi(s[1..])
    else 10 * Atoi(s[..|s| - 1]) + (s[|s| - 1] as int - '0' as int)
  }

  lemma {:induction false} AtoiItoa(n: int)
    ensures Itoa(n) != "" && Atoi(Itoa(n)) == n
    ensures n >= 0 ==> Itoa(n)[0] != '-'
    decreases n < 0, if n < 0 then -n else n
  {
    if n < 0 {
      AtoiItoa(-n);
      assert ("-" + Itoa(-n))[1..] == Itoa(-n);
    } else if n >= 10 {
      AtoiItoa(n / 10);
      var s := Itoa(n);
      assert s[..|s| - 1] == Itoa(n / 10) && s[0] == Itoa(n / 10)[0];
    } else {
      var s := Itoa(n);
      assert s[..|s| - 1] == "" && Atoi("") == 0;
    }
  }

  // What stands before the first of a character, and what after it.
  lemma {:induction false} FirstPartsTell(c: char, a: string, b: string, x: string, y: string)
    requires c !in a && c !in b && a + [c] + x == b + [c] + y
    ensures a == b && x == y
  {
    var s := a + [c] + x;
    assert s[|a|] == c && s[|b|] == c;
    forall i | 0 <= i < |a| ensures s[i] != c {
      assert s[i] == a[i] && a[i] in a;
    }
    forall i | 0 <= i < |b| ensures s[i] != c {
      assert s[i] == b[i] && b[i] in b;
    }
    assert s[..|a|] == a && s[..|b|] == b && s[|a| + 1..] == x && s[|b| + 1..] == y;
  }
}
