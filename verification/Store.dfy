// The artifact session: each artifact is written to a temporary file beside its place, then renamed.
module Store {
  import opened Options
  import opened Text

  type Data = string
  type Files = map<string, Data>

  // What can go wrong in a save. A failed write may leave part of the data, or nothing new, in the
  // temporary file; after a failed rename the file may or may not be removable.
  datatype Fault = NoFault | WriteFails(left: Option<Data>) | RenameFails(removed: bool)

  datatype State = State(tmpFiles: seq<string>, files: Files)

  // ---- Paths ----

  function Underscored(s: string): (r: string)
    ensures |r| == |s| && forall i | 0 <= i < |s| :: r[i] == if s[i] == ' ' then '_' else s[i]
  {
    seq(|s|, i requires 0 <= i < |s| => if s[i] == ' ' then '_' else s[i])
  }

  function FormatOf(format: string): string { if format == "" then "raw" else format }

  // base is filepath.Base.
  function NameOf(base: string -> string, toolName: string, format: string): string {
    Underscored(base(toolName)) + "." + FormatOf(format)
  }

  function PathOf(dir: string, name: string): string { dir + "/" + name }

  function Temp(path: string): string { path + ".tmp" }

  // ---- What a save and a discard do ----

  function RemoveFirst(xs: seq<string>, x: string): seq<string> {
    if xs == [] then [] else if xs[0] == x then xs[1..] else [xs[0]] + RemoveFirst(xs[1..], x)
  }

  function Saved(s: State, path: string, data: Data, fault: Fault): State {
    var tmp := Temp(path);
    match fault
    case NoFault => State(RemoveFirst(s.tmpFiles + [tmp], tmp), (s.files - {tmp})[path := data])
    case WriteFails(left) => State(s.tmpFiles + [tmp], if left.Some? then s.files[tmp := left.value] else s.files)
    case RenameFails(removed) => State(s.tmpFiles + [tmp], if removed then s.files - {tmp} else s.files[tmp := data])
  }

  function Discarded(s: State): State { State([], s.files - SetOf(s.tmpFiles)) }

  // ---- Sessions ----

  datatype Op = Save(path: string, data: Data, fault: Fault) | Discard

  function Step(s: State, op: Op): State {
    match op
    case Save(path, data, fault) => Saved(s, path, data, fault)
    case Discard => Discarded(s)
  }

  // The state after the first n operations of a session.
  function After(ops: seq<Op>, n: nat): State
    requires n <= |ops|
  {
    if n == 0 then State([], map[]) else Step(After(ops, n - 1), ops[n - 1])
  }

  lemma {:induction false} AfterPrefix(ops: seq<Op>, op: Op, n: nat)
    requires n <= |ops|
    ensures After(ops + [op], n) == After(ops, n)
    decreases n
  {
    if n > 0 { AfterPrefix(ops, op, n - 1); }
  }

  lemma {:induction false} AfterAppend(ops: seq<Op>, op: Op)
    ensures After(ops + [op], |ops| + 1) == Step(After(ops, |ops|), op)
  {
    AfterPrefix(ops, op, |ops|);
  }

  // The data of the last save at a path that succeeded.
  function LastSaved(ops: seq<Op>, n: nat, path: string): Option<Data>
    requires n <= |ops|
  {
    if n == 0 then None
    else if ops[n - 1].Save? && ops[n - 1].path == path && ops[n - 1].fault == NoFault then Some(ops[n - 1].data)
    else LastSaved(ops, n - 1, path)
  }

  // The paths a session saves at.
  predicate SavesAt(ops: seq<Op>, path: string) {
    exists k | 0 <= k < |ops| :: ops[k].Save? && ops[k].path == path
  }

  // No path saved at is another's temporary file.
  ghost predicate Apart(ops: seq<Op>) {
    forall i, j | 0 <= i < |ops| && 0 <= j < |ops| && ops[i].Save? && ops[j].Save? :: Temp(ops[i].path) != ops[j].path
  }

  function At(files: Files, path: string): Option<Data> {
    if path in files then Some(files[path]) else None
  }

  // ---- Every temporary file is tracked ----

  lemma {:induction false} RemoveFirstKeeps(xs: seq<string>, x: string, y: string)
    ensures y in RemoveFirst(xs, x) ==> y in xs
    ensures y != x && y in xs ==> y in RemoveFirst(xs, x)
  {
    if xs != [] && xs[0] != x { RemoveFirstKeeps(xs[1..], x, y); }
  }

  ghost predicate IsTempOf(ops: seq<Op>, n: nat, t: string)
    requires n <= |ops|
  {
    exists k | 0 <= k < n :: ops[k].Save? && t == Temp(ops[k].path)
  }

  // Of any path, after n operations: if something is there it is either a tracked temporary file or an
  // artifact; what is tracked is some save's temporary file; and an artifact that was saved is there,
  // with the whole data of its last successful save.
  ghost predicate Sound(ops: seq<Op>, n: nat, p: string)
    requires n <= |ops|
  {
    var s := After(ops, n);
    && (p in s.files ==> p in s.tmpFiles || LastSaved(ops, n, p).Some?)
    && (p in s.tmpFiles ==> IsTempOf(ops, n, p))
    && (LastSaved(ops, n, p).Some? ==> At(s.files, p) == LastSaved(ops, n, p))
  }

  lemma {:induction false} LastSavedOrigin(ops: seq<Op>, n: nat, path: string)
    requires n <= |ops| && LastSaved(ops, n, path).Some?
    ensures exists k | 0 <= k < n :: ops[k] == Save(path, LastSaved(ops, n, path).value, NoFault)
    decreases n
  {
    var last := ops[n - 1];
    if last.Save? && last.path == path && last.fault == NoFault {
      assert ops[n - 1] == Save(path, LastSaved(ops, n, path).value, NoFault);
    } else {
      LastSavedOrigin(ops, n - 1, path);
    }
  }

  lemma {:induction false} ArtifactIsNoTemp(ops: seq<Op>, n: nat, p: string)
    requires n <= |ops| && Apart(ops) && LastSaved(ops, n, p).Some?
    ensures !IsTempOf(ops, |ops|, p)
  {
    LastSavedOrigin(ops, n, p);
    var m :| 0 <= m < n && ops[m] == Save(p, LastSaved(ops, n, p).value, NoFault);
  }

  lemma {:induction false} SaveKeepsSound(ops: seq<Op>, n: nat, p: string)
    requires n < |ops| && Apart(ops) && Sound(ops, n, p) && ops[n].Save?
    ensures Sound(ops, n + 1, p)
  {
    var s, tmp := After(ops, n), Temp(ops[n].path);
    RemoveFirstKeeps(s.tmpFiles + [tmp], tmp, p);
    assert p == tmp ==> IsTempOf(ops, n + 1, p) && IsTempOf(ops, |ops|, p);
    if LastSaved(ops, n + 1, p).Some? { ArtifactIsNoTemp(ops, n + 1, p); }
  }

  lemma {:induction false} DiscardKeepsSound(ops: seq<Op>, n: nat, p: string)
    requires n < |ops| && Apart(ops) && Sound(ops, n, p) && ops[n].Discard?
    ensures Sound(ops, n + 1, p)
  {
    assert IsTempOf(ops, n, p) ==> IsTempOf(ops, |ops|, p);
    if LastSaved(ops, n, p).Some? { ArtifactIsNoTemp(ops, n, p); }
  }

  // Whatever the saves and discards of a session, and however the saves fare.
  lemma {:induction false} SessionIsSound(ops: seq<Op>, n: nat, p: string)
    requires n <= |ops| && Apart(ops)
    ensures Sound(ops, n, p)
    decreases n
  {
    if n > 0 {
      SessionIsSound(ops, n - 1, p);
      if ops[n - 1].Save? { SaveKeepsSound(ops, n - 1, p); } else { DiscardKeepsSound(ops, n - 1, p); }
    }
  }

  // What a session leaves after a discard is its artifacts, each whole, and nothing else.
  lemma {:induction false} DiscardLeavesArtifacts(ops: seq<Op>, n: nat, path: string)
    requires n < |ops| && Apart(ops) && ops[n].Discard?
    ensures At(After(ops, n + 1).files, path) == LastSaved(ops, n + 1, path)
    ensures After(ops, n + 1).tmpFiles == []
  {
    SessionIsSound(ops, n + 1, path);
  }

  // At every moment, reading back a path saved at gives the whole data of its last successful save,
  // unless none succeeded, whatever failed since and whatever else was saved.
  lemma {:induction false} ArtifactReadsBack(ops: seq<Op>, n: nat, path: string)
    requires n <= |ops| && Apart(ops) && SavesAt(ops, path)
    ensures At(After(ops, n).files, path) == LastSaved(ops, n, path)
  {
    SessionIsSound(ops, n, path);
    SavedIsNoTemp(ops, n, path);
  }

  lemma {:induction false} SavedIsNoTemp(ops: seq<Op>, n: nat, path: string)
    requires n <= |ops| && Apart(ops) && SavesAt(ops, path)
    ensures !IsTempOf(ops, n, path)
  {
    var j :| 0 <= j < |ops| && ops[j].Save? && ops[j].path == path;
    forall k | 0 <= k < n && ops[k].Save? ensures Temp(ops[k].path) != path {
      assert Temp(ops[k].path) != ops[j].path;
    }
  }

  // ---- The session ----

  class RunSession {
    const dir: string
    const base: string -> string
    var tmpFiles: seq<string>
    var files: Files           // what is in the artifacts directory
    ghost var history: seq<Op> // what the session has done

    constructor (dir: string, base: string -> string)
      ensures this.dir == dir && this.base == base && history == [] && Valid()
    {
      this.dir, this.base := dir, base;
      tmpFiles, files, history := [], map[], [];
    }

    function Value(): State
      reads this
    {
      State(tmpFiles, files)
    }

    ghost predicate Valid()
      reads this
    {
      Value() == After(history, |history|)
    }

    method RemoveTracked(tmpPath: string)
      modifies this`tmpFiles
      ensures tmpFiles == RemoveFirst(old(tmpFiles), tmpPath)
    {
      for i := 0 to |tmpFiles|
        invariant tmpFiles == old(tmpFiles)
        invariant RemoveFirst(tmpFiles, tmpPath) == tmpFiles[..i] + RemoveFirst(tmpFiles[i..], tmpPath)
      {
        if tmpFiles[i] == tmpPath {
          assert tmpFiles[i..][1..] == tmpFiles[i + 1..];
          tmpFiles := tmpFiles[..i] + tmpFiles[i + 1..];
          return;
        }
        assert tmpFiles[i..] == [tmpFiles[i]] + tmpFiles[i + 1..];
        assert tmpFiles[..i + 1] == tmpFiles[..i] + [tmpFiles[i]];
      }
      assert RemoveFirst(tmpFiles[|tmpFiles|..], tmpPath) == [];
    }

    // Write to the temporary file, then rename it over the final path.
    method WriteThrough(finalPath: string, data: Data, fault: Fault)
      modifies this`tmpFiles, this`files
      ensures Value() == Saved(old(Value()), finalPath, data, fault)
    {
      var tmpPath := Temp(finalPath);
      tmpFiles := tmpFiles + [tmpPath];
      match fault {
        case WriteFails(left) =>
          if left.Some? {
            files := files[tmpPath := left.value];
          }
        case RenameFails(removed) =>
          files := files[tmpPath := data];
          if removed {
            files := files - {tmpPath};
            assert files == old(files) - {tmpPath};
          }
        case NoFault =>
          files := files[tmpPath := data];
          files := (files - {tmpPath})[finalPath := data];
          assert files == (old(files) - {tmpPath})[finalPath := data];
          RemoveTracked(tmpPath);
      }
    }

    // fault says how the writes and renames of this call fare.
    method SaveArtifact(toolName: string, format: string, data: Data, fault: Fault) returns (uri: Option<string>)
      requires Valid()
      modifies this
      ensures Valid() && history == old(history) + [Save(PathOf(dir, NameOf(base, toolName, format)), data, fault)]
      ensures Value() == Saved(old(Value()), PathOf(dir, NameOf(base, toolName, format)), data, fault)
      ensures uri == if fault == NoFault then Some(PathOf(dir, NameOf(base, toolName, format))) else None
    {
      var finalPath := PathOf(dir, NameOf(base, toolName, format));
      ghost var op := Save(finalPath, data, fault);
      AfterAppend(history, op);
      WriteThrough(finalPath, data, fault);
      history := history + [op];
      assert Value() == Step(old(Value()), op);
      uri := if fault == NoFault then Some(finalPath) else None;
    }

    // Removal is taken to succeed.
    method Discard()
      requires Valid()
      modifies this
      ensures Valid() && history == old(history) + [Op.Discard]
      ensures Value() == Discarded(old(Value()))
    {
      AfterAppend(history, Op.Discard);
      history := history + [Op.Discard];
      for i := 0 to |tmpFiles|
        invariant history == old(history) + [Op.Discard] && After(history, |history|) == Discarded(old(Value()))
        invariant tmpFiles == old(tmpFiles) && files == old(files) - SetOf(tmpFiles[..i])
      {
        assert tmpFiles[..i + 1] == tmpFiles[..i] + [tmpFiles[i]];
        files := files - {tmpFiles[i]};
      }
      assert tmpFiles[..|tmpFiles|] == tmpFiles;
      tmpFiles := [];
    }

    // What is read at a path saved at is the whole data of its last successful save; what is read
    // anywhere is that, or a temporary file still tracked.
    method GetArtifact(uri: string) returns (data: Option<Data>)
      requires Valid()
      ensures data == At(files, uri)
      ensures Apart(history) && SavesAt(history, uri) ==> data == LastSaved(history, |history|, uri)
      ensures Apart(history) && data.Some? ==> uri in tmpFiles || data == LastSaved(history, |history|, uri)
    {
      if Apart(history) {
        SessionIsSound(history, |history|, uri);
        if SavesAt(history, uri) { ArtifactReadsBack(history, |history|, uri); }
      }
      data := None;
      if uri in files {
        data := Some(files[uri]);
      }
    }
  }

  // ---- When paths are not apart ----

  ghost predicate LeavesAlone(q: string, p: string) {
    forall s, data, fault :: At(Saved(s, q, data, fault).files, p) == At(s.files, p)
  }

  // A save can disturb what is stored at another path exactly when that path is its temporary file.
  lemma {:induction false} DisturbanceExactly(p: string, q: string)
    requires p != q
    ensures LeavesAlone(q, p) <==> Temp(q) != p
  {
    if Temp(q) == p {
      var s := State([], map[]);
      assert At(Saved(s, q, "part", WriteFails(Some("part"))).files, p) != At(s.files, p);
    }
  }

  // Then a failed save can leave an artifact half written, and a discard can remove one.
  lemma {:induction false} CollisionHarms(q: string, whole: Data, part: Data, data: Data)
    ensures var ops := [Save(Temp(q), whole, NoFault), Save(q, data, WriteFails(Some(part)))];
            LastSaved(ops, 2, Temp(q)) == Some(whole) && At(After(ops, 2).files, Temp(q)) == Some(part)
    ensures var ops := [Save(q, data, WriteFails(None)), Save(Temp(q), whole, NoFault), Discard];
            LastSaved(ops, 3, Temp(q)) == Some(whole) && At(After(ops, 3).files, Temp(q)) == None
  {
    var t := Temp(q);
    var broken := [Save(t, whole, NoFault), Save(q, data, WriteFails(Some(part)))];
    assert After(broken, 0) == State([], map[]);
    assert After(broken, 1) == Saved(State([], map[]), t, whole, NoFault);
    assert After(broken, 2) == Saved(After(broken, 1), q, data, WriteFails(Some(part)));
    var lost := [Save(q, data, WriteFails(None)), Save(t, whole, NoFault), Discard];
    assert After(lost, 0) == State([], map[]);
    assert After(lost, 1) == State([] + [t], map[]);
    RemoveFirstKeeps([t] + [Temp(t)], Temp(t), t);
    assert t in After(lost, 2).tmpFiles;
    assert After(lost, 3) == Discarded(After(lost, 2));
  }

  lemma {:induction false} RemoveFirstCounts(xs: seq<string>, x: string)
    requires x in xs
    ensures multiset(RemoveFirst(xs, x)) == multiset(xs) - multiset{x}
  {
    assert xs == [xs[0]] + xs[1..];
    if xs[0] != x { RemoveFirstCounts(xs[1..], x); }
  }

  // A save that succeeds leaves tracked what was tracked before it, no more and no less; one that fails leaves
  // its temporary file tracked besides.
  lemma {:induction false} TrackedAfterSave(s: State, path: string, data: Data, fault: Fault)
    ensures var s' := Saved(s, path, data, fault);
            multiset(s'.tmpFiles) ==
              if fault == NoFault then multiset(s.tmpFiles) else multiset(s.tmpFiles) + multiset{Temp(path)}
  {
    RemoveFirstCounts(s.tmpFiles + [Temp(path)], Temp(path));
  }

  // A save that succeeds puts the whole data at its path and leaves no temporary file. One that fails leaves
  // the path alone, and at the temporary file what was written of the data, if anything, or after a failed
  // rename all of it, if that file could not be removed. No other file is touched.
  lemma {:induction false} FilesAfterSave(s: State, path: string, data: Data, fault: Fault)
    ensures var s' := Saved(s, path, data, fault);
            && (fault == NoFault ==> At(s'.files, path) == Some(data) && At(s'.files, path + ".tmp") == None)
            && (fault != NoFault ==> At(s'.files, path) == At(s.files, path))
            && (fault.WriteFails? ==> At(s'.files, path + ".tmp") == if fault.left.Some? then fault.left else At(s.files, path + ".tmp"))
            && (fault.RenameFails? ==> At(s'.files, path + ".tmp") == if fault.removed then None else Some(data))
            && (forall q | q != path && q != path + ".tmp" :: At(s'.files, q) == At(s.files, q))
  {
    assert Temp(path) != path;
  }

  // ---- Where a save goes ----

  // Under the directory: the tool's base name with underscores for spaces, a dot, and the format, "raw" for
  // none; and beside it, for the time being, the same with ".tmp".
  lemma {:induction false} PathExactly(dir: string, base: string -> string, tool: string, format: string, cleaned: string)
    requires |cleaned| == |base(tool)|
    requires forall i | 0 <= i < |cleaned| :: cleaned[i] == if base(tool)[i] == ' ' then '_' else base(tool)[i]
    ensures var p := PathOf(dir, NameOf(base, tool, format));
            && p == (if format == "" then dir + "/" + cleaned + ".raw" else dir + "/" + cleaned + "." + format)
            && Temp(p) == p + ".tmp"
  {
    assert cleaned == Underscored(base(tool));
    assert dir + "/" + (cleaned + "." + format) == dir + "/" + cleaned + "." + format;
    assert "." + "raw" == ".raw";
    assert dir + "/" + (cleaned + "." + "raw") == dir + "/" + cleaned + ("." + "raw");
  }

  // ---- Keys ----

  lemma {:induction false} EndsInTmpExactly(x: string, f: string)
    ensures HasSuffix(x + "." + f, ".tmp") <==> f == "tmp" || HasSuffix(f, ".tmp")
  {
    var q := x + "." + f;
    if |f| >= 4 {
      assert q[|q| - 4..] == f[|f| - 4..];
    } else if |q| >= 4 {
      var end := q[|q| - 4..];
      assert end[3 - |f|] == '.' && end[4 - |f|..] == f;
      assert end == ".tmp" ==> end[1] != '.' && end[2] != '.' && end[3] != '.';
    }
  }

  // Paths are apart whenever no format is "tmp" or ends in ".tmp".
  lemma {:induction false} FormatsKeepApart(dir: string, base: string -> string, tool: string, format: string,
                                            tool': string, format': string)
    requires FormatOf(format') != "tmp" && !HasSuffix(FormatOf(format'), ".tmp")
    ensures Temp(PathOf(dir, NameOf(base, tool, format))) != PathOf(dir, NameOf(base, tool', format'))
  {
    var p, x, f := PathOf(dir, NameOf(base, tool, format)), dir + "/" + Underscored(base(tool')), FormatOf(format');
    assert HasSuffix(Temp(p), ".tmp");
    EndsInTmpExactly(x, f);
    assert PathOf(dir, NameOf(base, tool', format')) == x + "." + f;
  }

  // Two formats that differ give different file names, whatever the tools, exactly when neither is the
  // end of the other after a dot.
  lemma {:induction false} FormatsTellExactly(f: string, g: string)
    requires f != g
    ensures (forall a, b :: a + "." + f != b + "." + g) <==> !HasSuffix(f, "." + g) && !HasSuffix(g, "." + f)
  {
    if HasSuffix(f, "." + g) {
      SharedName(f[..|f| - |g| - 1], f, g, "");
    } else if HasSuffix(g, "." + f) {
      SharedName(g[..|g| - |f| - 1], g, f, "");
    } else {
      forall a, b ensures a + "." + f != b + "." + g {
        if a + "." + f == b + "." + g { SharedSuffix(a, f, b, g); }
      }
    }
  }

  // f is x, a dot and g: the tool a in format f is named as the tool a.x in format g.
  lemma {:induction false} SharedName(x: string, f: string, g: string, a: string)
    requires HasSuffix(f, "." + g) && x == f[..|f| - |g| - 1]
    ensures a + "." + f == (a + "." + x) + "." + g
  {
    assert f == x + ("." + g);
    assert a + "." + (x + ("." + g)) == (a + "." + x) + "." + g;
  }

  // One name read with two formats: they are one format, or the shorter ends the longer after a dot.
  lemma {:induction false} SharedSuffix(a: string, f: string, b: string, g: string)
    requires a + "." + f == b + "." + g
    ensures (f == g && a == b) || HasSuffix(f, "." + g) || HasSuffix(g, "." + f)
  {
    var s := a + "." + f;
    assert |s| == |a| + 1 + |f| == |b| + 1 + |g|;
    assert s[|a| + 1..] == f && s[|b| + 1..] == g && s[..|a|] == a && s[..|b|] == b;
    if |g| < |f| {
      assert s[|b|..] == "." + g;
      assert f[|f| - |g| - 1..] == s[|b|..];
    } else if |f| < |g| {
      assert s[|a|..] == "." + f;
      assert g[|g| - |f| - 1..] == s[|a|..];
    }
  }

  // A format that ends in a dot and another holds a dot.
  lemma {:induction false} EndHoldsDot(f: string, g: string)
    requires HasSuffix(f, "." + g)
    ensures '.' in f
  {
    assert ("." + g)[0] == '.';
    assert f[|f| - |g| - 1] == (f[|f| - |g| - 1..])[0];
  }

  // With such formats a path tells its tool and format; formats that hold no dot are such.
  lemma {:induction false} PathTellsKey(dir: string, base: string -> string, tool: string, format: string,
                                        tool': string, format': string)
    requires var f, g := FormatOf(format), FormatOf(format'); !HasSuffix(f, "." + g) && !HasSuffix(g, "." + f)
    ensures PathOf(dir, NameOf(base, tool, format)) == PathOf(dir, NameOf(base, tool', format'))
       <==> Underscored(base(tool)) == Underscored(base(tool')) && FormatOf(format) == FormatOf(format')
  {
    var a, f, b, g := Underscored(base(tool)), FormatOf(format), Underscored(base(tool')), FormatOf(format');
    var p, q := PathOf(dir, a + "." + f), PathOf(dir, b + "." + g);
    if p == q {
      assert p[|dir| + 1..] == a + "." + f && q[|dir| + 1..] == b + "." + g;
      SharedSuffix(a, f, b, g);
    }
  }

  // With others it need not: if one format ends in a dot and the other, what is before the dot can go
  // with the tool.
  lemma {:induction false} DottedFormatsShareAPath(dir: string, base: string -> string, tool: string, tool': string,
                                                   format: string, format': string)
    requires format != "" && format' != "" && HasSuffix(format, "." + format')
    requires Underscored(base(tool')) == Underscored(base(tool)) + "." + format[..|format| - |format'| - 1]
    ensures PathOf(dir, NameOf(base, tool, format)) == PathOf(dir, NameOf(base, tool', format'))
  {
    SharedName(format[..|format| - |format'| - 1], format, format', Underscored(base(tool)));
  }

  lemma {:induction false} TwoKeysOnePath(dir: string, base: string -> string)
    requires base("a") == "a" && base("a.b") == "a.b"
    ensures PathOf(dir, NameOf(base, "a", "b.c")) == PathOf(dir, NameOf(base, "a.b", "c"))
  {
    assert Underscored("a.b") == "a.b" && Underscored("a") == "a";
    assert "b.c"[1..] == "." + "c" && "b.c"[..1] == "b" && "a" + "." + "b" == "a.b";
    DottedFormatsShareAPath(dir, base, "a", "a.b", "b.c", "c");
  }
}
