/**
 `extends` inheritance between configuration files. The disk is any finite set of files, each
 naming files it extends, so the graph may have cycles, diamonds and dangling references.
 Paths are absolute and cleaned, as `filepath.Abs` and `filepath.Join` leave them; `resolve`
 stands for joining a reference to the directory of the file that makes it.
 */
module ConfigFiles {
  import opened Text
  import opened ConfigSettings

  /** The top-level `extends` value as the parser delivers it. */
  datatype Extends = NotSet | One(ref: string) | Many(refs: seq<string>) | Strings(refs: seq<string>) | Unsupported

  datatype Content = Unreadable | Malformed | Parsed(inherits: Extends, settings: map<string, Setting>)

  datatype Disk = Disk(files: map<string, Content>, configType: string, resolve: (string, string) -> string)

  datatype LoadError =
    | CyclicExtends(path: string)
    | ReadFailed(path: string)
    | ParseFailed(path: string)
    | TargetNotFound(ref: string)

  // ---- References ----

  predicate IsSpace(c: char) { c == ' ' || 9 as char <= c <= 13 as char }

  function TrimLeft(s: string): (r: string)
    ensures |r| <= |s|
  {
    if |s| > 0 && IsSpace(s[0]) then TrimLeft(s[1..]) else s
  }

  function TrimSpace(s: string): string
    decreases |s|
  {
    var t := TrimLeft(s);
    if |t| > 0 && IsSpace(t[|t| - 1]) then TrimSpace(t[..|t| - 1]) else t
  }

  function NonBlank(refs: seq<string>): seq<string> {
    if |refs| == 0 then []
    else (if TrimSpace(refs[0]) != "" then [refs[0]] else []) + NonBlank(refs[1..])
  }

  /** References a file makes, in order; only a list of strings keeps its blank items. */
  function Refs(e: Extends): seq<string> {
    match e
    case NotSet => []
    case One(r) => NonBlank([r])
    case Many(rs) => NonBlank(rs)
    case Strings(rs) => rs
    case Unsupported => []
  }

  /** `filepath.Ext`: from the last dot of the last path element. */
  function Ext(path: string): string {
    if |path| == 0 || path[|path| - 1] == '/' then ""
    else if path[|path| - 1] == '.' then "."
    else
      var e := Ext(path[..|path| - 1]);
      if e == "" then "" else e + [path[|path| - 1]]
  }

  predicate KnownExt(ext: string) { ext in {"yaml", "yml", "json", "toml", "hcl"} }

  function NormalizedExt(configType: string): string {
    var t := Lower(configType);
    if t in {"yaml", "json", "toml", "hcl"} then t else "yaml"
  }

  function Extensions(configType: string): seq<string> {
    if Lower(configType) in {"auto", ""} then ["yaml", "yml", "json"] else [NormalizedExt(configType)]
  }

  /** `extendsCandidatesFor`: the paths tried for a reference, in order. */
  function Candidates(disk: Disk, file: string, ref: string): seq<string> {
    var r := TrimSpace(ref);
    if r == "" then []
    else
      var base := disk.resolve(file, r);
      if KnownExt(TrimPrefix(Lower(Ext(base)), ".")) then [base]
      else
        var exts := Extensions(disk.configType);
        seq(|exts|, i requires 0 <= i < |exts| => base + "." + exts[i])
  }

  /** `firstExisting`. */
  function FirstExisting(disk: Disk, paths: seq<string>): Option<string> {
    if |paths| == 0 then None
    else if paths[0] in disk.files then Some(paths[0])
    else FirstExisting(disk, paths[1..])
  }

  predicate NoneExists(disk: Disk, paths: seq<string>) { forall p :: p in paths ==> p !in disk.files }

  /** The file found exists and no candidate before it does; none is found only if none exists. */
  lemma {:induction false} FirstExistingIsFirst(disk: Disk, paths: seq<string>)
    ensures FirstExisting(disk, paths).None? <==> NoneExists(disk, paths)
    ensures FirstExisting(disk, paths).Some? ==>
              exists i | 0 <= i < |paths| ::
                FirstExisting(disk, paths) == Some(paths[i]) && paths[i] in disk.files && NoneExists(disk, paths[..i])
  {
    if |paths| > 0 {
      var rest := paths[1..];
      FirstExistingIsFirst(disk, rest);
      assert paths == [paths[0]] + rest;
      if paths[0] in disk.files {
        assert NoneExists(disk, paths[..0]);
      } else if FirstExisting(disk, rest).Some? {
        var i :| 0 <= i < |rest| && FirstExisting(disk, rest) == Some(rest[i]) && NoneExists(disk, rest[..i]);
        assert paths[..i + 1] == [paths[0]] + rest[..i] && paths[i + 1] == rest[i];
      }
    }
  }

  function Target(disk: Disk, file: string, ref: string): Option<string> {
    FirstExisting(disk, Candidates(disk, file, ref))
  }

  // ---- The traversal ----

  /** Outcome of a traversal: files visited, files merged in order, and the error that stopped it. */
  datatype Walk = Walk(visited: set<string>, merged: seq<string>, error: Option<LoadError>)

  function Unvisited(disk: Disk, visited: set<string>): nat { |disk.files.Keys - visited| }

  lemma VisitShrinks(disk: Disk, visited: set<string>, more: set<string>)
    requires visited <= more
    ensures Unvisited(disk, more) <= Unvisited(disk, visited)
    ensures forall p :: p in disk.files && p !in visited && p in more ==>
        Unvisited(disk, more) < Unvisited(disk, visited)
  {
    var a, b := disk.files.Keys - more, disk.files.Keys - visited;
    SubsetSize(a, b);
    forall p | p in disk.files && p !in visited && p in more ensures |a| < |b| {
      assert a <= b - {p};
      SubsetSize(a, b - {p});
    }
  }

  lemma {:induction false} SubsetSize<T>(a: set<T>, b: set<T>)
    requires a <= b
    ensures |a| <= |b|
  {
    if a != {} {
      var x :| x in a;
      SubsetSize(a - {x}, b - {x});
    }
  }

  /** `mergeFileRecursive`: what it visits, merges and reports. */
  function Visit(disk: Disk, path: string, visited: set<string>): (w: Walk)
    ensures visited <= w.visited
    decreases Unvisited(disk, visited), 0, 0
  {
    if path in visited then Walk(visited, [], Some(CyclicExtends(path)))
    else if path !in disk.files || disk.files[path].Unreadable? then
      Walk(visited + {path}, [], Some(ReadFailed(path)))
    else if disk.files[path].Malformed? then
      Walk(visited + {path}, [], Some(ParseFailed(path)))
    else
      VisitShrinks(disk, visited, visited + {path});
      var w := VisitAll(disk, path, Refs(disk.files[path].inherits), visited + {path});
      if w.error.Some? then w else w.(merged := w.merged + [path])
  }

  /** The loop over the references of one file. */
  function VisitAll(disk: Disk, file: string, refs: seq<string>, visited: set<string>): (w: Walk)
    ensures visited <= w.visited
    decreases Unvisited(disk, visited), 1, |refs|
  {
    if |refs| == 0 then Walk(visited, [], None)
    else
      match Target(disk, file, refs[0])
      case None => Walk(visited, [], Some(TargetNotFound(refs[0])))
      case Some(target) =>
        var first := Visit(disk, target, visited);
        if first.error.Some? then first
        else
          VisitShrinks(disk, visited, first.visited);
          var rest := VisitAll(disk, file, refs[1..], first.visited);
          rest.(merged := first.merged + rest.merged)
  }

  // ---- The unfolding, defined without a visited set ----

  datatype Tree = Node(path: string, bases: seq<Tree>)

  /** The tree spells out the `extends` references from its root down, all resolved and parsed. */
  ghost predicate Unfolds(disk: Disk, t: Tree)
    decreases t
  {
    && t.path in disk.files && disk.files[t.path].Parsed?
    && var refs := Refs(disk.files[t.path].inherits);
       |t.bases| == |refs| &&
       forall i :: 0 <= i < |refs| ==>
           Target(disk, t.path, refs[i]) == Some(t.bases[i].path) && Unfolds(disk, t.bases[i])
  }

  /** Bases before the file that extends them, the root last. */
  function PostOrder(t: Tree): seq<string>
    decreases t, 0
  {
    PostOrders(t.bases) + [t.path]
  }

  function PostOrders(ts: seq<Tree>): seq<string>
    decreases ts, 1
  {
    if |ts| == 0 then [] else PostOrder(ts[0]) + PostOrders(ts[1..])
  }

  ghost predicate Distinct(s: seq<string>) {
    forall i, j :: 0 <= i < j < |s| ==> s[i] != s[j]
  }

  function Elems(s: seq<string>): set<string> { set x | x in s }

  ghost predicate Disjoint(s: seq<string>, visited: set<string>) {
    forall i :: 0 <= i < |s| ==> s[i] !in visited
  }

  /** The forest spells out some references of a file. */
  ghost predicate UnfoldsAll(disk: Disk, file: string, refs: seq<string>, ts: seq<Tree>) {
    && |ts| == |refs|
    && forall i :: 0 <= i < |refs| ==> Target(disk, file, refs[i]) == Some(ts[i].path) && Unfolds(disk, ts[i])
  }

  lemma DistinctAppend(a: seq<string>, b: seq<string>)
    ensures Distinct(a + b) <==> Distinct(a) && Distinct(b) && Disjoint(b, Elems(a))
  {
    var s := a + b;
    if Distinct(s) {
      forall i, j | 0 <= i < j < |a| ensures a[i] != a[j] { assert s[i] == a[i] && s[j] == a[j]; }
      forall i, j | 0 <= i < j < |b| ensures b[i] != b[j] { assert s[|a| + i] == b[i] && s[|a| + j] == b[j]; }
      forall j | 0 <= j < |b| ensures b[j] !in Elems(a) {
        assert s[|a| + j] == b[j];
        assert forall i :: 0 <= i < |a| ==> s[i] == a[i];
      }
    }
  }

  lemma ElemsAppend(a: seq<string>, b: seq<string>)
    ensures Elems(a + b) == Elems(a) + Elems(b)
  {
  }

  /** The successful traversal has merged just the files it newly visited, each once. */
  ghost predicate Accounts(w: Walk, visited: set<string>) {
    Distinct(w.merged) && Disjoint(w.merged, visited) && w.visited == visited + Elems(w.merged)
  }

  lemma AccountsAppend(visited: set<string>, a: seq<string>, b: seq<string>)
    requires Accounts(Walk(visited + Elems(a), a, None), visited)
    requires Accounts(Walk(visited + Elems(a) + Elems(b), b, None), visited + Elems(a))
    ensures Accounts(Walk(visited + Elems(a) + Elems(b), a + b, None), visited)
  {
  }

  lemma {:induction false} SuccessAccounts(disk: Disk, path: string, visited: set<string>)
    requires Visit(disk, path, visited).error.None?
    ensures Accounts(Visit(disk, path, visited), visited)
    decreases Unvisited(disk, visited), 0, 0
  {
    VisitShrinks(disk, visited, visited + {path});
    var refs := Refs(disk.files[path].inherits);
    SuccessAccountsAll(disk, path, refs, visited + {path});
    var below := VisitAll(disk, path, refs, visited + {path}).merged;
    DistinctAppend(below, [path]);
    ElemsAppend(below, [path]);
    assert Elems([path]) == {path};
  }

  lemma {:induction false} SuccessAccountsAll(disk: Disk, file: string, refs: seq<string>, visited: set<string>)
    requires VisitAll(disk, file, refs, visited).error.None?
    ensures Accounts(VisitAll(disk, file, refs, visited), visited)
    decreases Unvisited(disk, visited), 1, |refs|
  {
    if |refs| > 0 {
      var target := Target(disk, file, refs[0]).value;
      SuccessAccounts(disk, target, visited);
      var first := Visit(disk, target, visited);
      VisitShrinks(disk, visited, first.visited);
      SuccessAccountsAll(disk, file, refs[1..], first.visited);
      var rest := VisitAll(disk, file, refs[1..], first.visited);
      AccountsAppend(visited, first.merged, rest.merged);
    }
  }

  /** A traversal that succeeds has walked an unfolding tree in post-order. */
  lemma {:induction false} SuccessUnfolds(disk: Disk, path: string, visited: set<string>) returns (t: Tree)
    requires Visit(disk, path, visited).error.None?
    ensures t.path == path && Unfolds(disk, t)
    ensures Visit(disk, path, visited).merged == PostOrder(t)
    decreases Unvisited(disk, visited), 0, 0
  {
    VisitShrinks(disk, visited, visited + {path});
    var ts := SuccessUnfoldsAll(disk, path, Refs(disk.files[path].inherits), visited + {path});
    t := Node(path, ts);
  }

  lemma {:induction false} SuccessUnfoldsAll(disk: Disk, file: string, refs: seq<string>, visited: set<string>)
    returns (ts: seq<Tree>)
    requires VisitAll(disk, file, refs, visited).error.None?
    ensures UnfoldsAll(disk, file, refs, ts)
    ensures VisitAll(disk, file, refs, visited).merged == PostOrders(ts)
    decreases Unvisited(disk, visited), 1, |refs|
  {
    if |refs| == 0 {
      ts := [];
    } else {
      var target := Target(disk, file, refs[0]).value;
      var t := SuccessUnfolds(disk, target, visited);
      var first := Visit(disk, target, visited);
      VisitShrinks(disk, visited, first.visited);
      var rest := SuccessUnfoldsAll(disk, file, refs[1..], first.visited);
      ts := [t] + rest;
      assert ts[1..] == rest;
    }
  }

  lemma UnappendLast(below: seq<string>, path: string, visited: set<string>)
    requires Distinct(below + [path]) && Disjoint(below + [path], visited)
    ensures path !in visited && Distinct(below) && Disjoint(below, visited + {path})
    ensures visited + {path} + Elems(below) == visited + Elems(below + [path])
  {
    var all := below + [path];
    DistinctAppend(below, [path]);
    ElemsAppend(below, [path]);
    assert all[|below|] == path && Elems([path]) == {path};
    forall i | 0 <= i < |below| ensures below[i] !in visited + {path} {
      assert all[i] == below[i];
    }
  }

  /** Along an unfolding tree that meets no file twice, the traversal succeeds. */
  lemma {:induction false} UnfoldingSucceeds(disk: Disk, t: Tree, visited: set<string>)
    requires Unfolds(disk, t) && Distinct(PostOrder(t)) && Disjoint(PostOrder(t), visited)
    ensures Visit(disk, t.path, visited) == Walk(visited + Elems(PostOrder(t)), PostOrder(t), None)
    decreases t, 0
  {
    UnappendLast(PostOrders(t.bases), t.path, visited);
    UnfoldingSucceedsAll(disk, t.path, Refs(disk.files[t.path].inherits), t.bases, visited + {t.path});
  }

  lemma Unappend(a: seq<string>, b: seq<string>, visited: set<string>)
    requires Distinct(a + b) && Disjoint(a + b, visited)
    ensures Distinct(a) && Disjoint(a, visited)
    ensures Distinct(b) && Disjoint(b, visited + Elems(a))
    ensures visited + Elems(a) + Elems(b) == visited + Elems(a + b)
  {
    DistinctAppend(a, b);
    ElemsAppend(a, b);
    forall i | 0 <= i < |a| ensures a[i] !in visited { assert (a + b)[i] == a[i]; }
    forall i | 0 <= i < |b| ensures b[i] !in visited + Elems(a) { assert (a + b)[|a| + i] == b[i]; }
  }

  lemma UnfoldsRest(disk: Disk, file: string, refs: seq<string>, ts: seq<Tree>)
    requires |ts| > 0 && UnfoldsAll(disk, file, refs, ts)
    ensures Unfolds(disk, ts[0]) && Target(disk, file, refs[0]) == Some(ts[0].path)
    ensures UnfoldsAll(disk, file, refs[1..], ts[1..])
  {
  }

  lemma {:induction false} UnfoldingSucceedsAll(disk: Disk, file: string, refs: seq<string>, ts: seq<Tree>,
    visited: set<string>)
    requires UnfoldsAll(disk, file, refs, ts) && Distinct(PostOrders(ts)) && Disjoint(PostOrders(ts), visited)
    ensures VisitAll(disk, file, refs, visited) == Walk(visited + Elems(PostOrders(ts)), PostOrders(ts), None)
    decreases ts, 1
  {
    if |ts| == 0 {
      assert visited + Elems([]) == visited;
    } else {
      UnfoldsRest(disk, file, refs, ts);
      Unappend(PostOrder(ts[0]), PostOrders(ts[1..]), visited);
      UnfoldingSucceeds(disk, ts[0], visited);
      UnfoldingSucceedsAll(disk, file, refs[1..], ts[1..], visited + Elems(PostOrder(ts[0])));
    }
  }

  /**
   Merging a file succeeds if and only if every reference below it resolves and parses and its
   unfolding meets no file twice (so a diamond is refused like a cycle); then exactly the files
   of the unfolding are merged, bases first and the file itself last.
   */
  lemma MergeSucceedsIff(disk: Disk, root: string)
    ensures Visit(disk, root, {}).error.None? <==>
            exists t: Tree :: t.path == root && Unfolds(disk, t) && Distinct(PostOrder(t))
    ensures forall t: Tree :: t.path == root && Unfolds(disk, t) && Distinct(PostOrder(t)) ==>
              Visit(disk, root, {}).merged == PostOrder(t)
  {
    if Visit(disk, root, {}).error.None? {
      var t := SuccessUnfolds(disk, root, {});
      SuccessAccounts(disk, root, {});
    }
    forall t: Tree | t.path == root && Unfolds(disk, t) && Distinct(PostOrder(t))
      ensures Visit(disk, root, {}) == Walk({} + Elems(PostOrder(t)), PostOrder(t), None)
    {
      UnfoldingSucceeds(disk, t, {});
    }
  }

  // ---- What gets merged ----

  ghost predicate Links(disk: Disk, f: string, g: string) {
    f in disk.files && disk.files[f].Parsed? &&
    var refs := Refs(disk.files[f].inherits);
    exists i :: 0 <= i < |refs| && Target(disk, f, refs[i]) == Some(g)
  }

  ghost function LinkOf(disk: Disk): (string, string) -> bool { (f, g) => Links(disk, f, g) }

  ghost predicate Chain(link: (string, string) -> bool, ps: seq<string>) {
    |ps| >= 1 && forall i :: 0 <= i < |ps| - 1 ==> link(ps[i], ps[i + 1])
  }

  /** `f` is the root or is extended from it, directly or not. */
  ghost predicate Reaches(disk: Disk, root: string, f: string) { Joined(LinkOf(disk), root, f) }

  ghost predicate Joined(link: (string, string) -> bool, root: string, f: string) {
    exists ps :: Chain(link, ps) && ps[0] == root && ps[|ps| - 1] == f
  }

  lemma JoinedSelf(link: (string, string) -> bool, a: string)
    ensures Joined(link, a, a)
  {
    var ps := [a];
    assert Chain(link, ps) && ps[0] == a && ps[|ps| - 1] == a;
  }

  lemma JoinedStep(link: (string, string) -> bool, a: string, b: string, f: string)
    requires link(a, b) && Joined(link, b, f)
    ensures Joined(link, a, f)
  {
    var ps :| Chain(link, ps) && ps[0] == b && ps[|ps| - 1] == f;
    var qs := [a] + ps;
    forall i | 0 <= i < |qs| - 1 ensures link(qs[i], qs[i + 1]) {
      if i > 0 { assert qs[i] == ps[i - 1] && qs[i + 1] == ps[i]; }
    }
    assert Chain(link, qs);
  }

  lemma LinkReaches(disk: Disk, a: string, b: string, f: string)
    requires Links(disk, a, b) && Reaches(disk, b, f)
    ensures Reaches(disk, a, f)
  {
    JoinedStep(LinkOf(disk), a, b, f);
  }

  lemma {:induction false} MergedIsReached(disk: Disk, t: Tree, f: string)
    requires Unfolds(disk, t) && f in PostOrder(t)
    ensures Reaches(disk, t.path, f)
    decreases t, |t.bases| + 1
  {
    if f == t.path {
      JoinedSelf(LinkOf(disk), f);
    } else {
      MergedIsReachedAll(disk, t, t.bases, 0, f);
    }
  }

  lemma {:induction false} MergedIsReachedAll(disk: Disk, t: Tree, ts: seq<Tree>, k: nat, f: string)
    requires Unfolds(disk, t) && k <= |t.bases| && ts == t.bases[k..] && f in PostOrders(ts)
    ensures Reaches(disk, t.path, f)
    decreases t, |ts|
  {
    if f in PostOrder(ts[0]) {
      assert ts[0] == t.bases[k];
      MergedIsReached(disk, t.bases[k], f);
      LinkReaches(disk, t.path, t.bases[k].path, f);
    } else {
      MergedIsReachedAll(disk, t, ts[1..], k + 1, f);
    }
  }

  lemma {:induction false} ForestHolds(ts: seq<Tree>, k: nat, f: string)
    requires k < |ts| && f in PostOrder(ts[k])
    ensures f in PostOrders(ts)
  {
    if k > 0 { ForestHolds(ts[1..], k - 1, f); }
  }

  lemma {:induction false} ReachedIsMerged(disk: Disk, t: Tree, ps: seq<string>)
    requires Unfolds(disk, t) && Chain(LinkOf(disk), ps) && ps[0] == t.path
    ensures ps[|ps| - 1] in PostOrder(t)
    decreases |ps|
  {
    if |ps| > 1 {
      assert Links(disk, ps[0], ps[1]);
      var refs := Refs(disk.files[t.path].inherits);
      var i :| 0 <= i < |refs| && Target(disk, t.path, refs[i]) == Some(ps[1]);
      forall j | 0 <= j < |ps[1..]| - 1 ensures Links(disk, ps[1..][j], ps[1..][j + 1]) {
        assert Links(disk, ps[j + 1], ps[j + 2]);
      }
      ReachedIsMerged(disk, t.bases[i], ps[1..]);
      ForestHolds(t.bases, i, ps[|ps| - 1]);
    }
  }

  ghost predicate BasesFirst(disk: Disk, order: seq<string>) {
    forall i, g :: 0 <= i < |order| && Links(disk, order[i], g) ==> g in order[..i]
  }

  lemma BasesFirstAppend(disk: Disk, a: seq<string>, b: seq<string>)
    requires BasesFirst(disk, a) && BasesFirst(disk, b)
    ensures BasesFirst(disk, a + b)
  {
    forall i, g | 0 <= i < |a + b| && Links(disk, (a + b)[i], g) ensures g in (a + b)[..i] {
      if i < |a| {
        assert (a + b)[..i] == a[..i];
      } else {
        assert g in b[..i - |a|];
        assert (a + b)[..i] == a + b[..i - |a|];
      }
    }
  }

  lemma {:induction false} TreeBasesFirst(disk: Disk, t: Tree)
    requires Unfolds(disk, t)
    ensures BasesFirst(disk, PostOrder(t))
    decreases t, 0
  {
    ForestBasesFirst(disk, t.bases);
    var below := PostOrders(t.bases);
    forall i, g | 0 <= i < |PostOrder(t)| && Links(disk, PostOrder(t)[i], g) ensures g in PostOrder(t)[..i] {
      if i < |below| {
        assert PostOrder(t)[..i] == below[..i];
      } else {
        var refs := Refs(disk.files[t.path].inherits);
        var k :| 0 <= k < |refs| && Target(disk, t.path, refs[k]) == Some(g);
        assert t.bases[k].path == g && g in PostOrder(t.bases[k]);
        ForestHolds(t.bases, k, g);
        assert PostOrder(t)[..i] == below;
      }
    }
  }

  lemma {:induction false} ForestBasesFirst(disk: Disk, ts: seq<Tree>)
    requires forall i :: 0 <= i < |ts| ==> Unfolds(disk, ts[i])
    ensures BasesFirst(disk, PostOrders(ts))
    decreases ts, 1
  {
    if |ts| > 0 {
      TreeBasesFirst(disk, ts[0]);
      ForestBasesFirst(disk, ts[1..]);
      BasesFirstAppend(disk, PostOrder(ts[0]), PostOrders(ts[1..]));
    }
  }

  /**
   A successful merge merges the files reachable from the root, all of them and nothing else,
   each exactly once, every file after all the files it extends, and the root last.
   */
  lemma MergesReachableOnce(disk: Disk, root: string)
    requires Visit(disk, root, {}).error.None?
    ensures var order := Visit(disk, root, {}).merged;
            && (forall f :: f in order <==> Reaches(disk, root, f))
            && Distinct(order)
            && BasesFirst(disk, order)
            && |order| > 0 && order[|order| - 1] == root
  {
    var t := SuccessUnfolds(disk, root, {});
    SuccessAccounts(disk, root, {});
    TreeBasesFirst(disk, t);
    forall f ensures f in PostOrder(t) <==> Reaches(disk, root, f) {
      if f in PostOrder(t) { MergedIsReached(disk, t, f); }
      if Reaches(disk, root, f) {
        var ps :| Chain(LinkOf(disk), ps) && ps[0] == root && ps[|ps| - 1] == f;
        ReachedIsMerged(disk, t, ps);
      }
    }
  }
}
