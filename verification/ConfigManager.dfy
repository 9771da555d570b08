/**
 `Manager` in place: the store it merges into, the recursive merge of one file with its visited
 set, and the layering of `Load`. Each method is proved against the traversal of `ConfigFiles`;
 a failed load leaves behind the files merged before the failure, as the program does.
 */
module ConfigManager {
  import opened Text
  import opened ConfigSettings
  import opened ConfigFiles

  /** The settings a file contributes: its top level without the `extends` key. */
  function Layer(disk: Disk, path: string): Setting {
    if path in disk.files && disk.files[path].Parsed? then Section(disk.files[path].settings - {"extends"})
    else Section(map[])
  }

  function Layers(disk: Disk, paths: seq<string>): seq<Setting> {
    seq(|paths|, i requires 0 <= i < |paths| => Layer(disk, paths[i]))
  }

  lemma {:induction false} MergeLayersSplit(store: Setting, disk: Disk, xs: seq<string>, ys: seq<string>)
    ensures MergeAll(store, Layers(disk, xs + ys)) == MergeAll(MergeAll(store, Layers(disk, xs)), Layers(disk, ys))
  {
    assert Layers(disk, xs + ys) == Layers(disk, xs) + Layers(disk, ys);
    MergeAllSplit(store, Layers(disk, xs), Layers(disk, ys));
  }

  datatype Options = Options(baseName: string, environment: string, overrideName: string, inWorkDir: string -> string)

  datatype LayerName = BaseLayer | EnvironmentFileLayer | OverrideFileLayer

  /** `fileCandidatesFor`: the names tried for a layer, in order. */
  function LayerCandidates(disk: Disk, opts: Options, layer: LayerName): seq<string> {
    var exts := Extensions(disk.configType);
    var name := TrimSpace(opts.overrideName);
    if layer == OverrideFileLayer && name != "" && KnownExt(TrimPrefix(Lower(Ext(name)), ".")) then
        [opts.inWorkDir(name)]
    else
      var stem := match layer
        case BaseLayer => opts.baseName
        case EnvironmentFileLayer => opts.baseName + "." + Lower(opts.environment)
        case OverrideFileLayer => if name != "" then name else opts.baseName + ".override";
      seq(|exts|, i requires 0 <= i < |exts| => opts.inWorkDir(stem + "." + exts[i]))
  }

  /** The file a layer uses: the first candidate that exists. */
  function Chosen(disk: Disk, paths: seq<string>): Option<string> {
    if |paths| == 0 then None
    else if paths[0] != "" && paths[0] in disk.files then Some(paths[0])
    else Chosen(disk, paths[1..])
  }

  /** What merging one layer visits and merges; an absent layer merges nothing. */
  function LayerWalk(disk: Disk, opts: Options, layer: LayerName): Walk {
    match Chosen(disk, LayerCandidates(disk, opts, layer))
    case None => Walk({}, [], None)
    case Some(p) => Visit(disk, p, {})
  }

  function Then(w: Walk, next: Walk): Walk {
    if w.error.Some? then w else Walk(w.visited, w.merged + next.merged, next.error)
  }

  /** Without a named environment there is no environment file. */
  function EnvironmentWalk(disk: Disk, opts: Options): Walk {
    if opts.environment != "" then LayerWalk(disk, opts, EnvironmentFileLayer) else Walk({}, [], None)
  }

  /** `Load`: base, then the environment file if an environment is named, then the override. */
  function LoadWalk(disk: Disk, opts: Options): Walk {
    Then(
      Then(LayerWalk(disk, opts, BaseLayer), EnvironmentWalk(disk, opts)),
      LayerWalk(disk, opts, OverrideFileLayer))
  }

  class Manager {
    var store: Setting

    constructor ()
      ensures store == Section(map[])
    {
      store := Section(map[]);
    }

    method MergeFileRecursive(disk: Disk, path: string, visited: set<string>)
      returns (visited': set<string>, err: Option<LoadError>)
      modifies this
      ensures var w := Visit(disk, path, visited);
              visited' == w.visited && err == w.error && store == MergeAll(old(store), Layers(disk, w.merged))
      decreases Unvisited(disk, visited), 0
    {
      if path in visited { return visited, Some(CyclicExtends(path)); }
      visited' := visited + {path};
      VisitShrinks(disk, visited, visited');
      if path !in disk.files || disk.files[path].Unreadable? { return visited', Some(ReadFailed(path)); }
      if disk.files[path].Malformed? { return visited', Some(ParseFailed(path)); }
      ghost var below := VisitAll(disk, path, Refs(disk.files[path].inherits), visited');
      visited', err := MergeBases(disk, path, Refs(disk.files[path].inherits), visited');
      if err.Some? { return; }
      MergeLayersSplit(old(store), disk, below.merged, [path]);
      store := Merge(store, Layer(disk, path));
    }

    /** The loop over the references of a file. */
    method MergeBases(disk: Disk, file: string, refs: seq<string>, visited: set<string>)
      returns (visited': set<string>, err: Option<LoadError>)
      modifies this
      ensures var w := VisitAll(disk, file, refs, visited);
              visited' == w.visited && err == w.error && store == MergeAll(old(store), Layers(disk, w.merged))
      decreases Unvisited(disk, visited), 1
    {
      visited', err := visited, None;
      ghost var merged := [];
      for i := 0 to |refs|
        invariant visited <= visited'
        invariant VisitAll(disk, file, refs, visited) == Resume(merged, VisitAll(disk, file, refs[i..], visited'))
        invariant store == MergeAll(old(store), Layers(disk, merged)) && err == None
      {
        var target := Target(disk, file, refs[i]);
        if target.None? {
          assert merged + [] == merged;
          return visited', Some(TargetNotFound(refs[i]));
        }
        ResumeStep(disk, file, refs[i..], visited', merged);
        assert refs[i..][1..] == refs[i + 1..];
        VisitShrinks(disk, visited, visited');
        ghost var first := Visit(disk, target.value, visited').merged;
        MergeLayersSplit(old(store), disk, merged, first);
        visited', err := MergeFileRecursive(disk, target.value, visited');
        merged := merged + first;
        if err.Some? { return; }
      }
      assert merged + [] == merged;
    }

    method MergeFirstExistingFile(disk: Disk, candidates: seq<string>) returns (err: Option<LoadError>)
      modifies this
      ensures var w := match Chosen(disk, candidates) case None => Walk({}, [], None) case Some(p) => Visit(disk, p,
          {});
              err == w.error && store == MergeAll(old(store), Layers(disk, w.merged))
    {
      var i := 0;
      while i < |candidates|
        invariant 0 <= i <= |candidates| && store == old(store)
        invariant Chosen(disk, candidates) == Chosen(disk, candidates[i..])
      {
        if candidates[i] != "" && candidates[i] in disk.files {
          var _, e := MergeFileRecursive(disk, candidates[i], {});
          return e;
        }
        assert candidates[i..][1..] == candidates[i + 1..];
        i := i + 1;
      }
      err := None;
    }

    method Load(disk: Disk, opts: Options) returns (err: Option<LoadError>)
      modifies this
      ensures var w := LoadWalk(disk, opts);
              err == w.error && store == MergeAll(old(store), Layers(disk, w.merged))
    {
      ghost var base := LayerWalk(disk, opts, BaseLayer);
      err := MergeFirstExistingFile(disk, LayerCandidates(disk, opts, BaseLayer));
      if err.Some? { return; }
      ghost var sofar := base;
      if opts.environment != "" {
        ghost var env := LayerWalk(disk, opts, EnvironmentFileLayer);
        MergeLayersSplit(old(store), disk, base.merged, env.merged);
        err := MergeFirstExistingFile(disk, LayerCandidates(disk, opts, EnvironmentFileLayer));
        sofar := Then(base, env);
        if err.Some? { return; }
      } else {
        assert base.merged + [] == base.merged;
      }
      ghost var last := LayerWalk(disk, opts, OverrideFileLayer);
      MergeLayersSplit(old(store), disk, sofar.merged, last.merged);
      err := MergeFirstExistingFile(disk, LayerCandidates(disk, opts, OverrideFileLayer));
    }
  }

  /** A traversal resumed after some files were already merged. */
  function Resume(merged: seq<string>, rest: Walk): Walk { rest.(merged := merged + rest.merged) }

  lemma {:induction false} ResumeStep(disk: Disk, file: string, rest: seq<string>, visited: set<string>,
    merged: seq<string>)
    requires |rest| > 0 && Target(disk, file, rest[0]).Some?
    ensures var all := Resume(merged, VisitAll(disk, file, rest, visited));
            var first := Visit(disk, Target(disk, file, rest[0]).value, visited);
            if first.error.Some? then all == Resume(merged, first)
            else all == Resume(merged + first.merged, VisitAll(disk, file, rest[1..], first.visited))
  {
  }

  // ---- Precedence ----

  /** The settings of the files one walk merges. */
  function WalkLayers(disk: Disk, w: Walk): seq<Setting> { Layers(disk, w.merged) }

  lemma ThenLayers(disk: Disk, a: Walk, b: Walk, c: Walk)
    requires Then(Then(a, b), c).error.None?
    ensures WalkLayers(disk, Then(Then(a, b), c)) == WalkLayers(disk, a) + WalkLayers(disk, b) + WalkLayers(disk, c)
  {
  }

  lemma SilentAppend(xs: seq<Setting>, ys: seq<Setting>, p: Path)
    ensures Silent(xs + ys, p) <==> Silent(xs, p) && Silent(ys, p)
  {
    assert forall i :: 0 <= i < |xs| ==> (xs + ys)[i] == xs[i];
    assert forall i :: 0 <= i < |ys| ==> (xs + ys)[|xs| + i] == ys[i];
  }

  /** The last mention in `xs + ys` is in `ys` unless `ys` is silent. */
  lemma LastMentionPlace(xs: seq<Setting>, ys: seq<Setting>, i: nat, p: Path)
    requires i < |xs + ys| && At((xs + ys)[i], p) != Absent && Silent((xs + ys)[i + 1..], p)
    ensures i >= |xs| <==> !Silent(ys, p)
    ensures i < |xs| ==> Silent(xs[i + 1..], p)
  {
    var all := xs + ys;
    if i < |xs| {
      assert all[i + 1..] == xs[i + 1..] + ys;
      SilentAppend(xs[i + 1..], ys, p);
    } else {
      assert ys[i - |xs|] == all[i];
    }
  }

  /**
   Precedence after a successful load, on every key. If no file mentions the key, the store keeps
   what it had. Otherwise the file `i` that mentions it last is an override file if any of those
   mentions it, else an environment file, else a base file; and what that file says is what the
   store then holds if and only if it says a section, or no section was there before it.
   */
  lemma LayerPrecedence(disk: Disk, opts: Options, store: Setting, p: Path) returns (i: nat)
    requires LoadWalk(disk, opts).error.None?
    ensures
      var files := WalkLayers(disk, LoadWalk(disk, opts));
      var base := WalkLayers(disk, LayerWalk(disk, opts, BaseLayer));
      var env := WalkLayers(disk, EnvironmentWalk(disk, opts));
      var over := WalkLayers(disk, LayerWalk(disk, opts, OverrideFileLayer));
      if Silent(base, p) && Silent(env, p) && Silent(over, p) then At(MergeAll(store, files), p) == At(store, p)
      else
        && i < |files| && At(files[i], p) != Absent && Silent(files[i + 1..], p)
        && (|base| + |env| <= i <==> !Silent(over, p))
        && (|base| <= i < |base| + |env| <==> Silent(over, p) && !Silent(env, p))
        && (At(MergeAll(store, files), p) == At(files[i], p) <==>
              At(files[i], p) == HasSection || (At(store, p) != HasSection && NoSection(files[..i], p)))
  {
    var files := WalkLayers(disk, LoadWalk(disk, opts));
    var base := WalkLayers(disk, LayerWalk(disk, opts, BaseLayer));
    var env := WalkLayers(disk, EnvironmentWalk(disk, opts));
    var over := WalkLayers(disk, LayerWalk(disk, opts, OverrideFileLayer));
    ThenLayers(disk, LayerWalk(disk, opts, BaseLayer), EnvironmentWalk(disk, opts), LayerWalk(disk, opts,
        OverrideFileLayer));
    SilentAppend(base + env, over, p);
    SilentAppend(base, env, p);
    i := 0;
    if Silent(files, p) {
      SilentFilesKeep(store, files, p);
    } else {
      i := LastMention(files, p);
      LastMentionPlace(base + env, over, i, p);
      if i < |base + env| {
        LastMentionPlace(base, env, i, p);
      }
      LastMentionWins(store, files, i, p);
    }
  }
}
