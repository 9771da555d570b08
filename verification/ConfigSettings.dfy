/**
 Configuration trees and their merge. A setting is a value or a section of named settings.
 `Merge` is the merge `MergeConfigMap` performs on the store: sections are united key by key,
 a value is replaced by whatever comes later, and a section is kept when a plain value comes
 later under the same key. The store belongs to the viper library, which is not part of this
 model; this rule is its behaviour as assumed here.
 */
module ConfigSettings {
  datatype Setting = Value(text: string) | Section(children: map<string, Setting>)

  type Path = seq<string>

  function Merge(a: Setting, b: Setting): Setting
    decreases a
  {
    if a.Value? then b
    else if b.Value? then a
    else Section(map k | k in a.children.Keys + b.children.Keys ::
      if k in a.children && k in b.children then Merge(a.children[k], b.children[k])
      else if k in a.children then a.children[k]
      else b.children[k])
  }

  function MergeAll(store: Setting, files: seq<Setting>): Setting
    decreases |files|
  {
    if |files| == 0 then store else MergeAll(Merge(store, files[0]), files[1..])
  }

  /** What a tree holds at a path. */
  datatype Status = Absent | HasValue(text: string) | HasSection

  function At(v: Setting, p: Path): Status
    decreases |p|
  {
    if |p| == 0 then (if v.Value? then HasValue(v.text) else HasSection)
    else if v.Section? && p[0] in v.children then At(v.children[p[0]], p[1..])
    else Absent
  }

  /** The merge law, path by path: the later tree decides unless it is silent or meets a section. */
  lemma {:induction false} MergeLaw(a: Setting, b: Setting, p: Path)
    ensures At(Merge(a, b), p) == if At(a, p) == HasSection || At(b, p) == Absent then At(a, p) else At(b, p)
    decreases |p|
  {
    if |p| > 0 && a.Section? && b.Section? && p[0] in a.children && p[0] in b.children {
      MergeLaw(a.children[p[0]], b.children[p[0]], p[1..]);
    }
  }

  /** Trees that hold the same at every path are the same. */
  lemma {:induction false} TreesEqual(a: Setting, b: Setting)
    requires forall p :: At(a, p) == At(b, p)
    ensures a == b
    decreases a
  {
    assert At(a, []) == At(b, []);
    if a.Section? {
      forall k ensures k in a.children <==> k in b.children {
        assert At(a, [k]) == At(b, [k]);
        assert k in a.children ==> At(a.children[k], []) != Absent;
        assert k in b.children ==> At(b.children[k], []) != Absent;
      }
      forall k | k in a.children ensures a.children[k] == b.children[k] {
        forall p ensures At(a.children[k], p) == At(b.children[k], p) {
          assert At(a, [k] + p) == At(b, [k] + p);
          assert ([k] + p)[1..] == p;
        }
        TreesEqual(a.children[k], b.children[k]);
      }
    }
  }

  ghost predicate Silent(files: seq<Setting>, p: Path) {
    forall i :: 0 <= i < |files| ==> At(files[i], p) == Absent
  }

  ghost predicate NoSection(files: seq<Setting>, p: Path) {
    forall i :: 0 <= i < |files| ==> At(files[i], p) != HasSection
  }

  lemma {:induction false} MergeAllSplit(store: Setting, xs: seq<Setting>, ys: seq<Setting>)
    ensures MergeAll(store, xs + ys) == MergeAll(MergeAll(store, xs), ys)
    decreases |xs|
  {
    if |xs| == 0 {
      assert xs + ys == ys;
    } else {
      assert (xs + ys)[1..] == xs[1..] + ys;
      MergeAllSplit(Merge(store, xs[0]), xs[1..], ys);
    }
  }

  /** Files that do not mention a path leave it as it was: a removed key survives a reload. */
  lemma {:induction false} SilentFilesKeep(store: Setting, files: seq<Setting>, p: Path)
    requires Silent(files, p)
    ensures At(MergeAll(store, files), p) == At(store, p)
    decreases |files|
  {
    if |files| > 0 {
      MergeLaw(store, files[0], p);
      SilentFilesKeep(Merge(store, files[0]), files[1..], p);
    }
  }

  /** A path is a section at the end exactly when the store or some file made it one. */
  lemma {:induction false} SectionsStay(store: Setting, files: seq<Setting>, p: Path)
    ensures At(MergeAll(store, files), p) == HasSection <==>
            At(store, p) == HasSection || !NoSection(files, p)
    decreases |files|
  {
    if |files| > 0 {
      MergeLaw(store, files[0], p);
      SectionsStay(Merge(store, files[0]), files[1..], p);
      assert NoSection(files, p) <==> At(files[0], p) != HasSection && NoSection(files[1..], p) by {
        assert forall i :: 0 <= i < |files| - 1 ==> files[1..][i] == files[i + 1];
        assert forall i :: 1 <= i < |files| ==> files[i] == files[1..][i - 1];
      }
    }
  }

  /**
   The last file that sets a key wins, exactly when neither the store nor an earlier file has a
   section there.
   */
  lemma LastSetterWins(store: Setting, files: seq<Setting>, i: nat, p: Path)
    requires i < |files| && At(files[i], p).HasValue? && Silent(files[i + 1..], p)
    ensures At(MergeAll(store, files), p) == At(files[i], p) <==>
            At(store, p) != HasSection && NoSection(files[..i], p)
  {
    var before := MergeAll(store, files[..i]);
    assert files == files[..i] + ([files[i]] + files[i + 1..]);
    MergeAllSplit(store, files[..i], [files[i]] + files[i + 1..]);
    assert ([files[i]] + files[i + 1..])[1..] == files[i + 1..];
    SilentFilesKeep(Merge(before, files[i]), files[i + 1..], p);
    MergeLaw(before, files[i], p);
    SectionsStay(store, files[..i], p);
  }

  /** Likewise for the last file that mentions a key; a section it brings always stays. */
  lemma LastMentionWins(store: Setting, files: seq<Setting>, i: nat, p: Path)
    requires i < |files| && At(files[i], p) != Absent && Silent(files[i + 1..], p)
    ensures At(MergeAll(store, files), p) == At(files[i], p) <==>
            At(files[i], p) == HasSection || (At(store, p) != HasSection && NoSection(files[..i], p))
  {
    if At(files[i], p) == HasSection {
      SectionsStay(store, files, p);
    } else {
      LastSetterWins(store, files, i, p);
    }
  }

  lemma {:induction false} LastMention(files: seq<Setting>, p: Path) returns (i: nat)
    requires !Silent(files, p)
    ensures i < |files| && At(files[i], p) != Absent && Silent(files[i + 1..], p)
    decreases |files|
  {
    if Silent(files[1..], p) {
      i := 0;
    } else {
      var j := LastMention(files[1..], p);
      i := j + 1;
      assert files[1..][j + 1..] == files[i + 1..];
    }
  }

  /** Where no section is involved, the end result is the last setter's value, or the store's. */
  lemma LastSetter(store: Setting, files: seq<Setting>, p: Path)
    requires NoSection(files, p) && At(store, p) != HasSection
    ensures Silent(files, p) ==> At(MergeAll(store, files), p) == At(store, p)
    ensures !Silent(files, p) ==>
              exists i | 0 <= i < |files| :: At(files[i], p).HasValue? && Silent(files[i + 1..], p)
                                             && At(MergeAll(store, files), p) == At(files[i], p)
  {
    if Silent(files, p) {
      SilentFilesKeep(store, files, p);
    } else {
      var i := LastMention(files, p);
      LastSetterWins(store, files, i, p);
    }
  }

  /** Merging the same files again changes nothing. */
  lemma ReloadIdempotent(store: Setting, files: seq<Setting>)
    ensures MergeAll(MergeAll(store, files), files) == MergeAll(store, files)
  {
    var once := MergeAll(store, files);
    var twice := MergeAll(once, files);
    forall p ensures At(twice, p) == At(once, p) {
      SectionsStay(store, files, p);
      SectionsStay(once, files, p);
      if At(once, p) != HasSection {
        LastSetter(store, files, p);
        LastSetter(once, files, p);
        if !Silent(files, p) {
          var i :| 0 <= i < |files| && At(files[i], p).HasValue? && Silent(files[i + 1..], p) &&
              At(once, p) == At(files[i], p);
          LastSetterWins(once, files, i, p);
        }
      }
    }
    TreesEqual(twice, once);
  }
}
