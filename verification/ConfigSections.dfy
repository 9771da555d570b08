/**
 What the difference count counts, and which top-level sections `diffKeysRecursive` marks on
 the way. A path is a list of map keys.
 */
module ConfigSections {
  import opened Text
  import opened ConfigDiff

  // ---- The count is the number of differing places ----

  function Child(v: Value, k: string): Value
    requires v.Map?
  {
    if k in v.entries then v.entries[k] else Nil
  }

  /**
   The trees differ at `p`: following `p` through maps on both sides ends at two values that are
   not both maps and are not equal up to nil-valued keys, or are NaN.
   */
  ghost predicate DiffersAt(a: Value, b: Value, p: seq<string>)
    decreases |p|
  {
    if a.Map? && b.Map? then |p| > 0 && DiffersAt(Child(a, p[0]), Child(b, p[0]), p[1..])
    else |p| == 0 && !(Norm(a) == Norm(b) && NaNFree(a))
  }

  function Prefixed(k: string, ps: set<seq<string>>): set<seq<string>> { set p | p in ps :: [k] + p }

  lemma {:induction false} PrefixedSize(k: string, ps: set<seq<string>>)
    ensures |Prefixed(k, ps)| == |ps|
    decreases |ps|
  {
    if ps != {} {
      var p :| p in ps;
      PrefixedSize(k, ps - {p});
      forall q | q in ps && q != p ensures [k] + q != [k] + p {
        assert ([k] + q)[1..] == q && ([k] + p)[1..] == p;
      }
      assert [k] + p !in Prefixed(k, ps - {p});
      assert Prefixed(k, ps) == Prefixed(k, ps - {p}) + {[k] + p};
    }
  }

  /** Exactly as many differing places as the count says. */
  lemma {:induction false} CountIsNumberOfDifferences(a: Value, b: Value) returns (places: set<seq<string>>)
    ensures forall p :: p in places <==> DiffersAt(a, b, p)
    ensures |places| == Count(a, b)
    decreases a, 2
  {
    if a.Map? && b.Map? {
      var keys := a.entries.Keys + b.entries.Keys;
      places := KeysPlaces(a, b, keys);
      forall p ensures p in places <==> DiffersAt(a, b, p) {
        if |p| > 0 && p[0] !in keys {
          assert !DiffersAt(Nil, Nil, p[1..]);
        }
      }
    } else {
      ZeroIff(a, b);
      places := if Count(a, b) == 0 then {} else {[]};
    }
  }

  lemma {:induction false} KeysPlaces(a: Value, b: Value, keys: set<string>) returns (places: set<seq<string>>)
    requires a.Map? && b.Map?
    ensures forall p :: p in places <==> |p| > 0 && p[0] in keys && DiffersAt(a, b, p)
    ensures |places| == KeysCount(a, b, keys)
    decreases a, 1, |keys|
  {
    if keys == {} {
      places := {};
    } else {
      var k :| k in keys;
      var rest := KeysPlaces(a, b, keys - {k});
      var here := KeyPlaces(a, b, k);
      KeysCountRemove(a, b, keys, k);
      PrefixedSize(k, here);
      places := rest + Prefixed(k, here);
      PrefixedMembers(a, b, k, here);
      assert rest !! Prefixed(k, here);
    }
  }

  lemma {:induction false} PrefixedMembers(a: Value, b: Value, k: string, here: set<seq<string>>)
    requires a.Map? && b.Map?
    requires forall p :: p in here <==> DiffersAt(Child(a, k), Child(b, k), p)
    ensures forall p :: p in Prefixed(k, here) <==> |p| > 0 && p[0] == k && DiffersAt(a, b, p)
  {
    forall p ensures p in Prefixed(k, here) <==> |p| > 0 && p[0] == k && DiffersAt(a, b, p) {
      if |p| > 0 && p[0] == k {
        assert p == [k] + p[1..];
      }
      if p in Prefixed(k, here) {
        var q :| q in here && p == [k] + q;
        assert p[1..] == q;
      }
    }
  }

  lemma {:induction false} KeyPlaces(a: Value, b: Value, k: string) returns (places: set<seq<string>>)
    requires a.Map? && b.Map?
    ensures forall p :: p in places <==> DiffersAt(Child(a, k), Child(b, k), p)
    ensures |places| == KeyCount(a, b, k)
    decreases a, 0
  {
    if k in a.entries && k in b.entries {
      places := CountIsNumberOfDifferences(a.entries[k], b.entries[k]);
    } else {
      NormNil(Child(a, k));
      NormNil(Child(b, k));
      places := if KeyCount(a, b, k) == 0 then {} else {[]};
    }
  }

  // ---- Sections ----

  function JoinPath(base: string, key: string): string { if base == "" then key else base + ['.'] + key }

  /** `markSection`: the part of the path before its first dot. */
  function SectionOf(path: string): string { if path == "" then "root" else Split(path, '.')[0] }

  /** Sections `diffKeysRecursive` marks while comparing two values at a path. */
  ghost function Marks(a: Value, b: Value, path: string): set<string>
    decreases a, 2
  {
    if a.Map? && b.Map? then KeysMarks(a, b, a.entries.Keys + b.entries.Keys, path)
    else if a.List? && b.List? && |a.items| == |b.items| then ItemsMarks(a, b, 0, path)
    else if Count(a, b) == 0 then {}
    else {SectionOf(path)}
  }

  ghost function KeysMarks(a: Value, b: Value, keys: set<string>, path: string): set<string>
    requires a.Map? && b.Map?
    decreases a, 1
  {
    set k, s | k in keys && s in KeyMarks(a, b, k, path) :: s
  }

  ghost function KeyMarks(a: Value, b: Value, k: string, path: string): set<string>
    requires a.Map? && b.Map?
    decreases a, 0
  {
    if k in a.entries && k in b.entries then Marks(a.entries[k], b.entries[k], JoinPath(path, k))
    else if KeyCount(a, b, k) == 0 then {}
    else {SectionOf(JoinPath(path, k))}
  }

  /** The items from `i` on, up to and including the first that differs. */
  ghost function ItemsMarks(a: Value, b: Value, i: nat, path: string): set<string>
    requires a.List? && b.List? && |a.items| == |b.items| && i <= |a.items|
    decreases a, 1, |a.items| - i
  {
    if i == |a.items| then {}
    else
      Marks(a.items[i], b.items[i], path) +
      (if Count(a.items[i], b.items[i]) != 0 then {SectionOf(path)} else ItemsMarks(a, b, i + 1, path))
  }

  /** Longer paths stay in the section of their start. */
  lemma SectionOfJoin(path: string, key: string)
    requires path != ""
    ensures SectionOf(JoinPath(path, key)) == SectionOf(path)
  {
    var s := path + ['.'] + key;
    if '.' in path {
      var i := IndexOf(path, '.');
      var a, b := path[..i], path[i + 1..];
      assert path == a + ['.'] + b;
      assert s == a + ['.'] + (b + ['.'] + key);
      FirstSeparator(a, '.', b);
      FirstSeparator(a, '.', b + ['.'] + key);
    } else {
      FirstSeparator(path, '.', key);
    }
  }

  lemma KeysMarksAdd(a: Value, b: Value, keys: set<string>, k: string, path: string)
    requires a.Map? && b.Map?
    ensures KeysMarks(a, b, keys + {k}, path) == KeysMarks(a, b, keys, path) + KeyMarks(a, b, k, path)
  {
  }

  lemma {:induction false} MapMarks(a: Value, b: Value, path: string, s: string)
    requires a.Map? && b.Map?
    requires forall k :: k in a.entries.Keys + b.entries.Keys ==>
               KeyMarks(a, b, k, path) == if KeyCount(a, b, k) == 0 then {} else {s}
    ensures Marks(a, b, path) == if Count(a, b) == 0 then {} else {s}
  {
    var keys := a.entries.Keys + b.entries.Keys;
    KeysCountZero(a, b, keys);
    if Count(a, b) != 0 {
      var k :| k in keys && KeyCount(a, b, k) != 0;
      assert s in KeyMarks(a, b, k, path);
    }
  }

  /** Below a non-empty path the only section marked is its own, and only for a difference. */
  lemma {:induction false} MarksBelow(a: Value, b: Value, path: string)
    requires path != ""
    ensures Marks(a, b, path) == if Count(a, b) == 0 then {} else {SectionOf(path)}
    decreases a, 2
  {
    if a.Map? && b.Map? {
      forall k | k in a.entries.Keys + b.entries.Keys
        ensures KeyMarks(a, b, k, path) == if KeyCount(a, b, k) == 0 then {} else {SectionOf(path)}
      {
        SectionOfJoin(path, k);
        if k in a.entries && k in b.entries {
          MarksBelow(a.entries[k], b.entries[k], JoinPath(path, k));
        }
      }
      MapMarks(a, b, path, SectionOf(path));
    } else if a.List? && b.List? && |a.items| == |b.items| {
      ItemsMarksBelow(a, b, 0, path);
    }
  }

  lemma {:induction false} ItemsMarksBelow(a: Value, b: Value, i: nat, path: string)
    requires path != "" && a.List? && b.List? && |a.items| == |b.items| && i <= |a.items|
    ensures ItemsMarks(a, b, i, path) ==
            if (forall j :: i <= j < |a.items| ==> Count(a.items[j], b.items[j]) == 0) then {} else {SectionOf(path)}
    decreases a, 1, |a.items| - i
  {
    if i < |a.items| {
      MarksBelow(a.items[i], b.items[i], path);
      ItemsMarksBelow(a, b, i + 1, path);
    }
  }

  /** Top-level keys whose subtrees differ. */
  ghost function DifferingKeys(a: Value, b: Value): set<string>
    requires a.Map? && b.Map?
  {
    set k | k in a.entries.Keys + b.entries.Keys && KeyCount(a, b, k) != 0
  }

  lemma {:induction false} TopMarks(a: Value, b: Value, k: string)
    requires a.Map? && b.Map? && k in a.entries.Keys + b.entries.Keys && k != ""
    ensures KeyMarks(a, b, k, "") == if KeyCount(a, b, k) == 0 then {} else {Split(k, '.')[0]}
  {
    if k in a.entries && k in b.entries {
      MarksBelow(a.entries[k], b.entries[k], k);
    }
  }

  /** First parts of the non-empty differing top-level keys. */
  ghost function Heads(a: Value, b: Value): set<string>
    requires a.Map? && b.Map?
  {
    set k | k in DifferingKeys(a, b) && k != "" :: Split(k, '.')[0]
  }

  /** The first position at which two lists of one length differ. */
  ghost function FirstDiffering(a: Value, b: Value, i: nat): (j: nat)
    requires a.List? && b.List? && |a.items| == |b.items| && i <= |a.items|
    ensures i <= j <= |a.items| && (j < |a.items| ==> Count(a.items[j], b.items[j]) != 0)
    ensures forall k :: i <= k < j ==> Count(a.items[k], b.items[k]) == 0
    decreases |a.items| - i
  {
    if i == |a.items| || Count(a.items[i], b.items[i]) != 0 then i else FirstDiffering(a, b, i + 1)
  }

  /**
   What differing values count as at the root: maps as the heads of their differing keys, an empty
   key passing on to its own values; anything else as "root", lists with the first items that
   differ besides.
   */
  ghost function RootHeads(a: Value, b: Value): set<string>
    decreases a
  {
    if Count(a, b) == 0 then {}
    else if a.Map? && b.Map? then
      Heads(a, b) +
      if "" !in DifferingKeys(a, b) then {}
      else if "" in a.entries && "" in b.entries then RootHeads(a.entries[""], b.entries[""])
      else {"root"}
    else if a.List? && b.List? && |a.items| == |b.items| then
      var i := FirstDiffering(a, b, 0);
      {"root"} + if i < |a.items| then RootHeads(a.items[i], b.items[i]) else {}
    else {"root"}
  }

  lemma {:induction false} ItemsMarksFrom(a: Value, b: Value, i: nat)
    requires a.List? && b.List? && |a.items| == |b.items| && i <= |a.items|
    ensures
      var j := FirstDiffering(a, b, i);
      ItemsMarks(a, b, i, "") == if j < |a.items| then Marks(a.items[j], b.items[j], "") + {"root"} else {}
    decreases |a.items| - i
  {
    if i < |a.items| {
      MarkedIffCounted(a.items[i], b.items[i], "");
      if Count(a.items[i], b.items[i]) == 0 {
        ItemsMarksFrom(a, b, i + 1);
      }
    }
  }

  lemma {:induction false} MapSections(a: Value, b: Value)
    requires a.Map? && b.Map?
    ensures Marks(a, b, "") == Heads(a, b) + KeyMarks(a, b, "", "")
  {
    forall s | s in Marks(a, b, "") ensures s in Heads(a, b) + KeyMarks(a, b, "", "") {
      assert s in KeysMarks(a, b, a.entries.Keys + b.entries.Keys, "");
      var k :| k in a.entries.Keys + b.entries.Keys && s in KeyMarks(a, b, k, "");
      if k != "" {
        TopMarks(a, b, k);
      }
    }
    forall k | k in DifferingKeys(a, b) && k != "" ensures Split(k, '.')[0] in Marks(a, b, "") {
      TopMarks(a, b, k);
      assert Split(k, '.')[0] in KeyMarks(a, b, k, "");
    }
    assert "" in a.entries.Keys + b.entries.Keys || KeyMarks(a, b, "", "") == {};
  }

  /** The sections marked for two trees are exactly their root heads. */
  lemma {:induction false} SectionsAreHeads(a: Value, b: Value)
    ensures Marks(a, b, "") == RootHeads(a, b)
    decreases a
  {
    MarkedIffCounted(a, b, "");
    if a.Map? && b.Map? {
      MapSections(a, b);
      EmptyKeyMarked(a, b);
      if "" in a.entries && "" in b.entries {
        SectionsAreHeads(a.entries[""], b.entries[""]);
      }
    } else if a.List? && b.List? && |a.items| == |b.items| {
      ItemsMarksFrom(a, b, 0);
      var i := FirstDiffering(a, b, 0);
      if i < |a.items| {
        SectionsAreHeads(a.items[i], b.items[i]);
      }
    }
  }

  lemma EmptyKeyMarked(a: Value, b: Value)
    requires a.Map? && b.Map?
    ensures KeyMarks(a, b, "", "") != {} <==> "" in DifferingKeys(a, b)
  {
    if "" in a.entries && "" in b.entries {
      MarkedIffCounted(a.entries[""], b.entries[""], "");
    }
  }

  lemma {:induction false} RootHeadsDotFree(a: Value, b: Value, s: string)
    requires s in RootHeads(a, b)
    ensures '.' !in s
    decreases a
  {
    if a.Map? && b.Map? {
      if s in Heads(a, b) {
        var k :| k in DifferingKeys(a, b) && k != "" && s == Split(k, '.')[0];
        SplitPartsFree(k, '.');
      } else if "" in a.entries && "" in b.entries {
        RootHeadsDotFree(a.entries[""], b.entries[""], s);
      }
    } else if a.List? && b.List? && |a.items| == |b.items| && s != "root" {
      var i := FirstDiffering(a, b, 0);
      RootHeadsDotFree(a.items[i], b.items[i], s);
    }
  }

  /** The root heads below a differing empty key. */
  ghost function EmptyKeyHeads(a: Value, b: Value): set<string>
    requires a.Map? && b.Map?
  {
    if "" in a.entries && "" in b.entries then RootHeads(a.entries[""], b.entries[""]) else {"root"}
  }

  /**
   The section set is exactly the set of differing top-level keys if and only if none of those
   keys contains a dot and, should the empty key differ, the heads below it are differing keys and
   the empty string is one of them. Without empty keys that is: if and only if none contains a dot.
   */
  lemma SectionsExactIff(a: Value, b: Value)
    requires a.Map? && b.Map?
    ensures Marks(a, b, "") == DifferingKeys(a, b) <==>
      && (forall k :: k in DifferingKeys(a, b) ==> '.' !in k)
      && ("" in DifferingKeys(a, b) ==> "" in EmptyKeyHeads(a, b) && EmptyKeyHeads(a, b) <= DifferingKeys(a, b))
  {
    var diff := DifferingKeys(a, b);
    SectionsAreHeads(a, b);
    SomeDiffers(a, b);
    forall s | s in RootHeads(a, b) ensures '.' !in s {
      RootHeadsDotFree(a, b, s);
    }
    if forall k :: k in diff ==> '.' !in k {
      forall k | k in diff ensures Split(k, '.')[0] == k {}
      assert Heads(a, b) == diff - {""};
    }
  }

  lemma SomeDiffers(a: Value, b: Value)
    requires a.Map? && b.Map?
    ensures Count(a, b) == 0 <==> DifferingKeys(a, b) == {}
  {
    KeysCountZero(a, b, a.entries.Keys + b.entries.Keys);
    if k :| k in DifferingKeys(a, b) {
      assert k in a.entries.Keys + b.entries.Keys && KeyCount(a, b, k) != 0;
    } else {
      forall k | k in a.entries.Keys + b.entries.Keys ensures KeyCount(a, b, k) == 0 {
        assert k !in DifferingKeys(a, b);
      }
    }
  }

  /** Differing values under an empty key that are no pair of maps or lists are marked "root". */
  lemma EmptyKeyMarksRoot(a: Value, b: Value)
    requires a.Map? && b.Map? && "" in DifferingKeys(a, b)
    requires !(Child(a, "").Map? && Child(b, "").Map?) && !(Child(a, "").List? && Child(b, "").List?)
    ensures "root" in Marks(a, b, "") && Marks(a, b, "") != DifferingKeys(a, b)
  {
    SectionsExactIff(a, b);
    SectionsAreHeads(a, b);
    SomeDiffers(a, b);
  }

  /** Sections are marked exactly when the count is positive. */
  lemma {:induction false} MarkedIffCounted(a: Value, b: Value, path: string)
    ensures Marks(a, b, path) == {} <==> Count(a, b) == 0
    decreases a, 2
  {
    if a.Map? && b.Map? {
      var keys := a.entries.Keys + b.entries.Keys;
      KeysCountZero(a, b, keys);
      forall k | k in keys ensures KeyMarks(a, b, k, path) == {} <==> KeyCount(a, b, k) == 0 {
        if k in a.entries && k in b.entries {
          MarkedIffCounted(a.entries[k], b.entries[k], JoinPath(path, k));
        }
      }
      if Count(a, b) != 0 {
        var k :| k in keys && KeyCount(a, b, k) != 0;
        assert KeyMarks(a, b, k, path) != {};
        var s :| s in KeyMarks(a, b, k, path);
        assert s in Marks(a, b, path);
      }
    } else if a.List? && b.List? && |a.items| == |b.items| {
      ItemsMarkedIffCounted(a, b, 0, path);
    }
  }

  lemma {:induction false} ItemsMarkedIffCounted(a: Value, b: Value, i: nat, path: string)
    requires a.List? && b.List? && |a.items| == |b.items| && i <= |a.items|
    ensures ItemsMarks(a, b, i, path) == {} <==> forall j :: i <= j < |a.items| ==> Count(a.items[j], b.items[j]) == 0
    decreases a, 1, |a.items| - i
  {
    if i < |a.items| {
      MarkedIffCounted(a.items[i], b.items[i], path);
      ItemsMarkedIffCounted(a, b, i + 1, path);
      if Count(a.items[i], b.items[i]) != 0 {
        assert SectionOf(path) in ItemsMarks(a, b, i, path);
      }
    }
  }
}
