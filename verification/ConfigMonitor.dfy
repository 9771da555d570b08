/**
 The two difference routines as the loops they are, and `ConfigMonitor`, which compares every
 reloaded configuration with the previous and the desired one and reports the result. The
 metrics collector is a log of the samples it was given.
 */
module ConfigMonitor {
  import opened Text
  import opened ConfigDiff
  import opened ConfigSections

  /** Whether a value is present and not nil under a key. */
  predicate Present(m: map<string, Value>, k: string) { k in m && m[k] != Nil }

  /** `countDiffRecursive`. */
  method CountDiff(a: Value, b: Value) returns (n: nat)
    ensures n == Count(a, b)
    decreases a, 1
  {
    if a.Nil? && b.Nil? { return 0; }
    if a.Nil? || b.Nil? { return 1; }
    match a {
      case Map(_) =>
        if !b.Map? { return 1; }
        n := CountMaps(a, b);
      case List(xs) =>
        if !b.List? || |xs| != |b.items| { return 1; }
        for i := 0 to |xs|
          invariant forall j :: 0 <= j < i ==> Count(xs[j], b.items[j]) == 0
        {
          var c := CountDiff(xs[i], b.items[i]);
          if c != 0 { return 1; }
        }
        n := 0;
      case Leaf(s) =>
        n := if b.Leaf? && DeepEqual(s, b.scalar) then 0 else 1;
    }
  }

  /** Its loop over the union of the keys. */
  method CountMaps(a: Value, b: Value) returns (n: nat)
    requires a.Map? && b.Map?
    ensures n == Count(a, b)
    decreases a, 0
  {
    n := 0;
    var rest := a.entries.Keys + b.entries.Keys;
    while rest != {}
      invariant n + KeysCount(a, b, rest) == Count(a, b)
    {
      var k :| k in rest;
      KeysCountRemove(a, b, rest, k);
      var c := 0;
      if k in a.entries && k in b.entries {
        c := CountDiff(a.entries[k], b.entries[k]);
      } else if Present(a.entries, k) || Present(b.entries, k) {
        c := 1;
      }
      n := n + c;
      rest := rest - {k};
    }
  }

  /** `diffKeysRecursive`, with `sections` as the set it adds marks to. */
  method DiffKeys(a: Value, b: Value, path: string, sections: set<string>) returns (n: nat, sections': set<string>)
    ensures n == Count(a, b)
    ensures sections' == sections + Marks(a, b, path)
    decreases a, 1
  {
    sections' := sections;
    if a.Nil? && b.Nil? { return 0, sections; }
    if a.Nil? || b.Nil? { return 1, sections + {SectionOf(path)}; }
    match a {
      case Map(_) =>
        if !b.Map? { return 1, sections + {SectionOf(path)}; }
        n, sections' := DiffMaps(a, b, path, sections);
      case List(xs) =>
        if !b.List? || |xs| != |b.items| { return 1, sections + {SectionOf(path)}; }
        for i := 0 to |xs|
          invariant forall j :: 0 <= j < i ==> Count(xs[j], b.items[j]) == 0
          invariant sections' + ItemsMarks(a, b, i, path) == sections + ItemsMarks(a, b, 0, path)
        {
          var c;
          c, sections' := DiffKeys(xs[i], b.items[i], path, sections');
          if c != 0 { return 1, sections' + {SectionOf(path)}; }
        }
        n := 0;
      case Leaf(s) =>
        if b.Leaf? && DeepEqual(s, b.scalar) { return 0, sections; }
        return 1, sections + {SectionOf(path)};
    }
  }

  /** Its loop over the union of the keys. */
  method DiffMaps(a: Value, b: Value, path: string, sections: set<string>) returns (n: nat, sections': set<string>)
    requires a.Map? && b.Map?
    ensures n == Count(a, b)
    ensures sections' == sections + Marks(a, b, path)
    decreases a, 0, 1
  {
    n, sections' := 0, sections;
    ghost var done: set<string> := {};
    var rest := a.entries.Keys + b.entries.Keys;
    while rest != {}
      invariant done + rest == a.entries.Keys + b.entries.Keys
      invariant n + KeysCount(a, b, rest) == Count(a, b)
      invariant sections' == sections + KeysMarks(a, b, done, path)
    {
      var k :| k in rest;
      KeysCountRemove(a, b, rest, k);
      KeysMarksAdd(a, b, done, k, path);
      var c;
      c, sections' := DiffKey(a, b, k, path, sections');
      n := n + c;
      rest, done := rest - {k}, done + {k};
    }
    assert done == a.entries.Keys + b.entries.Keys;
  }

  /** One key of the loop; a missing value is nil. */
  method DiffKey(a: Value, b: Value, k: string, path: string, sections: set<string>)
    returns (n: nat, sections': set<string>)
    requires a.Map? && b.Map?
    ensures n == KeyCount(a, b, k)
    ensures sections' == sections + KeyMarks(a, b, k, path)
    decreases a, 0, 0
  {
    n, sections' := 0, sections;
    if k in a.entries && k in b.entries {
      n, sections' := DiffKeys(a.entries[k], b.entries[k], JoinPath(path, k), sections);
    } else if Present(a.entries, k) || Present(b.entries, k) {
      n, sections' := 1, sections + {SectionOf(JoinPath(path, k))};
    }
  }

  // ---- The monitor ----

  datatype Sample =
    | ReloadError
    | ChangeSeen
    | ChangedItems(count: nat)
    | DriftStatus(drifted: bool)
    | DriftItems(count: nat)
    | DriftSection(section: string)

  datatype Change = Failed | Reloaded(settings: Value)

  const OTHER := "other"

  class Monitor {
    var previous: Value
    const desired: Value
    var seen: set<string>
    const limit: nat
    const sectionMetrics: bool
    var samples: seq<Sample>

    /** `NewConfigMonitor` and the baseline part of `Start`, with the given desired state. */
    constructor (baseline: Value, desired: Value, sectionMetrics: bool, limit: int)
      requires baseline.Map? && desired.Map?
      ensures Valid() && samples == [] && seen == {} && previous == baseline
      ensures this.desired == desired && this.sectionMetrics == sectionMetrics
      ensures this.limit == if limit <= 0 then 10 else limit
    {
      CloneEqual(baseline);
      previous, this.desired := DeepClone(baseline), desired;
      seen, samples, this.sectionMetrics := {}, [], sectionMetrics;
      this.limit := if limit <= 0 then 10 else limit;
    }

    /** Labels ever emitted are seen sections or "other", and few sections are ever seen. */
    ghost predicate Valid()
      reads this
    {
      && previous.Map? && desired.Map?
      && |seen| <= limit
      && forall i :: 0 <= i < |samples| && samples[i].DriftSection? ==>
           samples[i].section in seen || samples[i].section == OTHER
    }

    /** The loop over the sections: each gets its own label while fewer than the limit were seen. */
    method EmitSections(sections: set<string>) returns (ghost labels: seq<Sample>)
      requires Valid()
      modifies this`seen, this`samples
      ensures Valid() && old(seen) <= seen <= old(seen) + sections
      ensures samples == old(samples) + labels && |labels| == |sections|
      ensures forall l :: l in labels ==> l.DriftSection?
      ensures |old(seen)| + |sections| <= limit ==> forall s :: s in sections ==> DriftSection(s) in labels
    {
      labels := [];
      var rest := sections;
      while rest != {}
        invariant rest <= sections && Valid()
        invariant old(seen) <= seen <= old(seen) + sections
        invariant samples == old(samples) + labels && forall l :: l in labels ==> l.DriftSection?
        invariant |labels| + |rest| == |sections| && |seen| <= |old(seen)| + |labels|
        invariant |old(seen)| + |sections| <= limit ==> forall s :: s in sections - rest ==> DriftSection(s) in labels
      {
        var sec :| sec in rest;
        rest := rest - {sec};
        var emitted := if |seen| >= limit then OTHER else sec;
        if |seen| < limit {
          seen := seen + {sec};
        }
        samples, labels := samples + [DriftSection(emitted)], labels + [DriftSection(emitted)];
      }
    }

    method UpdateDriftMetrics(current: Value) returns (ghost labels: seq<Sample>)
      requires Valid() && current.Map?
      modifies this`seen, this`samples
      ensures Valid() && old(seen) <= seen <= old(seen) + Marks(desired, current, "")
      ensures samples ==
        old(samples) + [DriftStatus(!Agree(desired, current)), DriftItems(Count(desired, current))] + labels
      ensures forall l :: l in labels ==> l.DriftSection?
      ensures |labels| == if sectionMetrics then |Marks(desired, current, "")| else 0
      ensures sectionMetrics && |old(seen)| + |Marks(desired, current, "")| <= limit ==>
                forall s :: s in Marks(desired, current, "") ==> DriftSection(s) in labels
    {
      labels := [];
      var items, sections := DiffKeys(desired, current, "", {});
      MarkedIffCounted(desired, current, "");
      ZeroIff(desired, current);
      samples := samples + [DriftStatus(items > 0), DriftItems(items)];
      if sectionMetrics && items > 0 {
        labels := EmitSections(sections);
      }
    }

    method HandleChange(change: Change) returns (ghost labels: seq<Sample>)
      requires Valid() && (change.Reloaded? ==> change.settings.Map?)
      modifies this
      ensures Valid() && old(seen) <= seen
      ensures change.Failed? ==>
                previous == old(previous) && seen == old(seen) && samples == old(samples) + [ReloadError]
      ensures change.Reloaded? ==>
                && previous == change.settings
                && samples == old(samples)
                     + [ChangeSeen, ChangedItems(Count(old(previous), change.settings))]
                     + [DriftStatus(!Agree(desired, change.settings)), DriftItems(Count(desired, change.settings))]
                     + labels
                && forall l :: l in labels ==> l.DriftSection?
      ensures LastStatus(samples) ==
        if change.Reloaded? then Some(!Agree(desired, change.settings)) else old(LastStatus(samples))
    {
      labels := [];
      ghost var before := samples;
      if change.Failed? {
        LastStatusAppend(before, [ReloadError]);
        samples := samples + [ReloadError];
        return;
      }
      var changed := CountDiff(previous, change.settings);
      samples := samples + [ChangeSeen, ChangedItems(changed)];
      CloneEqual(change.settings);
      previous := DeepClone(change.settings);
      labels := UpdateDriftMetrics(change.settings);
      ghost var status := DriftStatus(!Agree(desired, change.settings));
      StatusIsLast(before, [ChangeSeen, ChangedItems(changed)], status, DriftItems(Count(desired, change.settings)),
          labels);
    }

    /**
     Any sequence of changes: labels stay bounded; only successful reloads move the snapshot, which
     ends as the settings of the last of them; and after any of them the drift status last reported
     is whether that snapshot differs from the desired settings.
     */
    method HandleAll(changes: seq<Change>)
      requires Valid() && forall i :: 0 <= i < |changes| && changes[i].Reloaded? ==> changes[i].settings.Map?
      modifies this
      ensures Valid() && old(seen) <= seen
      ensures previous == LastReloaded(old(previous), changes)
      ensures (exists i :: 0 <= i < |changes| && changes[i].Reloaded?) ==>
          LastStatus(samples) == Some(!Agree(desired, previous))
    {
      for i := 0 to |changes|
        invariant Valid() && old(seen) <= seen
        invariant previous == LastReloaded(old(previous), changes[..i])
        invariant (exists j :: 0 <= j < i && changes[j].Reloaded?) ==>
            LastStatus(samples) == Some(!Agree(desired, previous))
      {
        var _ := HandleChange(changes[i]);
        assert changes[..i + 1] == changes[..i] + [changes[i]];
      }
      assert changes[..|changes|] == changes;
    }
  }

  function LastReloaded(previous: Value, changes: seq<Change>): Value {
    if |changes| == 0 then previous
    else
      match changes[|changes| - 1]
      case Reloaded(s) => s
      case Failed => LastReloaded(previous, changes[..|changes| - 1])
  }

  /** The drift status reported last. */
  function LastStatus(samples: seq<Sample>): Option<bool> {
    if |samples| == 0 then None
    else if samples[|samples| - 1].DriftStatus? then Some(samples[|samples| - 1].drifted)
    else LastStatus(samples[..|samples| - 1])
  }

  lemma {:induction false} LastStatusAppend(xs: seq<Sample>, ys: seq<Sample>)
    ensures LastStatus(xs + ys) == if LastStatus(ys).Some? then LastStatus(ys) else LastStatus(xs)
    decreases |ys|
  {
    if |ys| == 0 {
      assert xs + ys == xs;
    } else {
      assert (xs + ys)[..|xs + ys| - 1] == xs + ys[..|ys| - 1];
      LastStatusAppend(xs, ys[..|ys| - 1]);
    }
  }

  lemma {:induction false} LabelsCarryNone(labels: seq<Sample>)
    requires forall l :: l in labels ==> l.DriftSection?
    ensures LastStatus(labels) == None
  {
    if |labels| > 0 {
      assert labels[|labels| - 1] in labels;
      LabelsCarryNone(labels[..|labels| - 1]);
    }
  }

  lemma StatusIsLast(before: seq<Sample>, mid: seq<Sample>, status: Sample, items: Sample, labels: seq<Sample>)
    requires status.DriftStatus? && items.DriftItems? && forall l :: l in labels ==> l.DriftSection?
    ensures LastStatus(before + mid + [status, items] + labels) == Some(status.drifted)
  {
    LabelsCarryNone(labels);
    LastStatusAppend(before + mid + [status, items], labels);
    LastStatusAppend(before + mid, [status, items]);
    assert [status, items][..1] == [status];
  }
}
