/**
 Round-robin selection over a discovered instance list. The counter is shared and only advances
 when a non-empty list was discovered.
 */
module RoundRobin {
  import opened Text

  /** What discovery answers: an error, or the healthy instances (their endpoints). */
  datatype Discovery = Failed | Found(instances: seq<string>)

  class LoadBalancedResolver {
    var index: nat

    constructor ()
      ensures index == 0
    {
      index := 0;
    }

    method GetInstanceRoundRobin(d: Discovery) returns (endpoint: Option<string>)
      modifies this
      ensures endpoint == Pick(old(index), d)
      ensures index == Advance(old(index), d)
    {
      if d.Failed? || |d.instances| == 0 {
        return None;
      }
      endpoint := Some(d.instances[index % |d.instances|]);
      index := index + 1;
    }

    /** A run of calls, in order. */
    method GetInstances(calls: seq<Discovery>) returns (picks: seq<string>)
      modifies this
      ensures picks == Picks(old(index), calls)
    {
      picks := [];
      for i := 0 to |calls|
        invariant picks == Picks(old(index), calls[..i]) && index == AdvanceAll(old(index), calls[..i])
      {
        assert calls[..i + 1][..i] == calls[..i];
        var pick := GetInstanceRoundRobin(calls[i]);
        if pick.Some? {
          picks := picks + [pick.value];
        }
      }
      assert calls[..|calls|] == calls;
    }
  }

  function Pick(index: nat, d: Discovery): Option<string> {
    if d.Failed? || d.instances == [] then None else Some(d.instances[index % |d.instances|])
  }

  function Advance(index: nat, d: Discovery): nat {
    if Pick(index, d).None? then index else index + 1
  }

  function AdvanceAll(index: nat, calls: seq<Discovery>): nat {
    if calls == [] then index else Advance(AdvanceAll(index, calls[..|calls| - 1]), calls[|calls| - 1])
  }

  /** The endpoints that the successful calls return. */
  function Picks(index: nat, calls: seq<Discovery>): seq<string> {
    if calls == [] then []
    else
      var init := calls[..|calls| - 1];
      match Pick(AdvanceAll(index, init), calls[|calls| - 1])
      case None => Picks(index, init)
      case Some(e) => Picks(index, init) + [e]
  }

  // ---- Counting residues ----

  lemma DivisionUnique(a: int, n: int, q: int, r: int)
    requires n > 0 && 0 <= r < n && a == q * n + r
    ensures a / n == q && a % n == r
  {
    var d := a / n - q;
    assert d * n == r - a % n;
    assert d >= 1 ==> d * n >= n;
    assert d <= -1 ==> d * n <= -n;
  }

  /** Quotient and remainder of a sum. */
  lemma SumDivision(c: nat, k: nat, n: nat)
    requires n > 0
    ensures (c + k) / n == c / n + k / n + Ind(c % n + k % n >= n)
    ensures (c + k) % n == if c % n + k % n >= n then c % n + k % n - n else c % n + k % n
  {
    var q, r := c / n + k / n, c % n + k % n;
    assert c + k == q * n + r;
    if r < n {
      DivisionUnique(c + k, n, q, r);
    } else {
      assert c + k == (q + 1) * n + (r - n);
      DivisionUnique(c + k, n, q + 1, r - n);
    }
  }

  lemma SmallDivision(a: nat, n: nat)
    requires a < n
    ensures a / n == 0 && a % n == a
  {
  }

  function Ind(b: bool): nat { if b then 1 else 0 }

  /** How many numbers below `m` have residue `i`. */
  function Hits(m: nat, n: nat, i: nat): nat
    requires n > 0
  {
    if m == 0 then 0 else Hits(m - 1, n, i) + Ind((m - 1) % n == i)
  }

  /** One more number: quotient and remainder move together. */
  lemma ClosedStep(m: nat, n: nat, i: nat)
    requires i < n
    ensures (m + 1) / n + Ind((m + 1) % n > i) == m / n + Ind(m % n > i) + Ind(m % n == i)
  {
    if n == 1 {
      DivisionUnique(m, 1, m, 0);
      DivisionUnique(m + 1, 1, m + 1, 0);
    } else {
      SmallDivision(1, n);
      SumDivision(m, 1, n);
    }
  }

  lemma {:induction false} HitsClosed(m: nat, n: nat, i: nat)
    requires i < n
    ensures Hits(m, n, i) == m / n + Ind(m % n > i)
  {
    if m == 0 {
      SmallDivision(0, n);
    } else {
      HitsClosed(m - 1, n, i);
      ClosedStep(m - 1, n, i);
    }
  }

  /** In `k` consecutive numbers each residue occurs k/n times, rounded down or up. */
  lemma HitsFair(c: nat, k: nat, n: nat, i: nat)
    requires i < n
    ensures k / n <= Hits(c + k, n, i) - Hits(c, n, i) <= k / n + Ind(k % n != 0)
  {
    HitsClosed(c, n, i);
    HitsClosed(c + k, n, i);
    SumDivision(c, k, n);
  }

  // ---- Fairness ----

  function Times(picks: seq<string>, e: string): nat {
    if picks == [] then 0
    else Times(picks[..|picks| - 1], e) + Ind(picks[|picks| - 1] == e)
  }

  /** Every non-empty answer of discovery is the same list. */
  predicate Stable(calls: seq<Discovery>, instances: seq<string>) {
    forall j :: 0 <= j < |calls| ==>
      calls[j].Failed? || calls[j].instances == [] || calls[j].instances == instances
  }

  predicate DistinctInstances(instances: seq<string>) {
    forall i, j :: 0 <= i < j < |instances| ==> instances[i] != instances[j]
  }

  lemma TimesLast(picks: seq<string>, last: string, e: string)
    ensures Times(picks + [last], e) == Times(picks, e) + Ind(last == e)
  {
    assert (picks + [last])[..|picks|] == picks;
  }

  lemma SameInstance(instances: seq<string>, i: nat, j: nat)
    requires i < |instances| && j < |instances| && DistinctInstances(instances)
    ensures (instances[j] == instances[i]) == (j == i)
  {
  }

  /** One successful call counts for the instance at the counter's residue. */
  lemma OnePick(picks: seq<string>, at: nat, instances: seq<string>, i: nat)
    requires i < |instances| && DistinctInstances(instances)
    ensures Times(picks + [instances[at % |instances|]], instances[i]) + Hits(at, |instances|, i) ==
      Times(picks, instances[i]) + Hits(at + 1, |instances|, i)
  {
    var j := at % |instances|;
    SameInstance(instances, i, j);
    TimesLast(picks, instances[j], instances[i]);
  }

  lemma {:induction false} PicksCounted(index: nat, calls: seq<Discovery>, instances: seq<string>, i: nat)
    requires i < |instances| && DistinctInstances(instances) && Stable(calls, instances)
    ensures AdvanceAll(index, calls) == index + |Picks(index, calls)|
    ensures Times(Picks(index, calls), instances[i]) + Hits(index, |instances|, i) ==
      Hits(AdvanceAll(index, calls), |instances|, i)
  {
    if calls == [] {
      assert Times([], instances[i]) == 0;
    } else {
      var init, d := calls[..|calls| - 1], calls[|calls| - 1];
      PicksCounted(index, init, instances, i);
      if !d.Failed? && d.instances != [] {
        assert d.instances == instances;
        OnePick(Picks(index, init), AdvanceAll(index, init), instances, i);
      }
    }
  }

  /**
   Over any run of calls that see one stable list of distinct instances, each instance is chosen
   floor or ceiling of k/n times in the k successful calls, wherever the counter started.
   */
  lemma Fair(index: nat, calls: seq<Discovery>, instances: seq<string>, i: nat)
    requires i < |instances| && DistinctInstances(instances) && Stable(calls, instances)
    ensures
      var k, n := |Picks(index, calls)|, |instances|;
      k / n <= Times(Picks(index, calls), instances[i]) <= k / n + Ind(k % n != 0)
  {
    PicksCounted(index, calls, instances, i);
    HitsFair(index, |Picks(index, calls)|, |instances|, i);
  }
}
