/**
 The rotating file sink over a modelled directory: the current file and its numbered backups.
 Backup 1 is the newest. The archive is what reading the backups from oldest to newest and then
 the current file gives; the history is everything that was ever in it.
 */
module FileSink {
  import opened Text

  type Backups = map<nat, string>

  function Slot(b: Backups, i: nat): string { if i in b then b[i] else "" }

  /** Backups `n` down to 1, oldest first. */
  function Archive(b: Backups, n: nat): string {
    if n == 0 then "" else Slot(b, n) + Archive(b, n - 1)
  }

  /** Highest backup number rotation produces: `MaxBackups`, but at least 1. */
  function Top(maxBackups: int): nat { if maxBackups < 1 then 1 else maxBackups }

  /** The backups are numbered 1 to `n` without a gap. */
  ghost predicate Contiguous(b: Backups, n: nat) { forall i: nat :: i in b <==> 1 <= i <= n }

  function Rename(b: Backups, i: nat): Backups {
    if i in b then (b - {i})[i + 1 := b[i]] else b
  }

  /** The backups after the renaming loop has come down to `i`. */
  function Shifted(b: Backups, top: nat, i: nat): Backups
    requires 1 <= i <= top
    decreases top - i
  {
    if i == top then b else Rename(Shifted(b, top, i + 1), i)
  }

  /** The backups after a whole rotation. */
  function Rotated(b: Backups, top: nat, current: string): Backups
    requires top >= 1
  {
    Shifted(b, top, 1)[1 := current]
  }

  /** The content a rotation overwrites: the oldest backup, if another is renamed onto it. */
  function Lost(b: Backups, top: nat): string {
    if top == 1 || top - 1 in b then Slot(b, top) else ""
  }

  /** What the renaming loop has done, slot by slot. */
  lemma {:induction false} ShiftedSlots(b: Backups, top: nat, i: nat)
    requires 1 <= i <= top
    ensures var s := Shifted(b, top, i);
            && (forall j: nat :: j < i || j > top ==> (j in s <==> j in b) && (j in b ==> s[j] == b[j]))
            && (i < top ==> i !in s)
            && (forall j: nat :: i < j < top ==> (j in s <==> j - 1 in b) && (j in s ==> s[j] == b[j - 1]))
            && (i < top && top - 1 in b ==> top in s && s[top] == b[top - 1])
            && (i == top || top - 1 !in b ==> (top in s <==> top in b) && (top in b ==> s[top] == b[top]))
    decreases top - i
  {
    if i < top { ShiftedSlots(b, top, i + 1); }
  }

  lemma {:induction false} ArchiveShift(b: Backups, top: nat, current: string, n: nat)
    requires 1 <= n < top
    ensures Archive(Rotated(b, top, current), n) == Archive(b, n - 1) + current
  {
    ShiftedSlots(b, top, 1);
    if n == 1 {
      assert Archive(Rotated(b, top, current), 0) == "";
      assert current + "" == "" + current;
    } else {
      ArchiveShift(b, top, current, n - 1);
      assert Slot(b, n - 1) + (Archive(b, n - 2) + current) == (Slot(b, n - 1) + Archive(b, n - 2)) + current;
    }
  }

  /** The slot rotation fills last, and what it overwrites there. */
  lemma TopSlot(b: Backups, top: nat, current: string)
    requires top >= 2
    ensures var r := Rotated(b, top, current);
            if top - 1 in b then Slot(r, top) == b[top - 1] && Lost(b, top) == Slot(b, top)
            else Slot(r, top) == Slot(b, top) && Slot(b, top - 1) == "" && Lost(b, top) == ""
  {
    ShiftedSlots(b, top, 1);
  }

  /** Either the oldest content goes and the next takes its place, or there is no next. */
  lemma Regroup(oldest: string, next: string, low: string, current: string, lost: string, kept: string)
    requires (lost == oldest && kept == next) || (lost == "" && next == "" && kept == oldest)
    ensures oldest + (next + low) + current == lost + (kept + (low + current))
  {
  }

  /** A rotation drops exactly `Lost` from the front of the archive and keeps the rest in order. */
  lemma {:induction false} RotationLaw(b: Backups, top: nat, current: string)
    requires top >= 1
    ensures Archive(b, top) + current == Lost(b, top) + Archive(Rotated(b, top, current), top)
  {
    var r := Rotated(b, top, current);
    if top == 1 {
      assert Archive(b, 1) == Slot(b, 1) + "" && Archive(r, 1) == current + "";
    } else {
      TopSlot(b, top, current);
      ArchiveShift(b, top, current, top - 1);
      Regroup(Slot(b, top), Slot(b, top - 1), Archive(b, top - 2), current, Lost(b, top), Slot(r, top));
    }
  }

  /** Contiguous backups stay contiguous, one more until the limit is reached. */
  lemma RotationContiguous(b: Backups, top: nat, current: string, n: nat)
    requires top >= 1 && n <= top && Contiguous(b, n)
    ensures Contiguous(Rotated(b, top, current), if n < top then n + 1 else top)
  {
    ShiftedSlots(b, top, 1);
    var r := Rotated(b, top, current);
    forall j: nat ensures j in r <==> 1 <= j <= (if n < top then n + 1 else top) {
      if j > 1 { assert j - 1 in b <==> 1 <= j - 1 <= n; }
    }
  }

  // ---- The condition on backups left over from an earlier, larger limit ----

  ghost predicate IsSuffix(s: string, t: string) { |s| <= |t| && t[|t| - |s|..] == s }

  ghost predicate SuffixAfter(b: Backups, current: string, top: nat, n: nat)
    requires top >= 1
  {
    IsSuffix(Archive(Rotated(b, top, current), n), Archive(b, n) + current)
  }

  /** The highest number in use before or after a rotation. */
  function Span(n: nat, top: nat): nat { if n < top then top else n }

  /** Rotation keeps the archive a suffix whatever the files hold. */
  ghost predicate KeepsSuffix(n: nat, top: nat)
    requires top >= 1
  {
    forall b: Backups, current: string :: Contiguous(b, n) ==> SuffixAfter(b, current, top, Span(n, top))
  }

  /** Backups whose contents tell the lost one from the older ones. */
  function Telltale(n: nat, top: nat): (b: Backups)
    ensures Contiguous(b, n)
    ensures forall i: nat :: i in b ==> b[i] == if i > top then "y" else if i == top then "x" else ""
  {
    if n == 0 then map[]
    else Telltale(n - 1, top)[n := if n > top then "y" else if n == top then "x" else ""]
  }

  lemma {:induction false} LowArchive(b: Backups, n: nat)
    requires forall i: nat :: 1 <= i <= n ==> Slot(b, i) == ""
    ensures Archive(b, n) == ""
  {
    if n > 0 { LowArchive(b, n - 1); }
  }

  lemma {:induction false} HighArchive(b: Backups, top: nat, n: nat)
    requires top <= n && forall i: nat :: top < i <= n ==> Slot(b, i) == "y"
    ensures |Archive(b, n)| == n - top + |Archive(b, top)|
    ensures Archive(b, n)[n - top..] == Archive(b, top)
    ensures forall k :: 0 <= k < n - top ==> Archive(b, n)[k] == 'y'
  {
    if n > top { HighArchive(b, top, n - 1); }
  }

  lemma {:induction false} RotationSuffix(b: Backups, current: string, top: nat)
    requires top >= 1
    ensures SuffixAfter(b, current, top, top)
  {
    RotationLaw(b, top, current);
    var whole, kept := Archive(b, top) + current, Archive(Rotated(b, top, current), top);
    assert whole[|Lost(b, top)|..] == kept;
  }

  lemma {:induction false} WithinLimitKeepsSuffix(n: nat, top: nat)
    requires top >= 1 && n <= top
    ensures KeepsSuffix(n, top)
  {
    forall b: Backups, current: string ensures SuffixAfter(b, current, top, top) {
      RotationSuffix(b, current, top);
    }
  }

  /** Before the rotation: the older contents, then the mark. */
  lemma {:induction false} TelltaleArchive(n: nat, top: nat)
    requires n > top >= 1
    ensures
      var before := Archive(Telltale(n, top), n);
      |before| == n - top + 1 && before[n - top] == 'x'
  {
    HighArchive(Telltale(n, top), top, n);
    MarkArchive(Telltale(n, top), top);
  }

  lemma MarkArchive(b: Backups, top: nat)
    requires top >= 1 && Slot(b, top) == "x" && forall i: nat :: 1 <= i < top ==> Slot(b, i) == ""
    ensures Archive(b, top) == "x"
  {
    LowArchive(b, top - 1);
  }

  /** After it: the older contents only. */
  lemma {:induction false} RotatedTelltale(n: nat, top: nat)
    requires n > top >= 1
    ensures
      var after := Archive(Rotated(Telltale(n, top), top, ""), n);
      |after| == n - top && after[n - top - 1] == 'y'
  {
    var r := Rotated(Telltale(n, top), top, "");
    ShiftedSlots(Telltale(n, top), top, 1);
    LowArchive(r, top);
    HighArchive(r, top, n);
  }

  /** Beyond the limit, some contents are left with a hole. */
  lemma {:induction false} StaleBackupsLeaveHole(n: nat, top: nat) returns (b: Backups)
    requires n > top >= 1
    ensures Contiguous(b, n) && !SuffixAfter(b, "", top, n)
  {
    b := Telltale(n, top);
    TelltaleArchive(n, top);
    RotatedTelltale(n, top);
    var before, after := Archive(b, n) + "", Archive(Rotated(b, top, ""), n);
    assert before[|before| - |after|..][|after| - 1] == 'x';
  }

  lemma {:induction false} BeyondLimitBreaksSuffix(n: nat, top: nat)
    requires n > top >= 1
    ensures !KeepsSuffix(n, top)
  {
    var b := StaleBackupsLeaveHole(n, top);
    assert Contiguous(b, n) && !SuffixAfter(b, "", top, Span(n, top));
  }

  /**
   With `n` contiguous backups present, every rotation leaves a suffix of the archive, whatever
   the contents, if and only if `n` is within the limit; the sink does not check this at start.
   */
  lemma {:induction false} SuffixKeptIff(n: nat, top: nat)
    requires top >= 1
    ensures KeepsSuffix(n, top) <==> n <= top
  {
    if n <= top {
      WithinLimitKeepsSuffix(n, top);
    } else {
      BeyondLimitBreaksSuffix(n, top);
    }
  }

  /** A rotation that shifts the backups but cannot move the current file loses no more. */
  lemma {:induction false} ShiftLaw(b: Backups, top: nat)
    requires top >= 1
    ensures Archive(b, top) == (if top == 1 then "" else Lost(b, top)) + Archive(Shifted(b, top, 1), top)
  {
    if top > 1 {
      RotationLaw(b, top, "");
      ShiftedSlots(b, top, 1);
      SameArchive(Shifted(b, top, 1), Rotated(b, top, ""), top);
      assert Archive(b, top) + "" == Archive(b, top);
    }
  }

  lemma {:induction false} SameArchive(b: Backups, b': Backups, n: nat)
    requires forall i: nat :: 1 <= i <= n ==> Slot(b, i) == Slot(b', i)
    ensures Archive(b, n) == Archive(b', n)
  {
    if n > 0 { SameArchive(b, b', n - 1); }
  }

  lemma DropFront(dropped: string, lost: string, kept: string, current: string)
    ensures dropped + (lost + kept + current) == dropped + lost + (kept + current)
    ensures current == "" ==> lost + kept + current == lost + kept
  {
  }

  // ---- The sink ----

  /** How far a rotation gets: closing the file, moving it to backup 1, opening a new one. */
  datatype Rotation = Completes | CloseFails | MoveFails | OpenFails

  ghost predicate ContiguousWithin(b: Backups, top: nat) { exists n: nat :: n <= top && Contiguous(b, n) }

  class Sink {
    var current: string
    var backups: Backups
    var written: nat
    var isOpen: bool
    const maxFileSize: int
    const maxBackups: int
    ghost var dropped: string   // history no longer on disk
    ghost var history: string   // everything ever in the archive
    ghost var uncounted: nat    // bytes of failed partial writes in the current file

    /** The archive is what is left of the history after the dropped front. */
    ghost predicate Valid()
      reads this
    {
      && history == dropped + (Archive(backups, Top(maxBackups)) + current)
      && (isOpen ==> |current| == written + uncounted)
    }

    /** `NewFileSink` on a directory with any backups. */
    constructor (current: string, backups: Backups, maxFileSize: int, maxBackups: int)
      ensures Valid() && this.current == current && this.backups == backups && uncounted == 0 && isOpen
      ensures this.maxFileSize == maxFileSize && this.maxBackups == maxBackups
      ensures history == Archive(backups, Top(maxBackups)) + current && dropped == ""
    {
      this.current, this.backups, written, isOpen := current, backups, |current|, true;
      this.maxFileSize, this.maxBackups := maxFileSize, maxBackups;
      dropped, uncounted := "", 0;
      history := Archive(backups, Top(maxBackups)) + current;
    }

    /** The loop that renames backup i to i + 1, downwards. */
    method ShiftBackups()
      modifies this`backups
      ensures backups == Shifted(old(backups), Top(maxBackups), 1)
    {
      ghost var top := Top(maxBackups);
      ghost var before := backups;
      var i := maxBackups - 1;
      while i > 0
        invariant i < top && (maxBackups >= 1 ==> i >= 0) && (maxBackups < 1 ==> top == 1)
        invariant backups == if i < 0 then before else Shifted(before, top, i + 1)
      {
        backups := Rename(backups, i);
        i := i - 1;
      }
    }

    /** Whatever step fails, nothing but the oldest backup leaves the archive; the sink then stays closed. */
    method Rotate(rotation: Rotation) returns (ok: bool)
      requires Valid() && isOpen
      modifies this
      ensures Valid() && history == old(history) && ok == isOpen == rotation.Completes?
      ensures backups ==
        match rotation
        case CloseFails => old(backups)
        case MoveFails => Shifted(old(backups), Top(maxBackups), 1)
        case _ => Rotated(old(backups), Top(maxBackups), old(current))
      ensures current == if rotation.CloseFails? || rotation.MoveFails? then old(current) else ""
      ensures ok ==> written == 0 && uncounted == 0
      ensures ok && ContiguousWithin(old(backups), Top(maxBackups)) ==> ContiguousWithin(backups, Top(maxBackups))
    {
      ghost var top := Top(maxBackups);
      ghost var before := backups;
      RotationLaw(before, top, current);
      ShiftLaw(before, top);
      isOpen := false;
      if rotation.CloseFails? {
        return false;
      }
      ShiftBackups();
      if rotation.MoveFails? {
        ghost var lost := if top == 1 then "" else Lost(before, top);
        DropFront(dropped, lost, Archive(backups, top), current);
        dropped := dropped + lost;
        return false;
      }
      RotatedWithin(before, top, current);
      backups := backups[1 := current];
      DropFront(dropped, Lost(before, top), Archive(backups, top), "");
      dropped := dropped + Lost(before, top);
      current := "";
      if rotation.OpenFails? {
        return false;
      }
      isOpen, written, uncounted := true, 0, 0;
      return true;
    }

    /** Whether this line makes the sink rotate. */
    predicate Due(line: string)
      reads this
    {
      maxFileSize > 0 && written + |line| + 1 >= maxFileSize
    }

    /**
     `Write`; `failsAfter` is how many bytes reached the file if the operating system reported an
     error, and `rotation` what happens if a rotation is due. A sink that was left closed refuses.
     */
    method Write(line: string, failsAfter: Option<nat>, rotation: Rotation) returns (ok: bool)
      requires Valid() && (failsAfter.Some? ==> failsAfter.value <= |line| + 1)
      modifies this
      ensures Valid()
      ensures ok == (old(isOpen) && failsAfter.None? && (old(Due(line)) ==> rotation.Completes?))
      ensures history == old(history) +
        if !old(isOpen) then "" else if failsAfter.None? then line + "\n" else (line + "\n")[..failsAfter.value]
      ensures isOpen == (old(isOpen) && (failsAfter.None? && old(Due(line)) ==> rotation.Completes?))
      ensures ok && maxFileSize > 0 ==> written < maxFileSize && |current| < maxFileSize + uncounted
      ensures ok ==> uncounted == 0 || uncounted == old(uncounted)
      ensures failsAfter.Some? ==> backups == old(backups) && written == old(written)
      ensures ok && ContiguousWithin(old(backups), Top(maxBackups)) ==> ContiguousWithin(backups, Top(maxBackups))
    {
      if !isOpen {
        return false;
      }
      var data := line + "\n";
      var sent := if failsAfter.Some? then data[..failsAfter.value] else data;
      assert dropped + (Archive(backups, Top(maxBackups)) + (current + sent)) ==
             dropped + (Archive(backups, Top(maxBackups)) + current) + sent;
      current, history := current + sent, history + sent;
      if failsAfter.Some? {
        uncounted := uncounted + |sent|;
        return false;
      }
      written := written + |sent|;
      ok := true;
      if maxFileSize > 0 && written >= maxFileSize {
        ok := Rotate(rotation);
      }
    }

    /**
     Any number of successful writes, from any directory: the archive and the current file read as
     a suffix of what was there followed by all the lines, and contiguous backups stay so.
     */
    method WriteAll(lines: seq<string>)
      requires Valid() && isOpen && uncounted == 0
      modifies this
      ensures Valid() && isOpen && uncounted == 0
      ensures history == old(history) + Lines(lines)
      ensures IsSuffix(Archive(backups, Top(maxBackups)) + current, old(history) + Lines(lines))
      ensures |lines| > 0 && maxFileSize > 0 ==> |current| < maxFileSize
      ensures ContiguousWithin(old(backups), Top(maxBackups)) ==> ContiguousWithin(backups, Top(maxBackups))
    {
      assert history + Lines([]) == history;
      for i := 0 to |lines|
        invariant Valid() && isOpen && uncounted == 0
        invariant history == old(history) + Lines(lines[..i])
        invariant i > 0 && maxFileSize > 0 ==> |current| < maxFileSize
        invariant ContiguousWithin(old(backups), Top(maxBackups)) ==> ContiguousWithin(backups, Top(maxBackups))
      {
        var ok := Write(lines[i], None, Completes);
        assert lines[..i + 1][..i] == lines[..i];
        assert old(history) + (Lines(lines[..i]) + (lines[i] + "\n")) ==
            old(history) + Lines(lines[..i]) + (lines[i] + "\n");
      }
      assert lines[..|lines|] == lines;
    }
  }

  lemma RotatedWithin(b: Backups, top: nat, current: string)
    requires top >= 1
    ensures ContiguousWithin(b, top) ==> ContiguousWithin(Rotated(b, top, current), top)
  {
    if ContiguousWithin(b, top) {
      var n: nat :| n <= top && Contiguous(b, n);
      RotationContiguous(b, top, current, n);
    }
  }

  function Lines(lines: seq<string>): string {
    if |lines| == 0 then "" else Lines(lines[..|lines| - 1]) + (lines[|lines| - 1] + "\n")
  }
}
