/**
 * The read-side helpers of app.py: `_overlaps`, `_annotate_entries` and the
 * conflict audit `_detect_conflicts`, on entries given as a list (the rows
 * the database query returns).
 */
module Audit {
  import opened Common
  import opened Text
  import opened TimeGrid
  import opened Records

  /** `_overlaps`: same day and the half-open intervals intersect. */
  predicate Overlaps(a: Entry, b: Entry) {
    a.day == b.day && a.start < b.end && b.start < a.end
  }

  /**
   * The source compares the stored "HH:MM" strings; for times of one day that
   * is the same test as comparing minutes.
   */
  lemma OverlapsAsStored(a: Entry, b: Entry)
    requires a.start < MinutesPerDay && a.end < MinutesPerDay
    requires b.start < MinutesPerDay && b.end < MinutesPerDay
    ensures Overlaps(a, b) <==>
      a.day == b.day
      && LexLess(FormatTime(a.start), FormatTime(b.end))
      && LexLess(FormatTime(b.start), FormatTime(a.end))
  {
    FormatTimeOrder(a.start, b.end);
    FormatTimeOrder(b.start, a.end);
  }

  /** Minute `t` lies within the entry's half-open interval. */
  predicate During(e: Entry, t: int) {
    e.start <= t < e.end
  }

  /** Two non-empty entries overlap exactly when they are on one day and share some minute. */
  lemma OverlapsShared(a: Entry, b: Entry)
    requires a.start < a.end && b.start < b.end
    ensures Overlaps(a, b) <==> a.day == b.day && exists t :: During(a, t) && During(b, t)
  {
    if Overlaps(a, b) {
      var t := if a.start < b.start then b.start else a.start;
      assert During(a, t) && During(b, t);
    }
  }

  /** Overlap does not depend on argument order, never crosses days, and touching is not overlapping. */
  lemma OverlapsFacts(a: Entry, b: Entry)
    ensures Overlaps(a, b) == Overlaps(b, a)
    ensures a.day != b.day ==> !Overlaps(a, b)
    ensures a.end == b.start ==> !Overlaps(a, b)
  {
  }

  // ---------------------------------------------------------------------------
  // Annotation

  /** The view fields `_annotate_entries` attaches to an entry. */
  datatype Annotation = Annotation(startSlotIndex: int, durationSlots: int)

  function Starts(grid: seq<Slot>): seq<int> {
    seq(|grid|, i requires 0 <= i < |grid| => grid[i].start)
  }

  function Ends(grid: seq<Slot>): seq<int> {
    seq(|grid|, i requires 0 <= i < |grid| => grid[i].end)
  }

  /**
   * Lookup in `{key: idx for idx, key in enumerate(keys)}`: a later index
   * overwrites an earlier one with the same key, so the last match wins.
   */
  function LastIndexOf(keys: seq<int>, t: int): (r: Option<nat>)
    ensures r.Some? ==> r.value < |keys| && keys[r.value] == t
    ensures r.Some? ==> forall j :: r.value < j < |keys| ==> keys[j] != t
    ensures r.None? ==> forall j :: 0 <= j < |keys| ==> keys[j] != t
  {
    if |keys| == 0 then None
    else if keys[|keys| - 1] == t then Some(|keys| - 1)
    else LastIndexOf(keys[..|keys| - 1], t)
  }

  /** `_annotate_entries` for one entry. */
  function Annotate(e: Entry, grid: seq<Slot>): (r: Annotation)
    ensures r.durationSlots >= 1
    ensures (forall i :: 0 <= i < |grid| ==> grid[i].start != e.start) ==> r.startSlotIndex == 0
    ensures (forall i :: 0 <= i < |grid| ==> grid[i].end != e.end) ==> r.durationSlots == 1
    ensures r.startSlotIndex == 0 || (0 < r.startSlotIndex < |grid| && grid[r.startSlotIndex].start == e.start)
    ensures forall i :: 0 <= i < |grid| && grid[i].start == e.start && (forall j :: i < j < |grid| ==> grid[j].start != e.start) ==>
      r.startSlotIndex == i
    ensures forall k :: 0 <= k < |grid| && grid[k].end == e.end && (forall j :: k < j < |grid| ==> grid[j].end != e.end) ==>
      (k >= r.startSlotIndex ==> r.startSlotIndex + r.durationSlots - 1 == k) && (k < r.startSlotIndex ==> r.durationSlots == 1)
  {
    var startIdx := LastIndexOf(Starts(grid), e.start).GetOr(0);
    var endIdx := LastIndexOf(Ends(grid), e.end).GetOr(startIdx);
    assert forall i :: 0 <= i < |grid| ==> Starts(grid)[i] == grid[i].start;
    assert forall i :: 0 <= i < |grid| ==> Ends(grid)[i] == grid[i].end;
    Annotation(startIdx, Max(endIdx - startIdx + 1, 1))
  }

  /** `_annotate_entries`: every entry gets its own annotation, in list order. */
  function AnnotateEntries(entries: seq<Entry>, grid: seq<Slot>): (r: seq<Annotation>)
    ensures |r| == |entries|
    ensures forall i :: 0 <= i < |r| ==> r[i] == Annotate(entries[i], grid)
    ensures forall i :: 0 <= i < |r| ==> r[i].durationSlots >= 1
    ensures forall i :: 0 <= i < |r| ==>
      r[i].startSlotIndex == 0 || (0 < r[i].startSlotIndex < |grid| && grid[r[i].startSlotIndex].start == entries[i].start)
  {
    seq(|entries|, i requires 0 <= i < |entries| => Annotate(entries[i], grid))
  }

  /**
   * On an increasing grid, an entry running from the start of slot `s` to the
   * end of slot `s + d - 1` is annotated with start index `s` and `d` slots.
   */
  lemma AnnotateBlock(e: Entry, grid: seq<Slot>, s: nat, d: nat)
    requires Increasing(grid)
    requires 1 <= d && s + d <= |grid|
    requires e.start == grid[s].start && e.end == grid[s + d - 1].end
    ensures Annotate(e, grid) == Annotation(s, d)
  {
    var starts, ends := Starts(grid), Ends(grid);
    assert starts[s] == e.start;
    assert ends[s + d - 1] == e.end;
    forall j | 0 <= j < |grid| && j != s
      ensures starts[j] != e.start
    {
      if j < s {
        assert grid[j].start < grid[j].end < grid[s].start;
      } else {
        assert grid[s].start < grid[s].end < grid[j].start;
      }
    }
    forall j | 0 <= j < |grid| && j != s + d - 1
      ensures ends[j] != e.end
    {
      if j < s + d - 1 {
        assert grid[j].end < grid[s + d - 1].start < grid[s + d - 1].end;
      } else {
        assert grid[s + d - 1].end < grid[j].start < grid[j].end;
      }
    }
    LastIndexOfOnly(starts, e.start, s);
    LastIndexOfOnly(ends, e.end, s + d - 1);
  }

  /** A key that occurs at one index only is found at that index. */
  lemma LastIndexOfOnly(keys: seq<int>, t: int, k: nat)
    requires k < |keys| && keys[k] == t
    requires forall j :: 0 <= j < |keys| && j != k ==> keys[j] != t
    ensures LastIndexOf(keys, t) == Some(k)
  {
  }

  // ---------------------------------------------------------------------------
  // Conflict audit

  datatype ConflictKind = TrainerClash | TimeClash

  /** One reported conflict: the day, its kind and the two entries in list order. */
  datatype Conflict = Conflict(day: string, kind: ConflictKind, first: Entry, second: Entry)

  /** A trainer conflict when both entries have the same trainer, a time conflict otherwise. */
  function Classify(a: Entry, b: Entry): ConflictKind {
    if a.trainerId == b.trainerId then TrainerClash else TimeClash
  }

  function Record(a: Entry, b: Entry): Conflict {
    Conflict(a.day, Classify(a, b), a, b)
  }

  /** The inner loop: `a` against every later entry of its day. */
  function Row(a: Entry, later: seq<Entry>): seq<Conflict> {
    if |later| == 0 then []
    else (if Overlaps(a, later[0]) then [Record(a, later[0])] else []) + Row(a, later[1..])
  }

  /** The two nested loops over one day's entries. */
  function PairConflicts(xs: seq<Entry>): seq<Conflict> {
    if |xs| == 0 then [] else Row(xs[0], xs[1..]) + PairConflicts(xs[1..])
  }

  /** The keys of `entries_by_day`: each day once, in order of first appearance. */
  function DayOrder(es: seq<Entry>): seq<string> {
    if |es| == 0 then []
    else
      var days := DayOrder(es[..|es| - 1]);
      var d := es[|es| - 1].day;
      if d in days then days else days + [d]
  }

  /** `entries_by_day[day]`: the entries of one day, in list order. */
  function OnDay(es: seq<Entry>, day: string): seq<Entry> {
    if |es| == 0 then []
    else (if es[0].day == day then [es[0]] else []) + OnDay(es[1..], day)
  }

  function ConcatGroups(days: seq<string>, es: seq<Entry>): seq<Conflict> {
    if |days| == 0 then [] else PairConflicts(OnDay(es, days[0])) + ConcatGroups(days[1..], es)
  }

  /** `_detect_conflicts`, after the query. */
  function DetectConflicts(es: seq<Entry>): seq<Conflict> {
    ConcatGroups(DayOrder(es), es)
  }

  // Reference definition: every overlapping pair, once, listed by its later entry.

  /** The earlier entries that `x` overlaps, each paired with `x`. */
  function Against(earlier: seq<Entry>, x: Entry): seq<Conflict> {
    if |earlier| == 0 then []
    else (if Overlaps(earlier[0], x) then [Record(earlier[0], x)] else []) + Against(earlier[1..], x)
  }

  function AllPairs(es: seq<Entry>): seq<Conflict> {
    if |es| == 0 then [] else AllPairs(es[..|es| - 1]) + Against(es[..|es| - 1], es[|es| - 1])
  }

  /** No two entries of the list overlap. */
  ghost predicate ConflictFree(es: seq<Entry>) {
    forall i, j :: 0 <= i < j < |es| ==> !Overlaps(es[i], es[j])
  }

  ghost predicate Distinct(es: seq<Entry>) {
    forall i, j :: 0 <= i < j < |es| ==> es[i] != es[j]
  }

  lemma {:induction false} AgainstMembers(earlier: seq<Entry>, x: Entry, c: Conflict)
    ensures c in Against(earlier, x) <==>
      exists i :: 0 <= i < |earlier| && Overlaps(earlier[i], x) && c == Record(earlier[i], x)
  {
    if |earlier| > 0 {
      AgainstMembers(earlier[1..], x, c);
      forall i | 1 <= i < |earlier|
        ensures earlier[1..][i - 1] == earlier[i]
      {
      }
    }
  }

  /** How often the record of `y` against `x` appears among `x`'s pairs. */
  lemma {:induction false} AgainstCount(earlier: seq<Entry>, x: Entry, y: Entry)
    requires Overlaps(y, x)
    ensures multiset(Against(earlier, x))[Record(y, x)] == multiset(earlier)[y]
  {
    if |earlier| > 0 {
      AgainstCount(earlier[1..], x, y);
      assert earlier == [earlier[0]] + earlier[1..];
    }
  }

  /** Every record of the reference list pairs an earlier entry with a later one it overlaps. */
  lemma {:induction false} AllPairsMembers(es: seq<Entry>, c: Conflict)
    requires c in AllPairs(es)
    ensures exists i, j :: 0 <= i < j < |es| && Overlaps(es[i], es[j]) && c == Record(es[i], es[j])
  {
    var init := es[..|es| - 1];
    var x := es[|es| - 1];
    if c in AllPairs(init) {
      AllPairsMembers(init, c);
      var i, j :| 0 <= i < j < |init| && Overlaps(init[i], init[j]) && c == Record(init[i], init[j]);
      assert es[i] == init[i] && es[j] == init[j];
    } else {
      AgainstMembers(init, x, c);
      var i :| 0 <= i < |init| && Overlaps(init[i], x) && c == Record(init[i], x);
      assert es[i] == init[i];
    }
  }

  lemma {:induction false} AllPairsSeconds(es: seq<Entry>, c: Conflict)
    ensures c in AllPairs(es) ==> c.second in es
  {
    if c in AllPairs(es) {
      AllPairsMembers(es, c);
    }
  }

  /** In a list of distinct entries, each overlapping pair has exactly one reference record. */
  lemma {:induction false} AllPairsOnce(es: seq<Entry>, i: nat, j: nat)
    requires Distinct(es)
    requires i < j < |es| && Overlaps(es[i], es[j])
    ensures multiset(AllPairs(es))[Record(es[i], es[j])] == 1
  {
    var init := es[..|es| - 1];
    var x := es[|es| - 1];
    var c := Record(es[i], es[j]);
    assert Distinct(init);
    if j < |es| - 1 {
      AllPairsOnce(init, i, j);
      assert init[i] == es[i] && init[j] == es[j];
      assert es[j] != x;
      AgainstMembers(init, x, c);
      assert c !in Against(init, x);
    } else {
      assert x !in init by {
        forall k | 0 <= k < |init|
          ensures init[k] != x
        {
          assert es[k] != es[|es| - 1];
        }
      }
      AllPairsSeconds(init, c);
      AgainstCount(init, x, es[i]);
      assert es[i] == init[i];
      DistinctCount(init, i);
    }
  }

  lemma {:induction false} DistinctCount(es: seq<Entry>, i: nat)
    requires Distinct(es) && i < |es|
    ensures multiset(es)[es[i]] == 1
  {
    var y := es[i];
    if |es| > 1 {
      var init := es[..|es| - 1];
      assert es == init + [es[|es| - 1]];
      assert Distinct(init);
      if i < |es| - 1 {
        DistinctCount(init, i);
        assert init[i] == y;
        assert es[|es| - 1] != y;
      } else {
        assert y !in init by {
          forall k | 0 <= k < |init|
            ensures init[k] != y
          {
            assert es[k] != es[i];
          }
        }
      }
    }
  }

  lemma {:induction false} AllPairsEmpty(es: seq<Entry>)
    ensures AllPairs(es) == [] <==> ConflictFree(es)
  {
    if |es| > 0 {
      var init := es[..|es| - 1];
      var x := es[|es| - 1];
      AllPairsEmpty(init);
      if !ConflictFree(es) {
        var i, j :| 0 <= i < j < |es| && Overlaps(es[i], es[j]);
        if j < |es| - 1 {
          assert Overlaps(init[i], init[j]);
        } else {
          AgainstMembers(init, x, Record(es[i], x));
          assert init[i] == es[i];
        }
      } else {
        assert ConflictFree(init) by {
          forall i, j | 0 <= i < j < |init|
            ensures !Overlaps(init[i], init[j])
          {
            assert init[i] == es[i] && init[j] == es[j];
          }
        }
        forall i | 0 <= i < |init|
          ensures !Overlaps(init[i], x)
        {
          assert init[i] == es[i];
        }
        AgainstNoneOverlap(init, x);
      }
    }
  }

  lemma {:induction false} AgainstNoneOverlap(earlier: seq<Entry>, x: Entry)
    requires forall i :: 0 <= i < |earlier| ==> !Overlaps(earlier[i], x)
    ensures Against(earlier, x) == []
  {
    if |earlier| > 0 {
      AgainstNoneOverlap(earlier[1..], x);
    }
  }

  // The grouped audit lists the same records as the reference definition.

  lemma {:induction false} RowAppend(a: Entry, ys: seq<Entry>, x: Entry)
    ensures Row(a, ys + [x]) == Row(a, ys) + (if Overlaps(a, x) then [Record(a, x)] else [])
  {
    if |ys| == 0 {
      assert ([] + [x])[1..] == [];
    } else {
      assert (ys + [x])[1..] == ys[1..] + [x];
      RowAppend(a, ys[1..], x);
    }
  }

  lemma {:induction false} PairConflictsAppend(xs: seq<Entry>, x: Entry)
    ensures multiset(PairConflicts(xs + [x])) == multiset(PairConflicts(xs)) + multiset(Against(xs, x))
  {
    if |xs| == 0 {
      assert [] + [x] == [x];
    } else {
      var a := xs[0];
      assert (xs + [x])[1..] == xs[1..] + [x];
      RowAppend(a, xs[1..], x);
      PairConflictsAppend(xs[1..], x);
    }
  }

  lemma {:induction false} OnDayAppend(es: seq<Entry>, x: Entry, day: string)
    ensures OnDay(es + [x], day) == OnDay(es, day) + (if x.day == day then [x] else [])
  {
    if |es| == 0 {
      assert [] + [x] == [x];
    } else {
      assert (es + [x])[1..] == es[1..] + [x];
      OnDayAppend(es[1..], x, day);
    }
  }

  /** Only entries of `x`'s day can overlap it, so filtering by that day loses no pair. */
  lemma {:induction false} AgainstOnDay(es: seq<Entry>, x: Entry)
    ensures Against(OnDay(es, x.day), x) == Against(es, x)
  {
    if |es| > 0 {
      AgainstOnDay(es[1..], x);
      var head := if es[0].day == x.day then [es[0]] else [];
      AgainstAppendFront(head, OnDay(es[1..], x.day), x);
    }
  }

  lemma {:induction false} AgainstAppendFront(a: seq<Entry>, b: seq<Entry>, x: Entry)
    ensures Against(a + b, x) == Against(a, x) + Against(b, x)
  {
    if |a| == 0 {
      assert a + b == b;
    } else {
      assert (a + b)[1..] == a[1..] + b;
      AgainstAppendFront(a[1..], b, x);
    }
  }

  lemma {:induction false} OnDayAbsent(es: seq<Entry>, day: string)
    requires forall i :: 0 <= i < |es| ==> es[i].day != day
    ensures OnDay(es, day) == []
  {
    if |es| > 0 {
      OnDayAbsent(es[1..], day);
    }
  }

  /** The day order lists each day once and covers the day of every entry. */
  lemma {:induction false} DayOrderCovers(es: seq<Entry>)
    ensures forall i, j :: 0 <= i < j < |DayOrder(es)| ==> DayOrder(es)[i] != DayOrder(es)[j]
    ensures forall i :: 0 <= i < |es| ==> es[i].day in DayOrder(es)
  {
    if |es| > 0 {
      var init := es[..|es| - 1];
      DayOrderCovers(init);
      forall i | 0 <= i < |es| - 1
        ensures es[i].day in DayOrder(init)
      {
        assert es[i] == init[i];
      }
    }
  }

  lemma {:induction false} GroupsUnchanged(days: seq<string>, es: seq<Entry>, x: Entry)
    requires x.day !in days
    ensures ConcatGroups(days, es + [x]) == ConcatGroups(days, es)
  {
    if |days| > 0 {
      assert days[0] != x.day;
      assert x.day !in days[1..];
      OnDayAppend(es, x, days[0]);
      assert OnDay(es + [x], days[0]) == OnDay(es, days[0]);
      GroupsUnchanged(days[1..], es, x);
    }
  }

  lemma {:induction false} GroupsAppend(days: seq<string>, es: seq<Entry>, x: Entry)
    requires x.day in days
    requires forall i, j :: 0 <= i < j < |days| ==> days[i] != days[j]
    ensures multiset(ConcatGroups(days, es + [x])) == multiset(ConcatGroups(days, es)) + multiset(Against(es, x))
  {
    var d := days[0];
    if d == x.day {
      forall k | 0 <= k < |days| - 1
        ensures days[1..][k] != x.day
      {
        assert days[1..][k] == days[k + 1];
      }
      GroupsUnchanged(days[1..], es, x);
      GroupAppendHere(days, es, x);
    } else {
      OnDayAppend(es, x, d);
      assert OnDay(es + [x], d) == OnDay(es, d);
      assert x.day in days[1..];
      GroupsAppend(days[1..], es, x);
    }
  }

  /** Appending `x` to the group of its own day adds exactly `x`'s pairs. */
  lemma GroupAppendHere(days: seq<string>, es: seq<Entry>, x: Entry)
    requires |days| > 0 && days[0] == x.day
    requires ConcatGroups(days[1..], es + [x]) == ConcatGroups(days[1..], es)
    ensures multiset(ConcatGroups(days, es + [x])) == multiset(ConcatGroups(days, es)) + multiset(Against(es, x))
  {
    var group := OnDay(es, x.day);
    var rest := ConcatGroups(days[1..], es);
    OnDayAppend(es, x, x.day);
    PairConflictsAppend(group, x);
    AgainstOnDay(es, x);
    calc {
      multiset(ConcatGroups(days, es + [x]));
      multiset(PairConflicts(group + [x]) + rest);
      multiset(PairConflicts(group + [x])) + multiset(rest);
      multiset(PairConflicts(group)) + multiset(Against(es, x)) + multiset(rest);
      multiset(PairConflicts(group) + rest) + multiset(Against(es, x));
      multiset(ConcatGroups(days, es)) + multiset(Against(es, x));
    }
  }

  lemma {:induction false} GroupsSnoc(days: seq<string>, d: string, es: seq<Entry>)
    ensures ConcatGroups(days + [d], es) == ConcatGroups(days, es) + PairConflicts(OnDay(es, d))
  {
    if |days| == 0 {
      assert [] + [d] == [d];
    } else {
      assert (days + [d])[1..] == days[1..] + [d];
      GroupsSnoc(days[1..], d, es);
    }
  }

  /**
   * The grouped audit reports exactly the records of the reference list,
   * counted with multiplicity: one per overlapping pair of entries.
   */
  lemma {:induction false} DetectConflictsAllPairs(es: seq<Entry>)
    ensures multiset(DetectConflicts(es)) == multiset(AllPairs(es))
  {
    if |es| > 0 {
      var init := es[..|es| - 1];
      var x := es[|es| - 1];
      assert es == init + [x];
      DetectConflictsAllPairs(init);
      DayOrderCovers(init);
      if x.day in DayOrder(init) {
        GroupsAppend(DayOrder(init), init, x);
      } else {
        GroupsSnoc(DayOrder(init), x.day, es);
        GroupsUnchanged(DayOrder(init), init, x);
        OnDayAppend(init, x, x.day);
        OnDayAbsent(init, x.day);
        assert OnDay(es, x.day) == [x];
        forall i | 0 <= i < |init|
          ensures !Overlaps(init[i], x)
        {
          assert init[i].day in DayOrder(init);
        }
        AgainstNoneOverlap(init, x);
      }
    }
  }

  /**
   * What `_detect_conflicts` reports: every record pairs an entry with a later
   * entry of the same list that it overlaps, on that entry's day, classified by
   * whether they share a trainer; for distinct entries each overlapping pair is
   * reported exactly once; and the report is empty exactly when no two entries
   * overlap.
   */
  lemma DetectConflictsSpec(es: seq<Entry>)
    ensures forall c :: c in DetectConflicts(es) ==>
      exists i, j :: 0 <= i < j < |es| && Overlaps(es[i], es[j]) && c == Record(es[i], es[j])
    ensures Distinct(es) ==> forall i, j :: 0 <= i < j < |es| && Overlaps(es[i], es[j]) ==>
      multiset(DetectConflicts(es))[Record(es[i], es[j])] == 1
    ensures DetectConflicts(es) == [] <==> ConflictFree(es)
    ensures es == [] ==> DetectConflicts(es) == []
  {
    DetectConflictsAllPairs(es);
    forall c | c in DetectConflicts(es)
      ensures exists i, j :: 0 <= i < j < |es| && Overlaps(es[i], es[j]) && c == Record(es[i], es[j])
    {
      assert c in multiset(AllPairs(es));
      AllPairsMembers(es, c);
    }
    if Distinct(es) {
      forall i, j | 0 <= i < j < |es| && Overlaps(es[i], es[j])
        ensures multiset(DetectConflicts(es))[Record(es[i], es[j])] == 1
      {
        AllPairsOnce(es, i, j);
      }
    }
    AllPairsEmpty(es);
    assert DetectConflicts(es) == [] <==> AllPairs(es) == [] by {
      assert |multiset(DetectConflicts(es))| == |DetectConflicts(es)|;
      assert |multiset(AllPairs(es))| == |AllPairs(es)|;
    }
  }

  /** Each record's kind: a trainer conflict exactly when both entries share the trainer. */
  lemma RecordKind(a: Entry, b: Entry)
    ensures Record(a, b).kind == TrainerClash <==> a.trainerId == b.trainerId
    ensures Record(a, b).day == a.day
  {
  }
}
