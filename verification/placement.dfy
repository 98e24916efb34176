/**
 * The blocks the allocator of scheduler.py places: a trainer, a subject, a
 * day of the week and a run of consecutive slots of the canonical grid. A
 * placement becomes a `Schedule` row with the times of its first and last
 * slot.
 */
module Placements {
  import opened Common
  import opened TimeGrid
  import opened Records
  import opened Audit

  /** A block of `size` slots starting at slot `slot` of day number `day`. */
  datatype Placement = Placement(trainerId: int, subjectId: int, day: nat, slot: nat, size: nat)

  /** The block is non-empty and lies inside one working day. */
  predicate FitsInDay(p: Placement) {
    p.day < NumDays && 1 <= p.size && p.slot + p.size <= SlotsPerDay
  }

  /** Slot `k` of day `d` is one of the block's cells. */
  predicate Covers(p: Placement, d: nat, k: nat) {
    p.day == d && p.slot <= k < p.slot + p.size
  }

  /** The two blocks share no cell. */
  predicate Apart(p: Placement, q: Placement) {
    p.day != q.day || p.slot + p.size <= q.slot || q.slot + q.size <= p.slot
  }

  ghost predicate AllFit(ps: seq<Placement>) {
    forall i :: 0 <= i < |ps| ==> FitsInDay(ps[i])
  }

  /** No two placements share a cell. */
  ghost predicate Disjoint(ps: seq<Placement>) {
    forall i, j :: 0 <= i < j < |ps| ==> Apart(ps[i], ps[j])
  }

  /** Slot `k` of day `d` is a cell of some block of `ps`. */
  ghost predicate Taken(ps: seq<Placement>, d: nat, k: nat) {
    exists i :: 0 <= i < |ps| && Covers(ps[i], d, k)
  }

  /** Subject `id` already has a block on day `d`. */
  ghost predicate DayUsed(ps: seq<Placement>, id: int, d: nat) {
    exists i :: 0 <= i < |ps| && ps[i].subjectId == id && ps[i].day == d
  }

  /** Some cell of the `size` slots from slot `k` of day `d` is taken. */
  ghost predicate Blocked(ps: seq<Placement>, d: nat, k: nat, size: int) {
    exists c: nat :: k <= c < k + size && Taken(ps, d, c)
  }

  /**
   * No run of `size` consecutive free slots is left on any day that subject
   * `id` does not use yet.
   */
  ghost predicate NoRoom(ps: seq<Placement>, id: int, size: int) {
    forall d: nat, k: nat :: d < NumDays && k + size <= SlotsPerDay && !DayUsed(ps, id, d) ==> Blocked(ps, d, k, size)
  }

  /** Two blocks are apart exactly when no slot is a cell of both. */
  lemma ApartCells(p: Placement, q: Placement)
    requires 1 <= p.size && 1 <= q.size
    ensures Apart(p, q) <==> forall k :: !(Covers(p, p.day, k) && Covers(q, p.day, k))
  {
    if !Apart(p, q) {
      var k := if p.slot < q.slot then q.slot else p.slot;
      assert Covers(p, p.day, k) && Covers(q, p.day, k);
    }
  }

  /** The `Schedule` row of a placement; the section is left empty. */
  function ToEntry(p: Placement, id: int): (e: Entry)
    requires FitsInDay(p)
    ensures e.day == Days[p.day] && e.trainerId == p.trainerId && e.subjectId == p.subjectId
    ensures e.start == StartTime + 60 * p.slot
    ensures e.end == StartTime + 60 * (p.slot + p.size) - BreakMinutes
  {
    BlockTimes(p.slot, p.size);
    Entry(id, p.trainerId, p.subjectId, Days[p.day], BlockStart(p.slot) as nat, BlockEnd(p.slot, p.size) as nat, "")
  }

  /** The rows of a run, numbered from one in creation order. */
  function EntriesOf(ps: seq<Placement>): (es: seq<Entry>)
    requires AllFit(ps)
    ensures |es| == |ps|
    ensures forall i :: 0 <= i < |ps| ==> es[i].id == i + 1 && es[i].section == ""
    ensures forall i :: 0 <= i < |ps| ==>
      es[i].day == Days[ps[i].day] && es[i].trainerId == ps[i].trainerId && es[i].subjectId == ps[i].subjectId
    ensures forall i :: 0 <= i < |ps| ==>
      es[i].start == StartTime + 60 * ps[i].slot && es[i].end == StartTime + 60 * (ps[i].slot + ps[i].size) - BreakMinutes
  {
    seq(|ps|, i requires 0 <= i < |ps| => ToEntry(ps[i], i + 1))
  }

  /** Two placed blocks are apart exactly when their rows do not overlap. */
  lemma ApartIffNoOverlap(p: Placement, q: Placement, a: int, b: int)
    requires FitsInDay(p) && FitsInDay(q)
    ensures Apart(p, q) <==> !Overlaps(ToEntry(p, a), ToEntry(q, b))
  {
    DaysDistinct();
    var e, f := ToEntry(p, a), ToEntry(q, b);
    assert e.day == f.day <==> p.day == q.day;
    assert e.start < f.end <==> p.slot < q.slot + q.size;
    assert f.start < e.end <==> q.slot < p.slot + p.size;
  }

  /**
   * A run whose blocks fit the grid and share no cell produces rows the
   * conflict audit has nothing to report about.
   */
  lemma EntriesConflictFree(ps: seq<Placement>)
    requires AllFit(ps) && Disjoint(ps)
    ensures ConflictFree(EntriesOf(ps))
    ensures DetectConflicts(EntriesOf(ps)) == []
  {
    var es := EntriesOf(ps);
    forall i, j | 0 <= i < j < |es|
      ensures !Overlaps(es[i], es[j])
    {
      assert es[i] == ToEntry(ps[i], i + 1) && es[j] == ToEntry(ps[j], j + 1);
      ApartIffNoOverlap(ps[i], ps[j], i + 1, j + 1);
    }
    DetectConflictsSpec(es);
  }

  /** The slots placed for one subject, over the whole run. */
  function Placed(ps: seq<Placement>, subjectId: int): (n: nat)
    ensures n == 0 <== forall i :: 0 <= i < |ps| ==> ps[i].subjectId != subjectId
  {
    if |ps| == 0 then 0
    else Placed(ps[..|ps| - 1], subjectId) + (if ps[|ps| - 1].subjectId == subjectId then ps[|ps| - 1].size else 0)
  }

  /** The slots assigned to one trainer, over the whole run. */
  function Load(ps: seq<Placement>, trainerId: int): (n: nat)
    ensures n == 0 <== forall i :: 0 <= i < |ps| ==> ps[i].trainerId != trainerId
  {
    if |ps| == 0 then 0
    else Load(ps[..|ps| - 1], trainerId) + (if ps[|ps| - 1].trainerId == trainerId then ps[|ps| - 1].size else 0)
  }
}
