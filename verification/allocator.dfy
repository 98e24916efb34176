/**
 * `auto_schedule` of scheduler.py without its database calls: the profiles
 * and subjects are parameters, and the rows it would add are returned as
 * placements together with the warnings.
 *
 * The run walks the subject plan. For each subject it repeatedly sorts the
 * qualified profiles by load, takes the first with capacity left, and scans
 * the thirty cells of the week cyclically from a shared cursor for a block
 * on a day this subject does not use yet, whose cells are free and whose
 * trainer is not busy there.
 */
module Allocator {
  import opened Common
  import opened Text
  import opened TimeGrid
  import opened Records
  import opened Audit
  import opened Placements
  import opened Ordering

  /** `len(DAYS) * slots_per_day`: the cells of one week. */
  const TotalSlots: nat := NumDays * SlotsPerDay

  /** The warnings of a run; each names the subject it is about, as the message does. */
  datatype Warning =
    | NoTrainers
    | NoSubjects
    | NoQualifiedTrainer(subject: string)
    | CapacityExhausted(subject: string)
    | InsufficientSlots(subject: string)

  /** A warning about the subject called `name`. */
  predicate About(w: Warning, name: string) {
    (w.NoQualifiedTrainer? || w.CapacityExhausted? || w.InsufficientSlots?) && w.subject == name
  }

  /** `_normalize(subject.name)`: the form a subject takes in the profiles' subject sets. */
  function Key(s: Subject): string {
    Normalize(Some(s.name))
  }

  /** `_normalize(subject.name) in profile["subjects"]`, given the subject's key. */
  predicate Qualified(pr: Profile, key: string) {
    key in pr.subjects
  }

  // ---------------------------------------------------------------------------
  // The scan

  /**
   * `_block_available`: no cell of the block is occupied and the trainer is
   * busy in none of them.
   */
  function BlockAvailable(day: nat, slot: nat, size: nat, trainerId: int,
                          occupied: set<(nat, nat)>, busy: set<(int, nat, nat)>): (r: bool)
    ensures r <==> forall k :: slot <= k < slot + size ==> (day, k) !in occupied && (trainerId, day, k) !in busy
    decreases size
  {
    if size == 0 then true
    else if (day, slot) in occupied then false
    else if (trainerId, day, slot) in busy then false
    else BlockAvailable(day, slot + 1, size - 1, trainerId, occupied, busy)
  }

  /** The scan accepts the cell at `offset` (day `offset / 6`, slot `offset % 6`) as the block's start. */
  predicate Fits(offset: nat, size: nat, usedDays: set<nat>, trainerId: int,
                 occupied: set<(nat, nat)>, busy: set<(int, nat, nat)>) {
    var day, slot := offset / SlotsPerDay, offset % SlotsPerDay;
    slot + size <= SlotsPerDay && day !in usedDays && BlockAvailable(day, slot, size, trainerId, occupied, busy)
  }

  /** An accepted offset names a block inside one day, on an unused day, with free cells. */
  lemma FitsAt(offset: nat, size: nat, usedDays: set<nat>, trainerId: int,
               occupied: set<(nat, nat)>, busy: set<(int, nat, nat)>)
    requires offset < TotalSlots && 1 <= size
    requires Fits(offset, size, usedDays, trainerId, occupied, busy)
    ensures FitsInDay(Placement(trainerId, 0, offset / SlotsPerDay, offset % SlotsPerDay, size))
    ensures offset / SlotsPerDay !in usedDays
    ensures BlockAvailable(offset / SlotsPerDay, offset % SlotsPerDay, size, trainerId, occupied, busy)
  {
  }

  /** The offset tried at attempt `a`: `(slot_cursor + attempt) % total_slots`. */
  function Attempt(cursor: nat, a: nat): nat {
    (cursor + a) % TotalSlots
  }

  lemma Rotate(cursor: nat, offset: nat)
    requires cursor < TotalSlots && offset < TotalSlots
    ensures 0 <= (offset - cursor) % TotalSlots < TotalSlots
    ensures (cursor + (offset - cursor) % TotalSlots) % TotalSlots == offset
  {
    if offset >= cursor {
      assert (offset - cursor) % TotalSlots == offset - cursor;
    } else {
      assert (offset - cursor) % TotalSlots == offset - cursor + TotalSlots;
      assert (offset + TotalSlots) % TotalSlots == offset;
    }
  }

  lemma RotateBack(cursor: nat, attempt: nat)
    requires cursor < TotalSlots && attempt < TotalSlots
    ensures ((cursor + attempt) % TotalSlots - cursor) % TotalSlots == attempt
  {
    if cursor + attempt < TotalSlots {
      assert (cursor + attempt) % TotalSlots == cursor + attempt;
    } else {
      assert (cursor + attempt) % TotalSlots == cursor + attempt - TotalSlots;
      assert (attempt - TotalSlots) % TotalSlots == attempt;
    }
  }

  /**
   * `offset` is where the scan from `cursor` stops: the block fits there and
   * at none of the offsets tried before it, going round the week.
   */
  ghost predicate FirstFrom(cursor: nat, offset: nat, size: nat, usedDays: set<nat>, trainerId: int,
                            occupied: set<(nat, nat)>, busy: set<(int, nat, nat)>) {
    && offset < TotalSlots
    && Fits(offset, size, usedDays, trainerId, occupied, busy)
    && forall a: nat :: a < (offset - cursor) % TotalSlots ==> !Fits(Attempt(cursor, a), size, usedDays, trainerId, occupied, busy)
  }

  /**
   * The `for attempt in range(total_slots)` scan: the first offset, going
   * round the week from the cursor, where the block fits; none when it fits
   * nowhere.
   */
  method ScanForBlock(cursor: nat, size: nat, usedDays: set<nat>, trainerId: int,
                      occupied: set<(nat, nat)>, busy: set<(int, nat, nat)>) returns (found: Option<nat>)
    requires cursor < TotalSlots
    ensures found.Some? ==> FirstFrom(cursor, found.value, size, usedDays, trainerId, occupied, busy)
    ensures found.None? <==> forall o :: 0 <= o < TotalSlots ==> !Fits(o, size, usedDays, trainerId, occupied, busy)
  {
    var attempt := 0;
    while attempt < TotalSlots
      invariant attempt <= TotalSlots
      invariant forall a: nat :: a < attempt ==> !Fits(Attempt(cursor, a), size, usedDays, trainerId, occupied, busy)
    {
      var offset := Attempt(cursor, attempt);
      var day, slot := offset / SlotsPerDay, offset % SlotsPerDay;
      if slot + size <= SlotsPerDay && day !in usedDays && BlockAvailable(day, slot, size, trainerId, occupied, busy) {
        RotateBack(cursor, attempt);
        assert Fits(offset, size, usedDays, trainerId, occupied, busy);
        return Some(offset);
      }
      attempt := attempt + 1;
    }
    forall o | 0 <= o < TotalSlots
      ensures !Fits(o, size, usedDays, trainerId, occupied, busy)
    {
      Rotate(cursor, o);
      var a: nat := (o - cursor) % TotalSlots;
      assert Attempt(cursor, a) == o;
    }
    return None;
  }

  // ---------------------------------------------------------------------------
  // The state of a run

  /**
   * `assigned` per trainer profile (in roster order), the `occupancy` and
   * `trainer_busy` tables, `slot_cursor`, and the blocks placed so far.
   */
  datatype Run = Run(load: seq<int>, occupied: set<(nat, nat)>, busy: set<(int, nat, nat)>,
                     cursor: nat, placements: seq<Placement>)

  /** Every placed block fits the grid, no two share a cell, and the tables record their cells. */
  ghost predicate CellsRecorded(r: Run) {
    && AllFit(r.placements) && Disjoint(r.placements)
    && (forall i, k: nat :: 0 <= i < |r.placements| && Covers(r.placements[i], r.placements[i].day, k) ==>
          (r.placements[i].day, k) in r.occupied)
    && (forall t, d, k :: (t, d, k) in r.busy ==> (d, k) in r.occupied)
    && (forall d, k :: (d, k) in r.occupied ==> Taken(r.placements, d, k))
  }

  /** `assigned` is the number of slots placed for each trainer. */
  ghost predicate LoadsRecorded(profiles: seq<Profile>, r: Run) {
    && |r.load| == |profiles|
    && forall p :: 0 <= p < |profiles| ==> r.load[p] == Load(r.placements, profiles[p].id)
  }

  ghost predicate Good(profiles: seq<Profile>, r: Run) {
    r.cursor < TotalSlots && CellsRecorded(r) && LoadsRecorded(profiles, r)
  }

  /** Each subject has at most one block per day. */
  ghost predicate OnePerDay(ps: seq<Placement>) {
    forall i, j :: 0 <= i < j < |ps| && ps[i].subjectId == ps[j].subjectId ==> ps[i].day != ps[j].day
  }

  /**
   * Block `x` of subject `s`, placed after `before`, went to a qualified
   * trainer with capacity left and no more load than any other qualified
   * trainer with capacity left; its length is the subject's block size, or
   * what is still missing of its weekly load when that is less.
   */
  ghost predicate Chosen(profiles: seq<Profile>, s: Subject, key: string, before: seq<Placement>, x: Placement) {
    && x.subjectId == s.id
    && 1 <= x.size <= BlockSize(s)
    && x.size == Min(BlockSize(s), Need(s) - Placed(before, s.id))
    && (exists p :: 0 <= p < |profiles| && profiles[p].id == x.trainerId)
    && (forall p :: 0 <= p < |profiles| && profiles[p].id == x.trainerId ==>
          Qualified(profiles[p], key) && Load(before, x.trainerId) < profiles[p].capacity)
    && (forall q :: 0 <= q < |profiles| && Qualified(profiles[q], key) && Load(before, profiles[q].id) < profiles[q].capacity ==>
          Load(before, x.trainerId) <= Load(before, profiles[q].id))
  }

  /** The cells a placement marks in `occupancy` and in `trainer_busy`. */
  function BlockCells(x: Placement): set<(nat, nat)> {
    set k: nat | x.slot <= k < x.slot + x.size :: (x.day, k)
  }

  function BusyCells(x: Placement): set<(int, nat, nat)> {
    set k: nat | x.slot <= k < x.slot + x.size :: (x.trainerId, x.day, k)
  }

  /** Recording a block: mark its cells, add its length to the trainer's load, move the cursor past it. */
  function Commit(r: Run, x: Placement, p: nat, offset: nat): Run
    requires p < |r.load|
  {
    Run(r.load[p := r.load[p] + x.size], r.occupied + BlockCells(x), r.busy + BusyCells(x),
        (offset + x.size) % TotalSlots, r.placements + [x])
  }

  /** Recording a block appends it and moves the cursor to the cell after it. */
  lemma CommitMoves(r: Run, x: Placement, p: nat, offset: nat)
    requires p < |r.load| && Offset(x) == offset
    ensures Commit(r, x, p, offset).placements == r.placements + [x]
    ensures Commit(r, x, p, offset).cursor == After(x)
  {
  }

  lemma Snoc(ps: seq<Placement>, x: Placement)
    ensures forall k :: 0 <= k <= |ps| ==> (ps + [x])[..k] == ps[..k]
    ensures forall id :: Load(ps + [x], id) == Load(ps, id) + (if x.trainerId == id then x.size else 0)
    ensures forall id :: Placed(ps + [x], id) == Placed(ps, id) + (if x.subjectId == id then x.size else 0)
  {
    assert (ps + [x])[..|ps|] == ps;
  }

  lemma CommitCells(r: Run, x: Placement, p: nat, offset: nat)
    requires CellsRecorded(r) && p < |r.load|
    requires FitsInDay(x)
    requires BlockAvailable(x.day, x.slot, x.size, x.trainerId, r.occupied, r.busy)
    ensures CellsRecorded(Commit(r, x, p, offset))
  {
    var ps := r.placements;
    var r' := Commit(r, x, p, offset);
    var ps' := r'.placements;
    forall i | 0 <= i < |ps|
      ensures Apart(ps[i], x)
    {
      forall k: nat
        ensures !(Covers(ps[i], ps[i].day, k) && Covers(x, ps[i].day, k))
      {
        if Covers(ps[i], ps[i].day, k) {
          assert (ps[i].day, k) in r.occupied;
        }
      }
      ApartCells(ps[i], x);
    }
    assert Disjoint(ps') by {
      forall i, j | 0 <= i < j < |ps'|
        ensures Apart(ps'[i], ps'[j])
      {
        if j < |ps| {
          assert ps'[i] == ps[i] && ps'[j] == ps[j];
        } else {
          assert ps'[i] == ps[i] && ps'[j] == x;
        }
      }
    }
    forall i, k: nat | 0 <= i < |ps'| && Covers(ps'[i], ps'[i].day, k)
      ensures (ps'[i].day, k) in r'.occupied
    {
      if i < |ps| {
        assert ps'[i] == ps[i];
      } else {
        assert (x.day, k) in BlockCells(x);
      }
    }
    forall d, k | (d, k) in r'.occupied
      ensures Taken(ps', d, k)
    {
      if (d, k) in r.occupied {
        var i :| 0 <= i < |ps| && Covers(ps[i], d, k);
        assert ps'[i] == ps[i];
      } else {
        assert (d, k) in BlockCells(x);
        assert Covers(ps'[|ps|], d, k);
      }
    }
  }

  lemma CommitLoads(profiles: seq<Profile>, r: Run, x: Placement, p: nat, offset: nat)
    requires UniqueProfileIds(profiles) && LoadsRecorded(profiles, r)
    requires p < |profiles| && profiles[p].id == x.trainerId
    ensures LoadsRecorded(profiles, Commit(r, x, p, offset))
  {
    Snoc(r.placements, x);
  }

  /** The trainer check of `_block_available` never decides anything: busy cells are occupied cells. */
  lemma BusyIsOccupied(r: Run, day: nat, slot: nat, size: nat, trainerId: int)
    requires CellsRecorded(r)
    ensures BlockAvailable(day, slot, size, trainerId, r.occupied, r.busy) <==>
      forall k :: slot <= k < slot + size ==> (day, k) !in r.occupied
  {
  }

  // ---------------------------------------------------------------------------
  // One subject

  /** `eligible_profiles`: the profiles, in roster order, whose trainer is qualified for `s`. */
  function Eligible(profiles: seq<Profile>, key: string, n: nat): (r: seq<nat>)
    requires n <= |profiles|
    ensures forall k :: 0 <= k < |r| ==> r[k] < n && Qualified(profiles[r[k]], key)
    ensures forall p :: 0 <= p < n && Qualified(profiles[p], key) ==> p in r
  {
    if n == 0 then []
    else Eligible(profiles, key, n - 1) + (if Qualified(profiles[n - 1], key) then [n - 1] else [])
  }

  /** Any arrangement of the eligible profiles lists exactly the qualified ones. */
  lemma OrderFacts(profiles: seq<Profile>, key: string, eligible: seq<nat>, order: seq<nat>, load: seq<int>)
    requires |load| == |profiles|
    requires eligible == Eligible(profiles, key, |profiles|)
    requires multiset(order) == multiset(eligible)
    ensures Indices(order, load)
    ensures forall k :: 0 <= k < |order| ==> order[k] < |profiles| && Qualified(profiles[order[k]], key)
    ensures forall q :: 0 <= q < |profiles| && Qualified(profiles[q], key) ==> q in order
  {
    forall k | 0 <= k < |order|
      ensures order[k] < |profiles| && Qualified(profiles[order[k]], key)
    {
      assert order[k] in multiset(eligible);
    }
    forall q | 0 <= q < |profiles| && Qualified(profiles[q], key)
      ensures q in order
    {
      assert q in multiset(eligible);
    }
  }

  /**
   * The blocks of one subject placed after `start`: the earlier blocks are
   * kept, each new one was fairly chosen, the days recorded as used hold all
   * of the subject's blocks, and `remaining` is what is still missing.
   */
  ghost predicate History(profiles: seq<Profile>, s: Subject, key: string, start: seq<Placement>, ps: seq<Placement>,
                          usedDays: set<nat>, remaining: int) {
    && |start| <= |ps| && ps[..|start|] == start
    && (forall i :: |start| <= i < |ps| ==> Chosen(profiles, s, key, ps[..i], ps[i]))
    && (forall i :: 0 <= i < |ps| && ps[i].subjectId == s.id ==> ps[i].day in usedDays)
    && OnePerDay(ps)
    && 0 <= remaining && Placed(ps, s.id) + remaining == Need(s)
    && (forall d :: d in usedDays ==> DayUsed(ps, s.id, d))
  }

  /** What holds while one subject's blocks are being placed, starting from `start`. */
  ghost predicate Progress(profiles: seq<Profile>, s: Subject, key: string, start: Run, r: Run, usedDays: set<nat>, remaining: int) {
    Good(profiles, r) && History(profiles, s, key, start.placements, r.placements, usedDays, remaining)
  }

  /** The eligible profiles re-sorted by load: every qualified profile, in ascending load. */
  ghost predicate Lineup(profiles: seq<Profile>, key: string, order: seq<nat>, load: seq<int>) {
    && |load| == |profiles|
    && Indices(order, load) && Ascending(order, load)
    && (forall k :: 0 <= k < |order| ==> order[k] < |profiles| && Qualified(profiles[order[k]], key))
    && (forall q :: 0 <= q < |profiles| && Qualified(profiles[q], key) ==> q in order)
  }

  /** The trainer taken from a load-sorted list of all qualified profiles is a fair choice. */
  lemma ChoiceIsFair(profiles: seq<Profile>, s: Subject, key: string, r: Run, order: seq<nat>, pick: nat, x: Placement)
    requires UniqueProfileIds(profiles) && LoadsRecorded(profiles, r)
    requires Lineup(profiles, key, order, r.load)
    requires PickTrainer(order, profiles, r.load) == Some(pick)
    requires x.trainerId == profiles[order[pick]].id && x.subjectId == s.id && 1 <= x.size <= BlockSize(s)
    requires x.size == Min(BlockSize(s), Need(s) - Placed(r.placements, s.id))
    ensures Chosen(profiles, s, key, r.placements, x)
  {
    var p := order[pick];
    var ps := r.placements;
    assert HasRoom(profiles, r.load, p) && Qualified(profiles[p], key);
    assert r.load[p] == Load(ps, x.trainerId);
    forall p' | 0 <= p' < |profiles| && profiles[p'].id == x.trainerId
      ensures Qualified(profiles[p'], key) && Load(ps, x.trainerId) < profiles[p'].capacity
    {
      assert p' == p;
    }
    PickLeastLoaded(order, profiles, r.load);
    forall q | 0 <= q < |profiles| && Qualified(profiles[q], key) && Load(ps, profiles[q].id) < profiles[q].capacity
      ensures Load(ps, x.trainerId) <= Load(ps, profiles[q].id)
    {
      var k :| 0 <= k < |order| && order[k] == q;
      assert HasRoom(profiles, r.load, order[k]);
    }
  }

  /** Block `x` is what one pass of the loop places: the picked trainer's, on an unused day, in free cells. */
  ghost predicate NextBlock(profiles: seq<Profile>, s: Subject, key: string, r: Run, usedDays: set<nat>, remaining: int,
                            order: seq<nat>, pick: nat, x: Placement) {
    && Lineup(profiles, key, order, r.load)
    && PickTrainer(order, profiles, r.load) == Some(pick)
    && x.trainerId == profiles[order[pick]].id && x.subjectId == s.id && x.size == Min(BlockSize(s), remaining)
    && FitsInDay(x) && x.day !in usedDays
    && BlockAvailable(x.day, x.slot, x.size, x.trainerId, r.occupied, r.busy)
  }

  /** Recording the next block keeps the tables and the loads sound. */
  lemma StepGood(profiles: seq<Profile>, s: Subject, key: string, r: Run, usedDays: set<nat>, remaining: int,
                 order: seq<nat>, pick: nat, x: Placement, offset: nat)
    requires UniqueProfileIds(profiles) && Good(profiles, r)
    requires NextBlock(profiles, s, key, r, usedDays, remaining, order, pick, x)
    ensures Good(profiles, Commit(r, x, order[pick], offset))
  {
    CommitCells(r, x, order[pick], offset);
    CommitLoads(profiles, r, x, order[pick], offset);
  }

  /** Appending a fairly chosen block of the subject on a day it does not use yet extends its history. */
  lemma StepHistory(profiles: seq<Profile>, s: Subject, key: string, start: seq<Placement>, ps: seq<Placement>,
                    usedDays: set<nat>, remaining: int, x: Placement)
    requires History(profiles, s, key, start, ps, usedDays, remaining)
    requires Chosen(profiles, s, key, ps, x) && x.day !in usedDays && x.size <= remaining
    ensures History(profiles, s, key, start, ps + [x], usedDays + {x.day}, remaining - x.size)
  {
    Snoc(ps, x);
    assert (ps + [x])[..|start|] == start by {
      assert (ps + [x])[..|ps|] == ps;
      assert ps[..|start|] == start;
    }
    ChosenSnoc(profiles, s, key, |start|, ps, x);
    DaySnoc(ps, x, s.id, usedDays);
    DayUsedSnoc(ps, x, s.id, usedDays);
  }

  lemma DayUsedSnoc(ps: seq<Placement>, x: Placement, id: int, usedDays: set<nat>)
    requires x.subjectId == id
    requires forall d :: d in usedDays ==> DayUsed(ps, id, d)
    ensures forall d :: d in usedDays + {x.day} ==> DayUsed(ps + [x], id, d)
  {
    forall d | d in usedDays + {x.day}
      ensures DayUsed(ps + [x], id, d)
    {
      if d == x.day {
        assert (ps + [x])[|ps|] == x;
      } else {
        var i :| 0 <= i < |ps| && ps[i].subjectId == id && ps[i].day == d;
        assert (ps + [x])[i] == ps[i];
      }
    }
  }

  /** One placed block keeps the loop's promises. */
  lemma StepKeeps(profiles: seq<Profile>, s: Subject, key: string, start: Run, r: Run, usedDays: set<nat>, remaining: int,
                  order: seq<nat>, pick: nat, x: Placement, offset: nat)
    requires UniqueProfileIds(profiles)
    requires Progress(profiles, s, key, start, r, usedDays, remaining) && remaining > 0
    requires NextBlock(profiles, s, key, r, usedDays, remaining, order, pick, x)
    ensures Progress(profiles, s, key, start, Commit(r, x, order[pick], offset), usedDays + {x.day}, remaining - x.size)
  {
    StepGood(profiles, s, key, r, usedDays, remaining, order, pick, x, offset);
    ChoiceIsFair(profiles, s, key, r, order, pick, x);
    StepHistory(profiles, s, key, start.placements, r.placements, usedDays, remaining, x);
  }

  lemma ChosenSnoc(profiles: seq<Profile>, s: Subject, key: string, from: nat, ps: seq<Placement>, x: Placement)
    requires from <= |ps|
    requires forall i :: from <= i < |ps| ==> Chosen(profiles, s, key, ps[..i], ps[i])
    requires Chosen(profiles, s, key, ps, x)
    ensures forall i :: from <= i < |ps + [x]| ==> Chosen(profiles, s, key, (ps + [x])[..i], (ps + [x])[i])
  {
    var ps' := ps + [x];
    forall i | from <= i < |ps'|
      ensures Chosen(profiles, s, key, ps'[..i], ps'[i])
    {
      if i < |ps| {
        assert ps'[..i] == ps[..i] && ps'[i] == ps[i];
      } else {
        assert ps'[..i] == ps && ps'[i] == x;
      }
    }
  }

  /** A block on a day its subject does not use yet keeps one block per subject and day. */
  lemma DaySnoc(ps: seq<Placement>, x: Placement, id: int, usedDays: set<nat>)
    requires OnePerDay(ps)
    requires forall i :: 0 <= i < |ps| && ps[i].subjectId == id ==> ps[i].day in usedDays
    requires x.subjectId == id && x.day !in usedDays
    ensures OnePerDay(ps + [x])
    ensures forall i :: 0 <= i < |ps + [x]| && (ps + [x])[i].subjectId == id ==> (ps + [x])[i].day in usedDays + {x.day}
  {
    var ps' := ps + [x];
    forall i, j | 0 <= i < j < |ps'| && ps'[i].subjectId == ps'[j].subjectId
      ensures ps'[i].day != ps'[j].day
    {
      if j < |ps| {
        assert ps'[i] == ps[i] && ps'[j] == ps[j];
      } else {
        assert ps'[i] == ps[i] && ps[i].subjectId == id;
      }
    }
    forall i | 0 <= i < |ps'| && ps'[i].subjectId == id
      ensures ps'[i].day in usedDays + {x.day}
    {
      if i < |ps| {
        assert ps'[i] == ps[i];
      }
    }
  }

  /** Every trainer qualified for the subject with key `key` has reached capacity. */
  ghost predicate Full(profiles: seq<Profile>, key: string, ps: seq<Placement>) {
    forall p :: 0 <= p < |profiles| && Qualified(profiles[p], key) ==> Load(ps, profiles[p].id) >= profiles[p].capacity
  }

  /** No trainer is qualified for the subject with key `key`. */
  ghost predicate NoneQualified(profiles: seq<Profile>, key: string) {
    forall p :: 0 <= p < |profiles| ==> !Qualified(profiles[p], key)
  }

  /**
   * Subject `s` is short of slots after `ps`: a qualified trainer still has
   * capacity, yet no run of its next block's length is free on any day it
   * does not use yet.
   */
  ghost predicate Stuck(profiles: seq<Profile>, s: Subject, key: string, ps: seq<Placement>) {
    && (exists p :: 0 <= p < |profiles| && Qualified(profiles[p], key) && Load(ps, profiles[p].id) < profiles[p].capacity)
    && NoRoom(ps, s.id, Min(BlockSize(s), Need(s) - Placed(ps, s.id)))
  }

  /**
   * When the scan finds no offset, every block of that length on a day the
   * subject does not use meets a cell some placed block covers.
   */
  lemma NoFitNoRoom(r: Run, id: int, usedDays: set<nat>, size: nat, trainerId: int)
    requires CellsRecorded(r) && 1 <= size
    requires forall d :: d in usedDays ==> DayUsed(r.placements, id, d)
    requires forall o :: 0 <= o < TotalSlots ==> !Fits(o, size, usedDays, trainerId, r.occupied, r.busy)
    ensures NoRoom(r.placements, id, size)
  {
    forall d: nat, k: nat | d < NumDays && k + size <= SlotsPerDay && !DayUsed(r.placements, id, d)
      ensures Blocked(r.placements, d, k, size)
    {
      var o := d * SlotsPerDay + k;
      assert o / SlotsPerDay == d && o % SlotsPerDay == k;
      assert !Fits(o, size, usedDays, trainerId, r.occupied, r.busy);
      assert !BlockAvailable(d, k, size, trainerId, r.occupied, r.busy);
      var c :| k <= c < k + size && ((d, c) in r.occupied || (trainerId, d, c) in r.busy);
      assert (d, c) in r.occupied;
      assert Taken(r.placements, d, c);
    }
  }

  /** When the scan finds no block for a picked trainer with room left, the subject is stuck. */
  lemma StuckWhenNoFit(profiles: seq<Profile>, s: Subject, key: string, r: Run, usedDays: set<nat>,
                       remaining: int, p: nat)
    requires CellsRecorded(r) && LoadsRecorded(profiles, r)
    requires forall d :: d in usedDays ==> DayUsed(r.placements, s.id, d)
    requires remaining > 0 && Placed(r.placements, s.id) + remaining == Need(s)
    requires p < |profiles| && Qualified(profiles[p], key) && HasRoom(profiles, r.load, p)
    requires forall o :: 0 <= o < TotalSlots ==>
      !Fits(o, Min(BlockSize(s), remaining), usedDays, profiles[p].id, r.occupied, r.busy)
    ensures Stuck(profiles, s, key, r.placements)
  {
    NoFitNoRoom(r, s.id, usedDays, Min(BlockSize(s), remaining), profiles[p].id);
    assert Load(r.placements, profiles[p].id) < profiles[p].capacity;
  }

  /** The offset of a block's first cell in the week's `total_slots` cells, day by day. */
  function Offset(x: Placement): nat {
    x.day * SlotsPerDay + x.slot
  }

  /** Where the scan resumes after block `x`: `(offset + block_size_needed) % total_slots`. */
  function After(x: Placement): nat {
    (Offset(x) + x.size) % TotalSlots
  }

  /**
   * Block `x` starts at the first offset, going round the week from the
   * run's cursor, where a block of its length and trainer fits.
   */
  ghost predicate FirstFit(r: Run, usedDays: set<nat>, x: Placement) {
    FirstFrom(r.cursor, Offset(x), x.size, usedDays, x.trainerId, r.occupied, r.busy)
  }

  /** The offset the scan returns is the first fit of the block that starts there. */
  lemma FoundFirst(r: Run, usedDays: set<nat>, offset: nat, x: Placement)
    requires FirstFrom(r.cursor, offset, x.size, usedDays, x.trainerId, r.occupied, r.busy)
    requires x.day == offset / SlotsPerDay && x.slot == offset % SlotsPerDay
    ensures Offset(x) == offset && FirstFit(r, usedDays, x)
  {
  }

  /**
   * One pass of the `while slots_remaining > 0` loop: re-sort the eligible
   * profiles by load, take the first with capacity left, and scan for a block
   * of `min(block_size, slots_remaining)` slots for it. It stops with a
   * warning, leaving the state as it was, when no trainer has capacity left
   * or when no block fits.
   */
  method PlaceBlock(profiles: seq<Profile>, s: Subject, key: string, eligible: seq<nat>, start: Run, r: Run,
                    usedDays: set<nat>, remaining: int, order: seq<nat>)
    returns (r': Run, usedDays': set<nat>, remaining': int, order': seq<nat>, block: Placement, stop: Option<Warning>)
    requires UniqueProfileIds(profiles)
    requires Progress(profiles, s, key, start, r, usedDays, remaining) && remaining > 0
    requires eligible == Eligible(profiles, key, |profiles|)
    requires multiset(order) == multiset(eligible)
    ensures Progress(profiles, s, key, start, r', usedDays', remaining')
    ensures multiset(order') == multiset(eligible)
    ensures stop.None? ==> remaining' < remaining
    ensures stop.Some? ==> r' == r && remaining' == remaining
    ensures stop.Some? ==> stop == Some(CapacityExhausted(s.name)) || stop == Some(InsufficientSlots(s.name))
    ensures stop == Some(CapacityExhausted(s.name)) ==>
      forall p :: 0 <= p < |profiles| && Qualified(profiles[p], key) ==> Load(r.placements, profiles[p].id) >= profiles[p].capacity
    ensures stop == Some(InsufficientSlots(s.name)) ==> Stuck(profiles, s, key, r.placements)
    ensures Indices(order, r.load) && order' == SortByLoad(order, r.load)
    ensures stop.None? ==>
      && r'.placements == r.placements + [block]
      && PickTrainer(order', profiles, r.load).Some?
      && block.trainerId == profiles[order'[PickTrainer(order', profiles, r.load).value]].id
      && FirstFit(r, usedDays, block)
      && usedDays' == usedDays + {block.day} && remaining' == remaining - block.size
    ensures stop.None? ==> r'.cursor == After(block)
  {
    OrderFacts(profiles, key, eligible, order, r.load);
    order' := SortByLoad(order, r.load);
    OrderFacts(profiles, key, eligible, order', r.load);
    assert Lineup(profiles, key, order', r.load);
    var pick := PickTrainer(order', profiles, r.load);
    if pick.None? {
      forall p | 0 <= p < |profiles| && Qualified(profiles[p], key)
        ensures Load(r.placements, profiles[p].id) >= profiles[p].capacity
      {
        var k :| 0 <= k < |order'| && order'[k] == p;
        assert !HasRoom(profiles, r.load, order'[k]);
      }
      return r, usedDays, remaining, order', Placement(0, s.id, 0, 0, 0), Some(CapacityExhausted(s.name));
    }
    var p := order'[pick.value];
    var need := Min(BlockSize(s), remaining);
    var found := ScanForBlock(r.cursor, need, usedDays, profiles[p].id, r.occupied, r.busy);
    if found.None? {
      assert Qualified(profiles[p], key);
      StuckWhenNoFit(profiles, s, key, r, usedDays, remaining, p);
      return r, usedDays, remaining, order', Placement(0, s.id, 0, 0, 0), Some(InsufficientSlots(s.name));
    }
    r', usedDays', remaining', block := PlaceAt(profiles, s, key, start, r, usedDays, remaining, order', pick.value, found.value);
    stop := None;
  }

  /**
   * The scan found `offset` for the picked trainer: add the schedule row,
   * mark its cells in `occupancy` and `trainer_busy`, record the day as used,
   * add the block to the trainer's load, and move the cursor past it.
   */
  method PlaceAt(profiles: seq<Profile>, s: Subject, key: string, start: Run, r: Run, usedDays: set<nat>, remaining: int,
                 order: seq<nat>, pick: nat, offset: nat)
    returns (r': Run, usedDays': set<nat>, remaining': int, block: Placement)
    requires UniqueProfileIds(profiles)
    requires Progress(profiles, s, key, start, r, usedDays, remaining) && remaining > 0
    requires Lineup(profiles, key, order, r.load) && PickTrainer(order, profiles, r.load) == Some(pick)
    requires FirstFrom(r.cursor, offset, Min(BlockSize(s), remaining), usedDays, profiles[order[pick]].id, r.occupied, r.busy)
    ensures Progress(profiles, s, key, start, r', usedDays', remaining')
    ensures r'.placements == r.placements + [block]
    ensures block.trainerId == profiles[order[pick]].id && block.size == Min(BlockSize(s), remaining)
    ensures FirstFit(r, usedDays, block) && r'.cursor == After(block)
    ensures usedDays' == usedDays + {block.day} && remaining' == remaining - block.size < remaining
  {
    var p := order[pick];
    var need := Min(BlockSize(s), remaining);
    var x := Placement(profiles[p].id, s.id, offset / SlotsPerDay, offset % SlotsPerDay, need);
    FitsAt(offset, need, usedDays, x.trainerId, r.occupied, r.busy);
    FoundFirst(r, usedDays, offset, x);
    assert NextBlock(profiles, s, key, r, usedDays, remaining, order, pick, x);
    StepKeeps(profiles, s, key, start, r, usedDays, remaining, order, pick, x, offset);
    r' := Commit(r, x, p, offset);
    CommitMoves(r, x, p, offset);
    usedDays' := usedDays + {x.day};
    remaining' := remaining - need;
    block := x;
  }

  /**
   * What placing subject `s` promises, from `run` to `run'`: the state stays
   * sound, the earlier blocks are kept, every new block is the subject's and
   * fairly chosen, the subject gets at most its weekly load, and a warning
   * about it is given exactly when it falls short.
   */
  ghost predicate SubjectDone(profiles: seq<Profile>, s: Subject, run: Run, run': Run, warning: Option<Warning>) {
    && Good(profiles, run') && OnePerDay(run'.placements)
    && |run.placements| <= |run'.placements| && run'.placements[..|run.placements|] == run.placements
    && (forall i :: |run.placements| <= i < |run'.placements| ==>
          Chosen(profiles, s, Key(s), run'.placements[..i], run'.placements[i]))
    && Placed(run'.placements, s.id) <= Need(s)
    && (warning.None? <==> Placed(run'.placements, s.id) == Need(s))
    && (warning.Some? ==> About(warning.value, s.name))
  }

  /** Before a subject's first block: nothing of it placed, no day used, its whole load remaining. */
  lemma Begin(profiles: seq<Profile>, s: Subject, key: string, run: Run)
    requires Good(profiles, run) && OnePerDay(run.placements)
    requires forall i :: 0 <= i < |run.placements| ==> run.placements[i].subjectId != s.id
    ensures Progress(profiles, s, key, run, run, {}, Need(s))
  {
    assert run.placements[..|run.placements|] == run.placements;
  }

  /** What a subject's placement promises, read off the loop state when it stops. */
  lemma Finish(profiles: seq<Profile>, s: Subject, start: Run, r: Run, usedDays: set<nat>, remaining: int,
               warning: Option<Warning>)
    requires Progress(profiles, s, Key(s), start, r, usedDays, remaining)
    requires warning.None? <==> remaining == 0
    requires warning.Some? ==> About(warning.value, s.name)
    ensures SubjectDone(profiles, s, start, r, warning)
  {
  }

  /**
   * The `while slots_remaining > 0` loop for one subject of the plan. It
   * places blocks of `min(block_size, slots_remaining)` slots until the
   * subject's weekly load is met, or stops with a warning when no trainer is
   * qualified, when every qualified trainer has reached capacity, or when no
   * block fits.
   */
  method PlaceSubject(profiles: seq<Profile>, s: Subject, run: Run) returns (run': Run, warning: Option<Warning>)
    requires UniqueProfileIds(profiles) && Good(profiles, run) && OnePerDay(run.placements)
    requires s.hoursPerWeek > 0
    requires forall i :: 0 <= i < |run.placements| ==> run.placements[i].subjectId != s.id
    ensures SubjectDone(profiles, s, run, run', warning)
    ensures warning == Some(NoQualifiedTrainer(s.name)) <==> forall p :: 0 <= p < |profiles| ==> !Qualified(profiles[p], Key(s))
    ensures warning == Some(NoQualifiedTrainer(s.name)) ==> run' == run
    ensures warning == Some(CapacityExhausted(s.name)) ==>
      forall p :: 0 <= p < |profiles| && Qualified(profiles[p], Key(s)) ==> Load(run'.placements, profiles[p].id) >= profiles[p].capacity
    ensures warning == Some(InsufficientSlots(s.name)) ==> Stuck(profiles, s, Key(s), run'.placements)
  {
    var key := Key(s);
    var eligible := Eligible(profiles, key, |profiles|);
    Begin(profiles, s, key, run);
    if |eligible| == 0 {
      Finish(profiles, s, run, run, {}, Need(s), Some(NoQualifiedTrainer(s.name)));
      return run, Some(NoQualifiedTrainer(s.name));
    }
    assert Qualified(profiles[eligible[0]], key);
    var remaining: int := Need(s);
    var usedDays: set<nat> := {};
    var r := run;
    var order := eligible;
    while remaining > 0
      invariant Progress(profiles, s, key, run, r, usedDays, remaining)
      invariant multiset(order) == multiset(eligible)
      decreases remaining
    {
      var block, stop;
      r, usedDays, remaining, order, block, stop := PlaceBlock(profiles, s, key, eligible, run, r, usedDays, remaining, order);
      if stop.Some? {
        Finish(profiles, s, run, r, usedDays, remaining, stop);
        return r, stop;
      }
    }
    Finish(profiles, s, run, r, usedDays, remaining, None);
    return r, None;
  }

  // ---------------------------------------------------------------------------
  // The whole run

  /** Placements that do not mention subject `id` leave its placed count alone. */
  lemma {:induction false} PlacedExtend(ps: seq<Placement>, ext: seq<Placement>, id: int)
    requires forall i :: 0 <= i < |ext| ==> ext[i].subjectId != id
    ensures Placed(ps + ext, id) == Placed(ps, id)
  {
    if |ext| > 0 {
      var init := ext[..|ext| - 1];
      assert (ps + ext)[..|ps + ext| - 1] == ps + init;
      PlacedExtend(ps, init, id);
    } else {
      assert ps + ext == ps;
    }
  }

  /** Some warning is about the subject called `name`. */
  ghost predicate Warned(warnings: seq<Warning>, name: string) {
    exists w :: 0 <= w < |warnings| && About(warnings[w], name)
  }

  /** Warning `w` is about one of the first `idx` subjects of the plan. */
  ghost predicate FromPlan(plan: seq<Subject>, idx: nat, w: Warning)
    requires idx <= |plan|
  {
    exists j :: 0 <= j < idx && About(w, plan[j].name)
  }

  /** Block `x`, placed after `before`, is one of the first `idx` subjects' and fairly chosen for it. */
  ghost predicate ChosenAmong(profiles: seq<Profile>, plan: seq<Subject>, idx: nat, before: seq<Placement>, x: Placement)
    requires idx <= |plan|
  {
    exists j :: 0 <= j < idx && plan[j].id == x.subjectId && Chosen(profiles, plan[j], Key(plan[j]), before, x)
  }

  /** Every block went to a fairly chosen trainer for one of the first `idx` subjects of the plan. */
  ghost predicate FairlyPlaced(profiles: seq<Profile>, plan: seq<Subject>, idx: nat, ps: seq<Placement>)
    requires idx <= |plan|
  {
    forall i :: 0 <= i < |ps| ==> ChosenAmong(profiles, plan, idx, ps[..i], ps[i])
  }

  /** None of the first `idx` subjects got more than its weekly load. */
  ghost predicate WithinNeed(plan: seq<Subject>, idx: nat, ps: seq<Placement>)
    requires idx <= |plan|
  {
    forall j :: 0 <= j < idx ==> Placed(ps, plan[j].id) <= Need(plan[j])
  }

  /** Exactly the short subjects among the first `idx` have a warning. */
  ghost predicate ShortWarned(plan: seq<Subject>, idx: nat, ps: seq<Placement>, warnings: seq<Warning>)
    requires idx <= |plan|
  {
    forall j :: 0 <= j < idx ==> (Placed(ps, plan[j].id) < Need(plan[j]) <==> Warned(warnings, plan[j].name))
  }

  /** Every warning is about one of the first `idx` subjects, and no subject has two. */
  ghost predicate WarnedOnce(plan: seq<Subject>, idx: nat, warnings: seq<Warning>)
    requires idx <= |plan|
  {
    && (forall w :: 0 <= w < |warnings| ==> FromPlan(plan, idx, warnings[w]))
    && (forall w1, w2, j :: 0 <= w1 < w2 < |warnings| && 0 <= j < |plan| && About(warnings[w1], plan[j].name) ==>
          !About(warnings[w2], plan[j].name))
  }

  /** What holds after the first `idx` subjects of the plan. */
  ghost predicate Planned(profiles: seq<Profile>, plan: seq<Subject>, idx: nat, r: Run, warnings: seq<Warning>)
    requires idx <= |plan|
  {
    && Good(profiles, r) && OnePerDay(r.placements)
    && FairlyPlaced(profiles, plan, idx, r.placements)
    && WithinNeed(plan, idx, r.placements)
    && ShortWarned(plan, idx, r.placements, warnings)
    && WarnedOnce(plan, idx, warnings)
  }

  /** No block placed so far belongs to a subject the plan has not reached. */
  lemma NotYetPlaced(profiles: seq<Profile>, plan: seq<Subject>, idx: nat, ps: seq<Placement>)
    requires UniqueSubjects(plan) && idx < |plan| && FairlyPlaced(profiles, plan, idx, ps)
    ensures forall i :: 0 <= i < |ps| ==> ps[i].subjectId != plan[idx].id
  {
    forall i | 0 <= i < |ps|
      ensures ps[i].subjectId != plan[idx].id
    {
      assert ChosenAmong(profiles, plan, idx, ps[..i], ps[i]);
      var j :| 0 <= j < idx && plan[j].id == ps[i].subjectId && Chosen(profiles, plan[j], Key(plan[j]), ps[..i], ps[i]);
    }
  }

  /** No earlier warning is about the subject the plan has reached. */
  lemma NotYetWarned(plan: seq<Subject>, idx: nat, warnings: seq<Warning>)
    requires UniqueSubjects(plan) && idx < |plan| && WarnedOnce(plan, idx, warnings)
    ensures !Warned(warnings, plan[idx].name)
  {
    forall w | 0 <= w < |warnings|
      ensures !About(warnings[w], plan[idx].name)
    {
      assert FromPlan(plan, idx, warnings[w]);
      var j :| 0 <= j < idx && About(warnings[w], plan[j].name);
      assert plan[j].name != plan[idx].name;
    }
  }

  lemma StepFair(profiles: seq<Profile>, plan: seq<Subject>, idx: nat, ps: seq<Placement>, ps': seq<Placement>)
    requires idx < |plan| && FairlyPlaced(profiles, plan, idx, ps)
    requires |ps| <= |ps'| && ps'[..|ps|] == ps
    requires forall i :: |ps| <= i < |ps'| ==> Chosen(profiles, plan[idx], Key(plan[idx]), ps'[..i], ps'[i])
    ensures FairlyPlaced(profiles, plan, idx + 1, ps')
  {
    forall i | 0 <= i < |ps'|
      ensures ChosenAmong(profiles, plan, idx + 1, ps'[..i], ps'[i])
    {
      if i < |ps| {
        Widen(profiles, plan, idx, ps, ps', i);
      } else {
        Joins(profiles, plan, idx, ps'[..i], ps'[i]);
      }
    }
  }

  /** An earlier block, fairly chosen for one of the first `idx` subjects, is one for the first `idx + 1`. */
  lemma Widen(profiles: seq<Profile>, plan: seq<Subject>, idx: nat, ps: seq<Placement>, ps': seq<Placement>, i: nat)
    requires idx < |plan| && FairlyPlaced(profiles, plan, idx, ps)
    requires i < |ps| <= |ps'| && ps'[..|ps|] == ps
    ensures ChosenAmong(profiles, plan, idx + 1, ps'[..i], ps'[i])
  {
    assert ps'[..i] == ps[..i] && ps'[i] == ps[i];
    assert ChosenAmong(profiles, plan, idx, ps[..i], ps[i]);
    var j :| 0 <= j < idx && plan[j].id == ps[i].subjectId && Chosen(profiles, plan[j], Key(plan[j]), ps[..i], ps[i]);
    assert 0 <= j < idx + 1;
  }

  /** A block fairly chosen for subject `idx` is one for the first `idx + 1`. */
  lemma Joins(profiles: seq<Profile>, plan: seq<Subject>, idx: nat, before: seq<Placement>, x: Placement)
    requires idx < |plan| && Chosen(profiles, plan[idx], Key(plan[idx]), before, x)
    ensures ChosenAmong(profiles, plan, idx + 1, before, x)
  {
    assert plan[idx].id == x.subjectId;
  }

  /** Blocks of other subjects leave a subject's placed count alone. */
  lemma ExtendOther(ps: seq<Placement>, ps': seq<Placement>, id: int)
    requires |ps| <= |ps'| && ps'[..|ps|] == ps
    requires forall i :: |ps| <= i < |ps'| ==> ps'[i].subjectId != id
    ensures Placed(ps', id) == Placed(ps, id)
  {
    var ext := ps'[|ps|..];
    assert ps' == ps + ext;
    forall i | 0 <= i < |ext|
      ensures ext[i].subjectId != id
    {
      assert ext[i] == ps'[|ps| + i];
    }
    PlacedExtend(ps, ext, id);
  }

  /** Appending at most one warning adds a warning about `name` exactly when the new one is about it. */
  lemma WarnOther(warnings: seq<Warning>, warning: Option<Warning>, ws': seq<Warning>, name: string)
    requires ws' == warnings + (if warning.Some? then [warning.value] else [])
    ensures Warned(ws', name) <==> Warned(warnings, name) || (warning.Some? && About(warning.value, name))
  {
    if warning.Some? {
      assert ws'[|warnings|] == warning.value;
    }
    if Warned(warnings, name) {
      var w :| 0 <= w < |warnings| && About(warnings[w], name);
      assert ws'[w] == warnings[w];
    }
    if Warned(ws', name) {
      var w :| 0 <= w < |ws'| && About(ws'[w], name);
      if w < |warnings| {
        assert ws'[w] == warnings[w];
      }
    }
  }

  lemma StepCounts(plan: seq<Subject>, idx: nat, ps: seq<Placement>, ps': seq<Placement>,
                   warnings: seq<Warning>, warning: Option<Warning>)
    requires UniqueSubjects(plan) && idx < |plan|
    requires WithinNeed(plan, idx, ps) && ShortWarned(plan, idx, ps, warnings)
    requires !Warned(warnings, plan[idx].name)
    requires |ps| <= |ps'| && ps'[..|ps|] == ps
    requires forall i :: |ps| <= i < |ps'| ==> ps'[i].subjectId == plan[idx].id
    requires Placed(ps', plan[idx].id) <= Need(plan[idx])
    requires warning.None? <==> Placed(ps', plan[idx].id) == Need(plan[idx])
    requires warning.Some? ==> About(warning.value, plan[idx].name)
    ensures WithinNeed(plan, idx + 1, ps')
    ensures ShortWarned(plan, idx + 1, ps', warnings + (if warning.Some? then [warning.value] else []))
  {
    var ws' := warnings + (if warning.Some? then [warning.value] else []);
    forall j | 0 <= j < idx
      ensures Placed(ps', plan[j].id) == Placed(ps, plan[j].id)
      ensures Warned(ws', plan[j].name) <==> Warned(warnings, plan[j].name)
    {
      ExtendOther(ps, ps', plan[j].id);
      WarnOther(warnings, warning, ws', plan[j].name);
    }
    WarnOther(warnings, warning, ws', plan[idx].name);
  }

  lemma StepWarnings(plan: seq<Subject>, idx: nat, warnings: seq<Warning>, warning: Option<Warning>)
    requires UniqueSubjects(plan) && idx < |plan| && WarnedOnce(plan, idx, warnings)
    requires warning.Some? ==> About(warning.value, plan[idx].name)
    ensures WarnedOnce(plan, idx + 1, warnings + (if warning.Some? then [warning.value] else []))
  {
    var ws' := warnings + (if warning.Some? then [warning.value] else []);
    forall w | 0 <= w < |ws'|
      ensures FromPlan(plan, idx + 1, ws'[w])
    {
      if w < |warnings| {
        assert ws'[w] == warnings[w] && FromPlan(plan, idx, warnings[w]);
        var j :| 0 <= j < idx && About(warnings[w], plan[j].name);
      } else {
        assert About(ws'[w], plan[idx].name);
      }
    }
    forall w1, w2, j | 0 <= w1 < w2 < |ws'| && 0 <= j < |plan| && About(ws'[w1], plan[j].name)
      ensures !About(ws'[w2], plan[j].name)
    {
      assert ws'[w1] == warnings[w1];
      if w2 == |warnings| {
        assert FromPlan(plan, idx, warnings[w1]);
        var j' :| 0 <= j' < idx && About(warnings[w1], plan[j'].name);
        assert plan[j'].name == plan[j].name;
        assert j' == j;
      } else {
        assert ws'[w2] == warnings[w2];
      }
    }
  }

  /** Placing the next subject of the plan, with what `PlaceSubject` promises, extends `Planned`. */
  lemma PlanStep(profiles: seq<Profile>, plan: seq<Subject>, idx: nat, r: Run, warnings: seq<Warning>,
                 r': Run, warning: Option<Warning>)
    requires UniqueSubjects(plan) && idx < |plan| && Planned(profiles, plan, idx, r, warnings)
    requires SubjectDone(profiles, plan[idx], r, r', warning)
    ensures Planned(profiles, plan, idx + 1, r', warnings + (if warning.Some? then [warning.value] else []))
  {
    var ps, ps' := r.placements, r'.placements;
    StepFair(profiles, plan, idx, ps, ps');
    NotYetWarned(plan, idx, warnings);
    forall i | |ps| <= i < |ps'|
      ensures ps'[i].subjectId == plan[idx].id
    {
      assert Chosen(profiles, plan[idx], Key(plan[idx]), ps'[..i], ps'[i]);
    }
    StepCounts(plan, idx, ps, ps', warnings, warning);
    StepWarnings(plan, idx, warnings, warning);
  }

  /** Subject id `id` is one of the first `idx` subjects of the plan. */
  ghost predicate OfPlan(plan: seq<Subject>, idx: nat, id: int)
    requires idx <= |plan|
  {
    exists j :: 0 <= j < idx && plan[j].id == id
  }

  /** A subject with id `a` comes no later in the plan than one with id `b`. */
  ghost predicate NotAfter(plan: seq<Subject>, a: int, b: int) {
    forall j1, j2 :: 0 <= j1 < |plan| && 0 <= j2 < |plan| && plan[j1].id == a && plan[j2].id == b ==> j1 <= j2
  }

  /** Warning `v` is about a subject that comes strictly before the subject warning `w` is about. */
  ghost predicate Before(plan: seq<Subject>, v: Warning, w: Warning) {
    forall j1, j2 :: 0 <= j1 < |plan| && 0 <= j2 < |plan| && About(v, plan[j1].name) && About(w, plan[j2].name) ==> j1 < j2
  }

  /**
   * The blocks come subject by subject in the order of the first `idx`
   * subjects of the plan: each belongs to one of them, and a later block never
   * belongs to an earlier subject.
   */
  ghost predicate BlocksServed(plan: seq<Subject>, idx: nat, ps: seq<Placement>)
    requires idx <= |plan|
  {
    && (forall i :: 0 <= i < |ps| ==> OfPlan(plan, idx, ps[i].subjectId))
    && (forall i, k :: 0 <= i < k < |ps| ==> NotAfter(plan, ps[i].subjectId, ps[k].subjectId))
  }

  /** The warnings come in the order of the first `idx` subjects of the plan, in the same sense. */
  ghost predicate WarningsServed(plan: seq<Subject>, idx: nat, warnings: seq<Warning>)
    requires idx <= |plan|
  {
    && (forall w :: 0 <= w < |warnings| ==> FromPlan(plan, idx, warnings[w]))
    && (forall w1, w2 :: 0 <= w1 < w2 < |warnings| ==> Before(plan, warnings[w1], warnings[w2]))
  }

  /** The `for subject in subject_plan` loop serves the first `idx` subjects of the plan in order. */
  ghost predicate Served(plan: seq<Subject>, idx: nat, ps: seq<Placement>, warnings: seq<Warning>)
    requires idx <= |plan|
  {
    BlocksServed(plan, idx, ps) && WarningsServed(plan, idx, warnings)
  }

  /** Serving subject `idx` after the first `idx` appends its blocks and its warning after theirs. */
  lemma ServeStep(plan: seq<Subject>, idx: nat, ps: seq<Placement>, warnings: seq<Warning>,
                  ps': seq<Placement>, warning: Option<Warning>)
    requires UniqueSubjects(plan) && idx < |plan| && Served(plan, idx, ps, warnings)
    requires |ps| <= |ps'| && ps'[..|ps|] == ps
    requires forall i :: |ps| <= i < |ps'| ==> ps'[i].subjectId == plan[idx].id
    requires warning.Some? ==> About(warning.value, plan[idx].name)
    ensures Served(plan, idx + 1, ps', warnings + (if warning.Some? then [warning.value] else []))
  {
    ServeBlocks(plan, idx, ps, ps');
    ServeWarnings(plan, idx, warnings, warning);
  }

  lemma ServeBlocks(plan: seq<Subject>, idx: nat, ps: seq<Placement>, ps': seq<Placement>)
    requires UniqueSubjects(plan) && idx < |plan| && BlocksServed(plan, idx, ps)
    requires |ps| <= |ps'| && ps'[..|ps|] == ps
    requires forall i :: |ps| <= i < |ps'| ==> ps'[i].subjectId == plan[idx].id
    ensures BlocksServed(plan, idx + 1, ps')
  {
    forall i | 0 <= i < |ps'|
      ensures OfPlan(plan, idx + 1, ps'[i].subjectId)
    {
      if i < |ps| {
        assert ps'[i] == ps[i] && OfPlan(plan, idx, ps[i].subjectId);
        var j :| 0 <= j < idx && plan[j].id == ps[i].subjectId;
      } else {
        assert plan[idx].id == ps'[i].subjectId;
      }
    }
    forall i, k | 0 <= i < k < |ps'|
      ensures NotAfter(plan, ps'[i].subjectId, ps'[k].subjectId)
    {
      if k < |ps| {
        assert ps'[i] == ps[i] && ps'[k] == ps[k];
        assert NotAfter(plan, ps[i].subjectId, ps[k].subjectId);
      } else {
        ServeLater(plan, idx, ps, ps', i, k);
      }
    }
  }

  /** A block of subject `idx` comes after every earlier block in plan order. */
  lemma ServeLater(plan: seq<Subject>, idx: nat, ps: seq<Placement>, ps': seq<Placement>, i: nat, k: nat)
    requires UniqueSubjects(plan) && idx < |plan| && BlocksServed(plan, idx, ps)
    requires |ps| <= |ps'| && ps'[..|ps|] == ps
    requires forall i :: |ps| <= i < |ps'| ==> ps'[i].subjectId == plan[idx].id
    requires i < k < |ps'| && |ps| <= k
    ensures NotAfter(plan, ps'[i].subjectId, ps'[k].subjectId)
  {
    forall j1, j2 | 0 <= j1 < |plan| && 0 <= j2 < |plan| && plan[j1].id == ps'[i].subjectId && plan[j2].id == ps'[k].subjectId
      ensures j1 <= j2
    {
        assert j2 == idx;
        if i < |ps| {
          assert ps'[i] == ps[i] && OfPlan(plan, idx, ps[i].subjectId);
          var j :| 0 <= j < idx && plan[j].id == ps[i].subjectId;
          assert j1 == j;
        } else {
          assert j1 == idx;
        }
    }
  }

  lemma ServeWarnings(plan: seq<Subject>, idx: nat, warnings: seq<Warning>, warning: Option<Warning>)
    requires UniqueSubjects(plan) && idx < |plan| && WarningsServed(plan, idx, warnings)
    requires warning.Some? ==> About(warning.value, plan[idx].name)
    ensures WarningsServed(plan, idx + 1, warnings + (if warning.Some? then [warning.value] else []))
  {
    var ws' := warnings + (if warning.Some? then [warning.value] else []);
    forall w | 0 <= w < |ws'|
      ensures FromPlan(plan, idx + 1, ws'[w])
    {
      if w < |warnings| {
        assert ws'[w] == warnings[w] && FromPlan(plan, idx, warnings[w]);
        var j :| 0 <= j < idx && About(warnings[w], plan[j].name);
      } else {
        assert About(ws'[w], plan[idx].name);
      }
    }
    forall w1, w2 | 0 <= w1 < w2 < |ws'|
      ensures Before(plan, ws'[w1], ws'[w2])
    {
      assert ws'[w1] == warnings[w1] && FromPlan(plan, idx, warnings[w1]);
      if w2 < |warnings| {
        assert ws'[w2] == warnings[w2];
        assert Before(plan, warnings[w1], warnings[w2]);
      } else {
        var j :| 0 <= j < idx && About(warnings[w1], plan[j].name);
        forall j1, j2 | 0 <= j1 < |plan| && 0 <= j2 < |plan| && About(ws'[w1], plan[j1].name) && About(ws'[w2], plan[j2].name)
          ensures j1 < j2
        {
          assert j1 == j && j2 == idx;
        }
      }
    }
  }

  /** The blocks a subject's placement adds are that subject's. */
  lemma DoneBlocksOwned(profiles: seq<Profile>, s: Subject, run: Run, run': Run, warning: Option<Warning>)
    requires SubjectDone(profiles, s, run, run', warning)
    ensures forall i :: |run.placements| <= i < |run'.placements| ==> run'.placements[i].subjectId == s.id
  {
    forall i | |run.placements| <= i < |run'.placements|
      ensures run'.placements[i].subjectId == s.id
    {
      assert Chosen(profiles, s, Key(s), run'.placements[..i], run'.placements[i]);
    }
  }

  /**
   * Warning `w` about subject `s` has the cause its message names: no
   * qualified trainer at all, or, at some point `n` of the run `ps`, every
   * qualified trainer at capacity or no free block left.
   */
  ghost predicate Justified(profiles: seq<Profile>, s: Subject, ps: seq<Placement>, w: Warning) {
    && (w == NoQualifiedTrainer(s.name) ==> NoneQualified(profiles, Key(s)))
    && (w == CapacityExhausted(s.name) ==> exists n :: 0 <= n <= |ps| && Full(profiles, Key(s), ps[..n]))
    && (w == InsufficientSlots(s.name) ==> exists n :: 0 <= n <= |ps| && Stuck(profiles, s, Key(s), ps[..n]))
  }

  /**
   * Each of the first `idx` subjects is warned that no trainer is qualified
   * exactly when none is, and every warning about a subject of the plan has
   * its cause.
   */
  ghost predicate Explained(profiles: seq<Profile>, plan: seq<Subject>, idx: nat, ps: seq<Placement>, warnings: seq<Warning>)
    requires idx <= |plan|
  {
    && (forall j :: 0 <= j < idx ==> (NoQualifiedTrainer(plan[j].name) in warnings <==> NoneQualified(profiles, Key(plan[j]))))
    && (forall w, j :: 0 <= w < |warnings| && 0 <= j < |plan| && About(warnings[w], plan[j].name) ==>
          Justified(profiles, plan[j], ps, warnings[w]))
  }

  /** A cause found at some point of a run is still found in any run extending it. */
  lemma JustifiedExtend(profiles: seq<Profile>, s: Subject, ps: seq<Placement>, ps': seq<Placement>, w: Warning)
    requires |ps| <= |ps'| && ps'[..|ps|] == ps
    requires Justified(profiles, s, ps, w)
    ensures Justified(profiles, s, ps', w)
  {
    if w == CapacityExhausted(s.name) {
      FullExtend(profiles, Key(s), ps, ps');
    }
    if w == InsufficientSlots(s.name) {
      StuckExtend(profiles, s, Key(s), ps, ps');
    }
  }

  lemma FullExtend(profiles: seq<Profile>, key: string, ps: seq<Placement>, ps': seq<Placement>)
    requires |ps| <= |ps'| && ps'[..|ps|] == ps
    requires exists n :: 0 <= n <= |ps| && Full(profiles, key, ps[..n])
    ensures exists n :: 0 <= n <= |ps'| && Full(profiles, key, ps'[..n])
  {
    var n :| 0 <= n <= |ps| && Full(profiles, key, ps[..n]);
    PrefixOfPrefix(ps, ps', n);
  }

  lemma StuckExtend(profiles: seq<Profile>, s: Subject, key: string, ps: seq<Placement>, ps': seq<Placement>)
    requires |ps| <= |ps'| && ps'[..|ps|] == ps
    requires exists n :: 0 <= n <= |ps| && Stuck(profiles, s, key, ps[..n])
    ensures exists n :: 0 <= n <= |ps'| && Stuck(profiles, s, key, ps'[..n])
  {
    var n :| 0 <= n <= |ps| && Stuck(profiles, s, key, ps[..n]);
    PrefixOfPrefix(ps, ps', n);
  }

  /** A prefix of a prefix is a prefix of the longer list. */
  lemma PrefixOfPrefix(ps: seq<Placement>, ps': seq<Placement>, n: nat)
    requires |ps| <= |ps'| && ps'[..|ps|] == ps && n <= |ps|
    ensures ps'[..n] == ps[..n]
  {
    assert ps'[..n] == ps'[..|ps|][..n];
  }

  /** Placing the next subject, with the causes `PlaceSubject` promises, extends `Explained`. */
  lemma ExplainStep(profiles: seq<Profile>, plan: seq<Subject>, idx: nat, ps: seq<Placement>, warnings: seq<Warning>,
                    ps': seq<Placement>, warning: Option<Warning>)
    requires UniqueSubjects(plan) && idx < |plan| && Explained(profiles, plan, idx, ps, warnings)
    requires !Warned(warnings, plan[idx].name)
    requires |ps| <= |ps'| && ps'[..|ps|] == ps
    requires warning.Some? ==> About(warning.value, plan[idx].name)
    requires warning == Some(NoQualifiedTrainer(plan[idx].name)) <==> NoneQualified(profiles, Key(plan[idx]))
    requires warning == Some(CapacityExhausted(plan[idx].name)) ==> Full(profiles, Key(plan[idx]), ps')
    requires warning == Some(InsufficientSlots(plan[idx].name)) ==> Stuck(profiles, plan[idx], Key(plan[idx]), ps')
    ensures Explained(profiles, plan, idx + 1, ps', warnings + (if warning.Some? then [warning.value] else []))
  {
    assert ps'[..|ps'|] == ps';
    ExplainQualified(profiles, plan, idx, warnings, warning);
    ExplainCauses(profiles, plan, idx, ps, warnings, ps', warning);
  }

  lemma ExplainQualified(profiles: seq<Profile>, plan: seq<Subject>, idx: nat, warnings: seq<Warning>, warning: Option<Warning>)
    requires UniqueSubjects(plan) && idx < |plan|
    requires forall j :: 0 <= j < idx ==> (NoQualifiedTrainer(plan[j].name) in warnings <==> NoneQualified(profiles, Key(plan[j])))
    requires !Warned(warnings, plan[idx].name)
    requires warning.Some? ==> About(warning.value, plan[idx].name)
    requires warning == Some(NoQualifiedTrainer(plan[idx].name)) <==> NoneQualified(profiles, Key(plan[idx]))
    ensures var ws' := warnings + (if warning.Some? then [warning.value] else []);
      forall j :: 0 <= j < idx + 1 ==> (NoQualifiedTrainer(plan[j].name) in ws' <==> NoneQualified(profiles, Key(plan[j])))
  {
    var names := PlanNames(plan);
    var none := NoneFlags(profiles, plan);
    assert forall j :: 0 <= j < idx ==> names[j] != names[idx] by {
      forall j | 0 <= j < idx
        ensures names[j] != names[idx]
      {
        assert plan[j].name != plan[idx].name;
      }
    }
    assert forall j :: 0 <= j < idx ==> (NoQualifiedTrainer(names[j]) in warnings <==> none[j]);
    assert forall w :: 0 <= w < |warnings| ==> !About(warnings[w], names[idx]);
    assert warning == Some(NoQualifiedTrainer(names[idx])) <==> none[idx];
    FlagOnce(names, none, idx, warnings, warning);
    var ws' := warnings + (if warning.Some? then [warning.value] else []);
    forall j | 0 <= j < idx + 1
      ensures NoQualifiedTrainer(plan[j].name) in ws' <==> NoneQualified(profiles, Key(plan[j]))
    {
      assert names[j] == plan[j].name && none[j] == NoneQualified(profiles, Key(plan[j]));
    }
  }

  /** The plan's subject names, in plan order. */
  ghost function PlanNames(plan: seq<Subject>): (names: seq<string>)
    ensures |names| == |plan|
    ensures forall j :: 0 <= j < |plan| ==> names[j] == plan[j].name
  {
    if |plan| == 0 then [] else [plan[0].name] + PlanNames(plan[1..])
  }

  /** For each plan subject, whether no trainer is qualified for it. */
  ghost function NoneFlags(profiles: seq<Profile>, plan: seq<Subject>): (none: seq<bool>)
    ensures |none| == |plan|
    ensures forall j :: 0 <= j < |plan| ==> none[j] == NoneQualified(profiles, Key(plan[j]))
  {
    if |plan| == 0 then [] else [NoneQualified(profiles, Key(plan[0]))] + NoneFlags(profiles, plan[1..])
  }

  /** Appending the warning of entry `idx` keeps the no-trainer warnings in step with the flags `none`. */
  lemma FlagOnce(names: seq<string>, none: seq<bool>, idx: nat, warnings: seq<Warning>, warning: Option<Warning>)
    requires |none| == |names| && idx < |names|
    requires forall j :: 0 <= j < idx ==> names[j] != names[idx]
    requires forall j :: 0 <= j < idx ==> (NoQualifiedTrainer(names[j]) in warnings <==> none[j])
    requires forall w :: 0 <= w < |warnings| ==> !About(warnings[w], names[idx])
    requires warning.Some? ==> About(warning.value, names[idx])
    requires warning == Some(NoQualifiedTrainer(names[idx])) <==> none[idx]
    ensures var ws' := warnings + (if warning.Some? then [warning.value] else []);
      forall j :: 0 <= j < idx + 1 ==> (NoQualifiedTrainer(names[j]) in ws' <==> none[j])
  {
    var ws' := warnings + (if warning.Some? then [warning.value] else []);
    var mine := NoQualifiedTrainer(names[idx]);
    assert mine !in warnings by {
      forall w | 0 <= w < |warnings|
        ensures warnings[w] != mine
      {
        assert !About(warnings[w], names[idx]);
      }
    }
    assert mine in ws' <==> warning == Some(mine);
    forall j | 0 <= j < idx + 1
      ensures NoQualifiedTrainer(names[j]) in ws' <==> none[j]
    {
      if j < idx {
        var named := NoQualifiedTrainer(names[j]);
        assert named in ws' <==> named in warnings by {
          assert !(warning.Some? && warning.value == named);
        }
      }
    }
  }

  lemma ExplainCauses(profiles: seq<Profile>, plan: seq<Subject>, idx: nat, ps: seq<Placement>, warnings: seq<Warning>,
                      ps': seq<Placement>, warning: Option<Warning>)
    requires UniqueSubjects(plan) && idx < |plan|
    requires forall w, j :: 0 <= w < |warnings| && 0 <= j < |plan| && About(warnings[w], plan[j].name) ==>
      Justified(profiles, plan[j], ps, warnings[w])
    requires |ps| <= |ps'| && ps'[..|ps|] == ps
    requires warning.Some? ==> About(warning.value, plan[idx].name)
    requires warning.Some? ==> Justified(profiles, plan[idx], ps', warning.value)
    ensures var ws' := warnings + (if warning.Some? then [warning.value] else []);
      forall w, j :: 0 <= w < |ws'| && 0 <= j < |plan| && About(ws'[w], plan[j].name) ==> Justified(profiles, plan[j], ps', ws'[w])
  {
    var ws' := warnings + (if warning.Some? then [warning.value] else []);
    forall w, j | 0 <= w < |ws'| && 0 <= j < |plan| && About(ws'[w], plan[j].name)
      ensures Justified(profiles, plan[j], ps', ws'[w])
    {
      if w < |warnings| {
        assert ws'[w] == warnings[w];
        JustifiedExtend(profiles, plan[j], ps, ps', warnings[w]);
      } else {
        assert plan[j].name == plan[idx].name;
      }
    }
  }

  /** The plan holds exactly the subjects with a positive weekly load. */
  lemma PlanCovers(subjects: seq<Subject>, positive: seq<Subject>, plan: seq<Subject>)
    requires positive == Positive(subjects) && multiset(plan) == multiset(positive)
    ensures forall k :: 0 <= k < |plan| ==> plan[k] in subjects && plan[k].hoursPerWeek > 0
    ensures forall j :: 0 <= j < |subjects| && subjects[j].hoursPerWeek > 0 ==> subjects[j] in plan
  {
    forall k | 0 <= k < |plan|
      ensures plan[k] in subjects && plan[k].hoursPerWeek > 0
    {
      assert plan[k] in multiset(positive);
    }
    forall j | 0 <= j < |subjects| && subjects[j].hoursPerWeek > 0
      ensures subjects[j] in plan
    {
      assert subjects[j] in multiset(plan);
    }
  }

  /** Block `x`, placed after `before`, is for a subject with a positive weekly load and went to a fairly chosen trainer. */
  ghost predicate ChosenFor(profiles: seq<Profile>, subjects: seq<Subject>, before: seq<Placement>, x: Placement) {
    exists j :: 0 <= j < |subjects| && subjects[j].hoursPerWeek > 0 && subjects[j].id == x.subjectId &&
      Chosen(profiles, subjects[j], Key(subjects[j]), before, x)
  }

  /** Warning `w` is about a subject with a positive weekly load. */
  ghost predicate AboutLoaded(subjects: seq<Subject>, w: Warning) {
    exists j :: 0 <= j < |subjects| && subjects[j].hoursPerWeek > 0 && About(w, subjects[j].name)
  }

  /** Re-indexes the plan's fairness facts onto the subject list: every block is fairly chosen for a loaded subject. */
  lemma PlanBlocksToSubjects(profiles: seq<Profile>, subjects: seq<Subject>, plan: seq<Subject>, ps: seq<Placement>)
    requires forall k :: 0 <= k < |plan| ==> plan[k] in subjects && plan[k].hoursPerWeek > 0
    requires FairlyPlaced(profiles, plan, |plan|, ps)
    ensures forall i :: 0 <= i < |ps| ==> ChosenFor(profiles, subjects, ps[..i], ps[i])
  {
    forall i | 0 <= i < |ps|
      ensures ChosenFor(profiles, subjects, ps[..i], ps[i])
    {
      assert ChosenAmong(profiles, plan, |plan|, ps[..i], ps[i]);
      var k :| 0 <= k < |plan| && plan[k].id == ps[i].subjectId && Chosen(profiles, plan[k], Key(plan[k]), ps[..i], ps[i]);
      var j :| 0 <= j < |subjects| && subjects[j] == plan[k];
    }
  }

  /** Re-indexes the plan's placed counts onto the subject list: no subject exceeds its load, and the short ones are warned. */
  lemma PlanCountsToSubjects(profiles: seq<Profile>, subjects: seq<Subject>, plan: seq<Subject>, ps: seq<Placement>, warnings: seq<Warning>)
    requires UniqueSubjects(subjects)
    requires forall k :: 0 <= k < |plan| ==> plan[k] in subjects && plan[k].hoursPerWeek > 0
    requires forall j :: 0 <= j < |subjects| && subjects[j].hoursPerWeek > 0 ==> subjects[j] in plan
    requires FairlyPlaced(profiles, plan, |plan|, ps)
    requires WithinNeed(plan, |plan|, ps) && ShortWarned(plan, |plan|, ps, warnings)
    ensures forall j :: 0 <= j < |subjects| ==> Placed(ps, subjects[j].id) <= Need(subjects[j])
    ensures forall j :: 0 <= j < |subjects| && subjects[j].hoursPerWeek > 0 ==>
      (Placed(ps, subjects[j].id) < Need(subjects[j]) <==> Warned(warnings, subjects[j].name))
  {
    forall j | 0 <= j < |subjects|
      ensures Placed(ps, subjects[j].id) <= Need(subjects[j])
      ensures subjects[j].hoursPerWeek > 0 ==>
        (Placed(ps, subjects[j].id) < Need(subjects[j]) <==> Warned(warnings, subjects[j].name))
    {
      if subjects[j].hoursPerWeek > 0 {
        var k :| 0 <= k < |plan| && plan[k] == subjects[j];
      } else {
        forall i | 0 <= i < |ps|
          ensures ps[i].subjectId != subjects[j].id
        {
          assert ChosenAmong(profiles, plan, |plan|, ps[..i], ps[i]);
          var k :| 0 <= k < |plan| && plan[k].id == ps[i].subjectId && Chosen(profiles, plan[k], Key(plan[k]), ps[..i], ps[i]);
          var m :| 0 <= m < |subjects| && subjects[m] == plan[k];
          assert m != j;
        }
      }
    }
  }

  /** Re-indexes the plan's warnings onto the subject list: each is about a loaded subject, and none twice. */
  lemma PlanWarningsToSubjects(subjects: seq<Subject>, plan: seq<Subject>, warnings: seq<Warning>)
    requires forall k :: 0 <= k < |plan| ==> plan[k] in subjects && plan[k].hoursPerWeek > 0
    requires WarnedOnce(plan, |plan|, warnings)
    ensures forall w :: 0 <= w < |warnings| ==> AboutLoaded(subjects, warnings[w])
    ensures forall w1, w2, j :: 0 <= w1 < w2 < |warnings| && 0 <= j < |subjects| && About(warnings[w1], subjects[j].name) ==>
      !About(warnings[w2], subjects[j].name)
  {
    forall w | 0 <= w < |warnings|
      ensures AboutLoaded(subjects, warnings[w])
    {
      assert FromPlan(plan, |plan|, warnings[w]);
      var k :| 0 <= k < |plan| && About(warnings[w], plan[k].name);
      var j :| 0 <= j < |subjects| && subjects[j] == plan[k];
    }
    forall w1, w2, j | 0 <= w1 < w2 < |warnings| && 0 <= j < |subjects| && About(warnings[w1], subjects[j].name)
      ensures !About(warnings[w2], subjects[j].name)
    {
      assert FromPlan(plan, |plan|, warnings[w1]);
      var k :| 0 <= k < |plan| && About(warnings[w1], plan[k].name);
      assert plan[k].name == subjects[j].name;
    }
  }

  /** Re-indexes the plan's warning causes onto the subject list. */
  lemma PlanExplainedToSubjects(profiles: seq<Profile>, subjects: seq<Subject>, plan: seq<Subject>, ps: seq<Placement>,
                            warnings: seq<Warning>)
    requires UniqueSubjects(subjects)
    requires forall k :: 0 <= k < |plan| ==> plan[k] in subjects && plan[k].hoursPerWeek > 0
    requires forall j :: 0 <= j < |subjects| && subjects[j].hoursPerWeek > 0 ==> subjects[j] in plan
    requires WarnedOnce(plan, |plan|, warnings) && Explained(profiles, plan, |plan|, ps, warnings)
    ensures forall j :: 0 <= j < |subjects| && subjects[j].hoursPerWeek > 0 ==>
      (NoQualifiedTrainer(subjects[j].name) in warnings <==> NoneQualified(profiles, Key(subjects[j])))
    ensures forall w, j :: 0 <= w < |warnings| && 0 <= j < |subjects| && About(warnings[w], subjects[j].name) ==>
      Justified(profiles, subjects[j], ps, warnings[w])
  {
    forall j | 0 <= j < |subjects| && subjects[j].hoursPerWeek > 0
      ensures NoQualifiedTrainer(subjects[j].name) in warnings <==> NoneQualified(profiles, Key(subjects[j]))
    {
      var k :| 0 <= k < |plan| && plan[k] == subjects[j];
    }
    forall w, j | 0 <= w < |warnings| && 0 <= j < |subjects| && About(warnings[w], subjects[j].name)
      ensures Justified(profiles, subjects[j], ps, warnings[w])
    {
      assert FromPlan(plan, |plan|, warnings[w]);
      var k :| 0 <= k < |plan| && About(warnings[w], plan[k].name);
      var m :| 0 <= m < |subjects| && subjects[m] == plan[k];
      assert subjects[m].name == subjects[j].name;
    }
  }

  /**
   * The `for subject in subject_plan` loop, from an empty timetable with no
   * trainer assigned anything: each subject's blocks are placed in turn and
   * its warning, if any, is appended.
   */
  method PlacePlan(profiles: seq<Profile>, plan: seq<Subject>) returns (r: Run, warnings: seq<Warning>)
    requires UniqueProfileIds(profiles) && UniqueSubjects(plan)
    requires forall k :: 0 <= k < |plan| ==> plan[k].hoursPerWeek > 0
    ensures Planned(profiles, plan, |plan|, r, warnings)
    ensures Explained(profiles, plan, |plan|, r.placements, warnings)
    ensures Served(plan, |plan|, r.placements, warnings)
  {
    r := Run(seq(|profiles|, _ => 0), {}, {}, 0, []);
    warnings := [];
    PlannedStart(profiles, plan, r);
    var idx := 0;
    while idx < |plan|
      invariant idx <= |plan|
      invariant Planned(profiles, plan, idx, r, warnings)
      invariant Explained(profiles, plan, idx, r.placements, warnings)
      invariant Served(plan, idx, r.placements, warnings)
    {
      r, warnings := PlanNext(profiles, plan, idx, r, warnings);
      idx := idx + 1;
    }
  }

  /** Before the first subject nothing is placed, nobody is assigned anything and nothing is warned about. */
  lemma PlannedStart(profiles: seq<Profile>, plan: seq<Subject>, r: Run)
    requires r == Run(seq(|profiles|, _ => 0), {}, {}, 0, [])
    ensures Planned(profiles, plan, 0, r, [])
    ensures Served(plan, 0, r.placements, [])
  {
  }

  /** One pass of the `for subject in subject_plan` loop: place subject `plan[idx]` and append its warning. */
  method PlanNext(profiles: seq<Profile>, plan: seq<Subject>, idx: nat, r: Run, warnings: seq<Warning>)
    returns (r': Run, warnings': seq<Warning>)
    requires UniqueProfileIds(profiles) && UniqueSubjects(plan)
    requires forall k :: 0 <= k < |plan| ==> plan[k].hoursPerWeek > 0
    requires idx < |plan| && Planned(profiles, plan, idx, r, warnings)
    requires Explained(profiles, plan, idx, r.placements, warnings)
    ensures Planned(profiles, plan, idx + 1, r', warnings')
    ensures Explained(profiles, plan, idx + 1, r'.placements, warnings')
    requires Served(plan, idx, r.placements, warnings)
    ensures Served(plan, idx + 1, r'.placements, warnings')
  {
    NotYetPlaced(profiles, plan, idx, r.placements);
    var warning;
    r', warning := PlaceSubject(profiles, plan[idx], r);
    PlanStep(profiles, plan, idx, r, warnings, r', warning);
    NotYetWarned(plan, idx, warnings);
    ExplainStep(profiles, plan, idx, r.placements, warnings, r'.placements, warning);
    DoneBlocksOwned(profiles, plan[idx], r, r', warning);
    ServeStep(plan, idx, r.placements, warnings, r'.placements, warning);
    warnings' := warnings + (if warning.Some? then [warning.value] else []);
  }

  /**
   * The load of profile `pr` is nothing, or less than its capacity plus the
   * length of one of its blocks: a trainer is only picked while below
   * capacity, and then receives a whole block.
   */
  ghost predicate LoadCapped(ps: seq<Placement>, pr: Profile) {
    Load(ps, pr.id) == 0
    || exists i :: 0 <= i < |ps| && ps[i].trainerId == pr.id && Load(ps, pr.id) < pr.capacity + ps[i].size
  }

  /**
   * If a trainer is below capacity whenever one of its blocks is placed, its
   * load overshoots the capacity by less than one of its blocks.
   */
  lemma {:induction false} LoadBound(ps: seq<Placement>, pr: Profile, n: nat)
    requires n <= |ps|
    requires forall i :: 0 <= i < |ps| && ps[i].trainerId == pr.id ==> Load(ps[..i], pr.id) < pr.capacity
    ensures LoadCapped(ps[..n], pr)
  {
    if n > 0 {
      var cur, init := ps[..n], ps[..n - 1];
      assert cur[..n - 1] == init && cur[n - 1] == ps[n - 1];
      if ps[n - 1].trainerId == pr.id {
        assert Load(cur, pr.id) < pr.capacity + cur[n - 1].size;
      } else {
        LoadBound(ps, pr, n - 1);
        if Load(init, pr.id) != 0 {
          var i :| 0 <= i < |init| && init[i].trainerId == pr.id && Load(init, pr.id) < pr.capacity + init[i].size;
          assert cur[i] == init[i];
        }
      }
    }
  }

  /** A fairly chosen block's trainer was below capacity when it was picked. */
  lemma ChosenBelowCapacity(profiles: seq<Profile>, subjects: seq<Subject>, before: seq<Placement>, x: Placement, p: nat)
    requires p < |profiles| && profiles[p].id == x.trainerId
    requires ChosenFor(profiles, subjects, before, x)
    ensures Load(before, x.trainerId) < profiles[p].capacity
  {
    var j :| 0 <= j < |subjects| && subjects[j].hoursPerWeek > 0 && subjects[j].id == x.subjectId &&
      Chosen(profiles, subjects[j], Key(subjects[j]), before, x);
  }

  /** In a run of fairly chosen blocks no trainer overshoots its capacity by a whole block. */
  lemma AllCapped(profiles: seq<Profile>, subjects: seq<Subject>, ps: seq<Placement>)
    requires forall i :: 0 <= i < |ps| ==> ChosenFor(profiles, subjects, ps[..i], ps[i])
    ensures forall p :: 0 <= p < |profiles| ==> LoadCapped(ps, profiles[p])
  {
    forall p | 0 <= p < |profiles|
      ensures LoadCapped(ps, profiles[p])
    {
      forall i | 0 <= i < |ps| && ps[i].trainerId == profiles[p].id
        ensures Load(ps[..i], profiles[p].id) < profiles[p].capacity
      {
        ChosenBelowCapacity(profiles, subjects, ps[..i], ps[i], p);
      }
      LoadBound(ps, profiles[p], |ps|);
      assert ps[..|ps|] == ps;
    }
  }

  /** Trainers with distinct ids give profiles with distinct ids. */
  lemma ProfilesUnique(trainers: seq<Trainer>)
    requires UniqueTrainerIds(trainers)
    ensures UniqueProfileIds(Profiles(trainers))
  {
    var profiles := Profiles(trainers);
    forall i, j | 0 <= i < j < |profiles|
      ensures profiles[i].id != profiles[j].id
    {
      assert profiles[i].id == trainers[i].id && profiles[j].id == trainers[j].id;
    }
  }

  /**
   * `auto_schedule` without its database: the trainers and the subjects are
   * the tables' contents, and the rows it would add come back as placements
   * (`created` counts them) together with the warnings. The subjects with a
   * positive weekly load are served one after another in `SortPlan` order
   * (most hours first, then lower-cased name descending): the blocks and the warnings
   * come subject by subject in that order (`Served`).
   */
  method AutoSchedule(trainers: seq<Trainer>, subjects: seq<Subject>)
    returns (created: nat, warnings: seq<Warning>, placements: seq<Placement>)
    requires UniqueTrainerIds(trainers) && UniqueSubjects(subjects)
    ensures created == |placements|
    ensures |trainers| == 0 ==> warnings == [NoTrainers] && placements == []
    ensures |trainers| > 0 && (forall j :: 0 <= j < |subjects| ==> subjects[j].hoursPerWeek <= 0) ==>
      warnings == [NoSubjects] && placements == []
    ensures AllFit(placements) && Disjoint(placements) && OnePerDay(placements)
    ensures DetectConflicts(EntriesOf(placements)) == []
    ensures forall i :: 0 <= i < |placements| ==> ChosenFor(Profiles(trainers), subjects, placements[..i], placements[i])
    ensures forall p :: 0 <= p < |trainers| ==> LoadCapped(placements, Profiles(trainers)[p])
    ensures forall j :: 0 <= j < |subjects| ==> Placed(placements, subjects[j].id) <= Need(subjects[j])
    ensures |trainers| > 0 ==> forall j :: 0 <= j < |subjects| && subjects[j].hoursPerWeek > 0 ==>
      (Placed(placements, subjects[j].id) < Need(subjects[j]) <==> Warned(warnings, subjects[j].name))
    ensures |trainers| > 0 && (exists j :: 0 <= j < |subjects| && subjects[j].hoursPerWeek > 0) ==>
      forall w :: 0 <= w < |warnings| ==> AboutLoaded(subjects, warnings[w])
    ensures forall w1, w2, j :: 0 <= w1 < w2 < |warnings| && 0 <= j < |subjects| && About(warnings[w1], subjects[j].name) ==>
      !About(warnings[w2], subjects[j].name)
    ensures |trainers| > 0 ==> forall j :: 0 <= j < |subjects| && subjects[j].hoursPerWeek > 0 ==>
      (NoQualifiedTrainer(subjects[j].name) in warnings <==> NoneQualified(Profiles(trainers), Key(subjects[j])))
    ensures forall w, j :: 0 <= w < |warnings| && 0 <= j < |subjects| && About(warnings[w], subjects[j].name) ==>
      Justified(Profiles(trainers), subjects[j], placements, warnings[w])
    ensures |trainers| > 0 && (exists j :: 0 <= j < |subjects| && subjects[j].hoursPerWeek > 0) ==>
      Served(SortPlan(Positive(subjects)), |SortPlan(Positive(subjects))|, placements, warnings)
  {
    if |trainers| == 0 {
      return 0, [NoTrainers], [];
    }
    var positive := Positive(subjects);
    if |positive| == 0 {
      forall j | 0 <= j < |subjects|
        ensures subjects[j].hoursPerWeek <= 0
      {
        assert subjects[j] !in positive;
      }
      return 0, [NoSubjects], [];
    }
    var profiles := Profiles(trainers);
    var plan := SortPlan(positive);
    PositiveUnique(subjects);
    PermutationUnique(positive, plan);
    PlanCovers(subjects, positive, plan);
    ProfilesUnique(trainers);
    var r;
    r, warnings := PlacePlan(profiles, plan);
    placements := r.placements;
    created := |placements|;
    EntriesConflictFree(placements);
    PlanBlocksToSubjects(profiles, subjects, plan, placements);
    PlanCountsToSubjects(profiles, subjects, plan, placements, warnings);
    PlanWarningsToSubjects(subjects, plan, warnings);
    PlanExplainedToSubjects(profiles, subjects, plan, placements, warnings);
    AllCapped(profiles, subjects, placements);
  }
}
