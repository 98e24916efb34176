/**
 * The admission checks of the two editing routes of app.py: moving an entry
 * (`update_schedule_entry`) and adding one (`create_schedule_entry`). Both
 * turn a slot index and a duration into a block of the canonical grid and
 * refuse it when another entry of the same day overlaps it.
 */
module Admission {
  import opened Common
  import opened Text
  import opened TimeGrid
  import opened Records
  import opened Audit

  /** Why a request is refused; each maps to one flash message of the source. */
  datatype Rejection =
    | InvalidForm        // a required identifier is missing
    | NotFound           // no entry with the edited id (the 404)
    | UnknownReference   // the subject or trainer does not exist, or the day is not a working day
    | InvalidSlot        // the start slot is outside the grid
    | ExceedsDay         // the block runs past the last slot
    | SlotTaken          // another entry of that day overlaps the block
    | TrainerBusy        // the trainer has an overlapping entry that day

  /**
   * The submitted form fields, already converted to integers; `None` is a
   * field that was not submitted.
   */
  datatype Form = Form(
    subjectId: Option<int>,
    trainerId: Option<int>,
    day: Option<string>,
    startSlot: Option<int>,
    duration: Option<int>,
    section: Option<string>)

  predicate HasSubject(subjects: seq<Subject>, id: int) {
    exists i :: 0 <= i < |subjects| && subjects[i].id == id
  }

  predicate HasTrainer(trainers: seq<Trainer>, id: int) {
    exists i :: 0 <= i < |trainers| && trainers[i].id == id
  }

  /** The block lies inside the grid. */
  predicate SlotFits(startSlot: int, size: int) {
    0 <= startSlot && 1 <= size && startSlot + size <= SlotsPerDay
  }

  /** The entry a request asks for: the block's times taken from the grid. */
  function Proposed(id: int, trainerId: int, subjectId: int, day: string, startSlot: int, size: int, section: string): (e: Entry)
    requires SlotFits(startSlot, size)
    ensures e.id == id && e.trainerId == trainerId && e.subjectId == subjectId && e.day == day && e.section == section
    ensures e.start == StartTime + 60 * startSlot
    ensures e.end == StartTime + 60 * (startSlot + size) - BreakMinutes
    ensures e.start < e.end < MinutesPerDay
  {
    BlockTimes(startSlot, size);
    Entry(id, trainerId, subjectId, day, BlockStart(startSlot) as nat, BlockEnd(startSlot, size) as nat, section)
  }

  /** `.first()` of the overlap query: some entry of `es` that overlaps `c`, if any. */
  function FirstOverlap(es: seq<Entry>, c: Entry): (r: Option<Entry>)
    ensures r.None? <==> forall i :: 0 <= i < |es| ==> !Overlaps(es[i], c)
    ensures r.Some? ==> r.value in es && Overlaps(r.value, c)
  {
    if |es| == 0 then None
    else if Overlaps(es[0], c) then Some(es[0])
    else FirstOverlap(es[1..], c)
  }

  /** The rows the trainer query looks at: the entries of one trainer. */
  function OfTrainer(es: seq<Entry>, trainerId: int): (r: seq<Entry>)
    ensures forall i :: 0 <= i < |r| ==> r[i] in es && r[i].trainerId == trainerId
    ensures forall i :: 0 <= i < |es| && es[i].trainerId == trainerId ==> es[i] in r
  {
    if |es| == 0 then []
    else
      var rest := OfTrainer(es[1..], trainerId);
      assert forall i :: 1 <= i < |es| ==> es[i] == es[1..][i - 1];
      (if es[0].trainerId == trainerId then [es[0]] else []) + rest
  }

  /** The entries other than the one being edited (`Schedule.id != schedule_id`). */
  function Others(es: seq<Entry>, id: int): (r: seq<Entry>)
    ensures forall i :: 0 <= i < |r| ==> r[i] in es && r[i].id != id
    ensures forall i :: 0 <= i < |es| && es[i].id != id ==> es[i] in r
  {
    if |es| == 0 then []
    else
      var rest := Others(es[1..], id);
      assert forall i :: 1 <= i < |es| ==> es[i] == es[1..][i - 1];
      (if es[0].id != id then [es[0]] else []) + rest
  }

  /**
   * The checks both routes share once the references are known: the slot
   * range, the day's end, the overlap query and the trainer query, in that
   * order. A request is accepted exactly when its block fits the grid and
   * overlaps none of `others`; the trainer check never fires, since a busy
   * trainer's entry is already an overlapping entry.
   */
  function Place(others: seq<Entry>, id: int, trainerId: int, subjectId: int, day: string,
                 startSlot: int, size: int, section: string): (r: Result<Entry, Rejection>)
    requires size >= 1
    ensures r == Err(InvalidSlot) <==> !(0 <= startSlot < SlotsPerDay)
    ensures r == Err(ExceedsDay) <==> 0 <= startSlot < SlotsPerDay && startSlot + size > SlotsPerDay
    ensures SlotFits(startSlot, size) ==>
      (r.Ok? <==> forall i :: 0 <= i < |others| ==> !Overlaps(others[i], Proposed(id, trainerId, subjectId, day, startSlot, size, section)))
    ensures r.Ok? ==> SlotFits(startSlot, size) && r.value == Proposed(id, trainerId, subjectId, day, startSlot, size, section)
    ensures r != Err(TrainerBusy)
  {
    if startSlot < 0 || startSlot >= SlotsPerDay then Err(InvalidSlot)
    else if startSlot + size > SlotsPerDay then Err(ExceedsDay)
    else
      var c := Proposed(id, trainerId, subjectId, day, startSlot, size, section);
      if FirstOverlap(others, c).Some? then Err(SlotTaken)
      else
        var busy := FirstOverlap(OfTrainer(others, trainerId), c);
        assert busy.None? by {
          forall i | 0 <= i < |OfTrainer(others, trainerId)|
            ensures !Overlaps(OfTrainer(others, trainerId)[i], c)
          {
            var k :| 0 <= k < |others| && others[k] == OfTrainer(others, trainerId)[i];
          }
        }
        if busy.Some? then Err(TrainerBusy) else Ok(c)
  }

  /** The reasons the create route can give: never a missing entry, never the trainer check. */
  predicate CreateReason(e: Rejection) {
    e == InvalidForm || e == UnknownReference || e == InvalidSlot || e == ExceedsDay || e == SlotTaken
  }

  /** The reasons the update route can give: the form's identifiers always have defaults. */
  predicate UpdateReason(e: Rejection) {
    e == NotFound || e == UnknownReference || e == InvalidSlot || e == ExceedsDay || e == SlotTaken
  }

  /** `create_schedule_entry`; `newId` is the id the database assigns. */
  function AdmitCreate(existing: seq<Entry>, trainers: seq<Trainer>, subjects: seq<Subject>,
                       newId: int, form: Form): (r: Result<Entry, Rejection>)
    ensures r.Err? ==> CreateReason(r.error)
    ensures r.Ok? ==> r.value.id == newId
  {
    if form.subjectId.None? || form.trainerId.None? then Err(InvalidForm)
    else
      var subjectId, trainerId := form.subjectId.value, form.trainerId.value;
      if !HasSubject(subjects, subjectId) || !HasTrainer(trainers, trainerId) || form.day.None? || form.day.value !in Days then
        Err(UnknownReference)
      else
        Place(existing, newId, trainerId, subjectId, form.day.value, RequestedSlot(form), RequestedSize(form),
              Strip(form.section.GetOr("")))
  }

  /**
   * The create route refuses a form without both identifiers, and then
   * exactly the forms naming an unknown subject or trainer or a day that is
   * not a working day.
   */
  lemma CreateRefusals(existing: seq<Entry>, trainers: seq<Trainer>, subjects: seq<Subject>, newId: int, form: Form)
    ensures AdmitCreate(existing, trainers, subjects, newId, form) == Err(InvalidForm) <==>
      form.subjectId.None? || form.trainerId.None?
    ensures AdmitCreate(existing, trainers, subjects, newId, form) == Err(UnknownReference) <==>
      && form.subjectId.Some? && form.trainerId.Some?
      && (!HasSubject(subjects, form.subjectId.value) || !HasTrainer(trainers, form.trainerId.value)
          || form.day.None? || form.day.value !in Days)
  {
  }

  /**
   * An entry the create route accepts names an existing subject and trainer
   * and a working day, carries the stripped section, and overlaps no entry
   * of the table.
   */
  lemma CreateAccepted(existing: seq<Entry>, trainers: seq<Trainer>, subjects: seq<Subject>,
                       newId: int, form: Form, e: Entry)
    requires AdmitCreate(existing, trainers, subjects, newId, form) == Ok(e)
    ensures HasSubject(subjects, e.subjectId) && HasTrainer(trainers, e.trainerId) && e.day in Days
    ensures e.subjectId == form.subjectId.value && e.trainerId == form.trainerId.value
    ensures e.section == Strip(form.section.GetOr(""))
    ensures forall i :: 0 <= i < |existing| ==> !Overlaps(existing[i], e)
  {
  }

  /** The entry with a given id, as `get_or_404` finds it. */
  function FindEntry(es: seq<Entry>, id: int): (r: Option<Entry>)
    ensures r.None? <==> forall i :: 0 <= i < |es| ==> es[i].id != id
    ensures r.Some? ==> r.value in es && r.value.id == id
  {
    if |es| == 0 then None
    else if es[0].id == id then Some(es[0])
    else FindEntry(es[1..], id)
  }

  /**
   * `update_schedule_entry`: fields left out of the form keep the entry's
   * subject, trainer and day; the section is replaced by the submitted one,
   * stripped, or emptied when none is submitted. Unlike the create route the
   * day is not checked against the working days.
   */
  function AdmitUpdate(existing: seq<Entry>, trainers: seq<Trainer>, subjects: seq<Subject>,
                       scheduleId: int, form: Form): (r: Result<Entry, Rejection>)
    ensures r.Err? ==> UpdateReason(r.error)
    ensures r.Ok? ==> r.value.id == scheduleId
  {
    match FindEntry(existing, scheduleId)
    case None => Err(NotFound)
    case Some(entry) =>
      var subjectId := form.subjectId.GetOr(entry.subjectId);
      var trainerId := form.trainerId.GetOr(entry.trainerId);
      if !HasSubject(subjects, subjectId) || !HasTrainer(trainers, trainerId) then Err(UnknownReference)
      else
        Place(Others(existing, scheduleId), scheduleId, trainerId, subjectId, form.day.GetOr(entry.day),
              RequestedSlot(form), RequestedSize(form), Strip(form.section.GetOr("")))
  }

  /** The update route answers 404 exactly when no entry has the edited id. */
  lemma UpdateNotFound(existing: seq<Entry>, trainers: seq<Trainer>, subjects: seq<Subject>, scheduleId: int, form: Form)
    ensures AdmitUpdate(existing, trainers, subjects, scheduleId, form) == Err(NotFound) <==>
      forall i :: 0 <= i < |existing| ==> existing[i].id != scheduleId
  {
  }

  /**
   * An entry the update route accepts names an existing subject and trainer,
   * keeps what the form leaves out, carries the stripped section, and
   * overlaps no other entry of the table.
   */
  lemma UpdateAccepted(existing: seq<Entry>, trainers: seq<Trainer>, subjects: seq<Subject>,
                       scheduleId: int, form: Form, e: Entry)
    requires AdmitUpdate(existing, trainers, subjects, scheduleId, form) == Ok(e)
    ensures HasSubject(subjects, e.subjectId) && HasTrainer(trainers, e.trainerId)
    ensures exists i :: (0 <= i < |existing| && existing[i].id == scheduleId
                         && e.subjectId == form.subjectId.GetOr(existing[i].subjectId)
                         && e.trainerId == form.trainerId.GetOr(existing[i].trainerId)
                         && e.day == form.day.GetOr(existing[i].day))
    ensures e.section == Strip(form.section.GetOr(""))
    ensures forall i :: 0 <= i < |existing| && existing[i].id != scheduleId ==> !Overlaps(existing[i], e)
  {
    var entry := FindEntry(existing, scheduleId).value;
    var i :| 0 <= i < |existing| && existing[i] == entry;
  }

  /** The form's requested block, after the defaults and the clamp to at least one slot. */
  function RequestedSlot(form: Form): int {
    form.startSlot.GetOr(0)
  }

  function RequestedSize(form: Form): int {
    Max(form.duration.GetOr(1), 1)
  }

  /**
   * An accepted entry occupies the requested block of the canonical grid:
   * its times are those of the block's first and last slot, and the timetable
   * view shows it at the requested slot with the requested length.
   */
  lemma AcceptedBlock(e: Entry, existing: seq<Entry>, trainers: seq<Trainer>, subjects: seq<Subject>,
                      id: int, form: Form, create: bool)
    requires (if create then AdmitCreate(existing, trainers, subjects, id, form)
              else AdmitUpdate(existing, trainers, subjects, id, form)) == Ok(e)
    ensures SlotFits(RequestedSlot(form), RequestedSize(form))
    ensures e.start == StartTime + 60 * RequestedSlot(form)
    ensures e.end == StartTime + 60 * (RequestedSlot(form) + RequestedSize(form)) - BreakMinutes
    ensures Annotate(e, TimeSlots()) == Annotation(RequestedSlot(form), RequestedSize(form))
  {
    var s, d := RequestedSlot(form), RequestedSize(form);
    TimeSlotsShape();
    assert e.start == TimeSlots()[s].start && e.end == TimeSlots()[s + d - 1].end;
    AnnotateBlock(e, TimeSlots(), s, d);
  }

  /** Entry ids are unique, as the primary key guarantees. */
  ghost predicate UniqueIds(es: seq<Entry>) {
    forall i, j :: 0 <= i < j < |es| ==> es[i].id != es[j].id
  }

  /** The table after an update: the row with `e`'s id replaced by `e`. */
  function Replace(es: seq<Entry>, e: Entry): (r: seq<Entry>)
    ensures |r| == |es|
    ensures forall i :: 0 <= i < |r| ==> r[i] == (if es[i].id == e.id then e else es[i])
    ensures forall i :: 0 <= i < |r| ==> r[i].id == es[i].id
    ensures (forall i :: 0 <= i < |es| ==> es[i].id != e.id) ==> r == es
  {
    seq(|es|, i requires 0 <= i < |es| => if es[i].id == e.id then e else es[i])
  }

  /**
   * With unique ids, an update touches exactly the one row that has `e`'s id:
   * that row becomes `e`, every other row and the ids stay as they were.
   */
  lemma ReplaceOne(es: seq<Entry>, e: Entry, k: nat)
    requires UniqueIds(es) && k < |es| && es[k].id == e.id
    ensures Replace(es, e) == es[k := e]
    ensures multiset(Replace(es, e)) == multiset(es) - multiset{es[k]} + multiset{e}
    ensures UniqueIds(Replace(es, e))
  {
    assert Replace(es, e) == es[k := e];
  }

  /** Adding an accepted entry to a conflict-free table keeps it conflict-free. */
  lemma CreateKeepsConflictFree(existing: seq<Entry>, trainers: seq<Trainer>, subjects: seq<Subject>,
                                newId: int, form: Form, e: Entry)
    requires ConflictFree(existing)
    requires AdmitCreate(existing, trainers, subjects, newId, form) == Ok(e)
    ensures ConflictFree(existing + [e])
    ensures DetectConflicts(existing + [e]) == []
  {
    CreateAccepted(existing, trainers, subjects, newId, form, e);
    var es := existing + [e];
    forall i, j | 0 <= i < j < |es|
      ensures !Overlaps(es[i], es[j])
    {
      if j < |existing| {
        assert es[i] == existing[i] && es[j] == existing[j];
      } else {
        assert es[i] == existing[i];
      }
    }
    DetectConflictsSpec(es);
  }

  /** Moving an entry with an accepted update keeps a conflict-free table conflict-free. */
  lemma UpdateKeepsConflictFree(existing: seq<Entry>, trainers: seq<Trainer>, subjects: seq<Subject>,
                                scheduleId: int, form: Form, e: Entry)
    requires UniqueIds(existing) && ConflictFree(existing)
    requires AdmitUpdate(existing, trainers, subjects, scheduleId, form) == Ok(e)
    ensures e.id == scheduleId
    ensures ConflictFree(Replace(existing, e))
    ensures DetectConflicts(Replace(existing, e)) == []
  {
    UpdateAccepted(existing, trainers, subjects, scheduleId, form, e);
    var es := Replace(existing, e);
    forall i, j | 0 <= i < j < |es|
      ensures !Overlaps(es[i], es[j])
    {
      if existing[i].id == e.id {
        assert existing[j].id != scheduleId;
        OverlapsFacts(existing[j], e);
      } else if existing[j].id == e.id {
        assert existing[i].id != scheduleId;
      }
    }
    DetectConflictsSpec(es);
  }
}
