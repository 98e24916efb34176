/**
 * The record shapes of models.py (`Trainer`, `Subject`, `Schedule`) and the
 * one piece of logic they carry, `Trainer.list_experience`.
 */
module Records {
  import opened Common
  import opened Text

  /** A trainer: `experience` is the comma-separated list of subjects taught. */
  datatype Trainer = Trainer(id: int, name: string, experience: Option<string>, weeklyHours: int)

  /** A subject: weekly load and preferred block length, both in slots. */
  datatype Subject = Subject(id: int, name: string, hoursPerWeek: int, dailySlots: Option<int>)

  /**
   * A schedule entry. `day` is the day label as stored, and `start`/`end` are
   * minutes since midnight (the stored "HH:MM" strings, see TimeGrid.FormatTime).
   */
  datatype Entry = Entry(id: int, trainerId: int, subjectId: int, day: string, start: nat, end: nat, section: string)

  /** A list item as `list_experience` returns it. */
  predicate CleanItem(x: string) {
    x != "" && Trimmed(x) && ',' !in x
  }

  /** `[f.strip() for f in fields if f.strip()]`. */
  function KeepStripped(fields: seq<string>): (r: seq<string>)
    ensures |r| <= |fields|
    ensures forall k :: 0 <= k < |r| ==> r[k] != "" && Trimmed(r[k])
  {
    if |fields| == 0 then []
    else
      var head := Strip(fields[0]);
      if head != "" then [head] + KeepStripped(fields[1..]) else KeepStripped(fields[1..])
  }

  /** `[f.strip() for f in fields]`. */
  function StripAll(fields: seq<string>): (r: seq<string>)
    ensures |r| == |fields|
  {
    if |fields| == 0 then [] else [Strip(fields[0])] + StripAll(fields[1..])
  }

  /** The items kept are exactly the stripped fields that are not blank. */
  lemma {:induction false} KeepStrippedItems(fields: seq<string>)
    ensures forall x :: x in KeepStripped(fields) <==> x != "" && x in StripAll(fields)
  {
    if |fields| > 0 {
      var h, rest, all := Strip(fields[0]), KeepStripped(fields[1..]), StripAll(fields[1..]);
      KeepStrippedItems(fields[1..]);
      KeepStrippedCons(fields);
      var kept := KeepStripped(fields);
      forall x
        ensures x in kept <==> x != "" && x in StripAll(fields)
      {
        assert x in rest <==> x != "" && x in all;
      }
    }
  }

  lemma KeepStrippedCons(fields: seq<string>)
    requires |fields| > 0
    ensures KeepStripped(fields) == (if Strip(fields[0]) != "" then [Strip(fields[0])] else []) + KeepStripped(fields[1..])
  {
    var h, rest := Strip(fields[0]), KeepStripped(fields[1..]);
    if h != "" {
      assert KeepStripped(fields) == [h] + rest;
    } else {
      assert KeepStripped(fields) == rest;
      assert [] + rest == rest;
    }
  }

  /** Only a list of blank fields gives no item at all. */
  lemma {:induction false} KeepStrippedBlank(fields: seq<string>)
    ensures (forall j :: 0 <= j < |fields| ==> Strip(fields[j]) == "") <==> KeepStripped(fields) == []
  {
    if |fields| > 0 {
      var tail := fields[1..];
      KeepStrippedBlank(tail);
      KeepStrippedCons(fields);
      assert (forall j :: 0 <= j < |fields| ==> Strip(fields[j]) == "") <==>
             Strip(fields[0]) == "" && (forall j :: 0 <= j < |tail| ==> Strip(tail[j]) == "") by {
        assert forall j :: 1 <= j < |fields| ==> fields[j] == tail[j - 1];
      }
    }
  }

  /** Stripping never brings in a comma that no field had. */
  lemma {:induction false} KeepStrippedNoComma(fields: seq<string>)
    requires forall j :: 0 <= j < |fields| ==> ',' !in fields[j]
    ensures forall k :: 0 <= k < |KeepStripped(fields)| ==> ',' !in KeepStripped(fields)[k]
  {
    if |fields| > 0 {
      assert forall j :: 0 <= j < |fields| - 1 ==> fields[1..][j] == fields[j + 1];
      KeepStrippedNoComma(fields[1..]);
      StripKeepsOut(fields[0], ',');
    }
  }

  /** Filtering a concatenation filters each part: the items of `a` come before those of `b`. */
  lemma {:induction false} KeepStrippedAppend(a: seq<string>, b: seq<string>)
    ensures KeepStripped(a + b) == KeepStripped(a) + KeepStripped(b)
  {
    if |a| > 0 {
      assert (a + b)[1..] == a[1..] + b;
      KeepStrippedAppend(a[1..], b);
    } else {
      assert a + b == b;
    }
  }

  /** `Trainer.list_experience`. */
  function ListExperience(experience: Option<string>): (r: seq<string>)
    ensures experience == None || experience == Some("") ==> r == []
    ensures forall k :: 0 <= k < |r| ==> CleanItem(r[k])
  {
    if experience.None? || experience.value == "" then []
    else
      var fields := Split(experience.value, ',');
      KeepStrippedNoComma(fields);
      KeepStripped(fields)
  }

  /** The items after the first, each preceded by the space of ", ". */
  function SpacedFields(items: seq<string>): seq<string>
    requires |items| >= 1
  {
    [items[0]] + seq(|items| - 1, i requires 0 <= i < |items| - 1 => " " + items[i + 1])
  }

  lemma {:induction false} JoinCommaSpace(items: seq<string>)
    requires |items| >= 1
    ensures Join(items, ", ") == Join(SpacedFields(items), ",")
  {
    if |items| > 1 {
      JoinCommaSpace(items[1..]);
      var tail := SpacedFields(items[1..]);
      var sp := SpacedFields(items);
      assert sp[1..] == [" " + tail[0]] + tail[1..];
      JoinPrefix(tail, " ");
    }
  }

  /** Putting a prefix in front of a join puts it in front of the first item. */
  lemma {:induction false} JoinPrefix(items: seq<string>, p: string)
    requires |items| >= 1
    ensures p + Join(items, ",") == Join([p + items[0]] + items[1..], ",")
  {
    var moved := [p + items[0]] + items[1..];
    if |items| > 1 {
      assert moved[1..] == items[1..];
      calc {
        Join(moved, ",");
        moved[0] + "," + Join(moved[1..], ",");
        (p + items[0]) + "," + Join(items[1..], ",");
        p + (items[0] + "," + Join(items[1..], ","));
        p + Join(items, ",");
      }
    }
  }

  /**
   * What the spreadsheet import writes into `experience`, the `", "`-join of
   * clean items (app.py:407-408), reads back as exactly those items.
   */
  lemma ListExperienceJoin(items: seq<string>)
    requires forall k :: 0 <= k < |items| ==> CleanItem(items[k])
    ensures ListExperience(Some(Join(items, ", "))) == items
  {
    if |items| > 0 {
      var sp := SpacedFields(items);
      JoinCommaSpace(items);
      SpacedNoComma(items);
      SplitJoin(sp, ',');
      JoinNonEmpty(items);
      KeepSpaced(items);
    }
  }

  lemma SpacedNoComma(items: seq<string>)
    requires |items| >= 1
    requires forall k :: 0 <= k < |items| ==> CleanItem(items[k])
    ensures forall k :: 0 <= k < |SpacedFields(items)| ==> ',' !in SpacedFields(items)[k]
  {
    var sp := SpacedFields(items);
    forall k | 0 <= k < |sp|
      ensures ',' !in sp[k]
    {
      if k > 0 {
        assert sp[k] == " " + items[k];
      }
    }
  }

  lemma JoinNonEmpty(items: seq<string>)
    requires |items| >= 1 && items[0] != ""
    ensures Join(items, ", ") != ""
  {
    if |items| > 1 {
      assert |Join(items, ", ")| >= |items[0]|;
    }
  }

  lemma KeepSpaced(items: seq<string>)
    requires |items| >= 1
    requires forall k :: 0 <= k < |items| ==> CleanItem(items[k])
    ensures KeepStripped(SpacedFields(items)) == items
  {
    var sp := SpacedFields(items);
    forall k | 0 <= k < |sp|
      ensures Strip(sp[k]) == items[k]
    {
      StripTrimmed(items[k]);
      if k > 0 {
        assert sp[k] == " " + items[k];
        StripAfterSpace(items[k]);
      }
    }
    KeepStrippedEach(sp, items);
  }

  /** Fields that each strip to a non-blank item keep exactly those items. */
  lemma {:induction false} KeepStrippedEach(fields: seq<string>, items: seq<string>)
    requires |fields| == |items|
    requires forall k :: 0 <= k < |fields| ==> Strip(fields[k]) == items[k] && items[k] != ""
    ensures KeepStripped(fields) == items
  {
    if |fields| > 0 {
      KeepStrippedEach(fields[1..], items[1..]);
      assert items == [items[0]] + items[1..];
    }
  }

  /** `_trainer_subjects`: the normalized names of the subjects a trainer teaches. */
  function Skills(t: Trainer): (r: set<string>)
    ensures forall k :: 0 <= k < |ListExperience(t.experience)| ==> Normalize(Some(ListExperience(t.experience)[k])) in r
    ensures forall x :: x in r ==>
      exists k :: 0 <= k < |ListExperience(t.experience)| && x == Normalize(Some(ListExperience(t.experience)[k]))
    ensures forall x :: x in r ==> x != "" && Trimmed(x) && LowerCase(x)
    ensures t.experience == None || t.experience == Some("") ==> r == {}
  {
    var items := ListExperience(t.experience);
    forall k | 0 <= k < |items|
      ensures Normalize(Some(items[k])) != ""
    {
      StripTrimmed(items[k]);
    }
    set i | 0 <= i < |items| :: Normalize(Some(items[i]))
  }

  /**
   * A trainer whose experience was stored as the `", "` join of clean items
   * teaches exactly the normalized forms of those items.
   */
  lemma SkillsOfImport(t: Trainer, items: seq<string>)
    requires forall k :: 0 <= k < |items| ==> CleanItem(items[k])
    requires t.experience == Some(Join(items, ", "))
    ensures forall x :: x in Skills(t) <==> exists k :: 0 <= k < |items| && x == Normalize(Some(items[k]))
  {
    ListExperienceJoin(items);
    assert ListExperience(t.experience) == items;
  }

  /** Trainer ids are unique (the primary key). */
  ghost predicate UniqueTrainerIds(trainers: seq<Trainer>) {
    forall i, j :: 0 <= i < j < |trainers| ==> trainers[i].id != trainers[j].id
  }

  /** Subject ids and subject names are unique (the primary key and the unique name column). */
  ghost predicate UniqueSubjects(subjects: seq<Subject>) {
    forall i, j :: 0 <= i < j < |subjects| ==> subjects[i].id != subjects[j].id && subjects[i].name != subjects[j].name
  }

  /**
   * A trainer's entry in `trainer_profiles`: the id, the capacity and the set
   * of normalized subject names; the running `assigned` count is kept apart.
   */
  datatype Profile = Profile(id: int, capacity: int, subjects: set<string>)

  function ProfileOf(t: Trainer): Profile {
    Profile(t.id, Capacity(t), Skills(t))
  }

  /** `trainer_profiles.values()`, in roster order. */
  function Profiles(trainers: seq<Trainer>): (r: seq<Profile>)
    ensures |r| == |trainers|
    ensures forall p :: 0 <= p < |r| ==> r[p] == ProfileOf(trainers[p])
    ensures forall p :: 0 <= p < |r| ==> r[p].id == trainers[p].id && r[p].capacity >= 0
    ensures forall p :: 0 <= p < |r| && trainers[p].weeklyHours >= 0 ==> r[p].capacity == trainers[p].weeklyHours
    ensures forall p, k :: 0 <= p < |r| && 0 <= k < |ListExperience(trainers[p].experience)| ==>
      Normalize(Some(ListExperience(trainers[p].experience)[k])) in r[p].subjects
    ensures forall p, x :: 0 <= p < |r| && x in r[p].subjects ==>
      exists k :: 0 <= k < |ListExperience(trainers[p].experience)| && x == Normalize(Some(ListExperience(trainers[p].experience)[k]))
    ensures forall p, x :: 0 <= p < |r| && x in r[p].subjects ==> x != "" && Trimmed(x) && LowerCase(x)
  {
    seq(|trainers|, p requires 0 <= p < |trainers| => ProfileOf(trainers[p]))
  }

  /** Profile ids are unique. */
  ghost predicate UniqueProfileIds(profiles: seq<Profile>) {
    forall i, j :: 0 <= i < j < |profiles| ==> profiles[i].id != profiles[j].id
  }

  /** `max(weekly_hours, 0)`: the trainer's weekly capacity in slots. */
  function Capacity(t: Trainer): int {
    Max(t.weeklyHours, 0)
  }

  /** `max(int(hours_per_week), 0)`: the slots the subject needs per week. */
  function Need(s: Subject): int {
    Max(s.hoursPerWeek, 0)
  }

  /** `max(int(daily_slots or 1), 1)`: the preferred block length. */
  function BlockSize(s: Subject): (r: int)
    ensures r >= 1
    ensures s.dailySlots.Some? && s.dailySlots.value >= 1 ==> r == s.dailySlots.value
    ensures !(s.dailySlots.Some? && s.dailySlots.value >= 1) ==> r == 1
  {
    var raw := if s.dailySlots.None? || s.dailySlots.value == 0 then 1 else s.dailySlots.value;
    Max(raw, 1)
  }
}
