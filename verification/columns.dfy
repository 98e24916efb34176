/**
 * `_normalize_columns` of app.py: recognising the trainer, subject, hours and
 * daily-slots columns of an uploaded sheet by keywords in their headers.
 */
module Columns {
  import opened Common
  import opened Text

  datatype Role = TrainerColumn | SubjectColumn | HoursColumn | DailySlotsColumn

  /** The keywords, English and Arabic, that mark a header as having a role. */
  function Keywords(role: Role): seq<string> {
    match role
    case TrainerColumn => ["trainer", "مدرب"]
    case SubjectColumn => ["subject", "مادة"]
    case HoursColumn => ["hour", "س"]
    case DailySlotsColumn => ["daily", "حصص", "يومي"]
  }

  /** The order in which the rules are tried; a lower rank wins. */
  function Rank(role: Role): nat {
    match role
    case TrainerColumn => 0
    case SubjectColumn => 1
    case HoursColumn => 2
    case DailySlotsColumn => 3
  }

  /** The header text the rules look at: trimmed and lower-cased. */
  function HeaderKey(col: string): string {
    Lower(Strip(col))
  }

  /** Some keyword of `role` occurs in `key`. */
  predicate Mentions(key: string, role: Role) {
    AnyOccurs(key, Keywords(role))
  }

  predicate AnyOccurs(key: string, words: seq<string>) {
    |words| > 0 && (Contains(key, words[0]) || AnyOccurs(key, words[1..]))
  }

  lemma MentionsEach(key: string)
    ensures Mentions(key, TrainerColumn) <==> Contains(key, "trainer") || Contains(key, "مدرب")
    ensures Mentions(key, SubjectColumn) <==> Contains(key, "subject") || Contains(key, "مادة")
    ensures Mentions(key, HoursColumn) <==> Contains(key, "hour") || Contains(key, "س")
    ensures Mentions(key, DailySlotsColumn) <==>
      Contains(key, "daily") || Contains(key, "حصص") || Contains(key, "يومي")
  {
    var t, u, h, d := Keywords(TrainerColumn), Keywords(SubjectColumn), Keywords(HoursColumn), Keywords(DailySlotsColumn);
    assert t[1..] == ["مدرب"] && t[1..][1..] == [] && !AnyOccurs(key, []);
    assert AnyOccurs(key, t[1..]) == Contains(key, "مدرب");
    assert u[1..] == ["مادة"] && u[1..][1..] == [];
    assert AnyOccurs(key, u[1..]) == Contains(key, "مادة");
    assert h[1..] == ["س"] && h[1..][1..] == [];
    assert AnyOccurs(key, h[1..]) == Contains(key, "س");
    assert d[1..] == ["حصص", "يومي"] && d[1..][1..] == ["يومي"] && d[1..][1..][1..] == [];
    assert AnyOccurs(key, d[1..][1..]) == Contains(key, "يومي");
    assert AnyOccurs(key, d[1..]) == (Contains(key, "حصص") || Contains(key, "يومي"));
  }

  /** The role `_normalize_columns` gives one header, if any. */
  function Classify(col: string): (r: Option<Role>)
    ensures r.Some? ==> Mentions(HeaderKey(col), r.value)
    ensures r.None? ==> forall role :: !Mentions(HeaderKey(col), role)
  {
    var lower := HeaderKey(col);
    MentionsEach(lower);
    if Contains(lower, "trainer") || Contains(lower, "مدرب") then
      Some(TrainerColumn)
    else if Contains(lower, "subject") || Contains(lower, "مادة") then
      Some(SubjectColumn)
    else if Contains(lower, "hour") || Contains(lower, "س") then
      Some(HoursColumn)
    else if Contains(lower, "daily") || Contains(lower, "حصص") || Contains(lower, "يومي") then
      Some(DailySlotsColumn)
    else
      None
  }

  /**
   * A header gets the role of the first rule, in rank order, with a keyword
   * in its trimmed lower-cased text, and no role when no rule matches.
   */
  lemma ClassifyFirstMatch(col: string)
    ensures Classify(col).None? <==> forall role :: !Mentions(HeaderKey(col), role)
    ensures Classify(col).Some? ==> Mentions(HeaderKey(col), Classify(col).value)
    ensures Classify(col).Some? ==>
      forall role :: Rank(role) < Rank(Classify(col).value) ==> !Mentions(HeaderKey(col), role)
  {
    var key := HeaderKey(col);
    MentionsEach(key);
    var r := Classify(col);
    if r.None? {
      forall role
        ensures !Mentions(key, role)
      {
        match role
        case TrainerColumn =>
        case SubjectColumn =>
        case HoursColumn =>
        case DailySlotsColumn =>
      }
    } else {
      forall role | Rank(role) < Rank(r.value)
        ensures !Mentions(key, role)
      {
        match role
        case TrainerColumn =>
        case SubjectColumn =>
        case HoursColumn =>
        case DailySlotsColumn =>
      }
    }
  }

  /**
   * `_normalize_columns`: maps every header that some rule recognises to its
   * role; headers no rule recognises are left out of the mapping.
   */
  function NormalizeColumns(columns: seq<string>): (m: map<string, Role>)
    ensures forall c :: c in m <==> c in columns && Classify(c).Some?
    ensures forall c :: c in m ==> m[c] == Classify(c).value
  {
    if |columns| == 0 then map[]
    else
      var init := columns[..|columns| - 1];
      var c := columns[|columns| - 1];
      var m := NormalizeColumns(init);
      assert columns == init + [c];
      match Classify(c)
      case Some(role) => m[c := role]
      case None => m
  }
}
