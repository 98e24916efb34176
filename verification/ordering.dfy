/**
 * The two orders the allocator of scheduler.py works in: the subject plan
 * (`sorted(subjects, key=(hours_per_week, name.lower()), reverse=True)`) and
 * the eligible trainers sorted by current load, from which the first trainer
 * with capacity left is chosen. Python's sorts are stable, and so are the
 * insertion sorts here.
 */
module Ordering {
  import opened Common
  import opened Text
  import opened Records

  // ---------------------------------------------------------------------------
  // The subject plan

  /** `a`'s sort key `(hours_per_week, name.lower())` is below `b`'s. */
  predicate KeyLess(a: Subject, b: Subject) {
    a.hoursPerWeek < b.hoursPerWeek
    || (a.hoursPerWeek == b.hoursPerWeek && LexLess(Lower(a.name), Lower(b.name)))
  }

  lemma KeyLessIrreflexive(a: Subject)
    ensures !KeyLess(a, a)
  {
    LexLessIrreflexive(Lower(a.name));
  }

  lemma KeyLessTransitive(a: Subject, b: Subject, c: Subject)
    ensures KeyLess(a, b) && KeyLess(b, c) ==> KeyLess(a, c)
  {
    var la, lb, lc := Lower(a.name), Lower(b.name), Lower(c.name);
    if LexLess(la, lb) && LexLess(lb, lc) {
      LexLessTransitive(la, lb, lc);
    }
  }

  /** No subject comes before one with a larger key. */
  ghost predicate Descending(ss: seq<Subject>) {
    forall i, j :: 0 <= i < j < |ss| ==> !KeyLess(ss[i], ss[j])
  }

  /**
   * Inserts `x` after every subject whose key is not below its own, so that
   * subjects with equal keys keep their order.
   */
  function InsertDescending(sorted: seq<Subject>, x: Subject): (r: seq<Subject>)
    requires Descending(sorted)
    ensures Descending(r)
    ensures multiset(r) == multiset(sorted) + multiset{x}
  {
    if |sorted| == 0 then [x]
    else if KeyLess(sorted[0], x) then
      BelowHead(sorted, x);
      [x] + sorted
    else
      var rest := InsertDescending(sorted[1..], x);
      assert sorted == [sorted[0]] + sorted[1..];
      HeadAbove(sorted, x, rest);
      [sorted[0]] + rest
  }

  /** When `x` beats the head of a descending list, it beats none of its elements' keys from below. */
  lemma BelowHead(sorted: seq<Subject>, x: Subject)
    requires Descending(sorted) && |sorted| > 0 && KeyLess(sorted[0], x)
    ensures forall k :: 0 <= k < |sorted| ==> !KeyLess(x, sorted[k])
  {
    KeyLessIrreflexive(sorted[0]);
    forall k | 0 <= k < |sorted|
      ensures !KeyLess(x, sorted[k])
    {
      KeyLessTransitive(sorted[0], x, sorted[k]);
    }
  }

  lemma HeadAbove(sorted: seq<Subject>, x: Subject, rest: seq<Subject>)
    requires Descending(sorted) && |sorted| > 0 && !KeyLess(sorted[0], x)
    requires multiset(rest) == multiset(sorted[1..]) + multiset{x}
    ensures forall k :: 0 <= k < |rest| ==> !KeyLess(sorted[0], rest[k])
  {
    forall k | 0 <= k < |rest|
      ensures !KeyLess(sorted[0], rest[k])
    {
      assert rest[k] in multiset(rest);
      if rest[k] != x {
        assert rest[k] in sorted[1..];
      }
    }
  }

  /** The subject plan: largest weekly load first, ties by lower-cased name, descending. */
  function SortPlan(ss: seq<Subject>): (r: seq<Subject>)
    ensures Descending(r)
    ensures multiset(r) == multiset(ss)
  {
    if |ss| == 0 then []
    else
      assert ss == ss[..|ss| - 1] + [ss[|ss| - 1]];
      InsertDescending(SortPlan(ss[..|ss| - 1]), ss[|ss| - 1])
  }

  lemma InsertDescendingLast(sorted: seq<Subject>, x: Subject)
    requires Descending(sorted)
    requires forall k :: 0 <= k < |sorted| ==> !KeyLess(sorted[k], x)
    ensures InsertDescending(sorted, x) == sorted + [x]
  {
    if |sorted| > 0 {
      InsertDescendingLast(sorted[1..], x);
      assert sorted == [sorted[0]] + sorted[1..];
    }
  }

  /** Sorting an already ordered plan leaves it as it is. */
  lemma {:induction false} SortPlanOrdered(ss: seq<Subject>)
    requires Descending(ss)
    ensures SortPlan(ss) == ss
  {
    if |ss| > 0 {
      var init := ss[..|ss| - 1];
      assert Descending(init);
      SortPlanOrdered(init);
      InsertDescendingLast(init, ss[|ss| - 1]);
      assert init + [ss[|ss| - 1]] == ss;
    }
  }

  /** `a` and `b` have the same sort key. */
  predicate KeyEq(a: Subject, b: Subject) {
    a.hoursPerWeek == b.hoursPerWeek && Lower(a.name) == Lower(b.name)
  }

  /** The subjects of `ss` whose key equals `x`'s, in their order in `ss`. */
  function SameKey(ss: seq<Subject>, x: Subject): seq<Subject> {
    if |ss| == 0 then []
    else (if KeyEq(ss[0], x) then [ss[0]] else []) + SameKey(ss[1..], x)
  }

  lemma {:induction false} SameKeyAppend(a: seq<Subject>, b: seq<Subject>, x: Subject)
    ensures SameKey(a + b, x) == SameKey(a, x) + SameKey(b, x)
  {
    if |a| > 0 {
      assert (a + b)[1..] == a[1..] + b;
      SameKeyAppend(a[1..], b, x);
    } else {
      assert a + b == b;
    }
  }

  lemma {:induction false} SameKeyNone(ss: seq<Subject>, x: Subject)
    requires forall k :: 0 <= k < |ss| ==> !KeyEq(ss[k], x)
    ensures SameKey(ss, x) == []
  {
    if |ss| > 0 {
      SameKeyNone(ss[1..], x);
    }
  }

  /** Inserting `y` puts it after every subject with the same key. */
  lemma {:induction false} InsertSameKey(sorted: seq<Subject>, y: Subject, x: Subject)
    requires Descending(sorted)
    ensures SameKey(InsertDescending(sorted, y), x) == SameKey(sorted, x) + (if KeyEq(y, x) then [y] else [])
  {
    if |sorted| == 0 {
      assert InsertDescending(sorted, y) == [y];
    } else if KeyLess(sorted[0], y) {
      InsertKeyFront(sorted, y, x);
    } else {
      InsertSameKey(sorted[1..], y, x);
      InsertKeyLater(sorted, y, x);
    }
  }

  lemma InsertKeyFront(sorted: seq<Subject>, y: Subject, x: Subject)
    requires Descending(sorted) && |sorted| > 0 && KeyLess(sorted[0], y)
    ensures SameKey(InsertDescending(sorted, y), x) == SameKey(sorted, x) + (if KeyEq(y, x) then [y] else [])
  {
    assert InsertDescending(sorted, y) == [y] + sorted;
    assert ([y] + sorted)[1..] == sorted;
    if KeyEq(y, x) {
      forall k | 0 <= k < |sorted|
        ensures !KeyEq(sorted[k], x)
      {
        if k > 0 {
          assert !KeyLess(sorted[0], sorted[k]);
        }
      }
      SameKeyNone(sorted, x);
    }
  }

  lemma InsertKeyLater(sorted: seq<Subject>, y: Subject, x: Subject)
    requires Descending(sorted) && |sorted| > 0 && !KeyLess(sorted[0], y)
    requires SameKey(InsertDescending(sorted[1..], y), x) == SameKey(sorted[1..], x) + (if KeyEq(y, x) then [y] else [])
    ensures SameKey(InsertDescending(sorted, y), x) == SameKey(sorted, x) + (if KeyEq(y, x) then [y] else [])
  {
    var rest := InsertDescending(sorted[1..], y);
    var head: seq<Subject> := if KeyEq(sorted[0], x) then [sorted[0]] else [];
    var tail: seq<Subject> := if KeyEq(y, x) then [y] else [];
    assert SameKey(InsertDescending(sorted, y), x) == head + SameKey(rest, x) by {
      assert InsertDescending(sorted, y) == [sorted[0]] + rest;
      assert ([sorted[0]] + rest)[1..] == rest;
    }
    assert SameKey(sorted, x) == head + SameKey(sorted[1..], x);
    Regroup(SameKey(InsertDescending(sorted, y), x), head, SameKey(rest, x), SameKey(sorted[1..], x), tail, SameKey(sorted, x));
  }

  /** Splices the three equations of an insertion step into one. */
  lemma Regroup<T>(whole: seq<T>, head: seq<T>, rest: seq<T>, mid: seq<T>, tail: seq<T>, before: seq<T>)
    requires whole == head + rest && rest == mid + tail && before == head + mid
    ensures whole == before + tail
  {
    assert head + (mid + tail) == (head + mid) + tail;
  }

  /**
   * The plan sort is stable: the subjects sharing any one key come out in
   * the order they went in.
   */
  lemma {:induction false} SortPlanStable(ss: seq<Subject>, x: Subject)
    ensures SameKey(SortPlan(ss), x) == SameKey(ss, x)
  {
    if |ss| > 0 {
      var init, last := ss[..|ss| - 1], ss[|ss| - 1];
      assert ss == init + [last];
      assert SortPlan(ss) == InsertDescending(SortPlan(init), last);
      SortPlanStable(init, x);
      InsertSameKey(SortPlan(init), last, x);
      SameKeyAppend(init, [last], x);
      assert SameKey([last], x) == (if KeyEq(last, x) then [last] else []) + SameKey([], x);
    }
  }

  /** `Subject.query.filter(Subject.hours_per_week > 0)`, in query order. */
  function Positive(subjects: seq<Subject>): (r: seq<Subject>)
    ensures forall k :: 0 <= k < |r| ==> r[k] in subjects && r[k].hoursPerWeek > 0
    ensures forall k :: 0 <= k < |subjects| && subjects[k].hoursPerWeek > 0 ==> subjects[k] in r
  {
    if |subjects| == 0 then []
    else
      var rest := Positive(subjects[1..]);
      assert forall k :: 1 <= k < |subjects| ==> subjects[k] == subjects[1..][k - 1];
      if subjects[0].hoursPerWeek > 0 then [subjects[0]] + rest else rest
  }

  /** Filtering a catalogue keeps its ids and names unique. */
  lemma {:induction false} PositiveUnique(subjects: seq<Subject>)
    requires UniqueSubjects(subjects)
    ensures UniqueSubjects(Positive(subjects))
  {
    if |subjects| > 0 {
      var rest := Positive(subjects[1..]);
      assert UniqueSubjects(subjects[1..]);
      PositiveUnique(subjects[1..]);
      forall k | 0 <= k < |rest|
        ensures rest[k].id != subjects[0].id && rest[k].name != subjects[0].name
      {
        var m :| 0 <= m < |subjects[1..]| && subjects[1..][m] == rest[k];
        assert subjects[m + 1] == rest[k];
      }
      UniqueCons(subjects[0], rest);
    }
  }

  /** A subject whose id and name differ from all of a unique catalogue's can go in front of it. */
  lemma UniqueCons(x: Subject, rest: seq<Subject>)
    requires UniqueSubjects(rest)
    requires forall k :: 0 <= k < |rest| ==> rest[k].id != x.id && rest[k].name != x.name
    ensures UniqueSubjects([x] + rest)
  {
    var ss := [x] + rest;
    forall i, j | 0 <= i < j < |ss|
      ensures ss[i].id != ss[j].id && ss[i].name != ss[j].name
    {
      assert ss[j] == rest[j - 1];
      if i > 0 {
        assert ss[i] == rest[i - 1];
      }
    }
  }

  /** Two positions holding the same value make that value occur at least twice. */
  lemma CountTwice(ss: seq<Subject>, i: nat, j: nat)
    requires i < j < |ss|
    ensures ss[i] == ss[j] ==> multiset(ss)[ss[i]] >= 2
  {
    assert ss == ss[..i] + [ss[i]] + ss[i + 1..j] + [ss[j]] + ss[j + 1..];
  }

  lemma {:induction false} UniqueCount(ss: seq<Subject>, i: nat)
    requires UniqueSubjects(ss) && i < |ss|
    ensures multiset(ss)[ss[i]] == 1
  {
    var init := ss[..|ss| - 1];
    assert ss == init + [ss[|ss| - 1]];
    assert UniqueSubjects(init);
    if i < |ss| - 1 {
      UniqueCount(init, i);
      assert init[i] == ss[i];
      assert ss[|ss| - 1] != ss[i];
    } else {
      forall k | 0 <= k < |init|
        ensures init[k] != ss[i]
      {
        assert init[k].id == ss[k].id != ss[i].id;
      }
    }
  }

  /** Reordering a catalogue keeps its ids and names unique. */
  lemma PermutationUnique(a: seq<Subject>, b: seq<Subject>)
    requires UniqueSubjects(a) && multiset(a) == multiset(b)
    ensures UniqueSubjects(b)
  {
    forall i, j | 0 <= i < j < |b|
      ensures b[i].id != b[j].id && b[i].name != b[j].name
    {
      assert b[i] in multiset(b) && b[j] in multiset(b);
      var i' :| 0 <= i' < |a| && a[i'] == b[i];
      var j' :| 0 <= j' < |a| && a[j'] == b[j];
      UniqueCount(a, i');
      CountTwice(b, i, j);
      assert b[i] != b[j];
      assert i' != j';
    }
  }

  // ---------------------------------------------------------------------------
  // Eligible trainers by load

  /** Profile indices are valid for the load table. */
  predicate Indices(order: seq<nat>, load: seq<int>) {
    forall k :: 0 <= k < |order| ==> order[k] < |load|
  }

  /** Loads never decrease along the order. */
  ghost predicate Ascending(order: seq<nat>, load: seq<int>)
    requires Indices(order, load)
  {
    forall i, j :: 0 <= i < j < |order| ==> load[order[i]] <= load[order[j]]
  }

  /** Inserts `x` after every profile whose load is not above its own. */
  function InsertByLoad(sorted: seq<nat>, x: nat, load: seq<int>): (r: seq<nat>)
    requires Indices(sorted, load) && x < |load|
    requires Ascending(sorted, load)
    ensures Indices(r, load) && Ascending(r, load)
    ensures multiset(r) == multiset(sorted) + multiset{x}
  {
    if |sorted| == 0 then [x]
    else if load[x] < load[sorted[0]] then
      assert forall k :: 0 <= k < |sorted| ==> load[x] <= load[sorted[k]] by {
        forall k | 0 <= k < |sorted|
          ensures load[x] <= load[sorted[k]]
        {
          assert k == 0 || load[sorted[0]] <= load[sorted[k]];
        }
      }
      ConsAscending(x, sorted, load);
      [x] + sorted
    else
      var rest := InsertByLoad(sorted[1..], x, load);
      assert sorted == [sorted[0]] + sorted[1..];
      AtLeast(rest, sorted[1..], x, load, load[sorted[0]]);
      ConsAscending(sorted[0], rest, load);
      [sorted[0]] + rest
  }

  /** A head with no more load than anything after it keeps an ascending order ascending. */
  lemma ConsAscending(h: nat, rest: seq<nat>, load: seq<int>)
    requires h < |load| && Indices(rest, load) && Ascending(rest, load)
    requires forall k :: 0 <= k < |rest| ==> load[h] <= load[rest[k]]
    ensures Indices([h] + rest, load) && Ascending([h] + rest, load)
  {
    var r := [h] + rest;
    assert forall k :: 1 <= k < |r| ==> r[k] == rest[k - 1];
  }

  /** A rearrangement of loads that are all at least `lo` has only loads of at least `lo`. */
  lemma AtLeast(rest: seq<nat>, src: seq<nat>, x: nat, load: seq<int>, lo: int)
    requires Indices(src, load) && Indices(rest, load) && x < |load|
    requires multiset(rest) == multiset(src) + multiset{x}
    requires forall k :: 0 <= k < |src| ==> lo <= load[src[k]]
    requires lo <= load[x]
    ensures forall k :: 0 <= k < |rest| ==> lo <= load[rest[k]]
  {
    forall k | 0 <= k < |rest|
      ensures lo <= load[rest[k]]
    {
      assert rest[k] in multiset(src) + multiset{x};
      if rest[k] != x {
        assert rest[k] in multiset(src);
        var i :| 0 <= i < |src| && src[i] == rest[k];
      }
    }
  }

  /** `eligible_trainers.sort(key=lambda profile: profile["assigned"])`. */
  function SortByLoad(order: seq<nat>, load: seq<int>): (r: seq<nat>)
    requires Indices(order, load)
    ensures Indices(r, load) && Ascending(r, load)
    ensures multiset(r) == multiset(order)
  {
    if |order| == 0 then []
    else
      assert order == order[..|order| - 1] + [order[|order| - 1]];
      InsertByLoad(SortByLoad(order[..|order| - 1], load), order[|order| - 1], load)
  }

  lemma InsertByLoadLast(sorted: seq<nat>, x: nat, load: seq<int>)
    requires Indices(sorted, load) && x < |load| && Ascending(sorted, load)
    requires forall k :: 0 <= k < |sorted| ==> load[sorted[k]] <= load[x]
    ensures InsertByLoad(sorted, x, load) == sorted + [x]
  {
    if |sorted| > 0 {
      InsertByLoadLast(sorted[1..], x, load);
      assert sorted == [sorted[0]] + sorted[1..];
    }
  }

  /**
   * Sorting an order that is already ascending changes nothing, so the sort
   * before the placement loop and the one at the top of it agree.
   */
  lemma {:induction false} SortByLoadStable(order: seq<nat>, load: seq<int>)
    requires Indices(order, load) && Ascending(order, load)
    ensures SortByLoad(order, load) == order
  {
    if |order| > 0 {
      var init := order[..|order| - 1];
      assert Indices(init, load) && Ascending(init, load);
      SortByLoadStable(init, load);
      InsertByLoadLast(init, order[|order| - 1], load);
      assert init + [order[|order| - 1]] == order;
    }
  }

  /** The profiles of `order` whose load is `v`, in their order in `order`. */
  function SameLoad(order: seq<nat>, load: seq<int>, v: int): seq<nat> {
    if |order| == 0 then []
    else (if order[0] < |load| && load[order[0]] == v then [order[0]] else []) + SameLoad(order[1..], load, v)
  }

  lemma {:induction false} SameLoadAppend(a: seq<nat>, b: seq<nat>, load: seq<int>, v: int)
    ensures SameLoad(a + b, load, v) == SameLoad(a, load, v) + SameLoad(b, load, v)
  {
    if |a| > 0 {
      assert (a + b)[1..] == a[1..] + b;
      SameLoadAppend(a[1..], b, load, v);
    } else {
      assert a + b == b;
    }
  }

  lemma {:induction false} SameLoadNone(order: seq<nat>, load: seq<int>, v: int)
    requires forall k :: 0 <= k < |order| ==> order[k] < |load| ==> load[order[k]] != v
    ensures SameLoad(order, load, v) == []
  {
    if |order| > 0 {
      SameLoadNone(order[1..], load, v);
    }
  }

  lemma InsertLoadFront(sorted: seq<nat>, y: nat, load: seq<int>, v: int)
    requires Indices(sorted, load) && y < |load| && Ascending(sorted, load)
    requires |sorted| > 0 && load[y] < load[sorted[0]]
    ensures Indices([y] + sorted, load)
    ensures SameLoad([y] + sorted, load, v) == SameLoad(sorted, load, v) + (if load[y] == v then [y] else [])
  {
    assert ([y] + sorted)[1..] == sorted;
    if load[y] == v {
      forall k | 0 <= k < |sorted|
        ensures load[sorted[k]] != v
      {
        assert k == 0 || load[sorted[0]] <= load[sorted[k]];
      }
      SameLoadNone(sorted, load, v);
    }
  }

  /** Inserting `y` puts it after every profile with the same load. */
  lemma {:induction false} InsertSameLoad(sorted: seq<nat>, y: nat, load: seq<int>, v: int)
    requires Indices(sorted, load) && y < |load| && Ascending(sorted, load)
    ensures SameLoad(InsertByLoad(sorted, y, load), load, v) == SameLoad(sorted, load, v) + (if load[y] == v then [y] else [])
  {
    if |sorted| == 0 {
      assert InsertByLoad(sorted, y, load) == [y] + [];
      SameLoadCons(y, [], load, v);
    } else if load[y] < load[sorted[0]] {
      assert InsertByLoad(sorted, y, load) == [y] + sorted;
      InsertLoadFront(sorted, y, load, v);
    } else {
      InsertSameLoad(sorted[1..], y, load, v);
      InsertByLoadLater(sorted, y, load);
      InsertLoadLater(sorted, InsertByLoad(sorted, y, load), InsertByLoad(sorted[1..], y, load), y, load, v);
    }
  }

  /** One step of the insertion past a head whose load is not above `y`'s. */
  lemma InsertLoadLater(sorted: seq<nat>, inserted: seq<nat>, rest: seq<nat>, y: nat, load: seq<int>, v: int)
    requires |sorted| > 0 && sorted[0] < |load| && y < |load|
    requires inserted == [sorted[0]] + rest
    requires SameLoad(rest, load, v) == SameLoad(sorted[1..], load, v) + (if load[y] == v then [y] else [])
    ensures SameLoad(inserted, load, v) == SameLoad(sorted, load, v) + (if load[y] == v then [y] else [])
  {
    var head: seq<nat> := if load[sorted[0]] == v then [sorted[0]] else [];
    var tail: seq<nat> := if load[y] == v then [y] else [];
    SameLoadCons(sorted[0], rest, load, v);
    assert sorted == [sorted[0]] + sorted[1..];
    SameLoadCons(sorted[0], sorted[1..], load, v);
    Regroup(SameLoad(inserted, load, v), head, SameLoad(rest, load, v), SameLoad(sorted[1..], load, v), tail, SameLoad(sorted, load, v));
  }

  lemma InsertByLoadLater(sorted: seq<nat>, y: nat, load: seq<int>)
    requires Indices(sorted, load) && y < |load| && Ascending(sorted, load)
    requires |sorted| > 0 && load[sorted[0]] <= load[y]
    ensures Indices(InsertByLoad(sorted[1..], y, load), load)
    ensures InsertByLoad(sorted, y, load) == [sorted[0]] + InsertByLoad(sorted[1..], y, load)
  {
  }

  lemma SameLoadCons(a: nat, rest: seq<nat>, load: seq<int>, v: int)
    requires a < |load|
    ensures SameLoad([a] + rest, load, v) == (if load[a] == v then [a] else []) + SameLoad(rest, load, v)
  {
    assert ([a] + rest)[1..] == rest;
  }

  /**
   * The load sort is stable: profiles with equal load keep their relative
   * order.
   */
  lemma {:induction false} SortByLoadKeepsTies(order: seq<nat>, load: seq<int>, v: int)
    requires Indices(order, load)
    ensures SameLoad(SortByLoad(order, load), load, v) == SameLoad(order, load, v)
  {
    if |order| > 0 {
      var init, last := order[..|order| - 1], order[|order| - 1];
      assert order == init + [last];
      assert SortByLoad(order, load) == InsertByLoad(SortByLoad(init, load), last, load);
      SortByLoadKeepsTies(init, load, v);
      InsertSameLoad(SortByLoad(init, load), last, load, v);
      SameLoadAppend(init, [last], load, v);
      assert SameLoad([last], load, v) == (if load[last] == v then [last] else []) + SameLoad([], load, v);
    }
  }

  /** The trainer still has capacity left. */
  predicate HasRoom(profiles: seq<Profile>, load: seq<int>, p: nat)
    requires p < |profiles| && p < |load|
  {
    load[p] < profiles[p].capacity
  }

  /**
   * `next(profile for profile in eligible if assigned < capacity)`: the
   * position of the first profile in `order` with room left.
   */
  function PickTrainer(order: seq<nat>, profiles: seq<Profile>, load: seq<int>): (r: Option<nat>)
    requires |load| == |profiles| && Indices(order, load)
    ensures r.Some? ==> r.value < |order| && HasRoom(profiles, load, order[r.value])
    ensures r.Some? ==> forall k :: 0 <= k < r.value ==> !HasRoom(profiles, load, order[k])
    ensures r.None? <==> forall k :: 0 <= k < |order| ==> !HasRoom(profiles, load, order[k])
  {
    if |order| == 0 then None
    else if HasRoom(profiles, load, order[0]) then Some(0)
    else
      match PickTrainer(order[1..], profiles, load)
      case None => None
      case Some(k) => Some(k + 1)
  }

  /**
   * On a load-sorted order the chosen trainer carries the least load among
   * all listed trainers that have room left.
   */
  lemma PickLeastLoaded(order: seq<nat>, profiles: seq<Profile>, load: seq<int>)
    requires |load| == |profiles| && Indices(order, load) && Ascending(order, load)
    requires PickTrainer(order, profiles, load).Some?
    ensures forall k :: 0 <= k < |order| && HasRoom(profiles, load, order[k]) ==>
      load[order[PickTrainer(order, profiles, load).value]] <= load[order[k]]
  {
  }
}
