/**
 * The backlog of open tasks (src/components/BacklogView.tsx).
 *
 * The view lists the open tasks that are undated or dated before today:
 * undated ones first by `order`, then dated ones newest date first, the
 * dated ones shown in one section per date.  `today` is the caller's
 * `startOfDay(new Date())` as a day number, and `values` is
 * `Object.values(state.bullets)` in the order the runtime enumerates it.
 * Dates are `yyyy-MM-dd` strings in the source; two such strings compare,
 * character by character, as their day numbers do, so `localeCompare` on
 * them is the sign of the difference of the day numbers.
 */
module BacklogView {
  import opened Types
  import opened Ordering

  /** The filter's test: an open task, undated or dated strictly before today. */
  predicate InBacklog(b: Bullet, today: Day)
  {
    if b.kind != Task then false
    else if b.state != Open then false
    else if b.date.None? then true
    else b.date.value < today
  }

  function InBacklogOn(today: Day): Bullet -> bool
  {
    b => InBacklog(b, today)
  }

  function Sign(x: int): int
  {
    if x < 0 then -1 else if x > 0 then 1 else 0
  }

  /** The sort comparator as written: negative when `a` goes first. */
  function Compare(a: Bullet, b: Bullet): int
  {
    if a.date.None? && b.date.Some? then -1
    else if a.date.Some? && b.date.None? then 1
    else if a.date.None? && b.date.None? then a.order - b.order
    else Sign(b.date.value - a.date.value)
  }

  /** The key the comparator compares: undated before dated, then `order` up or date down. */
  function BacklogKey(b: Bullet): Rank
  {
    if b.date.None? then Rank(0, b.order) else Rank(1, -b.date.value)
  }

  /** `openTasks`: the filtered bullets, sorted. */
  function OpenTasks(values: seq<Bullet>, today: Day): seq<Bullet>
  {
    SortBy(Filter(values, InBacklogOn(today)), BacklogKey)
  }

  /** `visibleIdsSet`. */
  function VisibleIdsSet(openTasks: seq<Bullet>): set<Id>
  {
    set b | b in openTasks :: b.id
  }

  const Undated: Bullet -> bool := (b: Bullet) => b.date.None?
  const Dated: Bullet -> bool := (b: Bullet) => b.date.Some?

  /** The dates of dated bullets, in their order (`datedTasks.map(b => b.date!)`). */
  function Dates(bs: seq<Bullet>): (r: seq<Day>)
    ensures forall d :: d in r <==> exists b :: b in bs && b.date == Some(d)
  {
    if bs == [] then []
    else (if bs[0].date.Some? then [bs[0].date.value] else []) + Dates(bs[1..])
  }

  function OnDate(d: Day): Bullet -> bool
  {
    (b: Bullet) => b.date == Some(d)
  }

  datatype Section = Section(date: Day, tasks: seq<Bullet>)

  /** The dated sections: one per distinct date, in first-appearance order, each with its tasks. */
  function DatedSections(dated: seq<Bullet>): (r: seq<Section>)
    ensures |r| == |Distinct(Dates(dated))|
    ensures forall k :: 0 <= k < |r| ==>
      r[k].date == Distinct(Dates(dated))[k] && r[k].tasks == Filter(dated, OnDate(r[k].date))
  {
    var ds := Distinct(Dates(dated));
    seq(|ds|, k requires 0 <= k < |ds| => Section(ds[k], Filter(dated, OnDate(ds[k]))))
  }

  // ---- properties ----

  /** The comparator is negative, zero or positive exactly as the key is below, equal to or above. */
  lemma ComparatorIsKeyOrder(a: Bullet, b: Bullet)
    ensures Compare(a, b) < 0 <==> Below(BacklogKey(a), BacklogKey(b))
    ensures Compare(a, b) == 0 <==> BacklogKey(a) == BacklogKey(b)
    ensures Compare(a, b) > 0 <==> Below(BacklogKey(b), BacklogKey(a))
  {
  }

  /**
   * Only open tasks are listed; undated ones always, dated ones exactly when
   * dated before today.
   */
  lemma OpenTasksMembers(values: seq<Bullet>, today: Day, b: Bullet)
    ensures b in OpenTasks(values, today) <==>
      b in values && b.kind == Task && b.state == Open && (b.date.None? || b.date.value < today)
  {
    var f := Filter(values, InBacklogOn(today));
    assert b in OpenTasks(values, today) <==> b in multiset(OpenTasks(values, today));
    assert b in f <==> b in multiset(f);
  }

  /** The visible ids are the ids of the listed tasks. */
  lemma VisibleIdsAreListed(values: seq<Bullet>, today: Day, id: Id)
    ensures id in VisibleIdsSet(OpenTasks(values, today)) <==>
      exists i :: 0 <= i < |OpenTasks(values, today)| && OpenTasks(values, today)[i].id == id
  {
    var o := OpenTasks(values, today);
    if id in VisibleIdsSet(o) {
      var b :| b in o && b.id == id;
      var i :| 0 <= i < |o| && o[i] == b;
    }
  }

  /**
   * The list is ordered: undated tasks before dated ones, undated ones by
   * `order` ascending, dated ones by date descending.
   */
  lemma OpenTasksOrdered(values: seq<Bullet>, today: Day)
    ensures var o := OpenTasks(values, today);
      forall i, j :: 0 <= i < j < |o| ==>
        && (o[j].date.None? ==> o[i].date.None?)
        && (o[i].date.None? && o[j].date.None? ==> o[i].order <= o[j].order)
        && (o[i].date.Some? && o[j].date.Some? ==> o[j].date.value <= o[i].date.value)
  {
    var o := OpenTasks(values, today);
    SortBySorted(Filter(values, InBacklogOn(today)), BacklogKey);
    forall i, j | 0 <= i < j < |o|
      ensures && (o[j].date.None? ==> o[i].date.None?)
              && (o[i].date.None? && o[j].date.None? ==> o[i].order <= o[j].order)
              && (o[i].date.Some? && o[j].date.Some? ==> o[j].date.value <= o[i].date.value)
    {
      assert !Below(BacklogKey(o[j]), BacklogKey(o[i]));
    }
  }

  /** Tasks the comparator ties (undated with equal `order`, or on the same date) keep their enumeration order. */
  lemma TiesKeepEnumerationOrder(values: seq<Bullet>, today: Day, k: Rank)
    ensures WithRank(OpenTasks(values, today), BacklogKey, k) ==
      WithRank(Filter(values, InBacklogOn(today)), BacklogKey, k)
  {
    SortByStable(Filter(values, InBacklogOn(today)), BacklogKey, k);
  }

  lemma {:induction false} AllDatedSplit(s: seq<Bullet>)
    requires forall i :: 0 <= i < |s| ==> s[i].date.Some?
    ensures Filter(s, Undated) == [] && Filter(s, Dated) == s
    decreases |s|
  {
    if s != [] {
      AllDatedSplit(s[1..]);
    }
  }

  /** A list with its undated bullets first is its undated part followed by its dated part. */
  lemma {:induction false} UndatedFirstSplits(s: seq<Bullet>)
    requires forall i, j :: 0 <= i < j < |s| && s[j].date.None? ==> s[i].date.None?
    ensures Filter(s, Undated) + Filter(s, Dated) == s
    decreases |s|
  {
    if s != [] {
      if s[0].date.None? {
        UndatedFirstSplits(s[1..]);
        assert Filter(s, Undated) == [s[0]] + Filter(s[1..], Undated);
        assert Filter(s, Dated) == Filter(s[1..], Dated);
        assert s == [s[0]] + s[1..];
      } else {
        AllDatedSplit(s);
      }
    }
  }

  /**
   * `undatedTasks` and `datedTasks` split `openTasks`: the undated part
   * followed by the dated part is the whole list, and each part keeps the
   * list's order (`FilterIsSubsequence`).
   */
  lemma UndatedAndDatedPartition(values: seq<Bullet>, today: Day)
    ensures var o := OpenTasks(values, today);
      Filter(o, Undated) + Filter(o, Dated) == o
  {
    OpenTasksOrdered(values, today);
    UndatedFirstSplits(OpenTasks(values, today));
  }

  /**
   * The sections have distinct dates, in the order the dates first appear;
   * there is a section for every date of a dated task; and each section
   * lists exactly the tasks on its date, at least one.
   */
  lemma SectionsByDate(dated: seq<Bullet>)
    ensures var r := DatedSections(dated);
      && (forall k, l :: 0 <= k < l < |r| ==> r[k].date != r[l].date)
      && (forall k, l :: 0 <= k < l < |r| ==>
            FirstIndex(Dates(dated), r[k].date) < FirstIndex(Dates(dated), r[l].date))
      && (forall b :: b in dated && b.date.Some? ==> exists k :: 0 <= k < |r| && r[k].date == b.date.value)
      && (forall k, b :: 0 <= k < |r| ==> (b in r[k].tasks <==> b in dated && b.date == Some(r[k].date)))
      && (forall k :: 0 <= k < |r| ==> r[k].tasks != [])
  {
    var r := DatedSections(dated);
    var ds := Distinct(Dates(dated));
    DistinctInFirstAppearanceOrder(Dates(dated));
    forall b | b in dated && b.date.Some? ensures exists k :: 0 <= k < |r| && r[k].date == b.date.value {
      assert b.date.value in ds;
      var k :| 0 <= k < |ds| && ds[k] == b.date.value;
      assert r[k].date == b.date.value;
    }
    forall k | 0 <= k < |r| ensures r[k].tasks != [] {
      assert ds[k] in Dates(dated);
      var b :| b in dated && b.date == Some(ds[k]);
      assert b in r[k].tasks;
    }
  }
}
