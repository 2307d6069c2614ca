/**
 * The export filter (src/lib/exportUtils.ts).
 *
 * `filterStateForExport` copies the state, keeping the collections that
 * are not excluded and the bullets that pass the project and date tests.
 * Dates are day numbers; `today` is the caller's `startOfDay(now)`.  The
 * week runs Monday to Sunday (`weekStartsOn: 1`), and since bullet dates
 * are whole days, `isWithinInterval` up to `endOfWeek` (the last instant
 * of Sunday) is a test up to and including Sunday's day number.
 */
module ExportUtils {
  import opened Types

  datatype DateRange = All | ThisWeek | Past30Days

  /** Days since the last Monday: day 0 (1970-01-01) was a Thursday, three days after a Monday. */
  function DaysSinceMonday(d: Day): (k: int)
    ensures 0 <= k < 7
  {
    (d + 3) % 7
  }

  /** `startOfWeek(today, { weekStartsOn: 1 })`. */
  function WeekStart(today: Day): Day
  {
    today - DaysSinceMonday(today)
  }

  /** The window a dated bullet must fall in, ends included; `All` has none. */
  predicate InWindow(range: DateRange, today: Day, d: Day)
  {
    match range
    case All => true
    case ThisWeek => WeekStart(today) <= d <= WeekStart(today) + 6
    case Past30Days => today - 29 <= d <= today
  }

  /** The test each bullet goes through, in the source's order. */
  predicate Exported(b: Bullet, range: DateRange, today: Day, excluded: seq<Id>)
  {
    if b.collectionId.Some? && b.collectionId.value in excluded then false
    else if b.date.None? then true
    else if range == All then true
    else InWindow(range, today, b.date.value)
  }

  /** The state the filter returns. */
  function ExportedState(s: AppState, range: DateRange, today: Day, excluded: seq<Id>): AppState
  {
    s.(collections := ExportedCollections(s.collections, excluded),
       bullets := ExportedBullets(s.bullets, range, today, excluded))
  }

  function ExportedCollections(cs: map<Id, Collection>, excluded: seq<Id>): map<Id, Collection>
  {
    map id | id in cs && id !in excluded :: cs[id]
  }

  function ExportedBullets(bs: map<Id, Bullet>, range: DateRange, today: Day, excluded: seq<Id>): map<Id, Bullet>
  {
    map id | id in bs && Exported(bs[id], range, today, excluded) :: bs[id]
  }

  /** The first `forEach`: the collections whose id is not excluded. */
  method FilterCollections(cs: map<Id, Collection>, excluded: seq<Id>) returns (out: map<Id, Collection>)
    ensures out == ExportedCollections(cs, excluded)
  {
    out := map[];
    var todo := cs.Keys;
    while todo != {}
      invariant todo <= cs.Keys
      invariant forall id :: id in out <==> id in cs && id !in todo && id !in excluded
      invariant forall id :: id in out ==> out[id] == cs[id]
      decreases |todo|
    {
      var id :| id in todo;
      if id !in excluded {
        out := out[id := cs[id]];
      }
      todo := todo - {id};
    }
  }

  /** The second `forEach`: the bullets that pass the project test and then the date test. */
  method FilterBullets(bs: map<Id, Bullet>, range: DateRange, today: Day, excluded: seq<Id>) returns (out: map<Id, Bullet>)
    ensures out == ExportedBullets(bs, range, today, excluded)
  {
    out := map[];
    var todo := bs.Keys;
    while todo != {}
      invariant todo <= bs.Keys
      invariant forall id :: id in out <==> id in bs && id !in todo && Exported(bs[id], range, today, excluded)
      invariant forall id :: id in out ==> out[id] == bs[id]
      decreases |todo|
    {
      var id :| id in todo;
      var b := bs[id];
      if b.collectionId.Some? && b.collectionId.value in excluded {
        // skipped: the bullet's project is excluded
      } else if b.date.None? {
        out := out[id := b];
      } else if range == All {
        out := out[id := b];
      } else if InWindow(range, today, b.date.value) {
        out := out[id := b];
      }
      todo := todo - {id};
    }
  }

  /** `filterStateForExport(state, { dateRange, excludedCollectionIds })`. */
  method FilterStateForExport(s: AppState, range: DateRange, today: Day, excluded: seq<Id>) returns (r: AppState)
    ensures r == ExportedState(s, range, today, excluded)
  {
    var collections := FilterCollections(s.collections, excluded);
    var bullets := FilterBullets(s.bullets, range, today, excluded);
    r := s.(collections := collections, bullets := bullets);
  }

  // ---- properties ----

  /** The exported collections are exactly those not excluded, unchanged. */
  lemma CollectionsOutsideExclusion(s: AppState, range: DateRange, today: Day, excluded: seq<Id>)
    ensures var r := ExportedState(s, range, today, excluded);
      (forall id :: id in r.collections <==> id in s.collections && id !in excluded)
      && (forall id :: id in r.collections ==> r.collections[id] == s.collections[id])
  {
  }

  /** The exported bullets are a part of the input, unchanged, and the view and preferences stay as they are. */
  lemma ExportIsSubState(s: AppState, range: DateRange, today: Day, excluded: seq<Id>)
    ensures var r := ExportedState(s, range, today, excluded);
      && r.bullets.Keys <= s.bullets.Keys
      && (forall id :: id in r.bullets ==> r.bullets[id] == s.bullets[id])
      && r.view == s.view && r.preferences == s.preferences
  {
  }

  /** A bullet of an excluded project is dropped, whatever its date. */
  lemma ExcludedProjectDropped(s: AppState, range: DateRange, today: Day, excluded: seq<Id>, id: Id)
    requires id in s.bullets && s.bullets[id].collectionId.Some? && s.bullets[id].collectionId.value in excluded
    ensures id !in ExportedState(s, range, today, excluded).bullets
  {
  }

  /** An undated bullet outside the excluded projects is always kept; with `all`, every such bullet is. */
  lemma UndatedOrAllKept(s: AppState, range: DateRange, today: Day, excluded: seq<Id>, id: Id)
    requires id in s.bullets
    requires s.bullets[id].collectionId.None? || s.bullets[id].collectionId.value !in excluded
    requires s.bullets[id].date.None? || range == All
    ensures id in ExportedState(s, range, today, excluded).bullets
  {
  }

  /** With `past-30-days` a dated bullet outside the excluded projects is kept iff dated today or in the 29 days before. */
  lemma Past30DaysWindow(s: AppState, today: Day, excluded: seq<Id>, id: Id)
    requires id in s.bullets && s.bullets[id].date.Some?
    requires s.bullets[id].collectionId.None? || s.bullets[id].collectionId.value !in excluded
    ensures id in ExportedState(s, Past30Days, today, excluded).bullets <==>
      today - 29 <= s.bullets[id].date.value <= today
  {
  }

  /**
   * With `this-week` a dated bullet outside the excluded projects is kept
   * iff it falls from the Monday to the Sunday of today's week.
   */
  lemma ThisWeekWindow(s: AppState, today: Day, excluded: seq<Id>, id: Id)
    requires id in s.bullets && s.bullets[id].date.Some?
    requires s.bullets[id].collectionId.None? || s.bullets[id].collectionId.value !in excluded
    ensures var d := s.bullets[id].date.value;
      id in ExportedState(s, ThisWeek, today, excluded).bullets <==>
        WeekStart(today) <= d <= WeekStart(today) + 6
  {
  }

  /** The week start is a Monday at most six days back, and today lies in its week. */
  lemma WeekStartIsMonday(today: Day)
    ensures DaysSinceMonday(WeekStart(today)) == 0
    ensures WeekStart(today) <= today <= WeekStart(today) + 6
    ensures DaysSinceMonday(-3) == 0
  {
    var k := DaysSinceMonday(today);
    assert (today - k + 3) % 7 == ((today + 3) - (today + 3) % 7) % 7;
    assert (today + 3) - (today + 3) % 7 == 7 * ((today + 3) / 7);
  }

  /** Every day of the week window has the same week start, so the window is that calendar week. */
  lemma {:induction false} WindowIsOneWeek(today: Day, d: Day)
    requires WeekStart(today) <= d <= WeekStart(today) + 6
    ensures WeekStart(d) == WeekStart(today)
  {
    var m := WeekStart(today);
    WeekStartIsMonday(today);
    var k := d - m;
    assert 0 <= k <= 6;
    assert (m + 3) % 7 == 0;
    assert (d + 3) % 7 == ((m + 3) + k) % 7;
    assert ((m + 3) + k) % 7 == k by {
      assert m + 3 == 7 * ((m + 3) / 7);
    }
  }

  /**
   * Friday 2023-10-27 (day 19657): its week runs from Monday 2023-10-23 to
   * Sunday 2023-10-29, so 2023-10-20 is outside it, and the 30-day window
   * starts on 2023-09-28.
   */
  lemma ExampleWindows()
    ensures WeekStart(19657) == 19653
    ensures InWindow(ThisWeek, 19657, 19659) && !InWindow(ThisWeek, 19657, 19650)
    ensures InWindow(Past30Days, 19657, 19628) && !InWindow(Past30Days, 19657, 19627)
  {
  }
}
