/**
 * The task list with optional project grouping (src/components/TaskGroupList.tsx).
 *
 * The component filters the bullets it is given by the `showCompleted`
 * preference, registers the ids left for keyboard navigation, and, with
 * `groupByProject` on, pushes each bullet into the bucket of its project
 * or into `unassigned`, then orders the projects newest first.  The
 * `grouped` record is a map together with the order its keys were first
 * set in, which is the order `Object.keys` lists them in.
 */
module TaskGroupList {
  import opened Types
  import opened Ordering
  import opened StoreReducer

  /** A bullet the filter drops: finished in some way while completed bullets are hidden. */
  predicate Hidden(b: Bullet, showCompleted: bool)
  {
    !showCompleted && (b.state == Completed || b.state == Migrated || b.state == Cancelled)
  }

  /** The filter's test as a function value. */
  function Shown(showCompleted: bool): Bullet -> bool
  {
    b => !Hidden(b, showCompleted)
  }

  /** `filteredBullets`. */
  function FilteredBullets(bullets: seq<Bullet>, showCompleted: bool): seq<Bullet>
  {
    Filter(bullets, Shown(showCompleted))
  }

  /** The ids handed to `setVisibleIds`. */
  function VisibleIds(bullets: seq<Bullet>, showCompleted: bool): seq<Id>
  {
    BulletIds(FilteredBullets(bullets, showCompleted))
  }

  /** A bullet that goes into a project's bucket: its project is set and exists. */
  predicate Assignable(b: Bullet, collections: map<Id, Collection>)
  {
    b.collectionId.Some? && b.collectionId.value in collections
  }

  /** The bucket of project `c` after the bullets `bs` were pushed. */
  function InProject(bs: seq<Bullet>, collections: map<Id, Collection>, c: Id): seq<Bullet>
  {
    if bs == [] then []
    else
      var last := bs[|bs| - 1];
      InProject(bs[..|bs| - 1], collections, c)
        + (if Assignable(last, collections) && last.collectionId.value == c then [last] else [])
  }

  /** `unassigned` after the bullets `bs` were pushed. */
  function Unassigned(bs: seq<Bullet>, collections: map<Id, Collection>): seq<Bullet>
  {
    if bs == [] then []
    else
      var last := bs[|bs| - 1];
      Unassigned(bs[..|bs| - 1], collections) + (if Assignable(last, collections) then [] else [last])
  }

  /** The project of each bullet that goes into a bucket, in the order of the bullets. */
  function AssignedIds(bs: seq<Bullet>, collections: map<Id, Collection>): seq<Id>
  {
    if bs == [] then []
    else
      var last := bs[|bs| - 1];
      AssignedIds(bs[..|bs| - 1], collections) + (if Assignable(last, collections) then [last.collectionId.value] else [])
  }

  /** A bucket holds exactly the bullets of its project, and `unassigned` exactly the others. */
  lemma {:induction false} BucketMembers(bs: seq<Bullet>, collections: map<Id, Collection>)
    ensures forall b, c :: b in InProject(bs, collections, c) <==>
      b in bs && Assignable(b, collections) && b.collectionId.value == c
    ensures forall b :: b in Unassigned(bs, collections) <==> b in bs && !Assignable(b, collections)
    decreases |bs|
  {
    if bs != [] {
      var init := bs[..|bs| - 1];
      BucketMembers(init, collections);
      assert bs == init + [bs[|bs| - 1]];
    }
  }

  /** The projects met are exactly the projects of the bullets that go into a bucket. */
  lemma {:induction false} AssignedIdsMembers(bs: seq<Bullet>, collections: map<Id, Collection>)
    ensures forall c :: c in AssignedIds(bs, collections) <==>
      exists b :: b in bs && Assignable(b, collections) && b.collectionId.value == c
    decreases |bs|
  {
    if bs != [] {
      var init := bs[..|bs| - 1];
      AssignedIdsMembers(init, collections);
      assert bs == init + [bs[|bs| - 1]];
    }
  }

  /** The project comparator: a project created later sorts first. */
  function ProjectRank(collections: map<Id, Collection>): Id -> Rank
  {
    c => Rank(0, if c in collections then -collections[c].createdAt else 0)
  }

  datatype Groups = Groups(grouped: map<Id, seq<Bullet>>, unassigned: seq<Bullet>, projectIds: seq<Id>)

  /** The grouping the component renders from the filtered bullets. */
  function Grouping(filtered: seq<Bullet>, collections: map<Id, Collection>, groupByProject: bool): Groups
  {
    if !groupByProject then Groups(map[], [], [])
    else
      var ids := AssignedIds(filtered, collections);
      Groups(map c | c in ids :: InProject(filtered, collections, c),
             Unassigned(filtered, collections),
             SortBy(Distinct(ids), ProjectRank(collections)))
  }

  /** A project no bullet has met has an empty bucket. */
  lemma {:induction false} InProjectEmpty(bs: seq<Bullet>, collections: map<Id, Collection>, c: Id)
    requires c !in AssignedIds(bs, collections)
    ensures InProject(bs, collections, c) == []
    decreases |bs|
  {
    if bs != [] {
      InProjectEmpty(bs[..|bs| - 1], collections, c);
    }
  }

  /** The buckets, key order and `unassigned` after pushing the bullets `bs`. */
  ghost predicate Pushed(grouped: map<Id, seq<Bullet>>, keys: seq<Id>, unassigned: seq<Bullet>,
                         bs: seq<Bullet>, collections: map<Id, Collection>)
  {
    && (forall c :: c in grouped <==> c in keys)
    && (forall c :: c in grouped ==> grouped[c] == InProject(bs, collections, c))
    && keys == Distinct<Id>(AssignedIds(bs, collections))
    && unassigned == Unassigned(bs, collections)
  }

  /** What pushing one more bullet adds to the projects met, the buckets and `unassigned`. */
  lemma SnocFacts(pre: seq<Bullet>, b: Bullet, collections: map<Id, Collection>)
    ensures AssignedIds(pre + [b], collections) == AssignedIds(pre, collections) + (if Assignable(b, collections) then [b.collectionId.value] else [])
    ensures Unassigned(pre + [b], collections) == Unassigned(pre, collections) + (if Assignable(b, collections) then [] else [b])
    ensures forall c :: (InProject(pre + [b], collections, c) ==
      InProject(pre, collections, c) + (if Assignable(b, collections) && b.collectionId.value == c then [b] else []))
  {
    assert (pre + [b])[..|pre|] == pre;
  }

  /** Pushing a bullet of an existing project into its bucket, created on first use. */
  lemma PushIntoBucket(grouped: map<Id, seq<Bullet>>, keys: seq<Id>, unassigned: seq<Bullet>,
                       pre: seq<Bullet>, b: Bullet, collections: map<Id, Collection>)
    requires Assignable(b, collections)
    requires Pushed(grouped, keys, unassigned, pre, collections)
    ensures var c := b.collectionId.value;
      var g0 := if c in grouped then grouped else grouped[c := []];
      var k0 := if c in grouped then keys else keys + [c];
      Pushed(g0[c := g0[c] + [b]], k0, unassigned, pre + [b], collections)
  {
    var c := b.collectionId.value;
    if c in grouped {
      PushIntoOldBucket(grouped, keys, unassigned, pre, b, collections);
    } else {
      PushIntoNewBucket(grouped, keys, unassigned, pre, b, collections);
      assert grouped[c := []][c := [] + [b]] == grouped[c := [b]];
    }
  }

  /** The bucket of the bullet's project exists already: it is extended, the key order is kept. */
  lemma PushIntoOldBucket(grouped: map<Id, seq<Bullet>>, keys: seq<Id>, unassigned: seq<Bullet>,
                          pre: seq<Bullet>, b: Bullet, collections: map<Id, Collection>)
    requires Assignable(b, collections) && b.collectionId.value in grouped
    requires Pushed(grouped, keys, unassigned, pre, collections)
    ensures Pushed(grouped[b.collectionId.value := grouped[b.collectionId.value] + [b]], keys, unassigned, pre + [b], collections)
  {
    var c := b.collectionId.value;
    SnocFacts(pre, b, collections);
    var a := AssignedIds(pre, collections);
    DistinctSnoc<Id>(a, c);
    var g' := grouped[c := grouped[c] + [b]];
    var post := pre + [b];
    forall c' | c' in g' ensures g'[c'] == InProject(post, collections, c') {
      if c' != c {
        assert g'[c'] == grouped[c'] == InProject(pre, collections, c');
      }
    }
    assert keys == Distinct<Id>(AssignedIds(post, collections));
  }

  /** The bucket of the bullet's project is new: it holds the bullet alone and its key goes last. */
  lemma PushIntoNewBucket(grouped: map<Id, seq<Bullet>>, keys: seq<Id>, unassigned: seq<Bullet>,
                          pre: seq<Bullet>, b: Bullet, collections: map<Id, Collection>)
    requires Assignable(b, collections) && b.collectionId.value !in grouped
    requires Pushed(grouped, keys, unassigned, pre, collections)
    ensures Pushed(grouped[b.collectionId.value := [b]], keys + [b.collectionId.value], unassigned, pre + [b], collections)
  {
    var c := b.collectionId.value;
    SnocFacts(pre, b, collections);
    var a := AssignedIds(pre, collections);
    DistinctSnoc<Id>(a, c);
    assert c !in Distinct<Id>(a);
    InProjectEmpty(pre, collections, c);
    var g' := grouped[c := [b]];
    var post := pre + [b];
    assert InProject(post, collections, c) == [] + [b];
    forall c' | c' in g' ensures g'[c'] == InProject(post, collections, c') {
      if c' != c {
        assert g'[c'] == grouped[c'] == InProject(pre, collections, c');
      }
    }
    assert keys + [c] == Distinct<Id>(AssignedIds(post, collections));
  }

  /** Pushing a bullet without an existing project into `unassigned`. */
  lemma PushUnassigned(grouped: map<Id, seq<Bullet>>, keys: seq<Id>, unassigned: seq<Bullet>,
                       pre: seq<Bullet>, b: Bullet, collections: map<Id, Collection>)
    requires !Assignable(b, collections)
    requires Pushed(grouped, keys, unassigned, pre, collections)
    ensures Pushed(grouped, keys, unassigned + [b], pre + [b], collections)
  {
    SnocFacts(pre, b, collections);
    var a := AssignedIds(pre, collections);
    assert AssignedIds(pre + [b], collections) == a + [] == a;
    forall c ensures InProject(pre + [b], collections, c) == InProject(pre, collections, c) {
      assert InProject(pre + [b], collections, c) == InProject(pre, collections, c) + [];
    }
  }

  /** One turn of the `forEach`: bullet `i` goes into its project's bucket, created on first use, or into `unassigned`. */
  method Push(grouped: map<Id, seq<Bullet>>, keys: seq<Id>, unassigned: seq<Bullet>,
              filtered: seq<Bullet>, collections: map<Id, Collection>, i: int)
    returns (grouped': map<Id, seq<Bullet>>, keys': seq<Id>, unassigned': seq<Bullet>)
    requires 0 <= i < |filtered| && Pushed(grouped, keys, unassigned, filtered[..i], collections)
    ensures Pushed(grouped', keys', unassigned', filtered[..i + 1], collections)
  {
    var b := filtered[i];
    assert filtered[..i + 1] == filtered[..i] + [b];
    grouped', keys', unassigned' := grouped, keys, unassigned;
    if b.collectionId.Some? && b.collectionId.value in collections {
      PushIntoBucket(grouped, keys, unassigned, filtered[..i], b, collections);
      var c := b.collectionId.value;
      if c !in grouped' {
        grouped' := grouped'[c := []];
        keys' := keys' + [c];
      }
      grouped' := grouped'[c := grouped'[c] + [b]];
    } else {
      PushUnassigned(grouped, keys, unassigned, filtered[..i], b, collections);
      unassigned' := unassigned' + [b];
    }
  }

  /** The `forEach` that pushes each bullet into its bucket; `keys` is the order `grouped` got its keys in. */
  method PushAll(filtered: seq<Bullet>, collections: map<Id, Collection>)
    returns (grouped: map<Id, seq<Bullet>>, keys: seq<Id>, unassigned: seq<Bullet>)
    ensures forall c :: c in grouped <==> c in keys
    ensures forall c :: c in grouped ==> grouped[c] == InProject(filtered, collections, c)
    ensures keys == Distinct<Id>(AssignedIds(filtered, collections))
    ensures unassigned == Unassigned(filtered, collections)
  {
    grouped := map[];
    keys := [];
    unassigned := [];
    var i := 0;
    while i < |filtered|
      invariant 0 <= i <= |filtered|
      invariant Pushed(grouped, keys, unassigned, filtered[..i], collections)
    {
      grouped, keys, unassigned := Push(grouped, keys, unassigned, filtered, collections, i);
      i := i + 1;
    }
    assert filtered[..i] == filtered;
  }

  /** The `useMemo` that groups: the buckets, then the sort of `Object.keys(grouped)`. */
  method GroupBullets(filtered: seq<Bullet>, collections: map<Id, Collection>, groupByProject: bool) returns (g: Groups)
    ensures g == Grouping(filtered, collections, groupByProject)
  {
    if !groupByProject {
      return Groups(map[], [], []);
    }
    var grouped, keys, unassigned := PushAll(filtered, collections);
    ghost var ids := AssignedIds(filtered, collections);
    ghost var spec := map c | c in ids :: InProject(filtered, collections, c);
    assert forall c :: c in grouped <==> c in spec;
    assert grouped == spec;
    var projectIds := SortBy(keys, ProjectRank(collections));
    g := Groups(grouped, unassigned, projectIds);
  }

  // ---- properties ----

  /**
   * With `showCompleted` off, completed, migrated and cancelled bullets are
   * dropped and all others kept; with it on, every bullet is kept.
   */
  lemma FilterDropsFinished(bullets: seq<Bullet>, showCompleted: bool)
    ensures forall b :: b in FilteredBullets(bullets, showCompleted) <==>
      b in bullets && (showCompleted || b.state == Open || b.state == Scheduled)
    ensures showCompleted ==> FilteredBullets(bullets, showCompleted) == bullets
  {
    if showCompleted {
      ShownAllKept(bullets);
    }
  }

  lemma {:induction false} ShownAllKept(bullets: seq<Bullet>)
    ensures Filter(bullets, Shown(true)) == bullets
    decreases |bullets|
  {
    if bullets != [] {
      ShownAllKept(bullets[1..]);
    }
  }

  /**
   * The filter keeps the input order, and the visible ids are the ids of
   * the filtered bullets in that order.
   */
  lemma FilterKeepsOrder(bullets: seq<Bullet>, showCompleted: bool)
    ensures var f := FilteredBullets(bullets, showCompleted); var idx := Kept(bullets, Shown(showCompleted));
      && |f| == |idx|
      && (forall k, l :: 0 <= k < l < |idx| ==> idx[k] < idx[l])
      && (forall k :: 0 <= k < |idx| ==> 0 <= idx[k] < |bullets| && f[k] == bullets[idx[k]])
      && (forall i :: 0 <= i < |bullets| && !Hidden(bullets[i], showCompleted) ==> i in idx)
    ensures var v := VisibleIds(bullets, showCompleted); var f := FilteredBullets(bullets, showCompleted);
      |v| == |f| && forall k :: 0 <= k < |f| ==> v[k] == f[k].id
  {
    FilterIsSubsequence(bullets, Shown(showCompleted));
    KeptPositions(bullets, Shown(showCompleted));
  }

  /** With `groupByProject` off there are no buckets, no unassigned list and no projects. */
  lemma UngroupedIsEmpty(filtered: seq<Bullet>, collections: map<Id, Collection>)
    ensures Grouping(filtered, collections, false) == Groups(map[], [], [])
  {
  }

  /**
   * Each bullet lands in exactly one place: the bucket of its project when
   * that is set and exists, `unassigned` otherwise; and nothing else lands
   * anywhere.
   */
  lemma ExactlyOneBucket(filtered: seq<Bullet>, collections: map<Id, Collection>, b: Bullet)
    requires b in filtered
    ensures var g := Grouping(filtered, collections, true);
      && (Assignable(b, collections) ==>
            b.collectionId.value in g.grouped && b in g.grouped[b.collectionId.value] && b !in g.unassigned
            && forall c :: c in g.grouped && c != b.collectionId.value ==> b !in g.grouped[c])
      && (!Assignable(b, collections) ==>
            b in g.unassigned && forall c :: c in g.grouped ==> b !in g.grouped[c])
  {
    AssignedIdsMembers(filtered, collections);
    BucketMembers(filtered, collections);
  }

  /** Every bucket and `unassigned` hold only filtered bullets, and every bucket only bullets of its own project. */
  lemma BucketsHoldOnlyTheirBullets(filtered: seq<Bullet>, collections: map<Id, Collection>)
    ensures var g := Grouping(filtered, collections, true);
      && (forall c, b :: c in g.grouped && b in g.grouped[c] ==> b in filtered && b.collectionId == Some(c))
      && (forall b :: b in g.unassigned ==> b in filtered)
  {
    BucketMembers(filtered, collections);
  }

  /** Every bucket is of an existing project and holds at least one bullet. */
  lemma BucketsAreNonEmpty(filtered: seq<Bullet>, collections: map<Id, Collection>)
    ensures var g := Grouping(filtered, collections, true);
      forall c :: c in g.grouped ==> c in collections && g.grouped[c] != []
  {
    var g := Grouping(filtered, collections, true);
    forall c | c in g.grouped ensures c in collections && g.grouped[c] != [] {
      AssignedIdsMembers(filtered, collections);
      var b :| b in filtered && Assignable(b, collections) && b.collectionId.value == c;
      BucketMembers(filtered, collections);
      assert b in g.grouped[c];
    }
  }

  /** `projectIds` lists every grouped project exactly once, and only those. */
  lemma ProjectIdsAreGroupedKeys(filtered: seq<Bullet>, collections: map<Id, Collection>)
    ensures var g := Grouping(filtered, collections, true);
      && (forall c :: c in g.projectIds <==> c in g.grouped)
      && NoDuplicates(g.projectIds)
  {
    var g := Grouping(filtered, collections, true);
    var keys := Distinct<Id>(AssignedIds(filtered, collections));
    forall c ensures c in g.projectIds <==> c in keys {
      assert c in g.projectIds <==> c in multiset(g.projectIds);
      assert c in keys <==> c in multiset(keys);
    }
    DistinctInFirstAppearanceOrder(AssignedIds(filtered, collections));
    PermutationKeepsNoDuplicates(keys, g.projectIds);
  }

  /** `projectIds` come newest `createdAt` first. */
  lemma ProjectIdsNewestFirst(filtered: seq<Bullet>, collections: map<Id, Collection>)
    ensures var ps := Grouping(filtered, collections, true).projectIds;
      && (forall i :: 0 <= i < |ps| ==> ps[i] in collections)
      && (forall i, j :: 0 <= i < j < |ps| ==> collections[ps[j]].createdAt <= collections[ps[i]].createdAt)
  {
    var g := Grouping(filtered, collections, true);
    var rank := ProjectRank(collections);
    ProjectIdsAreGroupedKeys(filtered, collections);
    BucketsAreNonEmpty(filtered, collections);
    SortBySorted(Distinct<Id>(AssignedIds(filtered, collections)), rank);
    forall i, j | 0 <= i < j < |g.projectIds|
      ensures collections[g.projectIds[j]].createdAt <= collections[g.projectIds[i]].createdAt
    {
      assert !Below(rank(g.projectIds[j]), rank(g.projectIds[i]));
    }
  }

  /**
   * Projects created at the same time stay in the order `Object.keys`
   * lists them in: the order their first bullet came in.
   */
  lemma ProjectTiesKeepFirstBulletOrder(filtered: seq<Bullet>, collections: map<Id, Collection>, k: Rank)
    ensures var keys := Distinct<Id>(AssignedIds(filtered, collections));
      && (forall i, j :: 0 <= i < j < |keys| ==>
            FirstIndex(AssignedIds(filtered, collections), keys[i]) < FirstIndex(AssignedIds(filtered, collections), keys[j]))
      && WithRank(Grouping(filtered, collections, true).projectIds, ProjectRank(collections), k) ==
           WithRank(keys, ProjectRank(collections), k)
  {
    DistinctInFirstAppearanceOrder(AssignedIds(filtered, collections));
    SortByStable(Distinct<Id>(AssignedIds(filtered, collections)), ProjectRank(collections), k);
  }
}
