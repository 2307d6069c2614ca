/**
 * Indentation depth over the parent-note chain (src/lib/bulletUtils.ts).
 *
 * `DepthFrom` specifies the `while` loop of `calculateDepth` from a given
 * loop state (current bullet, visited parents, depth so far); the method
 * `CalculateDepth` runs the loop and returns what `DepthFrom` gives from
 * the initial state.
 */
module BulletUtils {
  import opened Types

  /** The cap at which counting stops. */
  const MaxDepth := 10

  lemma FewerUnvisited(all: set<Id>, visited: set<Id>, p: Id)
    requires visited <= all && p in all && p !in visited
    ensures |all - (visited + {p})| < |all - visited|
  {
    assert all - visited == (all - (visited + {p})) + {p};
  }

  /** The loop's result from the state `(cur, visited, depth)`. */
  function DepthFrom(cur: Bullet, all: map<Id, Bullet>, visible: set<Id>, visited: set<Id>, depth: nat): nat
    requires visited <= all.Keys
    decreases |all.Keys - visited|
  {
    if cur.parentNoteId.None? || cur.parentNoteId.value !in all then depth
    else
      var p := cur.parentNoteId.value;
      if p in visited then depth
      else if p !in visible then depth
      else if depth + 1 >= MaxDepth then depth + 1
      else
        FewerUnvisited(all.Keys, visited, p);
        DepthFrom(all[p], all, visible, visited + {p}, depth + 1)
  }

  /** `calculateDepth(bullet, allBullets, visibleIds)`. */
  method CalculateDepth(bullet: Bullet, all: map<Id, Bullet>, visible: set<Id>) returns (depth: nat)
    ensures depth == DepthFrom(bullet, all, visible, {}, 0)
  {
    depth := 0;
    var current := bullet;
    var visited: set<Id> := {};
    while current.parentNoteId.Some? && current.parentNoteId.value in all
      invariant visited <= all.Keys
      invariant depth < MaxDepth
      invariant DepthFrom(current, all, visible, visited, depth) == DepthFrom(bullet, all, visible, {}, 0)
      decreases |all.Keys - visited|
    {
      var p := current.parentNoteId.value;
      if p in visited {
        break;
      }
      FewerUnvisited(all.Keys, visited, p);
      visited := visited + {p};
      if p in visible {
        depth := depth + 1;
        current := all[p];
      } else {
        break;
      }
      if depth >= MaxDepth {
        break;
      }
    }
  }

  // ---- properties ----

  /** The depth never exceeds the cap. */
  lemma {:induction false} DepthBounded(cur: Bullet, all: map<Id, Bullet>, visible: set<Id>, visited: set<Id>, depth: nat)
    requires visited <= all.Keys && depth < MaxDepth
    ensures depth <= DepthFrom(cur, all, visible, visited, depth) <= MaxDepth
    decreases |all.Keys - visited|
  {
    if cur.parentNoteId.Some? && cur.parentNoteId.value in all {
      var p := cur.parentNoteId.value;
      if p !in visited && p in visible && depth + 1 < MaxDepth {
        FewerUnvisited(all.Keys, visited, p);
        DepthBounded(all[p], all, visible, visited + {p}, depth + 1);
      }
    }
  }

  /** A bullet without a parent, or whose parent is missing or not visible, has depth 0. */
  lemma RootDepthZero(b: Bullet, all: map<Id, Bullet>, visible: set<Id>)
    requires b.parentNoteId.None? || b.parentNoteId.value !in all || b.parentNoteId.value !in visible
    ensures DepthFrom(b, all, visible, {}, 0) == 0
  {
  }

  /** Two bullets that are each other's parent: the walk counts both and stops at the repeat. */
  lemma TwoCycleDepth(a: Bullet, b: Bullet, all: map<Id, Bullet>, visible: set<Id>)
    requires a.id != b.id && all == map[a.id := a, b.id := b]
    requires a.parentNoteId == Some(b.id) && b.parentNoteId == Some(a.id)
    requires a.id in visible && b.id in visible
    ensures DepthFrom(a, all, visible, {}, 0) == 2
  {
    var empty: set<Id> := {};
    assert empty + {b.id} == {b.id};
    assert {b.id} + {a.id} == {b.id, a.id};
    assert DepthFrom(a, all, visible, {b.id, a.id}, 2) == 2;
    assert DepthFrom(b, all, visible, {b.id}, 1) == DepthFrom(a, all, visible, {b.id, a.id}, 2);
    assert DepthFrom(a, all, visible, empty, 0) == DepthFrom(b, all, visible, {b.id}, 1);
  }

  /**
   * `cs` is the parent chain above `b`: `b`'s parent is `cs[0]`, each
   * `cs[i]`'s parent is `cs[i+1]`, the last has no parent, and every id is
   * held in `all` and appears once.
   */
  ghost predicate ParentChain(b: Bullet, all: map<Id, Bullet>, cs: seq<Id>)
  {
    && (forall i :: 0 <= i < |cs| ==> cs[i] in all)
    && (forall i, j :: 0 <= i < j < |cs| ==> cs[i] != cs[j])
    && (if cs == [] then b.parentNoteId.None? else b.parentNoteId == Some(cs[0]))
    && (forall i :: 0 <= i < |cs| - 1 ==> all[cs[i]].parentNoteId == Some(cs[i + 1]))
    && (cs != [] ==> all[cs[|cs| - 1]].parentNoteId.None?)
  }

  function Min(x: int, y: int): int
  {
    if x <= y then x else y
  }

  /** The bullet the walk stands on after `k` steps up the chain. */
  function ChainAt(b: Bullet, all: map<Id, Bullet>, cs: seq<Id>, k: nat): Bullet
    requires k <= |cs| && forall i :: 0 <= i < |cs| ==> cs[i] in all
  {
    if k == 0 then b else all[cs[k - 1]]
  }

  /** The parents the walk has visited after `k` steps up the chain. */
  function Visited(cs: seq<Id>, k: nat): (r: set<Id>)
    requires k <= |cs|
    ensures forall i :: 0 <= i < k ==> cs[i] in r
    ensures forall x :: x in r ==> exists i :: 0 <= i < k && cs[i] == x
  {
    if k == 0 then {} else Visited(cs, k - 1) + {cs[k - 1]}
  }

  lemma {:induction false} ChainDepthFrom(b: Bullet, all: map<Id, Bullet>, visible: set<Id>, cs: seq<Id>, m: nat, k: nat)
    requires ParentChain(b, all, cs)
    requires m <= |cs| && (forall i :: 0 <= i < m ==> cs[i] in visible) && (m < |cs| ==> cs[m] !in visible)
    requires k <= m && k < MaxDepth
    ensures Visited(cs, k) <= all.Keys
    ensures DepthFrom(ChainAt(b, all, cs, k), all, visible, Visited(cs, k), k) == Min(m, MaxDepth)
    decreases m - k
  {
    var visited := Visited(cs, k);
    var cur := ChainAt(b, all, cs, k);
    if k < |cs| {
      assert cur.parentNoteId == Some(cs[k]);
      assert cs[k] !in visited;
      if k < m && k + 1 < MaxDepth {
        ChainDepthFrom(b, all, visible, cs, m, k + 1);
      }
    }
  }

  /**
   * Up a chain of distinct parents, the depth is the number of leading
   * visible parents, capped at 10: a fully visible chain of length n counts
   * n (up to 10), and counting stops at the first parent not visible.
   */
  lemma ChainDepth(b: Bullet, all: map<Id, Bullet>, visible: set<Id>, cs: seq<Id>, m: nat)
    requires ParentChain(b, all, cs)
    requires m <= |cs| && (forall i :: 0 <= i < m ==> cs[i] in visible) && (m < |cs| ==> cs[m] !in visible)
    ensures DepthFrom(b, all, visible, {}, 0) == Min(m, MaxDepth)
  {
    ChainDepthFrom(b, all, visible, cs, m, 0);
  }
}
