/** The decay schedule: a binary min-heap of entries that know their own position,
    with an index from engram id to entry. It refines a map from id to time. */
module DecaySchedules {

  import opened Common

  // ---------- Heap order on a sequence of times ----------

  function Parent(i: int): int {
    (i - 1) / 2
  }

  ghost predicate Heap(t: seq<int>, n: nat) {
    n <= |t| && forall k {:trigger Parent(k)} | 0 < k < n :: t[Parent(k)] <= t[k]
  }

  /** Heap order except that position `i` may be smaller than its parent. */
  ghost predicate LowAt(t: seq<int>, n: nat, i: nat) {
    && i < n <= |t|
    && (forall k {:trigger Parent(k)} | 0 < k < n && k != i :: t[Parent(k)] <= t[k])
    && Bridged(t, n, i)
  }

  /** Heap order except at position `i`, on either side. */
  ghost predicate WrongAt(t: seq<int>, n: nat, i: nat) {
    && i < n <= |t|
    && (forall k {:trigger Parent(k)} | 0 < k < n && k != i && Parent(k) != i :: t[Parent(k)] <= t[k])
    && Bridged(t, n, i)
  }

  /** The children of `i` are not below its parent. */
  ghost predicate Bridged(t: seq<int>, n: nat, i: nat)
    requires i < n <= |t|
  {
    forall k {:trigger Parent(k)} | 0 < i && 0 < k < n && Parent(k) == i :: t[Parent(i)] <= t[k]
  }

  function Swapped<T>(s: seq<T>, i: nat, j: nat): seq<T>
    requires i < |s| && j < |s|
  {
    s[i := s[j]][j := s[i]]
  }

  /** As many elements, all of them from `s`. */
  ghost predicate Among<T>(r: seq<T>, s: seq<T>) {
    |r| == |s| && forall i | 0 <= i < |r| :: r[i] in s
  }

  lemma SwapWithin<T>(r: seq<T>, s: seq<T>, n: nat, i: nat, j: nat)
    requires Among(r, s) && i < n <= |r| && j < n
    ensures Among(Swapped(r, i, j), s)
    ensures Swapped(r, i, j)[n..] == r[n..]
  {
  }

  lemma SwapMembers<T>(s: seq<T>, i: nat, j: nat)
    requires i < |s| && j < |s|
    ensures forall e | e in s :: e in Swapped(s, i, j)
  {
    var r := Swapped(s, i, j);
    forall e | e in s
      ensures e in r
    {
      var k :| 0 <= k < |s| && s[k] == e;
      assert r[i] == s[j] && r[j] == s[i] && (k != i && k != j ==> r[k] == e);
    }
  }

  lemma UpDone(t: seq<int>, n: nat, j: nat)
    requires LowAt(t, n, j) && (j == 0 || t[Parent(j)] <= t[j])
    ensures Heap(t, n)
  {
  }

  lemma UpStep(t: seq<int>, n: nat, j: nat)
    requires LowAt(t, n, j) && 0 < j && t[j] < t[Parent(j)]
    ensures LowAt(Swapped(t, Parent(j), j), n, Parent(j))
  {
  }

  /** The inner state of the sift-down loop that started at `i0`. */
  ghost predicate Sinking(t: seq<int>, n: nat, i0: nat, i: nat) {
    && i0 <= i < n <= |t|
    && (forall k {:trigger Parent(k)} | 0 < k < n && Parent(k) != i && !(k == i == i0) :: t[Parent(k)] <= t[k])
    && Bridged(t, n, i)
  }

  /** The children of `i` are at least `low`. */
  ghost predicate ChildrenFrom(t: seq<int>, n: nat, i: nat, low: int) {
    n <= |t| && forall k {:trigger Parent(k)} | 0 < k < n && Parent(k) == i :: low <= t[k]
  }

  lemma StartSinking(t: seq<int>, n: nat, i: nat)
    requires WrongAt(t, n, i)
    ensures Sinking(t, n, i, i)
  {
  }

  lemma NoChildren(t: seq<int>, n: nat, i: nat)
    requires i < n <= |t| && 2 * i + 1 >= n
    ensures ChildrenFrom(t, n, i, t[i])
  {
  }

  lemma DownStep(t: seq<int>, n: nat, i0: nat, i: nat, j: nat)
    requires Sinking(t, n, i0, i) && j < n && 0 < j && Parent(j) == i && t[j] < t[i]
    requires ChildrenFrom(t, n, i, t[j])
    ensures Sinking(Swapped(t, i, j), n, i0, j)
  {
  }

  /** Sifting stops where both children are no smaller. */
  lemma Settled(t: seq<int>, n: nat, i0: nat, i: nat)
    requires Sinking(t, n, i0, i)
    requires ChildrenFrom(t, n, i, t[i])
    ensures if i > i0 || i0 == 0 then Heap(t, n) else LowAt(t, n, i0)
  {
  }

  lemma {:induction false} RootIsLeast(t: seq<int>, n: nat, k: nat)
    requires Heap(t, n) && k < n
    ensures t[0] <= t[k]
  {
    if k > 0 {
      RootIsLeast(t, n, Parent(k));
    }
  }

  // ---------- The schedule ----------

  class SchedEntry {
    const id: Id
    var nextCheck: int
    var index: int

    constructor (id: Id, nextCheck: int)
      ensures this.id == id && this.nextCheck == nextCheck
    {
      this.id, this.nextCheck, this.index := id, nextCheck, 0;
    }
  }

  class DecaySchedule {
    var h: seq<SchedEntry>
    var index: map<Id, SchedEntry>

    /** Every entry stores its position, so no entry occurs twice. */
    ghost predicate Placed()
      reads this, h
    {
      forall i | 0 <= i < |h| :: h[i].index == i
    }

    /** The id index and the heap hold the same entries. */
    ghost predicate Indexed()
      reads this, h
    {
      && (forall i | 0 <= i < |h| :: h[i].id in index && index[h[i].id] == h[i])
      && (forall id | id in index :: index[id] in h && index[id].id == id)
    }

    ghost function Checks(): seq<int>
      reads this, h
    {
      seq(|h|, i requires 0 <= i < |h| reads this, h => h[i].nextCheck)
    }

    ghost predicate Valid()
      reads this, h
    {
      Placed() && Indexed() && Heap(Checks(), |h|)
    }

    /** The schedule as a map from id to its next check. */
    ghost function Times(): map<Id, int>
      requires Indexed()
      reads this, h
    {
      map id | id in index :: index[id].nextCheck
    }

    constructor ()
      ensures Valid() && fresh(this) && Times() == map[]
    {
      h, index := [], map[];
    }

    method Swap(i: nat, j: nat)
      requires i < |h| && j < |h| && Placed() && Indexed()
      modifies this`h, h`index
      ensures h == Swapped(old(h), i, j)
      ensures Placed() && Indexed() && index == old(index)
      ensures Checks() == Swapped(old(Checks()), i, j)
    {
      ghost var before := h;
      assert forall k, l | 0 <= k < l < |h| :: h[k] != h[l];
      h := Swapped(h, i, j);
      SwapMembers(before, i, j);
      h[i].index := i;
      h[j].index := j;
      forall k | 0 <= k < |h|
        ensures h[k].index == k
      {
        assert h[k] == before[if k == i then j else if k == j then i else k];
      }
    }

    /** container/heap's up. */
    method Up(start: nat)
      requires Placed() && Indexed() && start < |h| && LowAt(Checks(), |h|, start)
      modifies this`h, h`index
      ensures Valid() && index == old(index) && Same(old(h))
    {
      hide LowAt, Placed, Indexed;
      var j := start;
      while j > 0
        invariant 0 <= j < |h| && Placed() && Indexed() && Same(old(h))
        invariant LowAt(Checks(), |h|, j)
      {
        var i := Parent(j);
        if h[j].nextCheck >= h[i].nextCheck {
          UpDone(Checks(), |h|, j);
          return;
        }
        UpStep(Checks(), |h|, j);
        Swap(i, j);
        j := i;
      }
      UpDone(Checks(), |h|, 0);
    }

    ghost predicate Same(s: seq<SchedEntry>)
      reads this
    {
      Among(h, s)
    }

    /** The child of `i` with the earlier time, the left one on a tie. */
    method LesserChild(i: nat, n: nat) returns (j: nat)
      requires 2 * i + 1 < n <= |h|
      ensures i < j < n && Parent(j) == i
      ensures ChildrenFrom(Checks(), n, i, Checks()[j])
      ensures Checks()[i] <= Checks()[j] ==> ChildrenFrom(Checks(), n, i, Checks()[i])
    {
      j := 2 * i + 1;
      if j + 1 < n && h[j + 1].nextCheck < h[j].nextCheck {
        j := j + 1;
      }
    }

    /** container/heap's down on the first `n` entries; reports whether it moved. */
    method Down(start: nat, n: nat) returns (moved: bool)
      requires Placed() && Indexed() && start < n <= |h| && WrongAt(Checks(), n, start)
      modifies this`h, h`index
      ensures Placed() && Indexed() && index == old(index) && Same(old(h))
      ensures if moved || start == 0 then Heap(Checks(), n) else LowAt(Checks(), n, start)
      ensures h[n..] == old(h)[n..]
    {
      hide Sinking, Heap, LowAt, WrongAt, ChildrenFrom, Parent, Placed, Indexed, Swapped;
      StartSinking(Checks(), n, start);
      var i := start;
      while true
        invariant Placed() && Indexed() && Same(old(h)) && start <= i < n <= |h|
        invariant Sinking(Checks(), n, start, i)
        invariant h[n..] == old(h)[n..]
        decreases n - i
      {
        var j1 := 2 * i + 1;
        if j1 >= n {
          NoChildren(Checks(), n, i);
          break;
        }
        var j := LesserChild(i, n);
        if h[j].nextCheck >= h[i].nextCheck {
          break;
        }
        DownStep(Checks(), n, start, i, j);
        SwapWithin(h, old(h), n, i, j);
        Swap(i, j);
        i := j;
      }
      moved := i > start;
      Settled(Checks(), n, start, i);
    }

    /** container/heap's Fix after the time of entry `i` changed. */
    method Fix(i: nat)
      requires Placed() && Indexed() && i < |h| && WrongAt(Checks(), |h|, i)
      modifies this`h, h`index
      ensures Valid() && index == old(index) && Same(old(h))
    {
      var moved := Down(i, |h|);
      if !moved {
        Up(i);
      }
    }

    method Move(id: Id, nextCheck: int)
      requires Valid() && id in index
      modifies this`h, h
      ensures Valid() && index == old(index) && Same(old(h))
      ensures Times() == old(Times())[id := nextCheck]
    {
      hide Heap, WrongAt, LowAt;
      var e := index[id];
      ghost var k :| 0 <= k < |h| && h[k] == e;
      ChangeOne(Checks(), k, nextCheck);
      e.nextCheck := nextCheck;
      assert Checks() == old(Checks())[k := nextCheck];
      assert Times() == old(Times())[id := nextCheck];
      Fix(e.index);
    }

    method Append(e: SchedEntry)
      requires Placed() && Indexed() && e !in h && e.id !in index
      modifies this, e`index
      ensures Placed() && Indexed() && h == old(h) + [e]
      ensures Checks() == old(Checks()) + [e.nextCheck]
      ensures Times() == old(Times())[e.id := e.nextCheck]
    {
      e.index := |h|;
      h := h + [e];
      index := index[e.id := e];
    }

    method Insert(id: Id, nextCheck: int)
      requires Valid() && id !in index
      modifies this, h`index
      ensures Valid() && (forall e | e in h :: e in old(h) || fresh(e))
      ensures Times() == old(Times())[id := nextCheck]
    {
      hide Heap, WrongAt, LowAt;
      var e := new SchedEntry(id, nextCheck);
      AddLast(Checks(), nextCheck);
      Append(e);
      Up(|h| - 1);
    }

    /** Set or move the check of one engram; the index entry of a new one is written
        before the sift instead of after it. */
    method Schedule(id: Id, nextCheck: int)
      requires Valid()
      modifies this, h
      ensures Valid()
      ensures Times() == old(Times())[id := nextCheck]
      ensures forall e | e in h :: e in old(h) || fresh(e)
    {
      if id in index {
        Move(id, nextCheck);
      } else {
        Insert(id, nextCheck);
      }
    }

    /** The earliest scheduled time, if any. */
    method Next() returns (time: int, ok: bool)
      requires Valid()
      ensures ok <==> Times() != map[]
      ensures ok ==> (exists id :: id in Times() && Times()[id] == time)
      ensures ok ==> forall id | id in Times() :: time <= Times()[id]
    {
      if |h| == 0 {
        return 0, false;
      }
      RootTime();
      return h[0].nextCheck, true;
    }

    lemma RootTime()
      requires Valid() && |h| > 0
      ensures h[0].id in Times() && Times()[h[0].id] == h[0].nextCheck
      ensures forall id | id in Times() :: h[0].nextCheck <= Times()[id]
    {
      forall id | id in Times()
        ensures h[0].nextCheck <= Times()[id]
      {
        var k :| 0 <= k < |h| && h[k] == index[id];
        RootIsLeast(Checks(), |h|, k);
      }
    }

    /** Remove an engram whose check is earliest; the zero id when there is none. */
    method PopDue() returns (id: Id)
      requires Valid()
      modifies this, h
      ensures Valid()
      ensures old(Times()) == map[] ==> id == ZERO_ID && Times() == map[]
      ensures old(Times()) != map[] ==>
                && id in old(Times())
                && (forall k | k in old(Times()) :: old(Times())[id] <= old(Times())[k])
                && Times() == old(Times()) - {id}
      ensures forall e | e in h :: e in old(h)
    {
      if |h| == 0 {
        return ZERO_ID;
      }
      RootTime();
      var e := PopRoot();
      id := e.id;
    }

    /** Popping until nothing is scheduled. */
    method Drain() returns (ids: seq<Id>)
      requires Valid()
      modifies this, h
      ensures Valid() && Times() == map[]
      ensures Drains(old(Times()), ids)
    {
      hide Continues, Drains, Heap;
      ids := [];
      ghost var start := Times();
      NothingDrained(start);
      while |h| > 0
        invariant Valid() && (forall e | e in h :: e in old(h)) && Continues(start, Times(), ids)
        decreases |Times()|
      {
        ghost var before := Times();
        RootTime();
        var id := PopDue();
        OneDrained(start, before, ids, id);
        ids := ids + [id];
      }
      assert Times() == map[];
      AllDrained(start, ids);
    }

    /** container/heap's Pop, and the deletion from the index. */
    method PopRoot() returns (e: SchedEntry)
      requires Valid() && |h| > 0
      modifies this, h`index
      ensures Valid() && (forall e | e in h :: e in old(h))
      ensures e == old(h)[0] && Times() == old(Times()) - {e.id}
    {
      SinkRoot();
      e := RemoveLast();
    }

    method SinkRoot()
      requires Valid() && |h| > 0
      modifies this`h, h`index
      ensures Placed() && Indexed() && Same(old(h)) && index == old(index)
      ensures Heap(Checks(), |h| - 1) && h[|h| - 1] == old(h)[0]
      ensures Times() == old(Times())
    {
      hide Heap, WrongAt, LowAt;
      var n := |h| - 1;
      DropRoot(Checks(), n);
      Swap(0, n);
      assert h[n..][0] == old(h)[0];
      if n > 0 {
        var moved := Down(0, n);
        assert h[n..][0] == h[n];
      }
    }

    method RemoveLast() returns (e: SchedEntry)
      requires Placed() && Indexed() && |h| > 0 && Heap(Checks(), |h| - 1)
      modifies this, h`index
      ensures Valid() && h == old(h)[..|old(h)| - 1]
      ensures e == old(h)[|old(h)| - 1] && Times() == old(Times()) - {e.id}
    {
      hide Heap;
      var n := |h| - 1;
      CutHeap(Checks(), n);
      e := h[n];
      assert forall k | 0 <= k < n :: h[k] != e;
      e.index := -1;
      h := h[..n];
      index := index - {e.id};
      assert Checks() == old(Checks())[..n];
      assert Times() == old(Times()) - {e.id};
    }
  }

  lemma CutHeap(t: seq<int>, n: nat)
    requires Heap(t, n)
    ensures Heap(t[..n], n)
  {
  }

  lemma ChangeOne(t: seq<int>, i: nat, v: int)
    requires Heap(t, |t|) && i < |t|
    ensures WrongAt(t[i := v], |t|, i)
  {
  }

  lemma AddLast(t: seq<int>, v: int)
    requires Heap(t, |t|)
    ensures LowAt(t + [v], |t| + 1, |t|)
  {
  }

  /** With the root exchanged for the last entry, the rest is wrong only at 0. */
  lemma DropRoot(t: seq<int>, n: nat)
    requires Heap(t, |t|) && n + 1 == |t|
    ensures n > 0 ==> WrongAt(Swapped(t, 0, n), n, 0)
    ensures n == 0 ==> Heap(Swapped(t, 0, n), n)
  {
  }

  // ---------- Draining ----------

  /** What PopDue may answer on schedule `m`: an id of least time. */
  ghost predicate Earliest(m: map<Id, int>, id: Id) {
    id in m && forall k | k in m :: m[id] <= m[k]
  }

  /** The answers of popping until the schedule is empty. */
  ghost predicate Drains(m: map<Id, int>, ids: seq<Id>) {
    if ids == [] then m == map[]
    else Earliest(m, ids[0]) && Drains(m - {ids[0]}, ids[1..])
  }

  /** After popping `ids` from `start`, draining `m` completes the drain. */
  ghost predicate Continues(start: map<Id, int>, m: map<Id, int>, ids: seq<Id>) {
    forall rest | Drains(m, rest) :: Drains(start, ids + rest)
  }

  lemma NothingDrained(start: map<Id, int>)
    ensures Continues(start, start, [])
  {
    assert forall rest: seq<Id> :: [] + rest == rest;
  }

  lemma OneDrained(start: map<Id, int>, m: map<Id, int>, ids: seq<Id>, id: Id)
    requires Continues(start, m, ids) && Earliest(m, id)
    ensures Continues(start, m - {id}, ids + [id])
  {
    forall rest | Drains(m - {id}, rest)
      ensures Drains(start, (ids + [id]) + rest)
    {
      assert ([id] + rest)[1..] == rest;
      assert Drains(m, [id] + rest);
      assert (ids + [id]) + rest == ids + ([id] + rest);
    }
  }

  lemma AllDrained(start: map<Id, int>, ids: seq<Id>)
    requires Continues(start, map[], ids)
    ensures Drains(start, ids)
  {
    assert Drains(map[], []) && ids + [] == ids;
  }

  /** Draining yields each scheduled id once, in order of time. */
  lemma {:induction false} DrainIsSorted(m: map<Id, int>, ids: seq<Id>)
    requires Drains(m, ids)
    ensures NoDuplicates(ids) && Elements(ids) == m.Keys
    ensures forall i, j | 0 <= i < j < |ids| :: ids[i] in m && ids[j] in m && m[ids[i]] <= m[ids[j]]
  {
    if ids != [] {
      var m', tail := m - {ids[0]}, ids[1..];
      DrainIsSorted(m', tail);
      assert ids == [ids[0]] + tail;
      assert Elements(ids) == {ids[0]} + Elements(tail);
      assert ids[0] !in Elements(tail);
      forall i, j | 0 <= i < j < |ids|
        ensures ids[i] != ids[j] && ids[i] in m && ids[j] in m && m[ids[i]] <= m[ids[j]]
      {
        assert ids[j] == tail[j - 1] && tail[j - 1] in Elements(tail);
        if i > 0 {
          assert ids[i] == tail[i - 1];
          assert m'[tail[i - 1]] <= m'[tail[j - 1]];
        }
      }
    }
  }
}
