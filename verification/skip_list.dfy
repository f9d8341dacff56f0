/** SkipList: a linked structure of up to twelve levels over the entries of a memtable,
    published link by link while readers run. */
module SkipLists {
  import opened Entries

  const MAX_HEIGHT := 12

  class Node {
    const entry: Entry
    var next: seq<Node?>

    constructor (entry: Entry, height: nat)
      ensures this.entry == entry && next == seq(height, _ => null)
    {
      this.entry := entry;
      next := seq(height, _ => null);
    }
  }

  class SkipList {
    const head: Node
    var maxHeight: nat
    /** The nodes linked on each level, in order. */
    ghost var levels: seq<seq<Node>>

    ghost function Footprint(): set<object>
      reads this
    {
      {this, head} + set l: nat, i: nat | 0 <= l < |levels| && 0 <= i < |levels[l]| :: levels[l][i] as object
    }

    /** The node at place i of a level's list; the head comes before all, null after. */
    ghost function Place(L: seq<Node>, i: int): Node? {
      if i < 0 then head else if i < |L| then L[i] else null
    }

    ghost function At(l: nat, i: int): Node?
      requires l < |levels|
      reads this
    {
      Place(levels[l], i)
    }

    /** The links of level l run from the head through L to null, in strict order. */
    ghost predicate Linked(l: nat, L: seq<Node>)
      reads head, L
    {
      && (forall i :: 0 <= i < |L| ==> |L[i].next| > l && L[i] != head)
      && (forall i, j :: 0 <= i < j < |L| ==> Before(L[i].entry, L[j].entry))
      && |head.next| > l && head.next[l] == Place(L, 0)
      && (forall i :: 0 <= i < |L| ==> L[i].next[l] == Place(L, i + 1))
    }

    /** Holds between any two stores of an insertion. */
    ghost predicate Valid()
      reads this, Footprint()
    {
      && |levels| == MAX_HEIGHT && 1 <= maxHeight <= MAX_HEIGHT
      && (forall l {:trigger Linked(l, levels[l])} :: 0 <= l < MAX_HEIGHT ==> Linked(l, levels[l]))
      && (forall l :: 0 < l < MAX_HEIGHT ==> Nested(levels, l))
      && (forall l :: maxHeight <= l < MAX_HEIGHT ==> levels[l] == [])
    }

    constructor ()
      ensures Valid() && fresh(Footprint()) && levels == seq(MAX_HEIGHT, _ => [])
    {
      head := new Node(Entry(0, 0, 0, ""), MAX_HEIGHT);
      maxHeight := 1;
      levels := seq(MAX_HEIGHT, _ => []);
    }

    /** A search stands on list L before e, at place i. */
    ghost predicate StandsAt(x: Node, L: seq<Node>, i: int, e: Entry) {
      -1 <= i < |L| && x == Place(L, i) && (i >= 0 ==> Before(L[i].entry, e))
    }

    lemma Follow(x: Node, l: nat, i: int, e: Entry)
      requires Valid() && l < MAX_HEIGHT && StandsAt(x, levels[l], i, e)
      ensures |x.next| > l && x.next[l] == At(l, i + 1)
    {
      assert Linked(l, levels[l]);
    }

    lemma Stop(x: Node, l: nat, i: int, e: Entry)
      requires Valid() && l < MAX_HEIGHT && StandsAt(x, levels[l], i, e)
      requires i + 1 < |levels[l]| ==> !Before(levels[l][i + 1].entry, e)
      ensures Splits(levels[l], i, e)
    {
      assert Linked(l, levels[l]);
      forall j | 0 <= j <= i ensures Before(levels[l][j].entry, e) {
        assert j < i ==> Before(levels[l][j].entry, levels[l][i].entry);
      }
      forall j | i < j < |levels[l]| ensures !Before(levels[l][j].entry, e) {
        assert i + 1 < j ==> Before(levels[l][i + 1].entry, levels[l][j].entry);
      }
    }

    lemma Descend(x: Node, l: nat, i: int, e: Entry) returns (k: int)
      requires Valid() && 0 < l < MAX_HEIGHT && StandsAt(x, levels[l], i, e)
      ensures StandsAt(x, levels[l - 1], k, e)
    {
      k := -1;
      if i >= 0 {
        assert Nested(levels, l) && levels[l][i] == x;
        k :| 0 <= k < |levels[l - 1]| && levels[l - 1][k] == x;
      }
    }

    /** The first node at or after e, and the last node before e on every level in use. */
    method FindGreaterOrEqual(e: Entry) returns (n: Node?, prev: seq<Node>, ghost places: seq<int>)
      requires Valid()
      ensures |prev| == |places| == MAX_HEIGHT
      ensures forall l :: 0 <= l < maxHeight ==> Splits(levels[l], places[l], e) && prev[l] == At(l, places[l])
      ensures n == At(0, places[0] + 1)
    {
      var x: Node := head;
      var level := maxHeight - 1;
      ghost var i := -1;
      prev := seq(MAX_HEIGHT, _ => head);
      places := seq(MAX_HEIGHT, _ => -1);
      while true
        invariant 0 <= level < maxHeight && |prev| == |places| == MAX_HEIGHT
        invariant StandsAt(x, levels[level], i, e)
        invariant forall l :: level < l < maxHeight ==> Splits(levels[l], places[l], e) && prev[l] == At(l, places[l])
        decreases level, |levels[level]| - i
      {
        Follow(x, level, i, e);
        var next := x.next[level];
        if next != null && Before(next.entry, e) {
          x := next;
          i := i + 1;
        } else {
          Stop(x, level, i, e);
          prev := prev[level := x];
          places := places[level := i];
          if level == 0 {
            return next, prev, places;
          }
          i := Descend(x, level, i, e);
          level := level - 1;
        }
      }
    }

    /** The last node before e, or the head. */
    method FindLessThan(e: Entry) returns (x: Node, ghost i: int)
      requires Valid()
      ensures Splits(levels[0], i, e) && x == At(0, i)
    {
      x := head;
      var level := maxHeight - 1;
      i := -1;
      while true
        invariant 0 <= level < maxHeight && StandsAt(x, levels[level], i, e)
        decreases level, |levels[level]| - i
      {
        Follow(x, level, i, e);
        var next := x.next[level];
        if next == null || !Before(next.entry, e) {
          Stop(x, level, i, e);
          if level == 0 {
            return;
          }
          i := Descend(x, level, i, e);
          level := level - 1;
        } else {
          x := next;
          i := i + 1;
        }
      }
    }

    /** The last node, or the head of an empty list. */
    method FindLast() returns (x: Node)
      requires Valid()
      ensures x == At(0, |levels[0]| - 1)
    {
      x := head;
      var level := maxHeight - 1;
      ghost var i := -1;
      while true
        invariant 0 <= level < maxHeight && -1 <= i < |levels[level]| && x == At(level, i)
        decreases level, |levels[level]| - i
      {
        assert Linked(level, levels[level]);
        var next := x.next[level];
        if next == null {
          if level == 0 {
            return;
          }
          i := FindPlace(x, level, i);
          level := level - 1;
        } else {
          x := next;
          i := i + 1;
        }
      }
    }

    lemma FindPlace(x: Node, l: nat, i: int) returns (k: int)
      requires Valid() && 0 < l < MAX_HEIGHT && -1 <= i < |levels[l]| && x == At(l, i)
      ensures -1 <= k < |levels[l - 1]| && x == At(l - 1, k)
    {
      k := -1;
      if i >= 0 {
        assert Nested(levels, l) && levels[l][i] == x;
        k :| 0 <= k < |levels[l - 1]| && levels[l - 1][k] == x;
      }
    }

    method Contains(e: Entry) returns (found: bool)
      requires Valid()
      ensures found <==> exists i :: 0 <= i < |levels[0]| && Same(levels[0][i].entry, e)
    {
      var n, prev;
      ghost var places;
      n, prev, places := FindGreaterOrEqual(e);
      found := n != null && !Before(e, n.entry) && !Before(n.entry, e);
      assert Splits(levels[0], places[0], e) && Linked(0, levels[0]);
      if n != null {
        assert levels[0][places[0] + 1] == n;
        assert forall j :: places[0] + 1 < j < |levels[0]| ==> Before(n.entry, levels[0][j].entry);
      }
    }

    /** Every node is on the bottom level. */
    lemma AllOnBottom()
      requires Valid()
      ensures forall l, n :: 0 <= l < MAX_HEIGHT && n in levels[l] ==> n in levels[0]
    {
      forall l, n | 0 <= l < MAX_HEIGHT && n in levels[l] ensures n in levels[0] {
        OnBottom(l, n);
      }
    }

    lemma {:induction false} OnBottom(l: nat, n: Node)
      requires Valid() && l < MAX_HEIGHT && n in levels[l]
      ensures n in levels[0]
    {
      if l > 0 {
        assert Nested(levels, l);
        OnBottom(l - 1, n);
      }
    }

    /** A store into one link leaves the lists of all other levels as they were. */
    method SetNext(p: Node, i: nat, n: Node?)
      requires |levels| == MAX_HEIGHT && i < MAX_HEIGHT && i < |p.next|
      requires forall l {:trigger Linked(l, levels[l])} :: 0 <= l < MAX_HEIGHT ==> Linked(l, levels[l])
      modifies p`next
      ensures p.next == old(p.next)[i := n]
      ensures forall l {:trigger Linked(l, levels[l])} :: 0 <= l < MAX_HEIGHT && l != i ==> Linked(l, levels[l])
    {
      p.next := p.next[i := n];
      forall l | 0 <= l < MAX_HEIGHT && l != i ensures Linked(l, levels[l]) {
        assert old(Linked(l, levels[l]));
      }
    }

    /** The store into the new node: not yet published on this level, so no reader gets to it there. */
    method Prepare(x: Node, i: nat, n: Node?)
      requires Valid() && i < |x.next| && i < MAX_HEIGHT && x != head && x !in levels[i]
      modifies x`next
      ensures Valid() && x.next == old(x.next)[i := n]
    {
      assert Linked(i, levels[i]);
      SetNext(x, i, n);
      assert Linked(i, levels[i]);
    }

    /** The store that makes p lead to x, seen from level i and from the others. */
    method Splice(x: Node, p: Node, i: nat, ghost k: int, ghost L: seq<Node>, ghost M: seq<Node>)
      requires |levels| == MAX_HEIGHT && i < MAX_HEIGHT && i < |x.next| && x != head && x !in L
      requires forall l {:trigger Linked(l, levels[l])} :: 0 <= l < MAX_HEIGHT ==> Linked(l, levels[l])
      requires L == levels[i] && Splits(levels[i], k, x.entry) && (k + 1 < |L| ==> Before(x.entry, L[k + 1].entry))
      requires M == Insertion(L, k + 1, x)
      requires p == Place(L, k) && x.next[i] == Place(L, k + 1)
      modifies p`next
      ensures |p.next| == |old(p.next)| && Linked(i, M)
      ensures forall l {:trigger Linked(l, levels[l])} :: 0 <= l < MAX_HEIGHT && l != i ==> Linked(l, levels[l])
    {
      assert Linked(i, L);
      OnlyOneIs(L, k);
      SetNext(p, i, x);
      LinkedIn(i, k, x, p, L, M);
    }

    /** The store that publishes x on level i, after the node at place k. */
    method Publish(x: Node, p: Node, i: nat, ghost k: int)
      requires Valid() && i < maxHeight && i < |x.next| && x != head
      requires x !in levels[i] && (i > 0 ==> x in levels[i - 1])
      requires Splits(levels[i], k, x.entry) && (k + 1 < |levels[i]| ==> Before(x.entry, levels[i][k + 1].entry))
      requires p == At(i, k) && x.next[i] == At(i, k + 1)
      modifies p`next, `levels
      ensures Valid() && |p.next| == |old(p.next)|
      ensures levels == old(levels)[i := Insertion(old(levels[i]), k + 1, x)]
    {
      ghost var M := Insertion(levels[i], k + 1, x);
      Splice(x, p, i, k, levels[i], M);
      StillNested(levels, levels[i := M], i, k + 1, x);
      levels := levels[i := M];
    }

    lemma OnlyOneIs(L: seq<Node>, k: int)
      requires forall j, m :: 0 <= j < m < |L| ==> Before(L[j].entry, L[m].entry)
      ensures forall j :: 0 <= j < |L| && 0 <= k < |L| && j != k ==> L[j] != L[k]
    {
    }

    /** The list on level i once p leads to x and x leads to where p led before. */
    lemma LinkedIn(i: nat, k: int, x: Node, p: Node, L: seq<Node>, M: seq<Node>)
      requires -1 <= k < |L| && M == Insertion(L, k + 1, x)
      requires forall j :: 0 <= j < |L| ==> |L[j].next| > i && L[j] != head
      requires forall j, m :: 0 <= j < m < |L| ==> Before(L[j].entry, L[m].entry)
      requires |x.next| > i && |head.next| > i && x != head
      requires p == (if k < 0 then head else L[k]) && p.next[i] == x
      requires x.next[i] == if k + 1 < |L| then L[k + 1] else null
      requires k >= 0 ==> head.next[i] == L[0]
      requires forall j :: 0 <= j < |L| && j != k ==> L[j].next[i] == if j + 1 < |L| then L[j + 1] else null
      requires forall j :: 0 <= j <= k ==> Before(L[j].entry, x.entry)
      requires k + 1 < |L| ==> Before(x.entry, L[k + 1].entry)
      ensures Linked(i, M)
    {
      assert forall j :: 0 <= j <= k ==> M[j] == L[j];
      assert M[k + 1] == x;
      assert forall j :: k + 1 < j < |M| ==> M[j] == L[j - 1];
      forall j, m | 0 <= j < m < |M| ensures Before(M[j].entry, M[m].entry) {
        if j == k + 1 && k + 2 < m {
          assert Before(L[k + 1].entry, L[m - 1].entry);
        }
      }
      forall j | 0 <= j < |M| ensures |M[j].next| > i && M[j].next[i] == Place(M, j + 1) {
        if j == k || j == k + 1 {
          assert j == k ==> M[j] == p;
        } else {
          var m := if j < k then j else j - 1;
          assert M[j] == L[m] && L[m].next[i] == Place(L, m + 1);
        }
      }
    }
  }

  /** SkipList::Iterator: a cursor over the bottom level. */
  class Iterator {
    const list: SkipList
    var node: Node?

    constructor (list: SkipList)
      ensures this.list == list && !Valid()
    {
      this.list, node := list, null;
    }

    predicate Valid()
      reads this
    {
      node != null
    }

    method Next(ghost k: nat)
      requires list.Valid() && k < |list.levels[0]| && node == list.levels[0][k]
      modifies this
      ensures node == list.At(0, k + 1)
    {
      assert list.Linked(0, list.levels[0]);
      node := node.next[0];
    }

    /** The node before, found by a search; nothing before the first. */
    method Prev(ghost k: nat)
      requires list.Valid() && k < |list.levels[0]| && node == list.levels[0][k]
      modifies this
      ensures node == if k == 0 then null else list.levels[0][k - 1]
    {
      assert list.Linked(0, list.levels[0]);
      var before;
      ghost var i;
      before, i := list.FindLessThan(node.entry);
      assert i == k - 1 by {
        assert !Before(list.levels[0][k].entry, node.entry);
        assert k > 0 ==> Before(list.levels[0][k - 1].entry, node.entry);
      }
      node := if before == list.head then null else before;
    }

    /** The first node at or after the target. */
    method Seek(target: Entry) returns (ghost i: int)
      requires list.Valid()
      modifies this
      ensures Splits(list.levels[0], i, target) && node == list.At(0, i + 1)
    {
      var n, prev;
      ghost var places;
      n, prev, places := list.FindGreaterOrEqual(target);
      node, i := n, places[0];
    }

    method SeekToFirst()
      requires list.Valid()
      modifies this
      ensures node == list.At(0, 0)
    {
      assert list.Linked(0, list.levels[0]);
      node := list.head.next[0];
    }

    method SeekToLast()
      requires list.Valid()
      modifies this
      ensures node == if list.levels[0] == [] then null else list.levels[0][|list.levels[0]| - 1]
    {
      assert list.Linked(0, list.levels[0]);
      var last := list.FindLast();
      node := if last == list.head then null else last;
    }
  }

  /** i is the last place of L whose entry comes before e. */
  ghost predicate Splits(L: seq<Node>, i: int, e: Entry) {
    && -1 <= i < |L|
    && (forall j :: 0 <= j <= i ==> Before(L[j].entry, e))
    && (forall j :: i < j < |L| ==> !Before(L[j].entry, e))
  }

  ghost function Insertion<T>(s: seq<T>, k: nat, x: T): seq<T>
    requires k <= |s|
  {
    s[..k] + [x] + s[k..]
  }

  lemma InsertionMembers<T>(s: seq<T>, k: nat, x: T)
    requires k <= |s|
    ensures forall y :: y in Insertion(s, k, x) <==> y == x || y in s
  {
  }

  /** Every member of list l is also in the list below. */
  ghost predicate Nested<T>(lists: seq<seq<T>>, l: nat)
    requires 0 < l < |lists|
  {
    forall i :: 0 <= i < |lists[l]| ==> lists[l][i] in lists[l - 1]
  }

  lemma StillNested<T>(lists: seq<seq<T>>, after: seq<seq<T>>, i: nat, k: nat, x: T)
    requires forall l :: 0 < l < |lists| ==> Nested(lists, l)
    requires i < |lists| && k <= |lists[i]| && (i > 0 ==> x in lists[i - 1])
    requires after == lists[i := Insertion(lists[i], k, x)]
    ensures forall l :: 0 < l < |after| ==> Nested(after, l)
  {
    InsertionMembers(lists[i], k, x);
    forall l | 0 < l < |after| ensures Nested(after, l) {
      assert Nested(lists, l);
      forall j | 0 <= j < |after[l]| ensures after[l][j] in after[l - 1] {
        assert after[l][j] in after[l];
      }
    }
  }

  /** The comparator calls the keys equal. */
  predicate Same(a: Entry, b: Entry) {
    a.key == b.key && a.sequence == b.sequence && a.kind == b.kind
  }
}
