/** SkipList::Insert one store at a time, and lookups whose loads fall between the stores. */
module SkipListRace {
  import opened Entries
  import opened SkipLists

  /** Every level still has the nodes it had. */
  ghost predicate Grown(before: seq<seq<Node>>, after: seq<seq<Node>>) {
    |before| == |after| && forall l, n :: 0 <= l < |before| && n in before[l] ==> n in after[l]
  }

  /** The local variables of one Insert, so that it can stop after every store. */
  class Inserter {
    const list: SkipList
    const entry: Entry
    const height: nat
    const x: Node
    const prev: seq<Node>
    ghost const places: seq<int>
    /** The levels before the first store. */
    ghost const start: seq<seq<Node>>
    var i: nat
    var raised: bool
    var prepared: bool

    /** On level l the new node belongs between prev[l] and what follows it. */
    ghost predicate Found(l: nat)
      requires |start| == |prev| == |places| == MAX_HEIGHT && l < MAX_HEIGHT
    {
      && x !in start[l]
      && Splits(start[l], places[l], entry)
      && prev[l] == list.Place(start[l], places[l])
      && (places[l] + 1 < |start[l]| ==> Before(entry, start[l][places[l] + 1].entry))
    }

    /** The new node is on the levels below i, in its place; the others are as they were. */
    ghost predicate Published(l: nat)
      requires |start| == |prev| == |places| == |list.levels| == MAX_HEIGHT && l < MAX_HEIGHT && Found(l)
      reads `i, list`levels
    {
      list.levels[l] == if l < i then Insertion(start[l], places[l] + 1, x) else start[l]
    }

    ghost predicate Valid()
      reads this, list, list.Footprint(), x
    {
      && list.Valid()
      && 1 <= height <= MAX_HEIGHT && i <= height && |prev| == |places| == |start| == MAX_HEIGHT
      && x.entry == entry && |x.next| == height && x != list.head
      && (raised ==> height <= list.maxHeight)
      && (!raised ==> i == 0 && !prepared)
      && (forall l {:trigger Found(l)} :: 0 <= l < height ==> Found(l))
      && (forall l {:trigger Published(l)} :: 0 <= l < height ==> Published(l))
      && (forall l {:trigger list.levels[l]} :: height <= l < MAX_HEIGHT ==> list.levels[l] == start[l])
      && (prepared ==> i < height && x.next[i] == list.Place(start[i], places[i] + 1))
    }

    /** Finds the place on every level, before any store. */
    constructor (list: SkipList, entry: Entry, height: nat)
      requires list.Valid() && 1 <= height <= MAX_HEIGHT
      requires forall n :: n in list.levels[0] ==> !Same(n.entry, entry)
      ensures Valid() && fresh(x) && i == 0 && !raised && this.list == list && this.entry == entry && this.height == height && start == list.levels
    {
      var before: seq<Node>;
      ghost var where;
      var _, found, spots := list.FindGreaterOrEqual(entry);
      before, where := found, spots;
      var top := list.maxHeight;
      var l := top;
      while l < height
        invariant top <= l && |before| == MAX_HEIGHT
        invariant forall k :: top <= k < l && k < MAX_HEIGHT ==> before[k] == list.head
        invariant forall k :: 0 <= k < top ==> before[k] == list.At(k, where[k])
      {
        before := before[l := list.head];
        l := l + 1;
      }
      this.list, this.entry, this.height, this.start := list, entry, height, list.levels;
      prev := before;
      places := seq(MAX_HEIGHT, k requires 0 <= k < MAX_HEIGHT => if k < top then where[k] else -1);
      x := new Node(entry, height);
      i, raised, prepared := 0, false, false;
      new;
      list.AllOnBottom();
    }

    predicate Done()
      reads this
    {
      i == height
    }

    ghost function StoresLeft(): int
      reads `i, `raised, `prepared
    {
      2 * (height - i) + (if raised then 0 else 1) - (if prepared then 1 else 0)
    }

    method Raise()
      requires Valid() && !raised
      modifies `raised, list`maxHeight
      ensures Valid() && raised && list.maxHeight == if height > old(list.maxHeight) then height else old(list.maxHeight)
    {
      if height > list.maxHeight {
        list.maxHeight := height;
      }
      raised := true;
    }

    method PrepareLink()
      requires Valid() && raised && !prepared && !Done()
      modifies `prepared, x`next
      ensures Valid() && prepared
    {
      assert Found(i) && Published(i);
      assert list.Linked(i, list.levels[i]);
      list.Prepare(x, i, prev[i].next[i]);
      prepared := true;
    }

    lemma OnLevelBelow()
      requires Valid()
      ensures i > 0 ==> x in list.levels[i - 1]
    {
      if i > 0 {
        assert Found(i - 1) && Published(i - 1);
        InsertionMembers(start[i - 1], places[i - 1] + 1, x);
      }
    }

    method PublishLink()
      requires Valid() && raised && prepared
      modifies `prepared, `i, list`levels, list.Footprint()
      ensures Valid() && i == old(i) + 1 && !prepared
      ensures list.levels == old(list.levels)[old(i) := list.levels[old(i)]]
      ensures forall n :: n in list.levels[old(i)] <==> n == x || n in old(list.levels[i])
    {
      assert Found(i) && Published(i);
      InsertionMembers(start[i], places[i] + 1, x);
      OnLevelBelow();
      list.Publish(x, prev[i], i, places[i]);
      i := i + 1;
      prepared := false;
      forall l | 0 <= l < height ensures Published(l) {
        assert old(Published(l));
      }
    }

    /** One store: max_height_, or a link of the new node, or a link to it. */
    method Step()
      requires Valid() && !Done()
      modifies `raised, `prepared, `i, list`maxHeight, list`levels, list.Footprint(), x`next
      ensures Valid() && Grown(old(list.levels), list.levels)
      ensures list.Footprint() <= old(list.Footprint()) + {x}
      ensures StoresLeft() + 1 == old(StoresLeft())
    {
      if !raised {
        Raise();
      } else if !prepared {
        PrepareLink();
      } else {
        PublishLink();
        forall n | n in list.Footprint() ensures n in old(list.Footprint()) + {x} {
          if l, k :| 0 <= l < MAX_HEIGHT && 0 <= k < |list.levels[l]| && list.levels[l][k] == n {
            assert list.levels[l][k] in list.levels[l];
          }
        }
      }
    }
  }

  /** A node height drawn from 1 to kMaxHeight. */
  method RandomHeight() returns (height: nat)
    ensures 1 <= height <= MAX_HEIGHT
  {
    height := 1;
    var more: bool := *;
    while height < MAX_HEIGHT && more
      invariant 1 <= height <= MAX_HEIGHT
    {
      height := height + 1;
      more := *;
    }
  }

  /** Insert with no reader in between. */
  method Insert(list: SkipList, e: Entry) returns (ghost x: Node, ghost k: nat)
    requires list.Valid() && forall n :: n in list.levels[0] ==> !Same(n.entry, e)
    modifies list, list.Footprint()
    ensures list.Valid() && fresh(x) && x.entry == e
    ensures k <= |old(list.levels[0])| && list.levels[0] == Insertion(old(list.levels[0]), k, x)
    ensures fresh(list.Footprint() - old(list.Footprint()))
  {
    var height := RandomHeight();
    var inserter := new Inserter(list, e, height);
    while !inserter.Done()
      invariant inserter.Valid() && inserter.list == list && inserter.entry == e
      invariant fresh(inserter) && fresh(inserter.x) && inserter.height >= 1
      invariant inserter.start == old(list.levels)
      invariant list.Footprint() <= old(list.Footprint()) + {inserter.x}
      decreases inserter.StoresLeft()
    {
      inserter.Step();
    }
    assert inserter.Found(0) && inserter.Published(0);
    x, k := inserter.x, inserter.places[0] + 1;
  }

  /** A lookup in progress: FindGreaterOrEqual stopped before one of its loads. */
  class Reader {
    const list: SkipList
    const key: Entry
    var x: Node
    var level: nat
    var done: bool
    var result: Node?

    /** The reader stands on the head or on a node of its level before the key. */
    ghost predicate Standing()
      reads `x, `level, list`levels
    {
      && |list.levels| == MAX_HEIGHT && level < MAX_HEIGHT
      && (x == list.head || (x in list.levels[level] && Before(x.entry, key)))
    }

    /** The height the reader loaded may be older than the list. */
    constructor (list: SkipList, key: Entry, height: nat)
      requires list.Valid() && 1 <= height <= MAX_HEIGHT
      ensures Standing() && !done && this.list == list && this.key == key
    {
      this.list, this.key := list, key;
      x, level, done, result := list.head, height - 1, false, null;
    }

    /** One turn of the loop, with its one load. The answer is right at that load. */
    method Step()
      requires list.Valid() && Standing() && !done
      modifies this
      ensures Standing()
      ensures done ==> AtOrAfter(list, key, result)
      ensures !done ==> level < old(level) || (level == old(level) && (x != old(x) && x in list.levels[level]))
    {
      ghost var place := Where();
      list.Follow(x, level, place, key);
      var next := x.next[level];
      if next != null && Before(next.entry, key) {
        assert list.Linked(level, list.levels[level]);
        assert place >= 0 ==> Before(x.entry, next.entry);
        x := next;
      } else {
        list.Stop(x, level, place, key);
        if level == 0 {
          done, result := true, next;
        } else {
          ghost var below := list.Descend(x, level, place, key);
          level := level - 1;
        }
      }
    }

    lemma Where() returns (place: int)
      requires list.Valid() && Standing()
      ensures list.StandsAt(x, list.levels[level], place, key)
    {
      place := -1;
      if x != list.head {
        place :| 0 <= place < |list.levels[level]| && list.levels[level][place] == x;
      }
    }
  }

  /** n is the least node at or after the key, or null when there is none. */
  ghost predicate AtOrAfter(list: SkipList, key: Entry, n: Node?)
    requires |list.levels| == MAX_HEIGHT
    reads list
  {
    exists i {:trigger Splits(list.levels[0], i, key)} :: Splits(list.levels[0], i, key) && n == list.At(0, i + 1)
  }

  lemma NotPassedOver(list: SkipList, key: Entry, result: Node?, n: Node)
    requires list.Valid() && AtOrAfter(list, key, result) && n in list.levels[0] && !Before(n.entry, key)
    ensures result != null && !Before(n.entry, result.entry)
  {
    var i :| Splits(list.levels[0], i, key) && result == list.At(0, i + 1);
    var j :| 0 <= j < |list.levels[0]| && list.levels[0][j] == n;
    assert list.Linked(0, list.levels[0]);
    assert i + 1 < j ==> Before(list.levels[0][i + 1].entry, n.entry);
  }

  /** The single writer moves: the next store of its insertion, or a new insertion if the last is done. */
  method WriterTurn(list: SkipList, inserter: Inserter?) returns (next: Inserter?)
    requires list.Valid() && (inserter != null ==> inserter.list == list && inserter.Valid())
    modifies if inserter != null && !inserter.Done() then {inserter, list, inserter.x} + list.Footprint() else {}
    ensures list.Valid() && Grown(old(list.levels), list.levels)
    ensures next != null ==> next.list == list && next.Valid()
    ensures next == inserter || (fresh(next) && fresh(next.x))
    ensures next == null ==> list.Footprint() == old(list.Footprint())
    ensures next != null ==> list.Footprint() <= old(list.Footprint()) + {next.x}
  {
    next := inserter;
    if inserter != null && !inserter.Done() {
      inserter.Step();
    } else {
      var e: Entry := *;
      var present := list.Contains(e);
      if !present {
        var height := RandomHeight();
        next := new Inserter(list, e, height);
      }
    }
  }

  /** Any number of insertions, one after the other, and a lookup that loads between their stores:
      the answer is the least node at or after the key when it is found, and none that was there
      when the lookup began is passed over. */
  method Race(list: SkipList, key: Entry, height: nat, steps: nat) returns (done: bool, result: Node?)
    requires list.Valid() && 1 <= height <= MAX_HEIGHT
    modifies list, list.Footprint()
    ensures list.Valid() && Grown(old(list.levels), list.levels)
    ensures done ==> AtOrAfter(list, key, result)
    ensures done ==> forall n :: n in old(list.levels[0]) && !Before(n.entry, key) ==>
                       result != null && !Before(n.entry, result.entry)
  {
    var reader := new Reader(list, key, height);
    var inserter: Inserter? := null;
    var left := steps;
    while !reader.done && left > 0
      invariant list.Valid() && fresh(reader) && reader.list == list && reader.key == key
      invariant reader.Standing() && (reader.done ==> AtOrAfter(list, key, reader.result))
      invariant Grown(old(list.levels), list.levels)
      invariant fresh(list.Footprint() - old(list.Footprint()))
      invariant inserter != null ==> fresh(inserter) && fresh(inserter.x) && inserter.list == list && inserter.Valid()
      invariant inserter as object? != reader && reader !in list.Footprint() && (inserter != null ==> inserter.x as object != reader)
    {
      left := left - 1;
      var readersTurn: bool := *;
      if readersTurn {
        reader.Step();
      } else {
        inserter := WriterTurn(list, inserter);
      }
    }
    done, result := reader.done, reader.result;
    if done {
      forall n | n in old(list.levels[0]) && !Before(n.entry, key) ensures result != null && !Before(n.entry, result.entry) {
        NotPassedOver(list, key, result, n);
      }
    }
  }
}
