/** SnapshotList: the live snapshots in a circular doubly linked list with a dummy head. */
module SnapshotLists {

  class SnapshotImpl {
    const sequenceNumber: nat
    var prev: SnapshotImpl?
    var next: SnapshotImpl?

    constructor (sequenceNumber: nat)
      ensures this.sequenceNumber == sequenceNumber
    {
      this.sequenceNumber := sequenceNumber;
      prev, next := null, null;
    }
  }

  /** The members of the ring by place, with the head before the first and after the last. */
  ghost function Place(head: SnapshotImpl, nodes: seq<SnapshotImpl>, i: int): SnapshotImpl {
    if 0 <= i < |nodes| then nodes[i] else head
  }

  /** The member at place i and the one after it lead to each other. */
  ghost predicate Joined(head: SnapshotImpl, nodes: seq<SnapshotImpl>, i: int)
    requires -1 <= i < |nodes|
    reads head, nodes
  {
    Place(head, nodes, i).next == Place(head, nodes, i + 1) && Place(head, nodes, i + 1).prev == Place(head, nodes, i)
  }

  /** The links run once round the ring, and back. */
  ghost predicate Ring(head: SnapshotImpl, nodes: seq<SnapshotImpl>)
    reads head, nodes
  {
    forall i {:trigger Joined(head, nodes, i)} :: -1 <= i < |nodes| ==> Joined(head, nodes, i)
  }

  /** No member occurs twice. */
  ghost predicate Apart(head: SnapshotImpl, nodes: seq<SnapshotImpl>) {
    head !in nodes && forall i, j :: 0 <= i < j < |nodes| ==> nodes[i] != nodes[j]
  }

  /** The snapshots are in the order of their sequence numbers. */
  ghost predicate Ordered(nodes: seq<SnapshotImpl>) {
    forall i, j :: 0 <= i < j < |nodes| ==> nodes[i].sequenceNumber <= nodes[j].sequenceNumber
  }

  class SnapshotList {
    const head: SnapshotImpl
    /** The live snapshots, oldest first. */
    ghost var nodes: seq<SnapshotImpl>

    ghost predicate Valid()
      reads this, head, nodes
    {
      Ring(head, nodes) && Apart(head, nodes) && Ordered(nodes)
    }

    constructor ()
      ensures Valid() && nodes == [] && fresh(head)
    {
      var h := new SnapshotImpl(0);
      h.prev, h.next := h, h;
      head, nodes := h, [];
    }

    method Empty() returns (empty: bool)
      requires Valid()
      ensures empty <==> nodes == []
    {
      assert Joined(head, nodes, -1);
      empty := head.next == head;
    }

    /** The oldest snapshot has the least sequence number. */
    method Oldest() returns (s: SnapshotImpl)
      requires Valid() && nodes != []
      ensures s == nodes[0] && forall o :: o in nodes ==> s.sequenceNumber <= o.sequenceNumber
    {
      assert Joined(head, nodes, -1);
      s := head.next;
    }

    /** The newest snapshot has the greatest sequence number. */
    method Newest() returns (s: SnapshotImpl)
      requires Valid() && nodes != []
      ensures s == nodes[|nodes| - 1] && forall o :: o in nodes ==> o.sequenceNumber <= s.sequenceNumber
    {
      assert Joined(head, nodes, |nodes| - 1);
      s := head.prev;
    }

    /** Appends a snapshot; the numbers handed in never decrease. */
    method New(sequenceNumber: nat) returns (snapshot: SnapshotImpl)
      requires Valid() && (nodes != [] ==> nodes[|nodes| - 1].sequenceNumber <= sequenceNumber)
      modifies this, head, nodes
      ensures Valid() && fresh(snapshot) && snapshot.sequenceNumber == sequenceNumber
      ensures nodes == old(nodes) + [snapshot]
    {
      snapshot := new SnapshotImpl(sequenceNumber);
      ghost var after := nodes + [snapshot];
      assert Joined(head, nodes, |nodes| - 1);
      snapshot.next := head;
      snapshot.prev := head.prev;
      snapshot.prev.next := snapshot;
      snapshot.next.prev := snapshot;
      ghost var before := nodes;
      nodes := after;
      assert Ring(head, after) by {
        forall i | -1 <= i < |after| ensures Joined(head, after, i) {
          assert i < |before| ==> old(Joined(head, nodes, i));
        }
      }
    }

    /** Unlinks one snapshot and leaves the others as they were. */
    method Delete(snapshot: SnapshotImpl, ghost k: nat)
      requires Valid() && k < |nodes| && nodes[k] == snapshot
      modifies this, head, nodes
      ensures Valid() && nodes == old(nodes)[..k] + old(nodes)[k + 1..]
    {
      ghost var before := nodes;
      ghost var after := nodes[..k] + nodes[k + 1..];
      Removed(head, before, after, k);
      assert Joined(head, before, k - 1) && Joined(head, before, k);
      snapshot.prev.next := snapshot.next;
      snapshot.next.prev := snapshot.prev;
      nodes := after;
      assert Ring(head, after) by {
        forall i | -1 <= i < |after| ensures Joined(head, after, i) {
          assert old(Joined(head, before, if i < k then i else i + 1));
        }
      }
    }
  }

  /** Taking one member out keeps the others apart and in order. */
  lemma Removed(head: SnapshotImpl, before: seq<SnapshotImpl>, after: seq<SnapshotImpl>, k: nat)
    requires k < |before| && after == before[..k] + before[k + 1..]
    requires Apart(head, before) && Ordered(before)
    ensures Apart(head, after) && Ordered(after)
  {
  }
}
