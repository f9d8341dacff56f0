/** MemTable: the skip list as an index that answers reads at a snapshot. */
module MemTables {
  import opened Entries
  import opened Options
  import opened SkipLists
  import SkipListRace

  /** What Get found: nothing about the key, its value, or its deletion. */
  datatype Answer = Unknown | Found(value: Value) | NotFound

  /** The answer that an entry gives. */
  function AnswerOf(e: Entry): Answer {
    if e.kind == VALUE then Found(e.value) else NotFound
  }

  /** What a reader is shown for an answer. */
  function Meaning(a: Answer): Option<Value> {
    if a.Found? then Some(a.value) else None
  }

  class MemTable {
    const table: SkipList

    /** The entries that were added. */
    ghost function Contents(): set<Entry>
      requires |table.levels| == MAX_HEIGHT
      reads table
    {
      set n | n in table.levels[0] :: n.entry
    }

    ghost predicate Valid()
      reads table, table.Footprint()
    {
      table.Valid() && forall e :: e in Contents() ==> Parses(e)
    }

    constructor ()
      ensures Valid() && fresh(table) && fresh(table.Footprint()) && Contents() == {}
    {
      table := new SkipList();
    }

    /** Each sequence number is added once, so no entry compares equal to the new one. */
    method Add(sequence: nat, kind: TypeByte, key: UserKey, value: Value)
      requires Valid() && kind <= VALUE
      requires forall e :: e in Contents() ==> !Same(e, Entry(key, sequence, kind, value))
      modifies table, table.Footprint()
      ensures Valid() && Contents() == old(Contents()) + {Entry(key, sequence, kind, value)}
      ensures fresh(table.Footprint() - old(table.Footprint()))
    {
      ghost var x, k := SkipListRace.Insert(table, Entry(key, sequence, kind, value));
      InsertionMembers(old(table.levels[0]), k, x);
    }

    /** The newest entry for the key at or below the snapshot, through one seek. */
    method Get(key: UserKey, snapshot: nat) returns (answer: Answer)
      requires Valid()
      ensures answer != Unknown ==> exists e :: Newest(Contents(), key, snapshot, e) && answer == AnswerOf(e)
      ensures answer == Unknown <==> forall e :: e in Contents() ==> !Candidate(e, key, snapshot)
      ensures Distinct(Contents()) ==> View(Contents(), key, snapshot) == Meaning(answer)
    {
      var iter := new Iterator(table);
      ghost var i := iter.Seek(Entry(key, snapshot, VALUE, ""));
      answer := Unknown;
      SeekFindsNewest(key, snapshot, i);
      if iter.Valid() {
        var entry := iter.node.entry;
        if entry.key == key {
          answer := if entry.kind == VALUE then Found(entry.value) else if entry.kind == DELETION then NotFound else Unknown;
          assert entry in Contents();
          if Distinct(Contents()) {
            ViewOfNewest(Contents(), key, snapshot, entry);
          }
        }
      }
    }

    /** The first node at or after (key, snapshot, value) holds the newest entry for the key, if there is one. */
    lemma SeekFindsNewest(key: UserKey, snapshot: nat, i: int)
      requires Valid() && Splits(table.levels[0], i, Entry(key, snapshot, VALUE, ""))
      ensures var n := table.At(0, i + 1);
        if n != null && n.entry.key == key then Newest(Contents(), key, snapshot, n.entry)
        else forall e :: e in Contents() ==> !Candidate(e, key, snapshot)
    {
      var L, target := table.levels[0], Entry(key, snapshot, VALUE, "");
      assert table.Linked(0, L);
      var n := table.At(0, i + 1);
      forall e | e in Contents() && Candidate(e, key, snapshot)
        ensures n != null && n.entry.key == key && e.sequence <= n.entry.sequence
      {
        var m :| m in L && m.entry == e;
        var j :| 0 <= j < |L| && L[j] == m;
        assert !Before(e, target);
        assert i + 1 < j ==> Before(L[i + 1].entry, e);
        assert !Before(L[i + 1].entry, target);
      }
      if n != null {
        assert n.entry in Contents() && !Before(L[i + 1].entry, target);
      }
    }
  }
}
