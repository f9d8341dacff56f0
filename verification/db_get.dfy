/** DBImpl::Get on the memtables and the tables that it has pinned. */
module DbGet {
  import opened Entries
  import opened Options
  import opened Layers
  import opened MemTables
  import opened VersionSearch

  /** Get finds what the union of the layers shows at the snapshot. */
  method Get(mem: MemTable, imm: MemTable?, levels: seq<seq<Table>>, ghost v: Version, u: UserKey, snapshot: nat) returns (value: Option<Value>)
    requires mem.Valid() && (imm != null ==> imm.Valid()) && Filed(levels) && Contains(v, levels) && Clean(v)
    requires var older := if imm != null then imm.Contents() else {};
      Layered(mem.Contents(), older, v) && Distinct(All(mem.Contents(), older, v))
    ensures value == View(All(mem.Contents(), if imm != null then imm.Contents() else {}, v), u, snapshot)
  {
    ghost var older := if imm != null then imm.Contents() else {};
    var inImm, inVersion := Unknown, Unknown;
    var inMem := mem.Get(u, snapshot);
    if inMem != Unknown {
      value := Meaning(inMem);
    } else {
      if imm != null {
        inImm := imm.Get(u, snapshot);
      }
      if inImm != Unknown {
        value := Meaning(inImm);
      } else {
        inVersion := VersionGet(levels, u, snapshot);
        SearchFindsFirst(v, levels, u, snapshot, inVersion);
        value := Meaning(inVersion);
      }
    }
    SearchIsView(mem.Contents(), older, v, u, snapshot, inMem, inImm, inVersion);
  }
}
