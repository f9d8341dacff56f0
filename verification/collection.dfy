/** What DeleteObsoleteFiles leaves on the disk is what the state machine says that a collection leaves: nothing that a
    reader, a writer in progress or a recovery may still want is gone, and everything else is. */
module Collection {
  import opened Stores
  import opened Durability
  import R = Recovery

  ghost predicate HasLog(files: set<R.File>, n: nat) {
    R.File(R.LogFile, n) in files
  }

  ghost predicate HasTable(files: set<R.File>, n: nat) {
    R.File(R.TableFile, n) in files
  }

  /** The logs and tables of the directory are those of the store, but for tables that are being written. */
  ghost predicate OnDisk(files: set<R.File>, s: Store) {
    && (forall n {:trigger HasLog(files, n)} :: HasLog(files, n) <==> n in s.logs)
    && forall n {:trigger HasTable(files, n)} :: (n in s.tables ==> HasTable(files, n)) && (HasTable(files, n) ==> n in s.tables || n in s.pending)
  }

  /** The versions on the list of VersionSet are those that someone has pinned. */
  ghost predicate Listed(versions: seq<set<nat>>, s: Store) {
    forall v :: v in s.live <==> v in versions
  }

  lemma {:induction false} InAllOf(versions: seq<set<nat>>, n: nat)
    ensures n in R.AllOf(versions) <==> exists v :: v in versions && n in v
  {
    if versions != [] {
      var last := |versions| - 1;
      InAllOf(versions[..last], n);
      assert versions == versions[..last] + [versions[last]];
    }
  }

  /** PrevLogNumber is zero since the manifest knows of one log only. */
  ghost predicate Left(s: Store, versions: seq<set<nat>>, manifest: nat, before: set<R.File>, after: set<R.File>) {
    forall f :: f in after <==> f in before && R.Needed(f, s.pending + R.AllOf(versions), s.manifestLog, 0, manifest)
  }

  /** Exactly the logs stay that the manifest has not done away with, the current one among them, and exactly the
      tables that are in a pinned version or are being written; the current manifest stays, and all that is not the
      engine's. The store is then what the state machine says. */
  lemma CollectsGarbage(s: Store, versions: seq<set<nat>>, manifest: nat, before: set<R.File>, after: set<R.File>)
    requires StoreFine(s) && CanHappen(s, CollectGarbage)
    requires OnDisk(before, s) && Listed(versions, s) && Left(s, versions, manifest, before, after)
    ensures OnDisk(after, Happens(s, CollectGarbage))
    ensures HasLog(after, s.logNumber) && forall n {:trigger HasLog(after, n)} :: HasLog(after, n) <==> n in s.logs && s.manifestLog <= n
    ensures forall n {:trigger HasTable(after, n)} :: HasTable(after, n) <==> HasTable(before, n) && (n in s.pending || Pinned(s, n))
    ensures forall n :: Pinned(s, n) ==> HasTable(after, n)
    ensures forall n :: R.File(R.TempFile, n) in after <==> R.File(R.TempFile, n) in before && (n in s.pending || Pinned(s, n))
    ensures forall n :: R.File(R.DescriptorFile, n) in after <==> R.File(R.DescriptorFile, n) in before && manifest <= n
    ensures forall f :: f in before && f.kind !in {R.LogFile, R.TableFile, R.DescriptorFile, R.TempFile} ==> f in after
  {
    LogsLeft(s, versions, manifest, before, after);
    TablesLeft(s, versions, manifest, before, after);
    CollectedIs(s, Happens(s, CollectGarbage), before, after);
  }

  /** A version that someone has pinned has table n. */
  ghost predicate Pinned(s: Store, n: nat) {
    exists v :: v in s.live && n in v
  }

  lemma LogsLeft(s: Store, versions: seq<set<nat>>, manifest: nat, before: set<R.File>, after: set<R.File>)
    requires LogsOk(s) && OnDisk(before, s) && Left(s, versions, manifest, before, after)
    ensures forall n {:trigger HasLog(after, n)} :: HasLog(after, n) <==> n in s.logs && s.manifestLog <= n
  {
    forall n: nat ensures HasLog(after, n) <==> n in s.logs && s.manifestLog <= n {
      assert HasLog(before, n) <==> n in s.logs;
    }
  }

  lemma TablesLeft(s: Store, versions: seq<set<nat>>, manifest: nat, before: set<R.File>, after: set<R.File>)
    requires TablesOk(s) && OnDisk(before, s) && Listed(versions, s) && Left(s, versions, manifest, before, after)
    ensures forall n {:trigger HasTable(after, n)} :: HasTable(after, n) <==> HasTable(before, n) && (n in s.pending || Pinned(s, n))
    ensures forall n :: Pinned(s, n) ==> HasTable(after, n)
    ensures forall n :: R.File(R.TempFile, n) in after <==> R.File(R.TempFile, n) in before && (n in s.pending || Pinned(s, n))
  {
    forall n: nat ensures n in R.AllOf(versions) <==> Pinned(s, n) {
      InAllOf(versions, n);
    }
    forall n: nat | Pinned(s, n) ensures HasTable(before, n) {
    }
  }

  lemma CollectedIs(s: Store, t: Store, before: set<R.File>, after: set<R.File>)
    requires t == Collected(s) && OnDisk(before, s)
    requires forall n {:trigger HasLog(after, n)} :: HasLog(after, n) <==> n in s.logs && s.manifestLog <= n
    requires forall n {:trigger HasTable(after, n)} :: HasTable(after, n) <==> HasTable(before, n) && (n in s.pending || Pinned(s, n))
    ensures OnDisk(after, t)
  {
    forall n: nat ensures n in LiveTables(s) <==> n in s.pending || Pinned(s, n) {
    }
  }
}
