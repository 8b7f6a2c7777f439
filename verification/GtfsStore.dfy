/** The GTFS import as it runs: rows are written inside a transaction that replaces the store's tables on commit. */
module GtfsStore {
  import opened Wrappers
  import opened Folds
  import opened EntityIndex
  import opened GtfsImport

  const MAX_ARCHIVE_BYTES := 300 * 1024 * 1024
  const MAX_MEMBER_BYTES := 1024 * 1024 * 1024
  const MAX_TOTAL_BYTES := 2 * 1024 * 1024 * 1024

  /** An entry of the archive; `file` is absent when its base name is none of the eight. */
  datatype Entry = Entry(file: Option<File>, size: nat, member: Member)

  predicate Wanted(entries: seq<Entry>, i: nat, file: File) {
    i < |entries| && entries[i].file == Some(file)
  }

  function WantedBytes(entries: seq<Entry>, n: nat): nat
    requires n <= |entries|
  {
    if n == 0 then 0 else WantedBytes(entries, n - 1) + if entries[n - 1].file.Some? then entries[n - 1].size else 0
  }

  lemma {:induction false} WantedBytesGrow(entries: seq<Entry>, m: nat, n: nat)
    requires m <= n <= |entries|
    ensures WantedBytes(entries, m) <= WantedBytes(entries, n)
  {
    if m < n {
      WantedBytesGrow(entries, m, n - 1);
    }
  }

  ghost predicate NoDuplicate(entries: seq<Entry>, n: nat)
    requires n <= |entries|
  {
    forall i, j | 0 <= i < j < n && entries[i].file.Some? :: entries[i].file != entries[j].file
  }

  ghost predicate MembersFit(entries: seq<Entry>, n: nat)
    requires n <= |entries|
  {
    forall i | 0 <= i < n && entries[i].file.Some? :: entries[i].size <= MAX_MEMBER_BYTES
  }

  /** The entries that selectGTFSMembers accepts. */
  ghost predicate Selectable(entries: seq<Entry>, n: nat)
    requires n <= |entries|
  {
    NoDuplicate(entries, n) && MembersFit(entries, n) && WantedBytes(entries, n) <= MAX_TOTAL_BYTES
  }

  /** The archive holds exactly the wanted ones of the first `n` entries. */
  ghost predicate Selects(entries: seq<Entry>, n: nat, archive: Archive)
    requires n <= |entries|
  {
    && (forall i | 0 <= i < n && entries[i].file.Some? ::
          entries[i].file.value in archive && archive[entries[i].file.value] == entries[i].member)
    && (forall file | file in archive :: exists i: nat :: i < n && Wanted(entries, i, file))
  }

  /** The archive is what the entries select, and nothing else is. */
  ghost predicate OnlySelection(entries: seq<Entry>, archive: Archive) {
    Selects(entries, |entries|, archive) && forall other | Selects(entries, |entries|, other) :: other == archive
  }

  /** What is selected is determined by the entries. */
  lemma SelectsOne(entries: seq<Entry>, a: Archive, b: Archive)
    requires Selects(entries, |entries|, a) && Selects(entries, |entries|, b)
    ensures a == b
  {
    forall file ensures file in a <==> file in b {
    }
    forall file | file in a ensures a[file] == b[file] {
      var i: nat :| i < |entries| && Wanted(entries, i, file);
    }
  }

  method SelectMembers(entries: seq<Entry>) returns (selected: Option<Archive>)
    ensures selected.Some? <==> Selectable(entries, |entries|)
    ensures selected.Some? ==> OnlySelection(entries, selected.value)
  {
    var archive: Archive := map[];
    var total := 0;
    for n := 0 to |entries|
      invariant total == WantedBytes(entries, n)
      invariant Selectable(entries, n) && Selects(entries, n, archive)
    {
      var entry := entries[n];
      if entry.file.Some? {
        var file := entry.file.value;
        if file in archive {
          var i: nat :| i < n && Wanted(entries, i, file);
          assert entries[i].file == entries[n].file;
          return None;
        }
        if entry.size > MAX_MEMBER_BYTES {
          return None;
        }
        total := total + entry.size;
        if total > MAX_TOTAL_BYTES {
          WantedBytesGrow(entries, n + 1, |entries|);
          return None;
        }
        archive := archive[file := entry.member];
        assert Wanted(entries, n, file);
      }
    }
    forall other | Selects(entries, |entries|, other) ensures other == archive {
      SelectsOne(entries, other, archive);
    }
    selected := Some(archive);
  }

  /** The uncommitted tables of a running import. */
  class Transaction {
    const index: EntityTables
    var stops: map<string, Stop>
    var others: map<(File, seq<string>), Record>
    var imports: seq<(string, string)>

    function Value(): Tables
      reads this, index
    {
      Tables(index.Value(), stops, others, imports)
    }

    constructor (t: Tables)
      ensures Value() == t && fresh(index)
    {
      index := new EntityTables(t.index);
      stops, others, imports := t.stops, t.others, t.imports;
    }

    method Clear()
      modifies this, index
      ensures Value() == Cleared(old(Value()))
    {
      index.DeleteEntitiesBySource(SOURCE);
      stops, others := map[], map[];
    }

    /** One row; `refused` stands for a failing statement. */
    method InsertRow(hash: string -> int, parseFloat: string -> Option<real>, file: File, row: Row, refused: bool)
        returns (ok: bool)
      modifies this, index
      ensures ok <==> !refused && GtfsImport.InsertRow(hash, parseFloat, old(Value()), file, row).Some?
      ensures ok ==> Value() == GtfsImport.InsertRow(hash, parseFloat, old(Value()), file, row).value
    {
      if file == Stops {
        var parsed := ParseStop(parseFloat, row);
        if parsed.None? || refused {
          return false;
        }
        var (id, stop) := parsed.value;
        stops := stops[id := stop];
        var error := index.UpsertEntity(hash, PlaceOf(id, stop), SOURCE, id, []);
        ok := error.None?;
      } else {
        var key := KeyOf(file, row);
        if key.None? || refused {
          return false;
        }
        others := others[(file, key.value) := RecordOf(file, row)];
        ok := true;
      }
    }

    /** Row `n` of a file, after the rows before it. */
    method InsertNext(hash: string -> int, parseFloat: string -> Option<real>, file: File, ghost first: Tables,
        rows: seq<Row>, n: nat, refused: bool) returns (ok: bool)
      requires n < |rows| && InsertRows(hash, parseFloat, first, file, rows, n) == Some(Value())
      modifies this, index
      ensures ok ==> InsertRows(hash, parseFloat, first, file, rows, n + 1) == Some(Value())
      ensures !ok ==> refused || InsertRows(hash, parseFloat, first, file, rows, |rows|).None?
    {
      ok := InsertRow(hash, parseFloat, file, rows[n], refused);
      if !ok && !refused {
        FoldStops(RowStep(hash, parseFloat, file), first, rows, n + 1, |rows|);
      }
    }

    method ImportFile(hash: string -> int, parseFloat: string -> Option<real>, file: File, member: Member,
        refused: nat -> bool) returns (count: Option<nat>)
      modifies this, index
      ensures count.Some? ==>
        && count.value == |member.rows| && !member.fault
        && InsertRows(hash, parseFloat, old(Value()), file, member.rows, |member.rows|) == Some(Value())
      ensures count.None? ==>
        member.fault || InsertRows(hash, parseFloat, old(Value()), file, member.rows, |member.rows|).None?
            || Interrupted(refused)
    {
      ghost var first := Value();
      for n := 0 to |member.rows|
        invariant first == old(Value()) && InsertRows(hash, parseFloat, first, file, member.rows, n) == Some(Value())
      {
        var ok := InsertNext(hash, parseFloat, file, first, member.rows, n, refused(n));
        if !ok {
          assert refused(n) ==> Interrupted(refused);
          return None;
        }
      }
      if member.fault {
        return None;
      }
      count := Some(|member.rows|);
    }
  }

  ghost predicate Interrupted(refused: nat -> bool) {
    exists n :: refused(n)
  }

  /** The world outside the archive: statements that the database refuses, the file's digest, the commit. */
  datatype World = World(refused: (File, nat) -> bool, digest: Option<string>, commits: bool)

  /** Nothing outside the archive goes wrong. */
  ghost predicate Calm(world: World) {
    (forall file, n :: !world.refused(file, n)) && world.digest.Some? && world.commits
  }

  class Store {
    const hash: string -> int
    const parseFloat: string -> Option<real>
    var committed: Tables

    constructor (hash: string -> int, parseFloat: string -> Option<real>, tables: Tables)
      ensures this.hash == hash && this.parseFloat == parseFloat && committed == tables
    {
      this.hash, this.parseFloat, committed := hash, parseFloat, tables;
    }

    /** Fills a transaction from the eight files, in order. */
    method ImportFiles(tx: Transaction, archive: Archive, world: World) returns (counts: Option<map<File, nat>>)
      modifies tx, tx.index
      ensures counts.Some? ==> InsertFiles(hash, parseFloat, old(tx.Value()), archive, |FILES|) == Some(tx.Value())
      ensures counts.Some? ==> forall file :: file in counts.value && counts.value[file] == Count(archive, file)
      ensures counts.None? ==> InsertFiles(hash, parseFloat, old(tx.Value()), archive, |FILES|).None? || !Calm(world)
    {
      var found: map<File, nat> := map[];
      for n := 0 to |FILES|
        invariant InsertFiles(hash, parseFloat, old(tx.Value()), archive, n) == Some(tx.Value())
        invariant forall i | 0 <= i < n :: FILES[i] in found && found[FILES[i]] == Count(archive, FILES[i])
      {
        var file := FILES[n];
        if file !in archive {
          found := found[file := 0];
        } else {
          ghost var next := InsertFile(hash, parseFloat, tx.Value(), archive, file);
          var count := tx.ImportFile(hash, parseFloat, file, archive[file], (row: nat) => world.refused(file, row));
          if count.None? {
            if next.None? {
              FoldStops(FileStep(hash, parseFloat, archive), old(tx.Value()), FILES, n + 1, |FILES|);
            }
            return None;
          }
          found := found[file := count.value];
        }
      }
      forall file: File ensures file in found && found[file] == Count(archive, file) {
        FileListed(file);
      }
      counts := Some(found);
    }

    /** One transaction over a selected archive. */
    method Replace(archive: Archive, source: string, world: World) returns (counts: Option<map<File, nat>>)
      modifies this`committed
      ensures counts.None? ==> committed == old(committed)
      ensures counts.Some? ==>
          world.digest.Some? && Imported(hash, parseFloat, old(committed), archive, (source, world.digest.value))
          == Some(committed)
      ensures counts.Some? ==> forall file :: file in counts.value && counts.value[file] == Count(archive, file)
      ensures counts.None? && Calm(world) ==>
          Imported(hash, parseFloat, committed, archive, (source, world.digest.value)) == None
    {
      if !HasMembers(archive) {
        return None;
      }
      var tx := new Transaction(committed);
      tx.Clear();
      counts := ImportFiles(tx, archive, world);
      if counts.None? || !HasRows(archive) || world.digest.None? || !world.commits {
        return None;
      }
      tx.imports := tx.imports + [(source, world.digest.value)];
      committed := tx.Value();
    }

    /** All or nothing: the store's tables become exactly what the archive describes, or stay as they are. */
    method ImportGTFS(source: string, size: nat, listing: Option<seq<Entry>>, world: World)
        returns (counts: Option<map<File, nat>>)
      modifies this`committed
      ensures counts.None? ==> committed == old(committed)
      ensures counts.Some? ==>
        && listing.Some? && size <= MAX_ARCHIVE_BYTES && world.digest.Some?
        && exists archive ::
             && OnlySelection(listing.value, archive)
             && Imported(hash, parseFloat, old(committed), archive, (source, world.digest.value)) == Some(committed)
             && forall file :: file in counts.value && counts.value[file] == Count(archive, file)
      ensures
        (counts.None? && Calm(world) && listing.Some? && size <= MAX_ARCHIVE_BYTES
         && Selectable(listing.value, |listing.value|)) ==>
        exists archive ::
          && OnlySelection(listing.value, archive)
          && Imported(hash, parseFloat, committed, archive, (source, world.digest.value)) == None
    {
      if size > MAX_ARCHIVE_BYTES || listing.None? {
        return None;
      }
      var selected := SelectMembers(listing.value);
      if selected.None? {
        return None;
      }
      counts := Replace(selected.value, source, world);
    }
  }
}
