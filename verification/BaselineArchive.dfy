/**
 * Migration 039: legacy-shaped baseline rows move to an archive table and back. The archive is keyed
 * by the original snapshot id; its surrogate key, timestamp and reason carry nothing back.
 */
module BaselineArchive {
  import opened Prelude
  import opened CashflowBaseline

  datatype Row = Row(
    asOf: Date, data: Data, total: int, hash: Option<string>, correlation: Option<string>, createdAt: Option<int>)

  type Rows = map<Id, Row>

  datatype Db = Db(source: Rows, archive: Option<Rows>)

  datatype Failure = NullCorrelation | NullCreatedAt | DateTaken | AlreadyArchived | ConstraintViolated

  predicate IsLegacy(r: Row) {
    !r.data.BaselineShape?
  }

  function LegacyIds(rows: Rows): set<Id> {
    set i | i in rows && IsLegacy(rows[i])
  }

  function LegacyPart(rows: Rows): Rows {
    map i | i in LegacyIds(rows) :: rows[i]
  }

  predicate UniqueDates(rows: Rows) {
    forall i, j :: i in rows && j in rows && rows[i].asOf == rows[j].asOf ==> i == j
  }

  predicate AllCorrelated(rows: Rows) {
    forall i :: i in rows ==> rows[i].correlation.Some?
  }

  function Upgraded(db: Db): Db {
    Db(db.source - LegacyIds(db.source), Some(LegacyPart(db.source)))
  }

  /** Every archived row has its columns and its date is free. */
  predicate ChecksPass(db: Db)
    requires db.archive.Some?
  {
    forall i :: i in db.archive.value ==>
      && db.archive.value[i].correlation.Some? && db.archive.value[i].createdAt.Some?
      && forall s :: s in db.source ==> db.source[s].asOf != db.archive.value[i].asOf
  }

  /** The first of the three checks an archived row fails. */
  function RowFault(source: Rows, row: Row): Option<Failure> {
    if row.correlation.None? then Some(NullCorrelation)
    else if row.createdAt.None? then Some(NullCreatedAt)
    else if exists s :: s in source && source[s].asOf == row.asOf then Some(DateTaken)
    else None
  }

  predicate Restorable(db: Db) {
    db.archive.Some? ==>
      && ChecksPass(db)
      && db.archive.value.Keys !! db.source.Keys
      && UniqueDates(db.archive.value)
  }

  function Downgraded(db: Db): Db {
    if db.archive.None? then db else Db(db.source + db.archive.value, None)
  }

  /** The two tables, changed in place inside one migration transaction. */
  class SnapshotStore {
    var source: Rows
    var archive: Option<Rows>

    function State(): Db
      reads this
    {
      Db(source, archive)
    }

    method Upgrade() returns (failure: Option<Failure>)
      modifies this
      ensures failure.None? <==> AllCorrelated(old(source)) && old(archive).None?
      ensures failure.Some? ==> failure.value == if AllCorrelated(old(source)) then AlreadyArchived else NullCorrelation
      ensures State() == if failure.None? then Upgraded(old(State())) else old(State())
    {
      if !AllCorrelated(source) { return Some(NullCorrelation); }
      if archive.Some? { return Some(AlreadyArchived); }
      var legacy: Rows := map[];
      var todo := source.Keys;
      while todo != {}
        modifies {}
        invariant todo <= source.Keys
        invariant legacy == map i | i in LegacyIds(source) && i !in todo :: source[i]
        decreases todo
      {
        var i :| i in todo;
        if IsLegacy(source[i]) {
          legacy := legacy[i := source[i]];
        }
        todo := todo - {i};
      }
      assert legacy.Keys == LegacyIds(source);
      assert legacy == LegacyPart(source);
      source, archive := source - legacy.Keys, Some(legacy);
      failure := None;
    }

    /** Refuses with no change, or restores every archived row and drops the archive. */
    method Downgrade() returns (failure: Option<Failure>)
      modifies this
      ensures failure.None? <==> Restorable(old(State()))
      ensures failure == Some(ConstraintViolated) <==> old(archive).Some? && ChecksPass(old(State())) && !Restorable(old(State()))
      ensures failure.Some? && failure.value != ConstraintViolated ==>
                exists i :: i in old(archive).value && RowFault(old(source), old(archive).value[i]) == failure
      ensures State() == if failure.None? then Downgraded(old(State())) else old(State())
    {
      if archive.None? { return None; }
      var rows := archive.value;
      var todo := rows.Keys;
      while todo != {}
        modifies {}
        invariant todo <= rows.Keys
        invariant forall i :: i in rows && i !in todo ==>
                    && rows[i].correlation.Some? && rows[i].createdAt.Some?
                    && forall s :: s in source ==> source[s].asOf != rows[i].asOf
        decreases todo
      {
        var i :| i in todo;
        if rows[i].correlation.None? { return Some(NullCorrelation); }
        if rows[i].createdAt.None? { return Some(NullCreatedAt); }
        if exists s :: s in source && source[s].asOf == rows[i].asOf { return Some(DateTaken); }
        todo := todo - {i};
      }
      if rows.Keys * source.Keys != {} || !UniqueDates(rows) {
        return Some(ConstraintViolated);
      }
      source, archive := source + rows, None;
      failure := None;
    }
  }

  /** The upgrade sorts the rows by shape, altering none: each is in exactly one table afterwards. */
  lemma UpgradeSortsByShape(db: Db, i: Id)
    ensures i in Upgraded(db).source <==> i in db.source && db.source[i].data.BaselineShape?
    ensures i in Upgraded(db).archive.value <==> i in db.source && !db.source[i].data.BaselineShape?
    ensures i in Upgraded(db).source ==> Upgraded(db).source[i] == db.source[i]
    ensures i in Upgraded(db).archive.value ==> Upgraded(db).archive.value[i] == db.source[i]
  {
  }

  /** Splitting a table and putting the parts together gives it back. */
  lemma PartsRejoin(rows: Rows)
    ensures (rows - LegacyIds(rows)) + LegacyPart(rows) == rows
  {
  }

  /**
   * Downgrade straight after upgrade: it goes through exactly when every legacy row has a creation
   * time, and then restores the database to the letter.
   */
  lemma DowngradeUndoesUpgrade(db: Db)
    requires db.archive.None? && UniqueDates(db.source) && AllCorrelated(db.source)
    ensures Restorable(Upgraded(db)) <==> forall i :: i in LegacyIds(db.source) ==> db.source[i].createdAt.Some?
    ensures Downgraded(Upgraded(db)) == db
  {
    PartsRejoin(db.source);
    var up := Upgraded(db);
    if forall i :: i in LegacyIds(db.source) ==> db.source[i].createdAt.Some? {
      assert ChecksPass(up);
      assert up.archive.value.Keys !! up.source.Keys;
    } else {
      var i :| i in LegacyIds(db.source) && db.source[i].createdAt.None?;
      assert i in up.archive.value && up.archive.value[i].createdAt.None?;
    }
  }

  /** What the baseline service adds to an upgraded table: new rows of baseline shape under new dates. */
  predicate AddedRows(added: Rows, up: Db) {
    && added.Keys !! up.source.Keys
    && UniqueDates(up.source + added)
    && forall i :: i in added ==> !IsLegacy(added[i])
  }

  /**
   * With baselines written in between, downgrade is refused exactly when a new row took an archived
   * row's date or its id, or a legacy row had no creation time; otherwise the old and new rows are
   * all there, dates still unique.
   */
  lemma DowngradeAfterWrites(db: Db, added: Rows)
    requires db.archive.None? && UniqueDates(db.source) && AllCorrelated(db.source)
    requires AddedRows(added, Upgraded(db))
    ensures var later := Db(Upgraded(db).source + added, Upgraded(db).archive);
            var taken := exists i, s :: i in LegacyIds(db.source) && s in added && (s == i || added[s].asOf == db.source[i].asOf);
            && (Restorable(later) <==> !taken && forall i :: i in LegacyIds(db.source) ==> db.source[i].createdAt.Some?)
            && (Restorable(later) ==>
                  && Downgraded(later) == Db(db.source + added, None)
                  && db.source.Keys !! added.Keys
                  && UniqueDates(db.source + added))
  {
    var up := Upgraded(db);
    var later := Db(up.source + added, up.archive);
    var legacy := up.archive.value;
    PartsRejoin(db.source);
    assert legacy.Keys == LegacyIds(db.source);
    if Restorable(later) {
      forall i, s | i in LegacyIds(db.source) && s in added ensures s != i && added[s].asOf != db.source[i].asOf {
        assert i in legacy && s in later.source;
      }
      RejoinedRows(db.source, added);
    } else if forall i :: i in LegacyIds(db.source) ==> db.source[i].createdAt.Some? {
      RefusalHasACause(db, added);
    }
  }

  lemma RejoinedRows(rows: Rows, added: Rows)
    requires UniqueDates(rows) && added.Keys !! (rows - LegacyIds(rows)).Keys && UniqueDates((rows - LegacyIds(rows)) + added)
    requires forall i, s :: i in LegacyIds(rows) && s in added ==> s != i && added[s].asOf != rows[i].asOf
    ensures (rows - LegacyIds(rows)) + added + LegacyPart(rows) == rows + added
    ensures rows.Keys !! added.Keys && UniqueDates(rows + added)
  {
  }

  lemma RefusalHasACause(db: Db, added: Rows)
    requires db.archive.None? && UniqueDates(db.source) && AllCorrelated(db.source)
    requires AddedRows(added, Upgraded(db))
    requires forall i :: i in LegacyIds(db.source) ==> db.source[i].createdAt.Some?
    requires !Restorable(Db(Upgraded(db).source + added, Upgraded(db).archive))
    ensures exists i, s :: i in LegacyIds(db.source) && s in added && (s == i || added[s].asOf == db.source[i].asOf)
  {
  }

  /** The snapshots the service sees in the source table. */
  ghost predicate Serves(table: seq<Snapshot>, rows: Rows) {
    forall s :: s in table ==> exists i :: i in rows && rows[i].asOf == s.asOf && rows[i].data == s.data && s.total == Some(rows[i].total)
  }

  lemma {:induction false} NoLegacyRows(table: seq<Snapshot>, calls: seq<Call>, hash: Hash)
    requires forall s :: s in table ==> s.data.BaselineShape?
    ensures forall s :: s in RunCalls(table, calls, hash) ==> s.data.BaselineShape?
    decreases |calls|
  {
    if calls == [] {
    } else {
      var table' := Create(table, calls[0].inputs, calls[0].asOf, calls[0].correlation, hash).1;
      assert forall s :: s in table' ==> s.data.BaselineShape?;
      NoLegacyRows(table', calls[1..], hash);
    }
  }

  /** After the upgrade no run of the service ever reports the legacy-shape conflict. */
  lemma LegacyConflictUnreachable(db: Db, table: seq<Snapshot>, calls: seq<Call>, hash: Hash, c: Call)
    requires Serves(table, Upgraded(db).source)
    ensures Create(RunCalls(table, calls, hash), c.inputs, c.asOf, c.correlation, hash).0 != Err(LegacyPayload)
  {
    forall s | s in table ensures s.data.BaselineShape? {
      var i :| i in Upgraded(db).source && Upgraded(db).source[i].data == s.data;
    }
    NoLegacyRows(table, calls, hash);
    NoLegacyConflict(RunCalls(table, calls, hash), c, hash);
  }

  lemma NoLegacyConflict(table: seq<Snapshot>, c: Call, hash: Hash)
    requires forall s :: s in table ==> s.data.BaselineShape?
    ensures Create(table, c.inputs, c.asOf, c.correlation, hash).0 != Err(LegacyPayload)
  {
    FindSpec(table, c.asOf);
  }
}
