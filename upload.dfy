/**
 * The spreadsheet import: the rooms and issues are replaced by the parsed
 * ones, and the element links of the old rooms are carried over to the
 * new rooms of the same name.
 */
module Upload {
  import opened Common
  import opened Records
  import opened Links
  import opened Backend

  const CHUNK_SIZE := 100
  const PROCESSADO := "PROCESSADO"

  /** The old row's link is backed up: it has a (non-empty) name and a (non-empty) list. */
  predicate BacksUp(s: Sala)
  {
    Truthy(s.ifcExpressId) && s.nome != ""
  }

  /** The backup map after `forEach` over the rows: a later row of the same name overwrites an earlier one. */
  function BackupOf(rows: seq<Sala>): (m: map<string, string>)
  {
    if |rows| == 0 then map[]
    else
      var last := rows[|rows| - 1];
      var m := BackupOf(rows[..|rows| - 1]);
      if BacksUp(last) then m[last.nome := last.ifcExpressId.value] else m
  }

  /** The position of the last row of name `n` that backs up, or -1 when there is none. */
  function LastBacking(rows: seq<Sala>, n: string): (k: int)
    ensures -1 <= k < |rows|
    ensures k >= 0 ==> rows[k].nome == n && BacksUp(rows[k])
    ensures forall j :: k < j < |rows| ==> !(rows[j].nome == n && BacksUp(rows[j]))
  {
    if |rows| == 0 then -1
    else if rows[|rows| - 1].nome == n && BacksUp(rows[|rows| - 1]) then |rows| - 1
    else
      var k := LastBacking(rows[..|rows| - 1], n);
      assert forall j :: 0 <= j < |rows| - 1 ==> rows[..|rows| - 1][j] == rows[j];
      k
  }

  /** The backup holds a name exactly when some row of that name backs up, with the list of the last one. */
  lemma {:induction false} BackupOfLast(rows: seq<Sala>, n: string)
    ensures n in BackupOf(rows) <==> LastBacking(rows, n) >= 0
    ensures n in BackupOf(rows) ==> BackupOf(rows)[n] == rows[LastBacking(rows, n)].ifcExpressId.value
  {
    if |rows| > 0 {
      var init := rows[..|rows| - 1];
      var last := rows[|rows| - 1];
      BackupOfLast(init, n);
      if !(last.nome == n && BacksUp(last)) {
        var k := LastBacking(init, n);
        assert LastBacking(rows, n) == k;
        assert n in BackupOf(rows) <==> n in BackupOf(init);
        if k >= 0 {
          assert rows[k] == init[k];
          assert BackupOf(rows)[n] == BackupOf(init)[n];
        }
      }
    }
  }

  /**
   * A name is backed up exactly when some row of that name backs up, and it
   * maps to the list of the last such row.
   */
  lemma BackupOfCorrect(rows: seq<Sala>, n: string)
    ensures n in BackupOf(rows) <==> exists k :: 0 <= k < |rows| && rows[k].nome == n && BacksUp(rows[k])
    ensures n in BackupOf(rows) ==>
      exists k :: 0 <= k < |rows| && rows[k].nome == n && BacksUp(rows[k])
        && BackupOf(rows)[n] == rows[k].ifcExpressId.value
        && (forall j :: k < j < |rows| ==> !(rows[j].nome == n && BacksUp(rows[j])))
  {
    BackupOfLast(rows, n);
    var k := LastBacking(rows, n);
    if exists i :: 0 <= i < |rows| && rows[i].nome == n && BacksUp(rows[i]) {
      var i :| 0 <= i < |rows| && rows[i].nome == n && BacksUp(rows[i]);
      assert k >= 0;
    }
  }

  /** The backup loop. */
  method BuildBackup(existing: seq<Sala>) returns (m: map<string, string>)
    ensures m == BackupOf(existing)
  {
    m := map[];
    for i := 0 to |existing|
      invariant m == BackupOf(existing[..i])
    {
      assert existing[..i + 1][..i] == existing[..i];
      var s := existing[i];
      if Truthy(s.ifcExpressId) && s.nome != "" {
        m := m[s.nome := s.ifcExpressId.value];
      }
    }
    assert existing[..|existing|] == existing;
  }

  /** A new room with the backed-up list of its name, or no list, whatever the spreadsheet said. */
  function Restored(s: Sala, backup: map<string, string>): (r: Sala)
    ensures r == s.(ifcExpressId := r.ifcExpressId)
    ensures s.nome in backup ==> r.ifcExpressId == Some(backup[s.nome])
    ensures s.nome !in backup ==> r.ifcExpressId.None?
  {
    s.(ifcExpressId := if s.nome in backup then Some(backup[s.nome]) else None)
  }

  function RestoredAll(rows: seq<Sala>, backup: map<string, string>): (r: seq<Sala>)
    ensures |r| == |rows|
    ensures forall k :: 0 <= k < |rows| ==> r[k] == Restored(rows[k], backup)
  {
    seq(|rows|, k requires 0 <= k < |rows| => Restored(rows[k], backup))
  }

  /**
   * A new room whose name had a linked old room gets the list of the last
   * such old room; a new room whose name had none gets no list.
   */
  lemma RestoreKeepsLinks(old_: seq<Sala>, s: Sala)
    ensures (exists k :: 0 <= k < |old_| && old_[k].nome == s.nome && BacksUp(old_[k])) ==>
      exists k :: 0 <= k < |old_| && old_[k].nome == s.nome && BacksUp(old_[k])
        && Restored(s, BackupOf(old_)).ifcExpressId == old_[k].ifcExpressId
        && (forall j :: k < j < |old_| ==> !(old_[j].nome == s.nome && BacksUp(old_[j])))
    ensures (forall k :: 0 <= k < |old_| && old_[k].nome == s.nome ==> !BacksUp(old_[k])) ==>
      Restored(s, BackupOf(old_)).ifcExpressId.None?
  {
    BackupOfCorrect(old_, s.nome);
  }

  /**
   * Restoring keeps the links exclusive when the old table was and the new
   * rooms have distinct names: two new rooms take the lists of two
   * different old rooms.
   */
  lemma RestorePreservesExclusive(old_: seq<Sala>, rows: seq<Sala>, start: int)
    requires Exclusive(old_)
    requires forall i, j :: 0 <= i < j < |rows| ==> rows[i].nome != rows[j].nome
    ensures Exclusive(Numbered(RestoredAll(rows, BackupOf(old_)), start))
  {
    var backup := BackupOf(old_);
    var r := Numbered(RestoredAll(rows, backup), start);
    forall i, j, t | 0 <= i < |r| && 0 <= j < |r| && i != j && t in Ids(r[i].ifcExpressId)
      ensures t !in Ids(r[j].ifcExpressId)
    {
      assert rows[i].nome in backup;
      if rows[j].nome in backup {
        BackupOfCorrect(old_, rows[i].nome);
        BackupOfCorrect(old_, rows[j].nome);
        var ki :| 0 <= ki < |old_| && old_[ki].nome == rows[i].nome && BacksUp(old_[ki])
          && backup[rows[i].nome] == old_[ki].ifcExpressId.value;
        var kj :| 0 <= kj < |old_| && old_[kj].nome == rows[j].nome && BacksUp(old_[kj])
          && backup[rows[j].nome] == old_[kj].ifcExpressId.value;
        assert rows[i].nome != rows[j].nome by {
          if i < j {} else {}
        }
        assert r[i].ifcExpressId == old_[ki].ifcExpressId;
        assert r[j].ifcExpressId == old_[kj].ifcExpressId;
      }
    }
  }

  /**
   * Two new rooms with the same name as a linked old room both receive its
   * list, so the element ids end up owned twice.
   */
  lemma DuplicateNamesShareLinks(old_: seq<Sala>, a: Sala, b: Sala, start: int)
    requires a.nome == b.nome && exists k :: 0 <= k < |old_| && old_[k].nome == a.nome && BacksUp(old_[k])
    ensures !Exclusive(Numbered(RestoredAll([a, b], BackupOf(old_)), start))
  {
    var backup := BackupOf(old_);
    BackupOfCorrect(old_, a.nome);
    var r := Numbered(RestoredAll([a, b], backup), start);
    var col := r[0].ifcExpressId;
    assert col == r[1].ifcExpressId;
    assert Truthy(col);
    IdsAreTokens(col);
    var t := Ids(col)[0];
    assert t in Ids(r[0].ifcExpressId) && t in Ids(r[1].ifcExpressId);
  }

  /** What the import answers. */
  datatype UploadResult = UploadResult(success: bool, totalSalas: nat, totalApontamentos: nat)

  function Min(a: int, b: int): int
  {
    if a < b then a else b
  }

  /**
   * handleExcelUpload on parsed rows: back up the links by room name, empty
   * both tables, insert the rooms (with restored links) and then the issues
   * in chunks of 100, and record the upload.
   */
  method HandleExcelUpload(db: Database, salasData: seq<Sala>, apontamentosData: seq<Apontamento>,
                           fileName: string, fileSize: nat, uploadedBy: int, now: int)
    returns (result: UploadResult)
    requires db.Valid()
    modifies db`salas, db`apontamentos, db`uploads, db`nextSalaId, db`nextApontamentoId
    ensures db.Valid()
    ensures db.salas == Numbered(RestoredAll(salasData, BackupOf(old(db.salas))), old(db.nextSalaId))
    ensures db.apontamentos == Stamped(apontamentosData, old(db.nextApontamentoId), now)
    ensures db.uploads == old(db.uploads)
      + [UploadRecord(fileName, fileSize, uploadedBy, |salasData|, |apontamentosData|, PROCESSADO)]
    ensures result == UploadResult(true, |salasData|, |apontamentosData|)
  {
    var backup := BuildBackup(db.salas);
    db.ClearRoomsAndIssues();
    InsertSalasInChunks(db, salasData, backup);
    InsertApontamentosInChunks(db, apontamentosData, now);
    db.RecordUpload(UploadRecord(fileName, fileSize, uploadedBy, |salasData|, |apontamentosData|, PROCESSADO));
    result := UploadResult(true, |salasData|, |apontamentosData|);
  }

  /** The room loop: chunks of 100, each restored from the backup and inserted in order. */
  method InsertSalasInChunks(db: Database, salasData: seq<Sala>, backup: map<string, string>)
    requires db.Valid() && db.salas == []
    modifies db`salas, db`nextSalaId
    ensures db.Valid()
    ensures db.salas == Numbered(RestoredAll(salasData, backup), old(db.nextSalaId))
    ensures db.nextSalaId == old(db.nextSalaId) + |salasData|
  {
    ghost var firstSala := db.nextSalaId;
    var i := 0;
    while i < |salasData|
      invariant 0 <= i
      invariant db.Valid()
      invariant db.nextSalaId == firstSala + Min(i, |salasData|)
      invariant db.salas == Numbered(RestoredAll(salasData[..Min(i, |salasData|)], backup), firstSala)
      invariant forall k :: 0 <= k < |db.salas| ==> db.salas[k].id < db.nextSalaId
      decreases |salasData| - i
    {
      var end := Min(i + CHUNK_SIZE, |salasData|);
      ChunkStep(salasData, backup, i, end);
      InsertChunk(db, RestoredAll(salasData[..i], backup), RestoredAll(salasData[i..end], backup), firstSala);
      i := i + CHUNK_SIZE;
    }
    assert salasData[..Min(i, |salasData|)] == salasData;
  }

  /** The issue loop: chunks of 100 inserted in order. */
  method InsertApontamentosInChunks(db: Database, apontamentosData: seq<Apontamento>, now: int)
    requires db.apontamentos == []
    modifies db`apontamentos, db`nextApontamentoId
    ensures db.apontamentos == Stamped(apontamentosData, old(db.nextApontamentoId), now)
    ensures db.nextApontamentoId == old(db.nextApontamentoId) + |apontamentosData|
  {
    ghost var firstIssue := db.nextApontamentoId;
    var j := 0;
    while j < |apontamentosData|
      invariant 0 <= j
      invariant db.nextApontamentoId == firstIssue + Min(j, |apontamentosData|)
      invariant db.apontamentos == Stamped(apontamentosData[..Min(j, |apontamentosData|)], firstIssue, now)
      decreases |apontamentosData| - j
    {
      var end := Min(j + CHUNK_SIZE, |apontamentosData|);
      var chunk := apontamentosData[j..end];
      assert apontamentosData[..j] + chunk == apontamentosData[..end];
      InsertIssueChunk(db, apontamentosData[..j], chunk, firstIssue, now);
      j := j + CHUNK_SIZE;
    }
    assert apontamentosData[..Min(j, |apontamentosData|)] == apontamentosData;
  }

  /** One chunk of issues inserted after the issues `done` already inserted. */
  method InsertIssueChunk(db: Database, ghost done: seq<Apontamento>, chunk: seq<Apontamento>, ghost firstIssue: int, now: int)
    requires db.nextApontamentoId == firstIssue + |done|
    requires db.apontamentos == Stamped(done, firstIssue, now)
    modifies db`apontamentos, db`nextApontamentoId
    ensures db.nextApontamentoId == firstIssue + |done| + |chunk|
    ensures db.apontamentos == Stamped(done + chunk, firstIssue, now)
  {
    db.InsertApontamentos(chunk, now);
    StampedAppend(done, chunk, firstIssue, now);
  }

  /** One chunk of restored rooms inserted after the rooms `done` already inserted. */
  method InsertChunk(db: Database, ghost done: seq<Sala>, chunk: seq<Sala>, ghost firstSala: int)
    requires db.Valid()
    requires db.nextSalaId == firstSala + |done|
    requires db.salas == Numbered(done, firstSala)
    requires forall k :: 0 <= k < |db.salas| ==> db.salas[k].id < db.nextSalaId
    modifies db`salas, db`nextSalaId
    ensures db.Valid()
    ensures db.nextSalaId == firstSala + |done| + |chunk|
    ensures db.salas == Numbered(done + chunk, firstSala)
    ensures forall k :: 0 <= k < |db.salas| ==> db.salas[k].id < db.nextSalaId
  {
    db.InsertSalas(chunk);
    NumberedAppend(done, chunk, firstSala);
  }

  /** The restored prefix up to `i`, followed by the restored chunk from `i` to `end`, is the restored prefix up to `end`. */
  lemma ChunkStep(salasData: seq<Sala>, backup: map<string, string>, i: nat, end: nat)
    requires i <= end <= |salasData|
    ensures RestoredAll(salasData[..i], backup) + RestoredAll(salasData[i..end], backup) == RestoredAll(salasData[..end], backup)
  {
    RestoredAllAppend(salasData[..i], salasData[i..end], backup);
    assert salasData[..i] + salasData[i..end] == salasData[..end];
  }

  lemma RestoredAllAppend(a: seq<Sala>, b: seq<Sala>, backup: map<string, string>)
    ensures RestoredAll(a + b, backup) == RestoredAll(a, backup) + RestoredAll(b, backup)
  {
    var l, r := RestoredAll(a + b, backup), RestoredAll(a, backup) + RestoredAll(b, backup);
    assert |l| == |r|;
    forall k | 0 <= k < |l| ensures l[k] == r[k] {
      if k < |a| {
        assert (a + b)[k] == a[k];
      } else {
        assert (a + b)[k] == b[k - |a|];
      }
    }
  }
}
