/**
 * The server's data-access layer: the database as an object whose tables
 * are sequences of rows, and the writes of `server/db.ts` as methods that
 * reassign them (linking model elements to rooms, room status updates,
 * issue inserts, as-built delivery upserts with their history log).
 */
module Backend {
  import opened Common
  import opened Text
  import opened Records
  import opened Links

  /** `select ... where id = ? limit 1` on the rooms. */
  function FindRoom(rows: seq<Sala>, id: int): (r: Option<Sala>)
    ensures r.Some? ==> r.value in rows && r.value.id == id
    ensures r.None? <==> !HasRoom(rows, id)
  {
    if |rows| == 0 then None
    else if rows[0].id == id then Some(rows[0])
    else
      var r := FindRoom(rows[1..], id);
      assert HasRoom(rows[1..], id) ==> HasRoom(rows, id) by {
        if HasRoom(rows[1..], id) {
          var k :| 0 <= k < |rows[1..]| && rows[1..][k].id == id;
          assert rows[k + 1].id == id;
        }
      }
      r
  }

  /** With unique ids the lookup finds the one row with that id. */
  lemma FindUniqueRoom(rows: seq<Sala>, id: int, k: nat)
    requires UniqueIds(rows) && k < |rows| && rows[k].id == id
    ensures FindRoom(rows, id) == Some(rows[k])
  {
    var r := FindRoom(rows, id).value;
    var j :| 0 <= j < |rows| && rows[j] == r;
  }

  /** `update salas set { ...data, updatedAt } where id = ?` (db updateSalaStatus). */
  function PatchRows(rows: seq<Sala>, id: int, data: SalaPatch, now: int): (r: seq<Sala>)
    ensures |r| == |rows|
    ensures forall k :: 0 <= k < |rows| ==> r[k].id == rows[k].id
  {
    seq(|rows|, k requires 0 <= k < |rows| =>
      if rows[k].id == id then SetColumns(rows[k], data).(updatedAt := now) else rows[k])
  }

  /**
   * The rows whose id (read by `idOf`) is `id`, in table order: what
   * `returning()` gives back after an update by id.
   */
  function WithId<T(==, !new)>(rows: seq<T>, idOf: T -> int, id: int): (r: seq<T>)
    ensures forall x :: x in r <==> x in rows && idOf(x) == id
  {
    if |rows| == 0 then []
    else (if idOf(rows[0]) == id then [rows[0]] else []) + WithId(rows[1..], idOf, id)
  }

  function RoomId(s: Sala): int { s.id }

  // ---------------------------------------------------------------------
  // As-built deliveries
  // ---------------------------------------------------------------------

  /** What the delivery form sends; `None` = field not sent, `Some(None)` = sent as null. */
  datatype EntregaInput = EntregaInput(
    id: Option<int>,
    nomeDocumento: string,
    tipoDocumento: string,
    edificacao: string,
    disciplina: string,
    empresaResponsavel: string,
    dataPrevista: When,
    dataRecebimento: Option<Option<When>>,
    status: string,
    descricao: Option<Option<string>>,
    comentario: Option<string>)

  const STATUS_ALTERADO := "STATUS_ALTERADO"
  const CRIADO := "CRIADO"
  const COMENTARIO := "COMENTARIO"
  const USUARIO := "Usuário"

  /** A non-empty date string becomes the date at noon of that day; anything else is kept. */
  function AtNoon(w: When, parse: string -> int): (r: When)
    ensures w.Raw? && w.text != "" ==> r.Stamp?
    ensures !(w.Raw? && w.text != "") ==> r == w
  {
    if w.Raw? && w.text != "" then Stamp(parse(w.text + "T12:00:00")) else w
  }

  /** The input with both date fields converted. */
  function WithDates(v: EntregaInput, parse: string -> int): EntregaInput
  {
    v.(dataPrevista := AtNoon(v.dataPrevista, parse),
       dataRecebimento :=
         if v.dataRecebimento.Some? && v.dataRecebimento.value.Some?
         then Some(Some(AtNoon(v.dataRecebimento.value.value, parse)))
         else v.dataRecebimento)
  }

  /** `update entregasAsBuilt set { ...values, updatedAt }` on one row. */
  function UpdatedEntrega(e: Entrega, v: EntregaInput, now: int): Entrega
  {
    e.(nomeDocumento := v.nomeDocumento,
       tipoDocumento := v.tipoDocumento,
       edificacao := v.edificacao,
       disciplina := v.disciplina,
       empresaResponsavel := v.empresaResponsavel,
       dataPrevista := v.dataPrevista,
       dataRecebimento := if v.dataRecebimento.Some? then v.dataRecebimento.value else e.dataRecebimento,
       status := v.status,
       descricao := if v.descricao.Some? then v.descricao.value else e.descricao,
       updatedAt := now)
  }

  /** `insert into entregasAsBuilt values { ...values }`: fields not sent are null. */
  function NewEntrega(id: int, v: EntregaInput, now: int): Entrega
  {
    Entrega(id, v.nomeDocumento, v.tipoDocumento, v.edificacao, v.disciplina, v.empresaResponsavel,
      v.dataPrevista,
      if v.dataRecebimento.Some? then v.dataRecebimento.value else None,
      v.status,
      if v.descricao.Some? then v.descricao.value else None,
      now)
  }

  function FindEntrega(rows: seq<Entrega>, id: int): (r: Option<Entrega>)
    ensures r.Some? ==> r.value in rows && r.value.id == id
    ensures r.None? ==> forall x :: x in rows ==> x.id != id
  {
    if |rows| == 0 then None
    else if rows[0].id == id then Some(rows[0])
    else FindEntrega(rows[1..], id)
  }

  function UpdateEntregas(rows: seq<Entrega>, id: int, v: EntregaInput, now: int): (r: seq<Entrega>)
    ensures |r| == |rows|
  {
    seq(|rows|, k requires 0 <= k < |rows| =>
      if rows[k].id == id then UpdatedEntrega(rows[k], v, now) else rows[k])
  }

  function EntregaId(e: Entrega): int { e.id }

  /** The status of the stored delivery, or null when there is none. */
  function OldStatus(rows: seq<Entrega>, id: int): Option<string>
  {
    var current := FindEntrega(rows, id);
    if current.Some? then Some(current.value.status) else None
  }

  /** The history lines one upsert writes, in order (`newId` is the id an insert receives). */
  function UpsertHistory(rows: seq<Entrega>, v: EntregaInput, newId: int, now: int): seq<Historico>
  {
    var first :=
      if NumTruthy(v.id) then
        var previous := OldStatus(rows, v.id.value);
        if Truthy(previous) && v.status != "" && previous.value != v.status
        then [Historico(v.id.value, STATUS_ALTERADO,
                "Status alterado de \"" + previous.value + "\" para \"" + v.status + "\"", USUARIO, now)]
        else []
      else [Historico(newId, CRIADO, "Entrega criada: " + v.nomeDocumento, USUARIO, now)];
    first + (if Truthy(v.comentario) && NumTruthy(v.id) && FindEntrega(rows, v.id.value).Some?
             then [Historico(v.id.value, COMENTARIO, v.comentario.value, USUARIO, now)] else [])
  }

  /**
   * A comment sent with an id no delivery has: the history row's `entregaId`
   * references `entregasAsBuilt.id`, so its insert is refused and the call throws.
   */
  predicate CommentRejected(rows: seq<Entrega>, v: EntregaInput)
  {
    Truthy(v.comentario) && NumTruthy(v.id) && FindEntrega(rows, v.id.value).None?
  }

  /** An update logs a status change exactly when both statuses are set and differ. */
  lemma StatusChangeLoggedIff(rows: seq<Entrega>, v: EntregaInput, newId: int, now: int)
    requires NumTruthy(v.id)
    ensures (exists h :: h in UpsertHistory(rows, v, newId, now) && h.acao == STATUS_ALTERADO)
      <==> (Truthy(OldStatus(rows, v.id.value)) && v.status != "" && OldStatus(rows, v.id.value).value != v.status)
  {
    var h := UpsertHistory(rows, v, newId, now);
    if Truthy(OldStatus(rows, v.id.value)) && v.status != "" && OldStatus(rows, v.id.value).value != v.status {
      assert h[0].acao == STATUS_ALTERADO;
    }
  }

  /** A creation logs one CRIADO line for the new row and nothing else; a comment sent with it is not logged. */
  lemma CreationLogsOnce(rows: seq<Entrega>, v: EntregaInput, newId: int, now: int)
    requires !NumTruthy(v.id)
    ensures UpsertHistory(rows, v, newId, now) == [Historico(newId, CRIADO, "Entrega criada: " + v.nomeDocumento, USUARIO, now)]
  {
  }

  /**
   * A comment is logged, as the last line and against the sent id, exactly
   * when it is non-empty and an id of a stored delivery was sent; with an
   * id no delivery has, nothing at all is logged.
   */
  lemma CommentLoggedIff(rows: seq<Entrega>, v: EntregaInput, newId: int, now: int)
    ensures var h := UpsertHistory(rows, v, newId, now);
      (|h| > 0 && h[|h| - 1].acao == COMENTARIO)
        <==> (Truthy(v.comentario) && NumTruthy(v.id) && FindEntrega(rows, v.id.value).Some?)
    ensures var h := UpsertHistory(rows, v, newId, now);
      Truthy(v.comentario) && NumTruthy(v.id) && FindEntrega(rows, v.id.value).Some? ==>
        h[|h| - 1] == Historico(v.id.value, COMENTARIO, v.comentario.value, USUARIO, now)
    ensures CommentRejected(rows, v) ==> UpsertHistory(rows, v, newId, now) == []
  {
  }

  /** Updating an id no delivery has leaves the table as it was. */
  lemma UpdateMissingIsNoOp(rows: seq<Entrega>, id: int, v: EntregaInput, now: int)
    requires FindEntrega(rows, id).None?
    ensures UpdateEntregas(rows, id, v, now) == rows
  {
    forall k | 0 <= k < |rows| ensures rows[k].id != id {
      assert rows[k] in rows;
    }
  }

  /** Rows as inserted: the serial id counts up from `start`. */
  function Numbered(rows: seq<Sala>, start: int): (r: seq<Sala>)
    ensures |r| == |rows|
    ensures forall k :: 0 <= k < |rows| ==> r[k] == rows[k].(id := start + k)
  {
    seq(|rows|, k requires 0 <= k < |rows| => rows[k].(id := start + k))
  }

  lemma NumberedAppend(a: seq<Sala>, b: seq<Sala>, start: int)
    ensures Numbered(a + b, start) == Numbered(a, start) + Numbered(b, start + |a|)
  {
  }

  /** Issues as inserted: serial ids from `start`, created now. */
  function Stamped(rows: seq<Apontamento>, start: int, now: int): (r: seq<Apontamento>)
    ensures |r| == |rows|
    ensures forall k :: 0 <= k < |rows| ==> r[k] == rows[k].(id := start + k, createdAt := now)
  {
    seq(|rows|, k requires 0 <= k < |rows| => rows[k].(id := start + k, createdAt := now))
  }

  lemma StampedAppend(a: seq<Apontamento>, b: seq<Apontamento>, start: int, now: int)
    ensures Stamped(a + b, start, now) == Stamped(a, start, now) + Stamped(b, start + |a|, now)
  {
  }

  // ---------------------------------------------------------------------
  // The database
  // ---------------------------------------------------------------------

  /** The table after the exclusive-mapping pass of linkIfcToRoom has visited its first `i` rooms. */
  ghost function ReleasedPrefix(rows: seq<Sala>, salaId: int, e: string, i: nat): (r: seq<Sala>)
    ensures |r| == |rows|
    ensures forall k :: 0 <= k < |rows| ==> r[k].id == rows[k].id
  {
    seq(|rows|, k requires 0 <= k < |rows| =>
      if k < i && rows[k].id != salaId then rows[k].(ifcExpressId := Released(rows[k].ifcExpressId, e)) else rows[k])
  }

  /** One step of the pass: room `i` is updated by its id only when it is another room holding `e`. */
  lemma ReleaseStep(rows: seq<Sala>, salaId: int, e: string, i: nat)
    requires UniqueIds(rows) && i < |rows|
    ensures rows[i].id == salaId || !Truthy(rows[i].ifcExpressId) || e !in Tokens(rows[i].ifcExpressId.value) ==>
      ReleasedPrefix(rows, salaId, e, i + 1) == ReleasedPrefix(rows, salaId, e, i)
    ensures rows[i].id != salaId && Truthy(rows[i].ifcExpressId) && e in Tokens(rows[i].ifcExpressId.value) ==>
      ReleasedPrefix(rows, salaId, e, i + 1)
        == SetCol(ReleasedPrefix(rows, salaId, e, i), rows[i].id, Stored(Without(Tokens(rows[i].ifcExpressId.value), e)))
  {
    var a, b := ReleasedPrefix(rows, salaId, e, i), ReleasedPrefix(rows, salaId, e, i + 1);
    if rows[i].id != salaId && Truthy(rows[i].ifcExpressId) && e in Tokens(rows[i].ifcExpressId.value) {
      var c := SetCol(a, rows[i].id, Stored(Without(Tokens(rows[i].ifcExpressId.value), e)));
      forall k | 0 <= k < |rows| ensures b[k] == c[k] {
        if k != i {
          assert rows[k].id != rows[i].id;
        }
      }
    } else {
      forall k | 0 <= k < |rows| ensures b[k] == a[k] {
      }
    }
  }

  /** With the target present, the finished pass followed by the update of the target is the link. */
  lemma ReleasedThenClaimed(rows: seq<Sala>, salaId: int, e: string, k: nat)
    requires UniqueIds(rows) && k < |rows| && rows[k].id == salaId
    ensures SetCol(ReleasedPrefix(rows, salaId, e, |rows|), salaId, Claimed(rows[k].ifcExpressId, e))
      == LinkRows(rows, salaId, Some(e))
  {
    var a := SetCol(ReleasedPrefix(rows, salaId, e, |rows|), salaId, Claimed(rows[k].ifcExpressId, e));
    var b := LinkRows(rows, salaId, Some(e));
    forall j | 0 <= j < |rows| ensures a[j] == b[j] {
      if rows[j].id == salaId {
        assert j == k;
      }
    }
  }

  /** Without the target, the finished pass is the whole link. */
  lemma ReleasedWithoutTarget(rows: seq<Sala>, salaId: int, e: string)
    requires !HasRoom(rows, salaId)
    ensures ReleasedPrefix(rows, salaId, e, |rows|) == LinkRows(rows, salaId, Some(e))
  {
    var a, b := ReleasedPrefix(rows, salaId, e, |rows|), LinkRows(rows, salaId, Some(e));
    forall j | 0 <= j < |rows| ensures a[j] == b[j] {
      assert rows[j].id != salaId;
    }
  }

  class Database {
    var salas: seq<Sala>
    var apontamentos: seq<Apontamento>
    var uploads: seq<UploadRecord>
    var ifcFiles: seq<IfcFileRecord>
    var entregas: seq<Entrega>
    var historico: seq<Historico>
    /** The next value of each table's serial id. */
    var nextSalaId: int
    var nextApontamentoId: int
    var nextIfcFileId: int
    var nextEntregaId: int
    /** Names of the files in the IFC upload directory. */
    var ifcDir: set<string>

    /** Room ids are a primary key. */
    ghost predicate Valid()
      reads this
    {
      UniqueIds(salas)
    }

    constructor ()
      ensures Valid()
      ensures salas == [] && apontamentos == [] && uploads == [] && ifcFiles == []
      ensures entregas == [] && historico == [] && ifcDir == {}
    {
      salas, apontamentos, uploads, ifcFiles, entregas, historico := [], [], [], [], [], [];
      nextSalaId, nextApontamentoId, nextIfcFileId, nextEntregaId := 1, 1, 1, 1;
      ifcDir := {};
    }

    /**
     * linkIfcToRoom: null clears the room's list; an id is first removed
     * from every other room holding it, one update per room, and then
     * appended to the target's list. The answer is null (false) only when a
     * link names a room that does not exist.
     */
    method LinkIfcToRoom(salaId: int, e: Option<string>) returns (ok: bool)
      requires Valid()
      modifies this`salas
      ensures Valid()
      ensures salas == LinkRows(old(salas), salaId, e)
      ensures ok == LinkAnswered(old(salas), salaId, e)
    {
      if e.None? {
        salas := SetCol(salas, salaId, None);
        return true;
      }
      var newId := e.value;
      var allRooms := salas;
      var i := 0;
      while i < |allRooms|
        invariant 0 <= i <= |allRooms|
        invariant salas == ReleasedPrefix(allRooms, salaId, newId, i)
      {
        var r := allRooms[i];
        ReleaseStep(allRooms, salaId, newId, i);
        if Truthy(r.ifcExpressId) && r.id != salaId {
          var ids := Tokens(r.ifcExpressId.value);
          if newId in ids {
            var filteredIds := Without(ids, newId);
            var newValue := if |filteredIds| > 0 then Some(Join(filteredIds, ',')) else None;
            salas := SetCol(salas, r.id, newValue);
          }
        }
        i := i + 1;
      }
      ok := ClaimForRoom(salaId, newId, allRooms);
    }

    /** The second half of linkIfcToRoom: after the other rooms gave the id up, the target room takes it. */
    method ClaimForRoom(salaId: int, newId: string, ghost allRooms: seq<Sala>) returns (ok: bool)
      requires UniqueIds(allRooms)
      requires salas == ReleasedPrefix(allRooms, salaId, newId, |allRooms|)
      modifies this`salas
      ensures Valid()
      ensures salas == LinkRows(allRooms, salaId, Some(newId))
      ensures ok == HasRoom(allRooms, salaId)
    {
      SameIdsKeepUnique(allRooms, salas);
      var room := FindRoom(salas, salaId);
      if room.None? {
        ReleasedWithoutTarget(allRooms, salaId, newId);
        return false;
      }
      var currentIds := if Truthy(room.value.ifcExpressId) then Tokens(room.value.ifcExpressId.value) else [];
      if newId !in currentIds {
        currentIds := currentIds + [newId];
      }
      var updatedValue := Join(currentIds, ',');
      ghost var k :| 0 <= k < |salas| && salas[k].id == salaId;
      FindUniqueRoom(salas, salaId, k);
      ReleasedThenClaimed(allRooms, salaId, newId, k);
      ghost var released := salas;
      salas := SetCol(salas, salaId, Some(updatedValue));
      SameIdsKeepUnique(released, salas);
      ok := true;
    }

    /**
     * unlinkIfcFromRoom: removes every occurrence of the id from the room's
     * list (null when nothing is left). A missing room, or one with no list,
     * is left alone and the answer is null (false).
     */
    method UnlinkIfcFromRoom(salaId: int, e: string) returns (ok: bool)
      requires Valid()
      modifies this`salas
      ensures Valid()
      ensures salas == UnlinkRows(old(salas), salaId, e)
      ensures ok == UnlinkAnswered(old(salas), salaId)
    {
      var room := FindRoom(salas, salaId);
      if room.None? {
        return false;
      }
      ghost var k :| 0 <= k < |salas| && salas[k].id == salaId;
      FindUniqueRoom(salas, salaId, k);
      if !Truthy(room.value.ifcExpressId) {
        return false;
      }
      var ids := Tokens(room.value.ifcExpressId.value);
      var filteredIds := Without(ids, e);
      var newValue := if |filteredIds| > 0 then Some(Join(filteredIds, ',')) else None;
      salas := SetCol(salas, salaId, newValue);
      ok := true;
    }

    /** updateSalaStatus (data layer): the sent fields and `updatedAt` are written to the room with that id. */
    method UpdateSalaStatus(id: int, data: SalaPatch, now: int) returns (updated: seq<Sala>)
      requires Valid()
      modifies this`salas
      ensures Valid()
      ensures salas == PatchRows(old(salas), id, data, now)
      ensures updated == WithId(salas, RoomId, id)
    {
      salas := PatchRows(salas, id, data, now);
      updated := WithId(salas, RoomId, id);
    }

    /** `delete from apontamentos; delete from salas` (the serial counters keep running). */
    method ClearRoomsAndIssues()
      modifies this`salas, this`apontamentos
      ensures salas == [] && apontamentos == []
      ensures Valid()
    {
      apontamentos := [];
      salas := [];
    }

    /** `insert into salas values (...)`: the rows, in order, under fresh serial ids. */
    method InsertSalas(rows: seq<Sala>)
      requires forall k :: 0 <= k < |salas| ==> salas[k].id < nextSalaId
      requires Valid()
      modifies this`salas, this`nextSalaId
      ensures salas == old(salas) + Numbered(rows, old(nextSalaId))
      ensures nextSalaId == old(nextSalaId) + |rows|
      ensures forall k :: 0 <= k < |salas| ==> salas[k].id < nextSalaId
      ensures Valid()
    {
      salas := salas + Numbered(rows, nextSalaId);
      nextSalaId := nextSalaId + |rows|;
    }

    /** `insert into apontamentos values (...)`: the rows, in order, under fresh serial ids. */
    method InsertApontamentos(rows: seq<Apontamento>, now: int)
      modifies this`apontamentos, this`nextApontamentoId
      ensures apontamentos == old(apontamentos) + Stamped(rows, old(nextApontamentoId), now)
      ensures nextApontamentoId == old(nextApontamentoId) + |rows|
    {
      apontamentos := apontamentos + Stamped(rows, nextApontamentoId, now);
      nextApontamentoId := nextApontamentoId + |rows|;
    }

    method RecordUpload(u: UploadRecord)
      modifies this`uploads
      ensures uploads == old(uploads) + [u]
    {
      uploads := uploads + [u];
    }

    /** createApontamento (data layer): the issue is inserted with a fresh id and its creation time. */
    method CreateApontamento(a: Apontamento, now: int) returns (row: Apontamento)
      modifies this`apontamentos, this`nextApontamentoId
      ensures row == a.(id := old(nextApontamentoId), createdAt := now)
      ensures apontamentos == old(apontamentos) + [row]
      ensures nextApontamentoId == old(nextApontamentoId) + 1
    {
      row := a.(id := nextApontamentoId, createdAt := now);
      apontamentos := apontamentos + [row];
      nextApontamentoId := nextApontamentoId + 1;
    }

    /**
     * upsertEntrega: with a (truthy) id the row is updated and a status
     * change is logged; without one a row is inserted and its creation
     * logged; a comment is logged only alongside an id. A comment for an id
     * no delivery has is refused by the history table's foreign key, and
     * the call throws (`None`) after its update has matched nothing.
     */
    method UpsertEntrega(input: EntregaInput, now: int, parse: string -> int) returns (result: Option<seq<Entrega>>)
      modifies this`entregas, this`historico, this`nextEntregaId
      ensures var v := WithDates(input, parse);
        && (result.None? <==> CommentRejected(old(entregas), v))
        && (CommentRejected(old(entregas), v) ==> entregas == old(entregas))
        && (NumTruthy(v.id) ==>
              entregas == UpdateEntregas(old(entregas), v.id.value, v, now)
              && (result.Some? ==> result.value == WithId(entregas, EntregaId, v.id.value))
              && nextEntregaId == old(nextEntregaId))
        && (!NumTruthy(v.id) ==>
              entregas == old(entregas) + [NewEntrega(old(nextEntregaId), v, now)]
              && result == Some([NewEntrega(old(nextEntregaId), v, now)])
              && nextEntregaId == old(nextEntregaId) + 1)
        && historico == old(historico) + UpsertHistory(old(entregas), v, old(nextEntregaId), now)
    {
      var v := WithDates(input, parse);
      var stored := true;
      var rows: seq<Entrega>;
      if NumTruthy(v.id) {
        var id := v.id.value;
        var current := FindEntrega(entregas, id);
        // The update never changes ids, so the row the comment references exists exactly when it did before.
        stored := current.Some?;
        var oldStatus := if current.Some? then Some(current.value.status) else None;
        if !stored { UpdateMissingIsNoOp(entregas, id, v, now); }
        entregas := UpdateEntregas(entregas, id, v, now);
        rows := WithId(entregas, EntregaId, id);
        if Truthy(oldStatus) && v.status != "" && oldStatus.value != v.status {
          historico := historico + [Historico(id, STATUS_ALTERADO,
            "Status alterado de \"" + oldStatus.value + "\" para \"" + v.status + "\"", USUARIO, now)];
        }
      } else {
        var row := NewEntrega(nextEntregaId, v, now);
        entregas := entregas + [row];
        nextEntregaId := nextEntregaId + 1;
        rows := [row];
        if |rows| > 0 {
          historico := historico + [Historico(row.id, CRIADO, "Entrega criada: " + v.nomeDocumento, USUARIO, now)];
        }
      }
      result := Some(rows);
      if Truthy(v.comentario) && NumTruthy(v.id) {
        if !stored {
          result := None;
          return;
        }
        historico := historico + [Historico(v.id.value, COMENTARIO, v.comentario.value, USUARIO, now)];
      }
    }
  }
}
