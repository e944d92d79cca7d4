/**
 * The API procedures that do more than pass their input through: the room
 * status update (merge, recompute, write), issue creation (enrichment) and
 * the two link procedures (id conversion).
 */
module Routers {
  import opened Common
  import opened Text
  import opened Records
  import opened Automation
  import opened Links
  import opened Backend

  datatype Result<T> = Ok(value: T) | Failure(message: string)

  /**
   * An element id as the link procedures accept it: a number or a string.
   * Only integer numbers are modelled; `z.number()` also admits fractions.
   */
  datatype IdValue = Num(n: int) | Str(s: string)

  /** `String(v)`. */
  function IdText(v: IdValue): string
  {
    match v
    case Num(n) => IntToString(n)
    case Str(s) => s
  }

  // ---------------------------------------------------------------------
  // updateSalaStatus
  // ---------------------------------------------------------------------

  /** A date field sent as a non-empty string is parsed into a date; a date, an empty string or `undefined` is kept. */
  function ConvertDate(f: DateField, parse: string -> int): (r: DateField)
    ensures f.Sent? && f.w.Raw? && f.w.text != "" ==> r == Sent(Stamp(parse(f.w.text)))
    ensures !(f.Sent? && f.w.Raw? && f.w.text != "") ==> r == f
  {
    if f.Sent? && f.w.Raw? && f.w.text != "" then Sent(Stamp(parse(f.w.text))) else f
  }

  /** Converting a date does not change whether the merged or the written column counts as set. */
  lemma ConvertDateKeepsTruthiness(f: DateField, parse: string -> int, kept: Option<When>)
    ensures WhenTruthy(SpreadDate(ConvertDate(f, parse), kept)) == WhenTruthy(SpreadDate(f, kept))
    ensures WhenTruthy(SetDate(ConvertDate(f, parse), kept)) == WhenTruthy(SetDate(f, kept))
  {
  }

  function ConvertDates(p: SalaPatch, parse: string -> int): SalaPatch
  {
    p.(dataVerificada := ConvertDate(p.dataVerificada, parse),
       dataVerificacao2 := ConvertDate(p.dataVerificacao2, parse))
  }

  /**
   * The update as a plain JSON body carries it: a key whose value is
   * `undefined` is not serialised, so the server sees it as not sent.
   */
  function JsonTransport(p: SalaPatch): (r: SalaPatch)
    ensures NoUndefinedDate(r)
    ensures p.dataVerificada.Undefined? ==> r.dataVerificada.NotSent?
    ensures p.dataVerificacao2.Undefined? ==> r.dataVerificacao2.NotSent?
    ensures NoUndefinedDate(p) ==> r == p
  {
    p.(dataVerificada := if p.dataVerificada.Undefined? then NotSent else p.dataVerificada,
       dataVerificacao2 := if p.dataVerificacao2.Undefined? then NotSent else p.dataVerificacao2)
  }

  /**
   * What the procedure writes: the sent fields, plus the two statuses the
   * rules give on the merged record `{...existing, ...data}`.
   */
  function StatusPatch(existing: Sala, data: SalaPatch): SalaPatch
  {
    var merged := ApplyPatch(existing, data);
    data.(statusRA := Some(CalculateStatusRA(merged)), status := Some(CalculateRoomStatus(merged)))
  }

  /** The columns the two rules read are the same in two rows. */
  predicate SameInputs(a: Sala, b: Sala)
  {
    a.augin == b.augin && a.trackerPosicionado == b.trackerPosicionado
    && a.qrCodePlastificado == b.qrCodePlastificado && a.dataVerificacao2 == b.dataVerificacao2
    && a.revisar == b.revisar && a.obs == b.obs && a.obs2 == b.obs2 && a.dataVerificada == b.dataVerificada
  }

  lemma RulesReadOnlyInputs(a: Sala, b: Sala)
    requires SameInputs(a, b)
    ensures CalculateStatusRA(a) == CalculateStatusRA(b)
    ensures CalculateRoomStatus(a) == CalculateRoomStatus(b)
  {
  }

  /**
   * The written row: every sent field is set, a date sent as `undefined`
   * keeps its column, and the two statuses are what the rules give on the
   * merged record. Without an `undefined` date the written row is the
   * merged record itself, and its stored statuses are exactly what the
   * rules give on it.
   */
  lemma StatusUpdateConsistent(existing: Sala, data: SalaPatch, now: int)
    ensures var stored := SetColumns(existing, StatusPatch(existing, data)).(updatedAt := now);
      var merged := ApplyPatch(existing, data);
      && stored == SetColumns(existing, data).(statusRA := Some(CalculateStatusRA(merged)),
                                               status := CalculateRoomStatus(merged), updatedAt := now)
      && (NoUndefinedDate(data) ==>
            && stored == merged.(statusRA := Some(CalculateStatusRA(merged)),
                                 status := CalculateRoomStatus(merged), updatedAt := now)
            && stored.statusRA == Some(CalculateStatusRA(stored))
            && stored.status == CalculateRoomStatus(stored))
  {
    var stored := SetColumns(existing, StatusPatch(existing, data)).(updatedAt := now);
    if NoUndefinedDate(data) {
      SetAgreesWithSpread(existing, data);
      RulesReadOnlyInputs(stored, ApplyPatch(existing, data));
    }
  }

  /**
   * A first verification date sent as `undefined` (the second one sent or
   * not) is recomputed as cleared but not written: the stored row keeps its
   * date, and its statuses are the ones the rules give with the date cleared.
   */
  lemma ClearedDateKeptButStatusCleared(existing: Sala, data: SalaPatch, now: int)
    requires data.dataVerificada.Undefined? && !data.dataVerificacao2.Undefined?
    ensures var stored := SetColumns(existing, StatusPatch(existing, data)).(updatedAt := now);
      && stored.dataVerificada == existing.dataVerificada
      && stored.status == CalculateRoomStatus(stored.(dataVerificada := None))
      && stored.statusRA == Some(CalculateStatusRA(stored.(dataVerificada := None)))
  {
    var stored := SetColumns(existing, StatusPatch(existing, data)).(updatedAt := now);
    RulesReadOnlyInputs(stored.(dataVerificada := None), ApplyPatch(existing, data));
  }

  /**
   * A verified room without notes or second date whose first date is sent
   * as `undefined`: the stored row keeps the date but is stored PENDENTE,
   * a status the rules do not give on it.
   */
  lemma ClearedDateStatusMismatch(existing: Sala, data: SalaPatch, now: int)
    requires existing.dataVerificada == Some(Stamp(0)) && existing.dataVerificacao2.None?
    requires !HasNotes(existing)
    requires data == SalaPatch(None, None, None, None, None, Undefined, None, None, None, NotSent, None, None, None)
    ensures var stored := SetColumns(existing, StatusPatch(existing, data)).(updatedAt := now);
      && WhenTruthy(stored.dataVerificada)
      && stored.status == PENDENTE
      && CalculateRoomStatus(stored) == VERIFICADA
  {
    ClearedDateKeptButStatusCleared(existing, data, now);
  }

  /** The statuses the client sends are ignored: they are always recomputed. */
  lemma SentStatusesIgnored(existing: Sala, data: SalaPatch, status: Option<string>, statusRA: Option<string>)
    ensures SetColumns(existing, StatusPatch(existing, data.(status := status, statusRA := statusRA)))
         == SetColumns(existing, StatusPatch(existing, data))
  {
    RulesReadOnlyInputs(ApplyPatch(existing, data.(status := status, statusRA := statusRA)), ApplyPatch(existing, data));
  }

  /** A second verification date sent with the update settles the room as verified. */
  lemma SecondVerificationSettles(existing: Sala, data: SalaPatch, parse: string -> int)
    requires data.dataVerificacao2.Sent? && WhenTruthy(Some(data.dataVerificacao2.w))
    ensures StatusPatch(existing, ConvertDates(data, parse)).status == Some(VERIFICADA)
  {
    ConvertDateKeepsTruthiness(data.dataVerificacao2, parse, existing.dataVerificacao2);
  }

  /** With unique ids the update by id returns exactly the one updated row. */
  lemma UpdatedRoomReturned(rows: seq<Sala>, id: int, data: SalaPatch, now: int, k: nat)
    requires UniqueIds(rows) && k < |rows| && rows[k].id == id
    ensures WithId(PatchRows(rows, id, data, now), RoomId, id) != []
    ensures WithId(PatchRows(rows, id, data, now), RoomId, id)[0] == SetColumns(rows[k], data).(updatedAt := now)
  {
    var p := PatchRows(rows, id, data, now);
    assert p[k] in p;
    var r := WithId(p, RoomId, id);
    assert r[0] in p;
    var j :| 0 <= j < |p| && p[j] == r[0];
    assert rows[j].id == id;
  }

  /**
   * The updateSalaStatus procedure: "Sala not found" when no row has the id;
   * otherwise the converted input and the recomputed statuses are written
   * and the updated row returned.
   */
  method UpdateSalaStatusRoute(db: Database, id: int, input: SalaPatch, now: int, parse: string -> int)
    returns (r: Result<Sala>)
    requires db.Valid()
    modifies db`salas
    ensures db.Valid()
    ensures !HasRoom(old(db.salas), id) <==> r == Failure("Sala not found")
    ensures !HasRoom(old(db.salas), id) ==> db.salas == old(db.salas)
    ensures HasRoom(old(db.salas), id) ==>
      var existing := FindRoom(old(db.salas), id).value;
      var written := StatusPatch(existing, ConvertDates(input, parse));
      && db.salas == PatchRows(old(db.salas), id, written, now)
      && r == Ok(SetColumns(existing, written).(updatedAt := now))
  {
    var data := ConvertDates(input, parse);
    var existing := FindRoom(db.salas, id);
    if existing.None? {
      return Failure("Sala not found");
    }
    var written := StatusPatch(existing.value, data);
    ghost var k :| 0 <= k < |db.salas| && db.salas[k] == existing.value;
    FindUniqueRoom(db.salas, id, k);
    UpdatedRoomReturned(db.salas, id, written, now, k);
    var updated := db.UpdateSalaStatus(id, written, now);
    r := Ok(updated[0]);
  }

  // ---------------------------------------------------------------------
  // createApontamento
  // ---------------------------------------------------------------------

  /** What the field report sends for a new issue; the date may come as text. */
  datatype ApontamentoInput = ApontamentoInput(
    numeroApontamento: int,
    data: When,
    edificacao: string,
    pavimento: string,
    setor: string,
    sala: string,
    disciplina: string,
    divergencia: Option<string>,
    fotoUrl: Option<string>,
    fotoReferenciaUrl: Option<string>)

  /**
   * The enriched issue: the input, its date parsed when it is text, the
   * company responsible for its discipline, and status PENDENTE.
   */
  function Enriched(input: ApontamentoInput, parse: string -> int): (a: Apontamento)
    ensures a.responsavel == Some(AssignResponsavel(input.disciplina))
    ensures a.status == PENDENTE
    ensures a.sala == input.sala && a.disciplina == input.disciplina && a.divergencia == input.divergencia
  {
    Apontamento(0, input.numeroApontamento,
                match input.data case Stamp(ms) => ms case Raw(text) => parse(text),
                input.edificacao, input.pavimento, input.setor, input.sala, input.disciplina,
                input.divergencia, input.fotoUrl, input.fotoReferenciaUrl,
                PENDENTE, Some(AssignResponsavel(input.disciplina)), 0)
  }

  /** An issue of a Thá discipline, in any letter case, goes to Thá. */
  lemma EnrichedThaIssue(input: ApontamentoInput, parse: string -> int)
    requires Lower(input.disciplina) == "hid"
    ensures Enriched(input, parse).responsavel == Some(THA)
  {
    AssignResponsavelIgnoresCase(input.disciplina, "HID");
    assert Lower("HID") == "hid";
    assert Upper("HID") == "HID";
  }

  /** The createApontamento procedure: one enriched issue inserted (the second `return` is never reached). */
  method CreateApontamentoRoute(db: Database, input: ApontamentoInput, now: int, parse: string -> int)
    returns (row: Apontamento)
    modifies db`apontamentos, db`nextApontamentoId
    ensures row == Enriched(input, parse).(id := old(db.nextApontamentoId), createdAt := now)
    ensures db.apontamentos == old(db.apontamentos) + [row]
  {
    row := db.CreateApontamento(Enriched(input, parse), now);
  }

  // ---------------------------------------------------------------------
  // Link procedures
  // ---------------------------------------------------------------------

  /** The id text the link procedure passes on: null stays null, anything else goes through `String`. */
  function LinkArgument(v: Option<IdValue>): Option<string>
  {
    if v.None? then None else Some(IdText(v.value))
  }

  /** Linking a numeric element id keeps the table exclusive. */
  lemma NumericLinkKeepsExclusive(rows: seq<Sala>, salaId: int, n: nat)
    requires UniqueIds(rows) && Exclusive(rows)
    ensures Exclusive(LinkRows(rows, salaId, LinkArgument(Some(Num(n)))))
  {
    NatToStringIsToken(n);
    LinkPreservesExclusive(rows, salaId, Some(NatToString(n)));
  }

  /** The linkIfcToRoom procedure: a null id is forwarded as null, meaning "clear the room". */
  method LinkRoute(db: Database, salaId: int, v: Option<IdValue>) returns (success: bool)
    requires db.Valid()
    modifies db`salas
    ensures db.Valid()
    ensures db.salas == LinkRows(old(db.salas), salaId, LinkArgument(v))
    ensures success == LinkAnswered(old(db.salas), salaId, LinkArgument(v))
  {
    success := db.LinkIfcToRoom(salaId, LinkArgument(v));
  }

  /** The unlinkIfcFromRoom procedure. */
  method UnlinkRoute(db: Database, salaId: int, v: IdValue) returns (success: bool)
    requires db.Valid()
    modifies db`salas
    ensures db.Valid()
    ensures db.salas == UnlinkRows(old(db.salas), salaId, IdText(v))
    ensures success == UnlinkAnswered(old(db.salas), salaId)
  {
    success := db.UnlinkIfcFromRoom(salaId, IdText(v));
  }
}
