/**
 * Rows of the database tables the dashboard reads and writes (rooms,
 * issues, uploads, IFC files, as-built deliveries and their history).
 * Nullable columns are `Option`s; timestamps are milliseconds.
 */
module Records {
  import opened Common

  /**
   * A timestamp column as the server sees it after merging a request:
   * either a date, or the raw text the client sent when it was not
   * converted (the conversion only applies to non-empty strings).
   */
  datatype When = Stamp(ms: int) | Raw(text: string)

  /** JavaScript truthiness of a nullable date value: a Date object is always truthy. */
  predicate WhenTruthy(w: Option<When>)
  {
    w.Some? && (w.value.Stamp? || w.value.text != "")
  }

  /** A room (`salas`). */
  datatype Sala = Sala(
    id: int,
    edificacao: string,
    pavimento: string,
    setor: string,
    nome: string,
    numeroSala: string,
    augin: Option<int>,
    status: string,
    statusRA: Option<string>,
    dataVerificada: Option<When>,
    faltouDisciplina: Option<string>,
    revisar: Option<string>,
    obs: Option<string>,
    dataVerificacao2: Option<When>,
    obs2: Option<string>,
    trackerPosicionado: Option<int>,
    plantaImpressa: Option<int>,
    qrCodePlastificado: Option<int>,
    ifcExpressId: Option<string>,
    imagemPlantaUrl: Option<string>,
    updatedAt: int)

  /** An issue found in a room (`apontamentos`). */
  datatype Apontamento = Apontamento(
    id: int,
    numeroApontamento: int,
    data: int,
    edificacao: string,
    pavimento: string,
    setor: string,
    sala: string,
    disciplina: string,
    divergencia: Option<string>,
    fotoUrl: Option<string>,
    fotoReferenciaUrl: Option<string>,
    status: string,
    responsavel: Option<string>,
    createdAt: int)

  /** One Excel import (`uploads`). */
  datatype UploadRecord = UploadRecord(
    fileName: string,
    fileSize: int,
    uploadedBy: int,
    totalSalas: int,
    totalApontamentos: int,
    status: string)

  /** An uploaded IFC model (`ifcFiles`). */
  datatype IfcFileRecord = IfcFileRecord(
    id: int,
    fileName: string,
    filePath: string,
    edificacao: Option<string>,
    uploadedBy: int,
    fileSize: int)

  /** An as-built document delivery (`entregasAsBuilt`). */
  datatype Entrega = Entrega(
    id: int,
    nomeDocumento: string,
    tipoDocumento: string,
    edificacao: string,
    disciplina: string,
    empresaResponsavel: string,
    dataPrevista: When,
    dataRecebimento: Option<When>,
    status: string,
    descricao: Option<string>,
    updatedAt: int)

  /** One line of a delivery's history (`entregasHistorico`). */
  datatype Historico = Historico(entregaId: int, acao: string, descricao: string, usuario: string, createdAt: int)

  /** No two rows share an id (the tables' serial primary key). */
  predicate UniqueIds(rows: seq<Sala>)
  {
    forall i, j :: 0 <= i < |rows| && 0 <= j < |rows| && rows[i].id == rows[j].id ==> i == j
  }

  /** Changing columns other than the id keeps the ids unique. */
  lemma SameIdsKeepUnique(a: seq<Sala>, b: seq<Sala>)
    requires UniqueIds(a) && |a| == |b|
    requires forall k :: 0 <= k < |a| ==> b[k].id == a[k].id
    ensures UniqueIds(b)
  {
  }

  /** Some row has the given id. */
  predicate HasRoom(rows: seq<Sala>, id: int)
  {
    exists k :: 0 <= k < |rows| && rows[k].id == id
  }

  /**
   * A date field of an update: not sent at all, sent with the value
   * `undefined` (what an emptied date input sends), or sent with a date.
   */
  datatype DateField = NotSent | Undefined | Sent(w: When)

  /** The date as `{ ...row, ...patch }` leaves it: an `undefined` value overwrites the column too. */
  function SpreadDate(f: DateField, kept: Option<When>): (r: Option<When>)
    ensures f.NotSent? ==> r == kept
    ensures f.Undefined? ==> r.None?
    ensures f.Sent? ==> r == Some(f.w)
  {
    match f
    case NotSent => kept
    case Undefined => None
    case Sent(w) => Some(w)
  }

  /** The date as drizzle's `.set(patch)` writes it: a key whose value is `undefined` is skipped. */
  function SetDate(f: DateField, kept: Option<When>): (r: Option<When>)
    ensures !f.Sent? ==> r == kept
    ensures f.Sent? ==> r == Some(f.w)
  {
    if f.Sent? then Some(f.w) else kept
  }

  /**
   * The room fields a status update may carry (`Partial<InsertSala>`);
   * `None` means the field is not sent and the column keeps its value.
   */
  datatype SalaPatch = SalaPatch(
    status: Option<string>,
    statusRA: Option<string>,
    obs: Option<string>,
    revisar: Option<string>,
    faltouDisciplina: Option<string>,
    dataVerificada: DateField,
    trackerPosicionado: Option<int>,
    plantaImpressa: Option<int>,
    qrCodePlastificado: Option<int>,
    dataVerificacao2: DateField,
    obs2: Option<string>,
    augin: Option<int>,
    imagemPlantaUrl: Option<string>)

  function Over<T>(sent: Option<T>, kept: Option<T>): Option<T>
  {
    if sent.Some? then sent else kept
  }

  /**
   * `{ ...row, ...patch }`: every field the patch carries wins, every other
   * column is kept; a date sent as `undefined` is cleared.
   */
  function ApplyPatch(s: Sala, p: SalaPatch): Sala
  {
    SetColumns(s, p).(dataVerificada := SpreadDate(p.dataVerificada, s.dataVerificada),
                      dataVerificacao2 := SpreadDate(p.dataVerificacao2, s.dataVerificacao2))
  }

  /**
   * `update salas set patch`: every field the patch carries is written,
   * every other column is kept; a date sent as `undefined` is skipped.
   */
  function SetColumns(s: Sala, p: SalaPatch): Sala
  {
    s.(status := if p.status.Some? then p.status.value else s.status,
       statusRA := Over(p.statusRA, s.statusRA),
       obs := Over(p.obs, s.obs),
       revisar := Over(p.revisar, s.revisar),
       faltouDisciplina := Over(p.faltouDisciplina, s.faltouDisciplina),
       dataVerificada := SetDate(p.dataVerificada, s.dataVerificada),
       trackerPosicionado := Over(p.trackerPosicionado, s.trackerPosicionado),
       plantaImpressa := Over(p.plantaImpressa, s.plantaImpressa),
       qrCodePlastificado := Over(p.qrCodePlastificado, s.qrCodePlastificado),
       dataVerificacao2 := SetDate(p.dataVerificacao2, s.dataVerificacao2),
       obs2 := Over(p.obs2, s.obs2),
       augin := Over(p.augin, s.augin),
       imagemPlantaUrl := Over(p.imagemPlantaUrl, s.imagemPlantaUrl))
  }

  /** A patch that sends no date as `undefined`. */
  predicate NoUndefinedDate(p: SalaPatch)
  {
    !p.dataVerificada.Undefined? && !p.dataVerificacao2.Undefined?
  }

  /** Without an `undefined` date, merging and writing the patch give the same row. */
  lemma SetAgreesWithSpread(s: Sala, p: SalaPatch)
    requires NoUndefinedDate(p)
    ensures SetColumns(s, p) == ApplyPatch(s, p)
  {
  }
}
