/**
 * The as-built deliveries tab: which deliveries the list shows, the status
 * badge and the "late" mark, the delivery form's initial values and what
 * it submits, and the comment box of the detail view.
 */
module Entregas {
  import opened Common
  import opened Text
  import opened Records
  import opened Ordering
  import opened Backend
  import Stats

  const AGUARDANDO := "AGUARDANDO"

  /** The delivery statuses the badge table knows. */
  const KnownStatuses: seq<string> := ["AGUARDANDO", "RECEBIDO", "EM_REVISAO", "VALIDADO", "REJEITADO"]

  /** The badge text of a known status. */
  function KnownLabel(status: string): Option<string>
  {
    if status == "AGUARDANDO" then Some("Aguardando")
    else if status == "RECEBIDO" then Some("Recebido")
    else if status == "EM_REVISAO" then Some("Em Revisão")
    else if status == "VALIDADO" then Some("Validado")
    else if status == "REJEITADO" then Some("Rejeitado")
    else None
  }

  /** `STATUS_LABELS[status] || STATUS_LABELS['AGUARDANDO']`. */
  function StatusLabel(status: string): (badge: string)
    ensures status !in KnownStatuses ==> badge == "Aguardando"
    ensures status in KnownStatuses ==> Some(badge) == KnownLabel(status)
  {
    var known := KnownLabel(status);
    if known.Some? then known.value else "Aguardando"
  }

  /** Known statuses get different badges; an unknown status looks like AGUARDANDO. */
  lemma StatusLabelsDistinct(a: string, b: string)
    requires a in KnownStatuses && b in KnownStatuses && a != b
    ensures StatusLabel(a) != StatusLabel(b)
  {
  }

  /** The list's filter: the search occurs in the name, the company or the discipline, and the building matches when one is selected. */
  predicate Shown(e: Entrega, searchTerm: string, selectedEdificacao: Option<string>)
  {
    (Contains(Lower(e.nomeDocumento), Lower(searchTerm))
     || Contains(Lower(e.empresaResponsavel), Lower(searchTerm))
     || Contains(Lower(e.disciplina), Lower(searchTerm)))
    && (!Truthy(selectedEdificacao) || e.edificacao == selectedEdificacao.value)
  }

  function FilteredEntregas(es: seq<Entrega>, searchTerm: string, selectedEdificacao: Option<string>): seq<Entrega>
  {
    Filter(es, (e: Entrega) => Shown(e, searchTerm, selectedEdificacao))
  }

  /** A delivery is listed exactly when it passes the filter; the list keeps the order. */
  lemma FilteredEntregasCorrect(es: seq<Entrega>, searchTerm: string, selectedEdificacao: Option<string>)
    ensures forall e :: e in FilteredEntregas(es, searchTerm, selectedEdificacao) <==>
      e in es
      && (Contains(Lower(e.nomeDocumento), Lower(searchTerm))
          || Contains(Lower(e.empresaResponsavel), Lower(searchTerm))
          || Contains(Lower(e.disciplina), Lower(searchTerm)))
      && (!Truthy(selectedEdificacao) || e.edificacao == selectedEdificacao.value)
  {
  }

  /** With an empty search and no building, every delivery is listed. */
  lemma EmptySearchShowsAll(es: seq<Entrega>)
    ensures forall e :: e in FilteredEntregas(es, "", None) <==> e in es
  {
    forall e | e in es ensures Shown(e, "", None) {
      assert Lower("") == "";
      assert "" <= Lower(e.nomeDocumento)[0..];
    }
  }

  /** The time a date denotes; `parse` stands for dayjs reading a date text. */
  function Millis(w: When, parse: string -> int): int
  {
    if w.Stamp? then w.ms else parse(w.text)
  }

  /** The "Atrasado" mark: still awaited and due before now. */
  predicate IsAtrasado(e: Entrega, now: int, parse: string -> int)
  {
    e.status == AGUARDANDO && Millis(e.dataPrevista, parse) < now
  }

  /** For a stored due date the list's mark agrees with the late counter of the statistics. */
  lemma IsAtrasadoAgreesWithStats(e: Entrega, now: int, parse: string -> int)
    requires e.dataPrevista.Stamp?
    ensures IsAtrasado(e, now, parse) <==> Stats.IsLate(e, now)
  {
  }

  /** Only an awaited delivery can be late. */
  lemma OnlyAwaitedIsLate(e: Entrega, now: int, parse: string -> int)
    requires e.status != AGUARDANDO
    ensures !IsAtrasado(e, now, parse)
  {
  }

  // ---------------------------------------------------------------------
  // The delivery form
  // ---------------------------------------------------------------------

  /** The form's fields; dates are `YYYY-MM-DD` texts. */
  datatype FormData = FormData(id: Option<int>, nomeDocumento: string, tipoDocumento: string, edificacao: string,
                               disciplina: string, empresaResponsavel: string, dataPrevista: string,
                               dataRecebimento: string, status: string, descricao: string)

  /**
   * The form's initial values, from the delivery being edited (or none for
   * a new one) and the building selected on the dashboard. `today` is the
   * current date and `format` writes a date as `YYYY-MM-DD`.
   */
  function FormDefaults(entrega: Option<Entrega>, selectedEdificacao: Option<string>, today: string,
                        format: When -> string): (f: FormData)
    ensures entrega.None? ==>
      f == FormData(None, "", "relatorio", OrElse(selectedEdificacao, ""), "", "", today, "", AGUARDANDO, "")
    ensures entrega.Some? ==> f.id == Some(entrega.value.id) && f.nomeDocumento == entrega.value.nomeDocumento
    ensures entrega.Some? && entrega.value.status != "" ==> f.status == entrega.value.status
    ensures entrega.Some? && entrega.value.status == "" ==> f.status == AGUARDANDO
    ensures entrega.Some? && entrega.value.edificacao != "" ==> f.edificacao == entrega.value.edificacao
    ensures entrega.Some? && entrega.value.edificacao == "" ==> f.edificacao == OrElse(selectedEdificacao, "")
    ensures entrega.Some? && !WhenTruthy(entrega.value.dataRecebimento) ==> f.dataRecebimento == ""
  {
    if entrega.None? then
      FormData(None, "", "relatorio", OrElse(selectedEdificacao, ""), "", "", today, "", AGUARDANDO, "")
    else
      var e := entrega.value;
      FormData(Some(e.id), e.nomeDocumento, OrElse(Some(e.tipoDocumento), "relatorio"),
               if e.edificacao != "" then e.edificacao else OrElse(selectedEdificacao, ""),
               e.disciplina, e.empresaResponsavel,
               if WhenTruthy(Some(e.dataPrevista)) then format(e.dataPrevista) else today,
               if WhenTruthy(e.dataRecebimento) then format(e.dataRecebimento.value) else "",
               OrElse(Some(e.status), AGUARDANDO), OrElse(e.descricao, ""))
  }

  /** What the form submits: the fields as they are, except that an empty receipt date is sent as null. */
  function Submit(f: FormData): (v: EntregaInput)
    ensures f.dataRecebimento == "" ==> v.dataRecebimento == Some(None)
    ensures f.dataRecebimento != "" ==> v.dataRecebimento == Some(Some(Raw(f.dataRecebimento)))
    ensures v.id == f.id && v.status == f.status && v.comentario.None?
  {
    EntregaInput(f.id, f.nomeDocumento, f.tipoDocumento, f.edificacao, f.disciplina, f.empresaResponsavel,
                 Raw(f.dataPrevista),
                 Some(if f.dataRecebimento == "" then None else Some(Raw(f.dataRecebimento))),
                 f.status, Some(Some(f.descricao)), None)
  }

  /** A new delivery created from the form has no receipt date exactly when the form's field was empty. */
  lemma SubmitStoresReceiptDate(f: FormData, id: int, now: int, parse: string -> int)
    ensures NewEntrega(id, WithDates(Submit(f), parse), now).dataRecebimento.None? <==> f.dataRecebimento == ""
  {
  }

  /** A new delivery created from a fresh form starts awaited, as a report. */
  lemma NewFormCreatesAwaitedReport(selected: Option<string>, today: string, format: When -> string,
                                     id: int, now: int, parse: string -> int)
    ensures var e := NewEntrega(id, WithDates(Submit(FormDefaults(None, selected, today, format)), parse), now);
      e.status == AGUARDANDO && e.tipoDocumento == "relatorio" && e.dataRecebimento.None?
  {
  }

  // ---------------------------------------------------------------------
  // The detail view
  // ---------------------------------------------------------------------

  /** The delivery re-sent with the chosen status and an optional comment. */
  function Resent(e: Entrega, status: string, comentario: Option<string>): (v: EntregaInput)
    ensures v.id == Some(e.id) && v.status == status && v.comentario == comentario
    ensures v.dataPrevista == e.dataPrevista && v.dataRecebimento == Some(e.dataRecebimento)
  {
    EntregaInput(Some(e.id), e.nomeDocumento, e.tipoDocumento, e.edificacao, e.disciplina, e.empresaResponsavel,
                 e.dataPrevista, Some(e.dataRecebimento), status, Some(e.descricao), comentario)
  }

  /** "Atualizar status": an empty comment is not sent. */
  function UpdateStatusRequest(e: Entrega, status: string, comentario: string): (v: EntregaInput)
    ensures v.comentario.Some? <==> comentario != ""
    ensures v.status == status && v.id == Some(e.id)
  {
    Resent(e, status, if comentario != "" then Some(comentario) else None)
  }

  /** "Enviar comentário": nothing is sent when the comment is blank after trimming. */
  function SendCommentRequest(e: Entrega, status: string, comentario: string): (v: Option<EntregaInput>)
    ensures v.None? <==> Trim(comentario) == ""
    ensures v.Some? ==> v.value.comentario == Some(comentario) && v.value.status == status
  {
    if Trim(comentario) == "" then None else Some(Resent(e, status, Some(comentario)))
  }

  /**
   * A comment that is sent for a delivery (non-zero id) still in the table
   * is logged as the last history line of the upsert, against that
   * delivery; once the delivery is gone the upsert is refused.
   */
  lemma SentCommentIsLogged(rows: seq<Entrega>, e: Entrega, status: string, comentario: string, newId: int, now: int)
    requires e.id != 0
    requires SendCommentRequest(e, status, comentario).Some?
    ensures FindEntrega(rows, e.id).Some? ==>
      var h := UpsertHistory(rows, SendCommentRequest(e, status, comentario).value, newId, now);
      |h| > 0 && h[|h| - 1] == Historico(e.id, COMENTARIO, comentario, USUARIO, now)
    ensures FindEntrega(rows, e.id).None? ==> CommentRejected(rows, SendCommentRequest(e, status, comentario).value)
  {
    var v := SendCommentRequest(e, status, comentario).value;
    var t := Trim(comentario);
    assert t != "" && t[0] in t;
    assert Truthy(v.comentario);
    CommentLoggedIff(rows, v, newId, now);
  }
}
