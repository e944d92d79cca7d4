/**
 * The data hub tab: the optimistic update of the cached room list while a
 * status update is in flight, and the searched and sorted room and issue
 * tables.
 */
module DataHub {
  import opened Common
  import opened Text
  import opened Records
  import opened Automation
  import opened Ordering
  import Routers

  // ---------------------------------------------------------------------
  // Optimistic update
  // ---------------------------------------------------------------------

  /**
   * The client's copy of the room status rule: notes send the room to
   * review, else a first verification date makes it verified, else it is
   * pending. The second verification date is not consulted.
   */
  function OptimisticStatus(u: Sala): (r: string)
    ensures r == REVISAR <==> HasNotes(u)
    ensures r == VERIFICADA <==> !HasNotes(u) && WhenTruthy(u.dataVerificada)
    ensures r == PENDENTE <==> !HasNotes(u) && !WhenTruthy(u.dataVerificada)
  {
    if HasNotes(u) then REVISAR
    else if WhenTruthy(u.dataVerificada) then VERIFICADA
    else PENDENTE
  }

  /**
   * The client rule disagrees with the server rule exactly when a second
   * verification date is set and the room has notes or no first date.
   */
  lemma OptimisticStatusDiverges(u: Sala)
    ensures OptimisticStatus(u) != CalculateRoomStatus(u) <==>
      WhenTruthy(u.dataVerificacao2) && (HasNotes(u) || !WhenTruthy(u.dataVerificada))
  {
  }

  /** A room with notes and a second verification date: the server says VERIFICADA, the client REVISAR. */
  lemma OptimisticStatusCounterexample(u: Sala)
    requires u.obs == Some("fissura") && u.dataVerificacao2 == Some(Stamp(0))
    ensures OptimisticStatus(u) == REVISAR && CalculateRoomStatus(u) == VERIFICADA
  {
    assert Truthy(u.obs);
  }

  /** `{ ...s, ...variables }` with the two statuses the client computes. */
  function OptimisticRow(s: Sala, p: SalaPatch): Sala
  {
    var u := ApplyPatch(s, p);
    u.(statusRA := Some(CalculateStatusRA(u)), status := OptimisticStatus(u))
  }

  /** The row the client should show: the server's own rule applied to the merged row. */
  function CorrectedOptimisticRow(s: Sala, p: SalaPatch): Sala
  {
    var u := ApplyPatch(s, p);
    u.(statusRA := Some(CalculateStatusRA(u)), status := CalculateRoomStatus(u))
  }

  /** The cached list after `onMutate`: only the row with the updated id changes. */
  function OptimisticRows(rows: seq<Sala>, id: int, p: SalaPatch): (r: seq<Sala>)
    ensures |r| == |rows|
    ensures forall k :: 0 <= k < |rows| && rows[k].id != id ==> r[k] == rows[k]
    ensures forall k :: 0 <= k < |rows| && rows[k].id == id ==> r[k] == OptimisticRow(rows[k], p)
  {
    seq(|rows|, k requires 0 <= k < |rows| => if rows[k].id == id then OptimisticRow(rows[k], p) else rows[k])
  }

  /** The list after `onMutate`, had the client used the server's rule. */
  function CorrectedOptimisticRows(rows: seq<Sala>, id: int, p: SalaPatch): (r: seq<Sala>)
    ensures |r| == |rows|
    ensures forall k :: 0 <= k < |rows| && rows[k].id != id ==> r[k] == rows[k]
    ensures forall k :: 0 <= k < |rows| && rows[k].id == id ==> r[k] == CorrectedOptimisticRow(rows[k], p)
  {
    seq(|rows|, k requires 0 <= k < |rows| => if rows[k].id == id then CorrectedOptimisticRow(rows[k], p) else rows[k])
  }

  /** The statuses of a row depend on its dates only through whether they are set. */
  lemma StatusesByTruthiness(a: Sala, b: Sala)
    requires a.augin == b.augin && a.trackerPosicionado == b.trackerPosicionado
    requires a.qrCodePlastificado == b.qrCodePlastificado
    requires a.revisar == b.revisar && a.obs == b.obs && a.obs2 == b.obs2
    requires WhenTruthy(a.dataVerificada) == WhenTruthy(b.dataVerificada)
    requires WhenTruthy(a.dataVerificacao2) == WhenTruthy(b.dataVerificacao2)
    ensures CalculateStatusRA(a) == CalculateStatusRA(b)
    ensures CalculateRoomStatus(a) == CalculateRoomStatus(b)
  {
  }

  /** The row the server stores for the update the client sent, had the body reached it as sent. */
  function StoredRow(s: Sala, p: SalaPatch, parse: string -> int, now: int): Sala
  {
    SetColumns(s, Routers.StatusPatch(s, Routers.ConvertDates(p, parse))).(updatedAt := now)
  }

  /**
   * The corrected optimistic row shows the same two statuses the server
   * will store for the same update, although the server has parsed the
   * dates the client still holds as text, and also when a date is sent as
   * `undefined` (both then compute the statuses with that date cleared).
   */
  lemma CorrectedOptimisticMatchesServer(s: Sala, p: SalaPatch, parse: string -> int, now: int)
    ensures CorrectedOptimisticRow(s, p).status == StoredRow(s, p, parse, now).status
    ensures CorrectedOptimisticRow(s, p).statusRA == StoredRow(s, p, parse, now).statusRA
  {
    Routers.ConvertDateKeepsTruthiness(p.dataVerificada, parse, s.dataVerificada);
    Routers.ConvertDateKeepsTruthiness(p.dataVerificacao2, parse, s.dataVerificacao2);
    StatusesByTruthiness(ApplyPatch(s, p), ApplyPatch(s, Routers.ConvertDates(p, parse)));
  }

  /** The optimistic row as written matches the server exactly when the merged row has no second verification date. */
  lemma OptimisticMatchesServerWithoutSecondDate(s: Sala, p: SalaPatch, parse: string -> int, now: int)
    requires !WhenTruthy(ApplyPatch(s, p).dataVerificacao2)
    ensures OptimisticRow(s, p).status == StoredRow(s, p, parse, now).status
    ensures OptimisticRow(s, p).statusRA == StoredRow(s, p, parse, now).statusRA
  {
    CorrectedOptimisticMatchesServer(s, p, parse, now);
  }

  /**
   * Emptying the first verification date of a room whose merged row has no
   * notes: the cached row loses the date and shows PENDENTE.
   */
  lemma ClearingFirstDateShowsPending(s: Sala, p: SalaPatch)
    requires p.dataVerificada.Undefined?
    requires !HasNotes(ApplyPatch(s, p))
    ensures OptimisticRow(s, p).dataVerificada.None?
    ensures OptimisticRow(s, p).status == PENDENTE
  {
  }

  /**
   * Had the server received the `undefined` date, it would keep the date
   * the cached row has dropped, while the statuses still agree.
   */
  lemma ClearedDateDivergesFromServer(s: Sala, p: SalaPatch, parse: string -> int, now: int)
    requires p.dataVerificada.Undefined?
    ensures CorrectedOptimisticRow(s, p).dataVerificada.None?
    ensures StoredRow(s, p, parse, now).dataVerificada == s.dataVerificada
    ensures CorrectedOptimisticRow(s, p).status == StoredRow(s, p, parse, now).status
  {
  }

  /**
   * Over a plain JSON body the `undefined` date never reaches the server:
   * it keeps the date and stores the statuses the rules give on it, and a
   * room without notes or second date that the client shows PENDENTE is
   * stored VERIFICADA.
   */
  lemma ClearLostOverJson(s: Sala, p: SalaPatch, parse: string -> int, now: int)
    requires p.dataVerificada.Undefined?
    ensures var stored := StoredRow(s, Routers.JsonTransport(p), parse, now);
      && stored.dataVerificada == s.dataVerificada
      && stored.status == CalculateRoomStatus(stored)
    ensures WhenTruthy(s.dataVerificada) && !HasNotes(ApplyPatch(s, p))
            && !WhenTruthy(ApplyPatch(s, p).dataVerificacao2) ==>
      && CorrectedOptimisticRow(s, p).status == PENDENTE
      && StoredRow(s, Routers.JsonTransport(p), parse, now).status == VERIFICADA
  {
  }

  /** The query cache of the room list, as the data hub tab updates it. */
  class SalasCache {
    /** The cached rooms; `None` before the first fetch. */
    var data: Option<seq<Sala>>
    /** The cache was invalidated and will be refetched. */
    var stale: bool

    constructor(initial: Option<seq<Sala>>)
      ensures data == initial && !stale
    {
      data := initial;
      stale := false;
    }

    /** `onMutate`: snapshot the list, then patch the row being updated (nothing to patch before the first fetch). */
    method OnMutate(id: int, p: SalaPatch) returns (previous: Option<seq<Sala>>)
      modifies this`data
      ensures previous == old(data)
      ensures old(data).None? ==> data.None?
      ensures old(data).Some? ==> data == Some(OptimisticRows(old(data).value, id, p))
    {
      previous := data;
      if data.Some? {
        data := Some(OptimisticRows(data.value, id, p));
      }
    }

    /** `onError`: put the snapshot back when there was one. */
    method OnError(previous: Option<seq<Sala>>)
      modifies this`data
      ensures previous.Some? ==> data == previous
      ensures previous.None? ==> data == old(data)
    {
      if previous.Some? {
        data := previous;
      }
    }

    /** `onSettled`: refetch in every case. */
    method OnSettled()
      modifies this`stale
      ensures stale
    {
      stale := true;
    }

    /** An update the server rejects: the list ends as it was before the update. */
    method FailedUpdate(id: int, p: SalaPatch)
      modifies this`data, this`stale
      ensures data == old(data) && stale
    {
      var previous := OnMutate(id, p);
      OnError(previous);
      OnSettled();
    }
  }

  // ---------------------------------------------------------------------
  // Room table
  // ---------------------------------------------------------------------

  /** One of the room's name, building, floor or number contains the search, ignoring letter case. */
  predicate SalaMatches(s: Sala, search: string)
  {
    var q := Lower(search);
    Contains(Lower(s.nome), q) || Contains(Lower(s.edificacao), q)
    || Contains(Lower(s.pavimento), q) || Contains(Lower(s.numeroSala), q)
  }

  function SalaKey(s: Sala): Key
  {
    Key(NumberInText(s.numeroSala), 0, s.nome)
  }

  /** sortedSalas: the matching rooms by room number, then by name. */
  function SortedSalas(salas: seq<Sala>, search: string): seq<Sala>
  {
    SortBy(Filter(salas, s => SalaMatches(s, search)), SalaKey)
  }

  /**
   * The room table holds each matching room as often as the list does and
   * nothing else, in ascending room number, ties by name, and rooms with
   * the same number and name in list order.
   */
  lemma SortedSalasCorrect(salas: seq<Sala>, search: string)
    ensures multiset(SortedSalas(salas, search)) == multiset(Filter(salas, s => SalaMatches(s, search)))
    ensures forall x :: x in SortedSalas(salas, search) <==> x in salas && SalaMatches(x, search)
    ensures forall i, j :: 0 <= i < j < |SortedSalas(salas, search)| ==>
      NumberInText(SortedSalas(salas, search)[i].numeroSala) <= NumberInText(SortedSalas(salas, search)[j].numeroSala)
    ensures forall i, j ::
      (0 <= i < j < |SortedSalas(salas, search)| &&
       NumberInText(SortedSalas(salas, search)[i].numeroSala) == NumberInText(SortedSalas(salas, search)[j].numeroSala)) ==>
      !StrLt(SortedSalas(salas, search)[j].nome, SortedSalas(salas, search)[i].nome)
    ensures forall k ::
      WithKey(SortedSalas(salas, search), SalaKey, k) == WithKey(Filter(salas, s => SalaMatches(s, search)), SalaKey, k)
  {
    var f := Filter(salas, s => SalaMatches(s, search));
    SortByCorrect(f, SalaKey);
    SortByStableAll(f, SalaKey);
    var r := SortedSalas(salas, search);
    forall x ensures x in r <==> x in f {
      assert x in r <==> x in multiset(r);
      assert x in f <==> x in multiset(f);
    }
  }

  // ---------------------------------------------------------------------
  // Issue table
  // ---------------------------------------------------------------------

  /**
   * The issue's room, discipline, divergence or building contains the
   * search, and the company filter is "Todos" or equals its responsible.
   */
  predicate ApontamentoMatches(a: Apontamento, search: string, responsavelFilter: string)
  {
    var q := Lower(search);
    (Contains(Lower(a.sala), q) || Contains(Lower(a.disciplina), q)
     || Contains(Lower(OrElse(a.divergencia, "")), q) || Contains(Lower(a.edificacao), q))
    && (responsavelFilter == "Todos" || a.responsavel == Some(responsavelFilter))
  }

  /** Newest first, then the highest issue number first. */
  function ApontamentoKey(a: Apontamento): Key
  {
    Key(-a.data, -a.numeroApontamento, "")
  }

  function SortedApontamentos(aps: seq<Apontamento>, search: string, responsavelFilter: string): seq<Apontamento>
  {
    SortBy(Filter(aps, a => ApontamentoMatches(a, search, responsavelFilter)), ApontamentoKey)
  }

  /**
   * The issue table holds the matching issues, newest first, and among
   * issues of the same date the highest number first; with "Todos" the
   * company does not matter.
   */
  lemma SortedApontamentosCorrect(aps: seq<Apontamento>, search: string, responsavelFilter: string)
    ensures multiset(SortedApontamentos(aps, search, responsavelFilter))
         == multiset(Filter(aps, a => ApontamentoMatches(a, search, responsavelFilter)))
    ensures forall x :: x in SortedApontamentos(aps, search, responsavelFilter) ==>
      responsavelFilter == "Todos" || x.responsavel == Some(responsavelFilter)
    ensures forall i, j :: 0 <= i < j < |SortedApontamentos(aps, search, responsavelFilter)| ==>
      SortedApontamentos(aps, search, responsavelFilter)[i].data >= SortedApontamentos(aps, search, responsavelFilter)[j].data
    ensures forall i, j ::
      (0 <= i < j < |SortedApontamentos(aps, search, responsavelFilter)| &&
       SortedApontamentos(aps, search, responsavelFilter)[i].data == SortedApontamentos(aps, search, responsavelFilter)[j].data) ==>
      SortedApontamentos(aps, search, responsavelFilter)[i].numeroApontamento
        >= SortedApontamentos(aps, search, responsavelFilter)[j].numeroApontamento
  {
    var f := Filter(aps, a => ApontamentoMatches(a, search, responsavelFilter));
    SortByCorrect(f, ApontamentoKey);
    var r := SortedApontamentos(aps, search, responsavelFilter);
    forall x | x in r ensures responsavelFilter == "Todos" || x.responsavel == Some(responsavelFilter) {
      assert x in multiset(r);
      assert x in f;
    }
  }
}
