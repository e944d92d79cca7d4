/**
 * The dashboard's read-side computations on the server: room colours for
 * the 3D view, the status distribution, the KPI counters and the
 * delivery counters.
 */
module Stats {
  import opened Common
  import opened Text
  import opened Records
  import opened Automation

  const GREEN := "#22C55E"
  const AMBER := "#EAB308"
  const RED := "#EF4444"
  const GREY := "#9CA3AF"
  const ORANGE := "#F59E0B"

  /** The number of issues filed against the room named `nome`. */
  function IssueCount(aps: seq<Apontamento>, nome: string): (n: nat)
    ensures n <= |aps|
  {
    if |aps| == 0 then 0
    else IssueCount(aps[..|aps| - 1], nome) + (if aps[|aps| - 1].sala == nome then 1 else 0)
  }

  lemma IssueCountPositive(aps: seq<Apontamento>, nome: string)
    ensures IssueCount(aps, nome) > 0 <==> exists a :: a in aps && a.sala == nome
  {
    if |aps| > 0 {
      IssueCountPositive(aps[..|aps| - 1], nome);
      SplitLast(aps);
    }
  }

  // ---------------------------------------------------------------------
  // Room colours
  // ---------------------------------------------------------------------

  predicate NamesVerified(st: string) { Contains(st, "VERIFICADA") }
  predicate NamesReview(st: string) { Contains(st, "REVISÃO") || Contains(st, "REVISAR") }
  predicate NamesCritical(st: string) { Contains(st, "CRÍTICO") }

  /**
   * The colour getAllRoomsWithColors gives a room: the (upper-cased)
   * status decides first (verified, then review, then critical); only then
   * does the issue count make it red (over 10) or orange (1 to 10).
   */
  function RoomColor(status: string, count: nat): (c: string)
    ensures c in {GREEN, AMBER, RED, ORANGE, GREY}
    ensures c == GREEN <==> NamesVerified(Upper(status))
    ensures c == AMBER <==> !NamesVerified(Upper(status)) && NamesReview(Upper(status))
    ensures c == ORANGE <==> !NamesVerified(Upper(status)) && !NamesReview(Upper(status))
                               && !NamesCritical(Upper(status)) && 0 < count <= 10
    ensures c == GREY <==> !NamesVerified(Upper(status)) && !NamesReview(Upper(status))
                             && !NamesCritical(Upper(status)) && count == 0
  {
    var st := Upper(status);
    if NamesVerified(st) then GREEN
    else if NamesReview(st) then AMBER
    else if NamesCritical(st) || count > 10 then RED
    else if count > 0 then ORANGE
    else GREY
  }

  /** A room as the 3D view receives it: the row, its colour and its issue count. */
  datatype ColoredRoom = ColoredRoom(sala: Sala, color: string, numApontamentos: nat)

  /** getAllRoomsWithColors: every room, in table order, with its colour and issue count. */
  function AllRoomsWithColors(rooms: seq<Sala>, aps: seq<Apontamento>): (r: seq<ColoredRoom>)
    ensures |r| == |rooms|
    ensures forall k :: 0 <= k < |rooms| ==>
      r[k].sala == rooms[k]
      && r[k].numApontamentos == IssueCount(aps, rooms[k].nome)
      && r[k].color == RoomColor(rooms[k].status, IssueCount(aps, rooms[k].nome))
  {
    seq(|rooms|, k requires 0 <= k < |rooms| =>
      var n := IssueCount(aps, rooms[k].nome);
      ColoredRoom(rooms[k], RoomColor(rooms[k].status, n), n))
  }

  /** getSalaByNome: the first room with that name. */
  function FindByName(rooms: seq<Sala>, nome: string): (r: Option<Sala>)
    ensures r.Some? ==> r.value in rooms && r.value.nome == nome
    ensures r.None? ==> forall s :: s in rooms ==> s.nome != nome
  {
    if |rooms| == 0 then None
    else if rooms[0].nome == nome then Some(rooms[0])
    else FindByName(rooms[1..], nome)
  }

  /**
   * getRoomStatusColor: an unknown room is grey; more than 10 issues make
   * it red whatever its status; then the status decides, with no orange.
   */
  function RoomStatusColor(rooms: seq<Sala>, aps: seq<Apontamento>, nome: string): (c: string)
    ensures c in {GREEN, AMBER, RED, GREY}
    ensures FindByName(rooms, nome).None? ==> c == GREY
    ensures FindByName(rooms, nome).Some? && IssueCount(aps, nome) > 10 ==> c == RED
    ensures FindByName(rooms, nome).Some? && IssueCount(aps, nome) <= 10 ==>
      var st := Upper(FindByName(rooms, nome).value.status);
      && (c == GREEN <==> NamesVerified(st))
      && (c == AMBER <==> !NamesVerified(st) && NamesReview(st))
      && (c == GREY <==> !NamesVerified(st) && !NamesReview(st) && !NamesCritical(st))
  {
    var sala := FindByName(rooms, nome);
    if sala.None? then GREY
    else if IssueCount(aps, nome) > 10 then RED
    else
      var st := Upper(sala.value.status);
      if NamesVerified(st) then GREEN
      else if NamesReview(st) then AMBER
      else if NamesCritical(st) then RED
      else GREY
  }

  /**
   * The two colour rules agree on a known room with no issues, and with 1 to
   * 10 issues whenever its status names a state; they part where the count
   * matters: over 10 issues, or 1-10 issues with an unrecognised status.
   */
  lemma ColourRulesAgree(rooms: seq<Sala>, aps: seq<Apontamento>, nome: string)
    requires FindByName(rooms, nome).Some?
    requires var st := Upper(FindByName(rooms, nome).value.status);
      IssueCount(aps, nome) == 0
      || (IssueCount(aps, nome) <= 10 && (NamesVerified(st) || NamesReview(st) || NamesCritical(st)))
    ensures RoomStatusColor(rooms, aps, nome) == RoomColor(FindByName(rooms, nome).value.status, IssueCount(aps, nome))
  {
  }

  /**
   * A known room with 1 to 10 issues whose status names no state is grey in
   * getRoomStatusColor, which has no orange, and orange in the 3D view.
   */
  lemma ColourRulesDisagreeUnrecognised(rooms: seq<Sala>, aps: seq<Apontamento>, nome: string)
    requires FindByName(rooms, nome).Some? && 0 < IssueCount(aps, nome) <= 10
    requires var st := Upper(FindByName(rooms, nome).value.status);
      !NamesVerified(st) && !NamesReview(st) && !NamesCritical(st)
    ensures RoomStatusColor(rooms, aps, nome) == GREY
    ensures RoomColor(FindByName(rooms, nome).value.status, IssueCount(aps, nome)) == ORANGE
  {
  }

  /** A verified room with 11 issues is green in the 3D view and red in getRoomStatusColor. */
  lemma ColourRulesDisagreeOverTen(rooms: seq<Sala>, aps: seq<Apontamento>, nome: string)
    requires FindByName(rooms, nome).Some? && FindByName(rooms, nome).value.status == "VERIFICADA"
    requires IssueCount(aps, nome) == 11
    ensures RoomColor(FindByName(rooms, nome).value.status, IssueCount(aps, nome)) == GREEN
    ensures RoomStatusColor(rooms, aps, nome) == RED
  {
    assert Upper("VERIFICADA") == "VERIFICADA";
    ContainsItself("VERIFICADA");
  }

  // ---------------------------------------------------------------------
  // Building filter
  // ---------------------------------------------------------------------

  /** `if (edificacao) query.where(edificacao = ?)`: an empty or missing filter keeps every row. */
  function RoomsIn(rooms: seq<Sala>, edificacao: Option<string>): (r: seq<Sala>)
    ensures forall s :: s in r <==> s in rooms && (!Truthy(edificacao) || s.edificacao == edificacao.value)
    ensures !Truthy(edificacao) ==> r == rooms
  {
    if |rooms| == 0 then []
    else (if !Truthy(edificacao) || rooms[0].edificacao == edificacao.value then [rooms[0]] else [])
         + RoomsIn(rooms[1..], edificacao)
  }

  function IssuesIn(aps: seq<Apontamento>, edificacao: Option<string>): (r: seq<Apontamento>)
    ensures forall a :: a in r <==> a in aps && (!Truthy(edificacao) || a.edificacao == edificacao.value)
    ensures !Truthy(edificacao) ==> r == aps
  {
    if |aps| == 0 then []
    else (if !Truthy(edificacao) || aps[0].edificacao == edificacao.value then [aps[0]] else [])
         + IssuesIn(aps[1..], edificacao)
  }

  // ---------------------------------------------------------------------
  // Issues per room
  // ---------------------------------------------------------------------

  /**
   * The `issuesPerRoom` map: one entry per room name that has issues,
   * holding how many it has.
   */
  method CountIssuesPerRoom(aps: seq<Apontamento>) returns (m: map<string, nat>)
    ensures forall n :: n in m <==> IssueCount(aps, n) > 0
    ensures forall n :: n in m ==> m[n] == IssueCount(aps, n)
  {
    m := map[];
    var i := 0;
    while i < |aps|
      invariant 0 <= i <= |aps|
      invariant forall n :: n in m <==> IssueCount(aps[..i], n) > 0
      invariant forall n :: n in m ==> m[n] == IssueCount(aps[..i], n)
    {
      var a := aps[i];
      assert aps[..i + 1][..i] == aps[..i];
      m := m[a.sala := (if a.sala in m then m[a.sala] else 0) + 1];
      i := i + 1;
    }
    assert aps[..i] == aps;
  }

  // ---------------------------------------------------------------------
  // Status distribution (getStatsStatus)
  // ---------------------------------------------------------------------

  datatype Bucket = Verificada | Revisar | Critico | Pendente

  /** A room's bucket: over 10 issues first, then its trimmed, upper-cased status. */
  function BucketOf(status: string, count: nat): Bucket
  {
    var st := Upper(Trim(status));
    if count > 10 then Critico
    else if st == "VERIFICADA" then Verificada
    else if st == "EM REVISÃO" || st == "REVISAR" then Revisar
    else Pendente
  }

  /** The number of rooms falling in bucket `b`. */
  function InBucket(rooms: seq<Sala>, aps: seq<Apontamento>, b: Bucket): (n: nat)
    ensures n <= |rooms|
  {
    if |rooms| == 0 then 0
    else InBucket(rooms[..|rooms| - 1], aps, b)
         + (if BucketOf(rooms[|rooms| - 1].status, IssueCount(aps, rooms[|rooms| - 1].nome)) == b then 1 else 0)
  }

  /** Counting one more room adds one to its own bucket and nothing to the others. */
  lemma InBucketStep(rooms: seq<Sala>, aps: seq<Apontamento>, i: nat, b: Bucket)
    requires i < |rooms| && b == BucketOf(rooms[i].status, IssueCount(aps, rooms[i].nome))
    ensures InBucket(rooms[..i + 1], aps, Verificada) == InBucket(rooms[..i], aps, Verificada) + (if b == Verificada then 1 else 0)
    ensures InBucket(rooms[..i + 1], aps, Revisar) == InBucket(rooms[..i], aps, Revisar) + (if b == Revisar then 1 else 0)
    ensures InBucket(rooms[..i + 1], aps, Critico) == InBucket(rooms[..i], aps, Critico) + (if b == Critico then 1 else 0)
    ensures InBucket(rooms[..i + 1], aps, Pendente) == InBucket(rooms[..i], aps, Pendente) + (if b == Pendente then 1 else 0)
  {
    assert rooms[..i + 1][..i] == rooms[..i];
  }

  /** Every room falls in exactly one bucket. */
  lemma {:induction false} BucketsPartition(rooms: seq<Sala>, aps: seq<Apontamento>)
    ensures InBucket(rooms, aps, Verificada) + InBucket(rooms, aps, Revisar)
          + InBucket(rooms, aps, Critico) + InBucket(rooms, aps, Pendente) == |rooms|
  {
    if |rooms| > 0 {
      BucketsPartition(rooms[..|rooms| - 1], aps);
    }
  }

  /** A status computed by the server rule lands in its own bucket when the room has at most 10 issues. */
  lemma ComputedStatusBucket(s: Sala, count: nat)
    requires count <= 10
    ensures CalculateRoomStatus(s) == VERIFICADA ==> BucketOf(CalculateRoomStatus(s), count) == Verificada
    ensures CalculateRoomStatus(s) == REVISAR ==> BucketOf(CalculateRoomStatus(s), count) == Revisar
    ensures CalculateRoomStatus(s) == PENDENTE ==> BucketOf(CalculateRoomStatus(s), count) == Pendente
  {
    StatusTextKept(CalculateRoomStatus(s));
  }

  /** The three statuses the rule writes are upper case with no surrounding space. */
  lemma StatusTextKept(st: string)
    requires st == VERIFICADA || st == REVISAR || st == PENDENTE
    ensures Upper(Trim(st)) == st
  {
    assert forall i :: 0 <= i < |st| ==> 'A' <= st[i] <= 'Z';
    assert Trimmed(st);
  }

  datatype StatusCount = StatusCount(status: string, count: nat, color: string)

  /** `issuesPerRoom.get(sala.nome) || 0`: the map holds the issue count of every name with issues. */
  function RoomIssueCount(aps: seq<Apontamento>, issuesPerRoom: map<string, nat>, nome: string): (n: nat)
    requires forall n :: n in issuesPerRoom <==> IssueCount(aps, n) > 0
    requires forall n :: n in issuesPerRoom ==> issuesPerRoom[n] == IssueCount(aps, n)
    ensures n == IssueCount(aps, nome)
  {
    if nome in issuesPerRoom then issuesPerRoom[nome] else 0
  }

  /** The body of the loop of getStatsStatus: one room adds one to the counter of its bucket. */
  method TallyRoom(roomStatus: string, count: nat, verificada: nat, revisar: nat, critico: nat, pendente: nat)
    returns (verificada': nat, revisar': nat, critico': nat, pendente': nat)
    ensures verificada' == verificada + (if BucketOf(roomStatus, count) == Verificada then 1 else 0)
    ensures revisar' == revisar + (if BucketOf(roomStatus, count) == Revisar then 1 else 0)
    ensures critico' == critico + (if BucketOf(roomStatus, count) == Critico then 1 else 0)
    ensures pendente' == pendente + (if BucketOf(roomStatus, count) == Pendente then 1 else 0)
  {
    verificada', revisar', critico', pendente' := verificada, revisar, critico, pendente;
    var status := Upper(Trim(roomStatus));
    if count > 10 {
      critico' := critico + 1;
    } else if status == "VERIFICADA" {
      verificada' := verificada + 1;
    } else if status == "EM REVISÃO" || status == "REVISAR" {
      revisar' := revisar + 1;
    } else {
      pendente' := pendente + 1;
    }
  }

  /** The loop of getStatsStatus: each room's count is read from the issues-per-room map. */
  method TallyBuckets(rooms: seq<Sala>, aps: seq<Apontamento>, issuesPerRoom: map<string, nat>)
    returns (verificada: nat, revisar: nat, critico: nat, pendente: nat)
    requires forall n :: n in issuesPerRoom <==> IssueCount(aps, n) > 0
    requires forall n :: n in issuesPerRoom ==> issuesPerRoom[n] == IssueCount(aps, n)
    ensures verificada == InBucket(rooms, aps, Verificada)
    ensures revisar == InBucket(rooms, aps, Revisar)
    ensures critico == InBucket(rooms, aps, Critico)
    ensures pendente == InBucket(rooms, aps, Pendente)
  {
    verificada, revisar, pendente, critico := 0, 0, 0, 0;
    var i := 0;
    while i < |rooms|
      invariant 0 <= i <= |rooms|
      invariant verificada == InBucket(rooms[..i], aps, Verificada)
      invariant revisar == InBucket(rooms[..i], aps, Revisar)
      invariant critico == InBucket(rooms[..i], aps, Critico)
      invariant pendente == InBucket(rooms[..i], aps, Pendente)
    {
      var room := rooms[i];
      var count := RoomIssueCount(aps, issuesPerRoom, room.nome);
      InBucketStep(rooms, aps, i, BucketOf(room.status, count));
      verificada, revisar, critico, pendente := TallyRoom(room.status, count, verificada, revisar, critico, pendente);
      i := i + 1;
    }
    assert rooms[..i] == rooms;
  }

  /**
   * getStatsStatus: how many rooms (of a building, when one is given) are
   * verified, in review, critical or pending; the four counts cover every
   * room exactly once.
   */
  method GetStatsStatus(allRooms: seq<Sala>, allIssues: seq<Apontamento>, edificacao: Option<string>)
    returns (stats: seq<StatusCount>)
    ensures var rooms := RoomsIn(allRooms, edificacao);
      var aps := IssuesIn(allIssues, edificacao);
      && stats == [StatusCount("Verificada", InBucket(rooms, aps, Verificada), GREEN),
                   StatusCount("Revisar", InBucket(rooms, aps, Revisar), AMBER),
                   StatusCount("Crítico", InBucket(rooms, aps, Critico), RED),
                   StatusCount("Pendente", InBucket(rooms, aps, Pendente), GREY)]
      && stats[0].count + stats[1].count + stats[2].count + stats[3].count == |rooms|
  {
    var rooms := RoomsIn(allRooms, edificacao);
    var aps := IssuesIn(allIssues, edificacao);
    var issuesPerRoom := CountIssuesPerRoom(aps);
    var verificada, revisar, critico, pendente := TallyBuckets(rooms, aps, issuesPerRoom);
    BucketsPartition(rooms, aps);
    stats := [StatusCount("Verificada", verificada, GREEN), StatusCount("Revisar", revisar, AMBER),
              StatusCount("Crítico", critico, RED), StatusCount("Pendente", pendente, GREY)];
  }

  // ---------------------------------------------------------------------
  // KPIs
  // ---------------------------------------------------------------------

  /** The KPI test for a verified room: its trimmed, upper-cased status is VERIFICADA, REVISAR or EM REVISÃO. */
  predicate CountsAsVerified(s: Sala)
  {
    var st := Upper(Trim(s.status));
    st == "VERIFICADA" || st == "REVISAR" || st == "EM REVISÃO"
  }

  /** The KPI test for a released room: its trimmed, upper-cased statusRA mentions LIBERADO. */
  predicate CountsAsReleased(s: Sala)
  {
    s.statusRA.Some? && var st := Upper(Trim(s.statusRA.value)); st != "" && Contains(st, "LIBERADO")
  }

  function CountVerified(rooms: seq<Sala>): (n: nat)
    ensures n <= |rooms|
  {
    if |rooms| == 0 then 0
    else CountVerified(rooms[..|rooms| - 1]) + (if CountsAsVerified(rooms[|rooms| - 1]) then 1 else 0)
  }

  function CountReleased(rooms: seq<Sala>): (n: nat)
    ensures n <= |rooms|
  {
    if |rooms| == 0 then 0
    else CountReleased(rooms[..|rooms| - 1]) + (if CountsAsReleased(rooms[|rooms| - 1]) then 1 else 0)
  }

  /** A statusRA written by the server rule is counted as released exactly when the rule released the room. */
  lemma ReleasedKpiMatchesRule(s: Sala)
    requires s.statusRA == Some(CalculateStatusRA(s))
    ensures CountsAsReleased(s) <==> CalculateStatusRA(s) == LIBERADO
  {
    StatusRATextKept(CalculateStatusRA(s));
    if CalculateStatusRA(s) == LIBERADO {
      assert "LIBERADO" <= LIBERADO[0..];
    }
  }

  /** The two statusRA texts the rule writes are upper case with no surrounding space. */
  lemma StatusRATextKept(st: string)
    requires st == LIBERADO || st == PENDENTE
    ensures Upper(Trim(st)) == st
  {
    assert forall i :: 0 <= i < |st| ==> 'A' <= st[i] <= 'Z' || st[i] == ' ';
    assert Trimmed(st);
  }

  /** A status written by the server rule counts as verified for the KPI unless it is PENDENTE. */
  lemma VerifiedKpiMatchesRule(s: Sala)
    requires s.status == CalculateRoomStatus(s)
    ensures CountsAsVerified(s) <==> CalculateRoomStatus(s) != PENDENTE
  {
    StatusTextKept(CalculateRoomStatus(s));
  }

  /** The room names that more than 10 issues are filed against. */
  function CriticalNames(aps: seq<Apontamento>): (r: set<string>)
    ensures forall n :: n in r <==> IssueCount(aps, n) > 10
  {
    var r := set a | a in aps && IssueCount(aps, a.sala) > 10 :: a.sala;
    assert forall n :: IssueCount(aps, n) > 10 ==> n in r by {
      forall n | IssueCount(aps, n) > 10 ensures n in r {
        IssueCountPositive(aps, n);
      }
    }
    r
  }

  lemma CriticalFromMap(aps: seq<Apontamento>, m: map<string, nat>, keys: set<string>)
    requires keys == m.Keys
    requires forall n :: n in m <==> IssueCount(aps, n) > 0
    requires forall n :: n in m ==> m[n] == IssueCount(aps, n)
    ensures (set n | n in keys && m[n] > 10) == CriticalNames(aps)
  {
  }

  /** The keys among `keys` whose count is above 10. */
  function OverTen(m: map<string, nat>, keys: set<string>): set<string>
    requires keys <= m.Keys
  {
    set n | n in keys && m[n] > 10
  }

  /** Visiting one more key adds it to the set exactly when its count is above 10. */
  lemma OverTenStep(m: map<string, nat>, seen: set<string>, n: string)
    requires seen <= m.Keys && n in m && n !in seen
    ensures m[n] > 10 ==> |OverTen(m, seen + {n})| == |OverTen(m, seen)| + 1
    ensures m[n] <= 10 ==> |OverTen(m, seen + {n})| == |OverTen(m, seen)|
  {
    if m[n] > 10 {
      assert OverTen(m, seen + {n}) == OverTen(m, seen) + {n};
    } else {
      assert OverTen(m, seen + {n}) == OverTen(m, seen);
    }
  }

  /** `issuesPerRoom.forEach(count => if (count > 10) salasCriticas++)`. */
  method CountOverTen(m: map<string, nat>) returns (c: nat)
    ensures c == |set n | n in m.Keys && m[n] > 10|
  {
    c := 0;
    var pending := m.Keys;
    ghost var seen: set<string> := {};
    while pending != {}
      invariant pending + seen == m.Keys && pending !! seen
      invariant c == |OverTen(m, seen)|
      decreases |pending|
    {
      var n :| n in pending;
      OverTenStep(m, seen, n);
      if m[n] > 10 {
        c := c + 1;
      }
      pending := pending - {n};
      seen := seen + {n};
    }
  }

  datatype Kpis = Kpis(totalSalas: nat, salasVerificadas: nat, salasLiberadas: nat,
                       totalApontamentos: nat, salasCriticas: nat)

  /**
   * getKPIs (the counters; the percentages are left out): rooms, verified
   * rooms, released rooms, issues, and critical room names, i.e. names
   * that more than 10 issues are filed against.
   */
  method GetKPIs(allRooms: seq<Sala>, allIssues: seq<Apontamento>, edificacao: Option<string>) returns (k: Kpis)
    ensures var rooms := RoomsIn(allRooms, edificacao);
      var aps := IssuesIn(allIssues, edificacao);
      && k.totalSalas == |rooms|
      && k.salasVerificadas == CountVerified(rooms) <= k.totalSalas
      && k.salasLiberadas == CountReleased(rooms) <= k.totalSalas
      && k.totalApontamentos == |aps|
      && k.salasCriticas == |CriticalNames(aps)|
  {
    var rooms := RoomsIn(allRooms, edificacao);
    var aps := IssuesIn(allIssues, edificacao);
    var issuesPerRoom := CountIssuesPerRoom(aps);
    var salasCriticas := CountOverTen(issuesPerRoom);
    CriticalFromMap(aps, issuesPerRoom, issuesPerRoom.Keys);
    k := Kpis(|rooms|, CountVerified(rooms), CountReleased(rooms), |aps|, salasCriticas);
  }

  // ---------------------------------------------------------------------
  // Delivery counters (getEntregasStats)
  // ---------------------------------------------------------------------

  const DeliveryStatuses: seq<string> := ["AGUARDANDO", "RECEBIDO", "EM_REVISAO", "VALIDADO", "REJEITADO"]

  function EntregasIn(es: seq<Entrega>, edificacao: Option<string>): (r: seq<Entrega>)
    ensures forall e :: e in r <==> e in es && (!Truthy(edificacao) || e.edificacao == edificacao.value)
  {
    if |es| == 0 then []
    else (if !Truthy(edificacao) || es[0].edificacao == edificacao.value then [es[0]] else [])
         + EntregasIn(es[1..], edificacao)
  }

  /** `new Date(e.dataPrevista) < now` for a stored date; a date still in text form is not compared. */
  predicate DueBefore(e: Entrega, now: int)
  {
    e.dataPrevista.Stamp? && e.dataPrevista.ms < now
  }

  /** Late: still awaited and due before now. */
  predicate IsLate(e: Entrega, now: int)
  {
    e.status == "AGUARDANDO" && DueBefore(e, now)
  }

  function CountStatus(es: seq<Entrega>, status: string): (n: nat)
    ensures n <= |es|
  {
    if |es| == 0 then 0 else CountStatus(es[..|es| - 1], status) + (if es[|es| - 1].status == status then 1 else 0)
  }

  function CountLate(es: seq<Entrega>, now: int): (n: nat)
    ensures n <= |es|
  {
    if |es| == 0 then 0 else CountLate(es[..|es| - 1], now) + (if IsLate(es[|es| - 1], now) then 1 else 0)
  }

  datatype EntregasStats = EntregasStats(total: nat, aguardando: nat, recebidos: nat, emRevisao: nat,
                                         validados: nat, rejeitados: nat, atrasados: nat)

  /**
   * The delivery counters of a building (or of all buildings): the five
   * status counters never exceed the total and add up to it when every
   * delivery has one of the five statuses, and the late deliveries are
   * among the awaited ones.
   */
  function GetEntregasStats(all: seq<Entrega>, edificacao: Option<string>, now: int): (r: EntregasStats)
    ensures r.total == |EntregasIn(all, edificacao)|
    ensures r.aguardando + r.recebidos + r.emRevisao + r.validados + r.rejeitados <= r.total
    ensures (forall e :: e in EntregasIn(all, edificacao) ==> e.status in DeliveryStatuses) ==>
              r.aguardando + r.recebidos + r.emRevisao + r.validados + r.rejeitados == r.total
    ensures r.atrasados <= r.aguardando
  {
    var es := EntregasIn(all, edificacao);
    EntregasStatsConsistent(es, now);
    EntregasStats(|es|, CountStatus(es, "AGUARDANDO"), CountStatus(es, "RECEBIDO"), CountStatus(es, "EM_REVISAO"),
                  CountStatus(es, "VALIDADO"), CountStatus(es, "REJEITADO"), CountLate(es, now))
  }

  /**
   * The five status counters never exceed the total, and add up to it when
   * every delivery has one of the five statuses; late deliveries are among
   * the awaited ones.
   */
  lemma {:induction false} EntregasStatsConsistent(es: seq<Entrega>, now: int)
    ensures CountStatus(es, "AGUARDANDO") + CountStatus(es, "RECEBIDO") + CountStatus(es, "EM_REVISAO")
          + CountStatus(es, "VALIDADO") + CountStatus(es, "REJEITADO") <= |es|
    ensures (forall e :: e in es ==> e.status in DeliveryStatuses) ==>
              (CountStatus(es, "AGUARDANDO") + CountStatus(es, "RECEBIDO") + CountStatus(es, "EM_REVISAO")
               + CountStatus(es, "VALIDADO") + CountStatus(es, "REJEITADO") == |es|)
    ensures CountLate(es, now) <= CountStatus(es, "AGUARDANDO")
  {
    if |es| > 0 {
      var init := es[..|es| - 1];
      EntregasStatsConsistent(init, now);
      assert forall e :: e in init ==> e in es;
    }
  }
}
