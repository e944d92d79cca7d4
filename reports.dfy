/**
 * The report generator: which issues the divergence report lists and in
 * what order, the pages of the two PDF reports, the image slots of a page,
 * and the rows of the room sheet of the spreadsheet export.
 */
module Reports {
  import opened Common
  import opened Text
  import opened Records
  import opened Automation
  import opened Ordering

  // ---------------------------------------------------------------------
  // Divergence report rows
  // ---------------------------------------------------------------------

  /** An issue joined with its room (`apontamentos inner join salas on sala = nome`). */
  datatype ReportItem = ReportItem(apontamento: Apontamento, numeroSala: string, salaNome: string,
                                   imagemPlantaUrl: Option<string>)

  /** The report's optional filters. */
  datatype ReportFilters = ReportFilters(edificacao: Option<string>, disciplina: Option<string>,
                                         responsavel: Option<string>, sala: Option<string>)

  /** The inner join: for each issue, in order, one item per room of that name. */
  function Joined(aps: seq<Apontamento>, salas: seq<Sala>): seq<ReportItem>
  {
    if |aps| == 0 then []
    else
      JoinedOne(aps[0], salas) + Joined(aps[1..], salas)
  }

  function JoinedOne(a: Apontamento, salas: seq<Sala>): (r: seq<ReportItem>)
    ensures forall x :: x in r ==> x.apontamento == a
  {
    if |salas| == 0 then []
    else
      (if salas[0].nome == a.sala then [ItemOf(a, salas[0])] else [])
      + JoinedOne(a, salas[1..])
  }

  function ItemOf(a: Apontamento, s: Sala): ReportItem
  {
    ReportItem(a, s.numeroSala, s.nome, s.imagemPlantaUrl)
  }

  /** An item is in the join exactly when it pairs an issue with a room of the issue's room name. */
  lemma {:induction false} JoinedCorrect(aps: seq<Apontamento>, salas: seq<Sala>, x: ReportItem)
    ensures x in Joined(aps, salas) <==>
      exists a, s :: a in aps && s in salas && s.nome == a.sala && x == ItemOf(a, s)
  {
    if |aps| > 0 {
      JoinedCorrect(aps[1..], salas, x);
      JoinedOneCorrect(aps[0], salas, x);
      if x in Joined(aps, salas) {
        if x in JoinedOne(aps[0], salas) {
          var s :| s in salas && s.nome == aps[0].sala && x == ItemOf(aps[0], s);
          assert aps[0] in aps;
        } else {
          assert x in Joined(aps[1..], salas);
          var a, s :| a in aps[1..] && s in salas && s.nome == a.sala && x == ItemOf(a, s);
          assert a in aps;
        }
      }
      if exists a, s :: a in aps && s in salas && s.nome == a.sala && x == ItemOf(a, s) {
        var a, s :| a in aps && s in salas && s.nome == a.sala && x == ItemOf(a, s);
        if a != aps[0] {
          assert a in aps[1..];
        }
      }
    }
  }

  lemma {:induction false} JoinedOneCorrect(a: Apontamento, salas: seq<Sala>, x: ReportItem)
    ensures x in JoinedOne(a, salas) <==> exists s :: s in salas && s.nome == a.sala && x == ItemOf(a, s)
  {
    if |salas| > 0 {
      JoinedOneCorrect(a, salas[1..], x);
      if exists s :: s in salas && s.nome == a.sala && x == ItemOf(a, s) {
        var s :| s in salas && s.nome == a.sala && x == ItemOf(a, s);
        if s != salas[0] {
          assert s in salas[1..];
        }
      }
    }
  }

  /** A filter value is in force: it is set, non-empty, and not the "all" sentinel. */
  predicate InForce(f: Option<string>, all: string)
  {
    Truthy(f) && f.value != all
  }

  /** The item passes every filter in force; the room search ignores letter case. */
  predicate PassesFilters(i: ReportItem, f: ReportFilters)
  {
    (!InForce(f.edificacao, "Todas") || i.apontamento.edificacao == f.edificacao.value)
    && (!InForce(f.disciplina, "Todas") || i.apontamento.disciplina == f.disciplina.value)
    && (!InForce(f.responsavel, "Todos") || i.apontamento.responsavel == f.responsavel)
    && (!Truthy(f.sala)
        || Contains(Lower(i.numeroSala), Lower(f.sala.value)) || Contains(Lower(i.salaNome), Lower(f.sala.value)))
  }

  /** By room number only; items of the same number keep their order. */
  function ItemKey(i: ReportItem): Key
  {
    Key(NumberInText(i.numeroSala), 0, "")
  }

  /** The items the divergence report lists, in page order. */
  function ReportRows(items: seq<ReportItem>, f: ReportFilters): seq<ReportItem>
  {
    SortBy(Filter(items, i => PassesFilters(i, f)), ItemKey)
  }

  /**
   * The report lists every item passing the filters, as often as it
   * occurs, and nothing else, in ascending room number; items with the
   * same room number keep their order.
   */
  lemma ReportRowsCorrect(items: seq<ReportItem>, f: ReportFilters)
    ensures multiset(ReportRows(items, f)) == multiset(Filter(items, i => PassesFilters(i, f)))
    ensures forall x :: x in ReportRows(items, f) <==> x in items && PassesFilters(x, f)
    ensures forall i, j :: 0 <= i < j < |ReportRows(items, f)| ==>
      NumberInText(ReportRows(items, f)[i].numeroSala) <= NumberInText(ReportRows(items, f)[j].numeroSala)
    ensures forall k ::
      WithKey(ReportRows(items, f), ItemKey, k) == WithKey(Filter(items, i => PassesFilters(i, f)), ItemKey, k)
  {
    var g := Filter(items, i => PassesFilters(i, f));
    SortByCorrect(g, ItemKey);
    SortByStableAll(g, ItemKey);
    var r := ReportRows(items, f);
    forall x ensures x in r <==> x in g {
      assert x in r <==> x in multiset(r);
      assert x in g <==> x in multiset(g);
    }
  }

  /** With every filter at its sentinel (or unset), the report lists every joined item. */
  lemma SentinelsFilterNothing(items: seq<ReportItem>, sala: Option<string>)
    requires !Truthy(sala)
    ensures multiset(ReportRows(items, ReportFilters(Some("Todas"), Some("Todas"), Some("Todos"), sala))) == multiset(items)
  {
    var f := ReportFilters(Some("Todas"), Some("Todas"), Some("Todos"), sala);
    ReportRowsCorrect(items, f);
    FilterAll(items, i => PassesFilters(i, f));
  }

  lemma {:induction false} FilterAll<T(!new)>(s: seq<T>, p: T -> bool)
    requires forall x :: x in s ==> p(x)
    ensures Filter(s, p) == s
  {
    if |s| > 0 {
      FilterAll(s[1..], p);
      assert s == [s[0]] + s[1..];
    }
  }

  // ---------------------------------------------------------------------
  // Pages
  // ---------------------------------------------------------------------

  /** What is drawn in an image frame: the image, or a grey placeholder with a text. */
  datatype Slot = Drawn(url: string) | Placeholder(text: string)

  /**
   * drawImage: a given URL that loads is drawn; a given URL that does not
   * load (fetch error, missing file) reads "Erro imagem"; no URL reads the
   * report's own "no image" text. `loads` stands for the fetch and the file
   * check.
   */
  function ImageSlot(url: Option<string>, loads: string -> bool, noImage: string): (s: Slot)
    ensures s.Drawn? <==> Truthy(url) && loads(url.value)
    ensures Truthy(url) && !loads(url.value) ==> s == Placeholder("Erro imagem")
    ensures !Truthy(url) ==> s == Placeholder(noImage)
  {
    if Truthy(url) && loads(url.value) then Drawn(url.value)
    else Placeholder(if Truthy(url) then "Erro imagem" else noImage)
  }

  datatype Page =
    | Message(text: string)
    | Cover
    | DivergencePage(title: string, numeroSala: string, responsavel: string,
                     leftLabel: string, left: Slot, right: Slot)
    | AsBuiltPage(pageLabel: string, title: string, left: Slot, right: Slot)

  /** The left frame shows the room plan, else the reference picture, else nothing. */
  function LeftLabel(i: ReportItem): string
  {
    if Truthy(i.imagemPlantaUrl) then "PLANTA SALA"
    else if Truthy(i.apontamento.fotoReferenciaUrl) then "PROJETO RA / MODELO"
    else "Sem planta ou referência"
  }

  function LeftUrl(i: ReportItem): Option<string>
  {
    if Truthy(i.imagemPlantaUrl) then i.imagemPlantaUrl
    else if Truthy(i.apontamento.fotoReferenciaUrl) then i.apontamento.fotoReferenciaUrl
    else None
  }

  /** One divergence page. */
  function DivergencePageOf(i: ReportItem, loads: string -> bool): Page
  {
    DivergencePage(Upper(OrElse(Some(i.salaNome), "RELATÓRIO DE DIVERGÊNCIAS")), i.numeroSala,
                   OrElse(i.apontamento.responsavel, "Não definido"),
                   LeftLabel(i), ImageSlot(LeftUrl(i), loads, "Sem imagem"),
                   ImageSlot(i.apontamento.fotoUrl, loads, "Sem imagem"))
  }

  /**
   * The divergence report: a message alone when nothing is listed;
   * otherwise the cover, then one page per item.
   */
  method DivergenceReport(rows: seq<ReportItem>, loads: string -> bool) returns (pages: seq<Page>)
    ensures |rows| == 0 ==> pages == [Message("Nenhum apontamento encontrado.")]
    ensures |rows| > 0 ==> |pages| == |rows| + 1 && pages[0] == Cover
    ensures |rows| > 0 ==> forall k :: 0 <= k < |rows| ==> pages[k + 1] == DivergencePageOf(rows[k], loads)
    ensures Cover in pages <==> |rows| > 0
  {
    if |rows| == 0 {
      return [Message("Nenhum apontamento encontrado.")];
    }
    pages := [Cover];
    for i := 0 to |rows|
      invariant |pages| == i + 1 && pages[0] == Cover
      invariant forall k :: 0 <= k < i ==> pages[k + 1] == DivergencePageOf(rows[k], loads)
      invariant forall k :: 1 <= k < |pages| ==> pages[k].DivergencePage?
    {
      pages := pages + [DivergencePageOf(rows[i], loads)];
    }
    assert forall k :: 1 <= k < |pages| ==> pages[k] != Cover;
  }

  /** `String(index + 1).padStart(3, '0')`. */
  function PageLabel(index: nat): (r: string)
    ensures |r| >= 3
  {
    PadStart(NatToString(index + 1), 3, '0')
  }

  /** Zeros in front do not change the number a string of digits spells. */
  lemma {:induction false} LeadingZeros(z: string, s: string)
    requires forall i :: 0 <= i < |z| ==> z[i] == '0'
    requires AllDigits(s)
    ensures AllDigits(z + s)
    ensures DigitValue(z + s) == DigitValue(s)
    decreases |s|
  {
    if |s| == 0 {
      assert z + s == z;
      Zeros(z);
    } else {
      assert (z + s)[..|z + s| - 1] == z + s[..|s| - 1];
      LeadingZeros(z, s[..|s| - 1]);
    }
  }

  lemma {:induction false} Zeros(z: string)
    requires forall i :: 0 <= i < |z| ==> z[i] == '0'
    ensures AllDigits(z) && DigitValue(z) == 0
  {
    if |z| > 0 {
      Zeros(z[..|z| - 1]);
    }
  }

  /** A page label is all digits and reads back as the page's position, so labels never repeat. */
  lemma PageLabelReadsBack(index: nat)
    ensures AllDigits(PageLabel(index)) && DigitValue(PageLabel(index)) == index + 1
  {
    var s := NatToString(index + 1);
    var p := PageLabel(index);
    var z := p[..|p| - |s|];
    assert p == z + s;
    LeadingZeros(z, s);
    DigitValueOfNatToString(index + 1);
  }

  lemma PageLabelsDistinct(i: nat, j: nat)
    requires i != j
    ensures PageLabel(i) != PageLabel(j)
  {
    PageLabelReadsBack(i);
    PageLabelReadsBack(j);
  }

  /** One as-built page, labelled with its position. */
  function AsBuiltPageOf(i: ReportItem, index: nat, loads: string -> bool): (p: Page)
    ensures p.AsBuiltPage? && p.pageLabel == PageLabel(index)
  {
    AsBuiltPage(PageLabel(index), i.numeroSala + " - " + i.salaNome,
                ImageSlot(i.apontamento.fotoUrl, loads, "Sem foto"),
                ImageSlot(i.apontamento.fotoReferenciaUrl, loads, "Sem foto"))
  }

  /** The items of the as-built report: of the building, when one is given, in query order. */
  function AsBuiltRows(items: seq<ReportItem>, edificacao: Option<string>): (r: seq<ReportItem>)
    ensures forall x :: x in r <==> x in items && (!Truthy(edificacao) || x.apontamento.edificacao == edificacao.value)
  {
    Filter(items, (i: ReportItem) => !Truthy(edificacao) || i.apontamento.edificacao == edificacao.value)
  }

  /** The as-built report: a message alone when nothing matches, otherwise one labelled page per item and no cover. */
  method AsBuiltReport(rows: seq<ReportItem>, loads: string -> bool) returns (pages: seq<Page>)
    ensures |rows| == 0 ==> pages == [Message("Nenhum dado as-built encontrado.")]
    ensures |rows| > 0 ==> |pages| == |rows|
    ensures |rows| > 0 ==> forall k :: 0 <= k < |rows| ==> pages[k] == AsBuiltPageOf(rows[k], k, loads)
    ensures forall p :: p in pages ==> !p.Cover?
  {
    if |rows| == 0 {
      return [Message("Nenhum dado as-built encontrado.")];
    }
    pages := [];
    for i := 0 to |rows|
      invariant pages == AsBuiltPages(rows[..i], loads)
    {
      AsBuiltPagesPrefix(rows, loads, i);
      pages := pages + [AsBuiltPageOf(rows[i], i, loads)];
    }
    assert rows[..|rows|] == rows;
    AsBuiltPagesAt(rows, loads);
    forall p | p in pages ensures !p.Cover? {
      var k :| 0 <= k < |pages| && pages[k] == p;
    }
  }

  /** The as-built pages of the items, each labelled with its position. */
  function AsBuiltPages(rows: seq<ReportItem>, loads: string -> bool): (r: seq<Page>)
    ensures |r| == |rows|
  {
    if |rows| == 0 then []
    else AsBuiltPages(rows[..|rows| - 1], loads) + [AsBuiltPageOf(rows[|rows| - 1], |rows| - 1, loads)]
  }

  /** Page `k` is the page of item `k`. */
  lemma {:induction false} AsBuiltPagesAt(rows: seq<ReportItem>, loads: string -> bool)
    ensures forall k :: 0 <= k < |rows| ==> AsBuiltPages(rows, loads)[k] == AsBuiltPageOf(rows[k], k, loads)
  {
    if |rows| > 0 {
      var n := |rows| - 1;
      var init := rows[..n];
      AsBuiltPagesAt(init, loads);
      var r := AsBuiltPages(rows, loads);
      assert r == AsBuiltPages(init, loads) + [AsBuiltPageOf(rows[n], n, loads)];
      forall k | 0 <= k < |rows| ensures r[k] == AsBuiltPageOf(rows[k], k, loads) {
        if k < n {
          assert init[k] == rows[k];
          assert r[k] == AsBuiltPages(init, loads)[k];
        }
      }
    }
  }

  lemma AsBuiltPagesPrefix(rows: seq<ReportItem>, loads: string -> bool, i: nat)
    requires i < |rows|
    ensures AsBuiltPages(rows[..i + 1], loads) == AsBuiltPages(rows[..i], loads) + [AsBuiltPageOf(rows[i], i, loads)]
  {
    assert rows[..i + 1][..i] == rows[..i];
  }

  // ---------------------------------------------------------------------
  // Spreadsheet: room sheet
  // ---------------------------------------------------------------------

  /** One row of the "Mapeamento Salas" sheet. */
  datatype MappingRow = MappingRow(edificacao: string, pavimento: string, setor: string, sala: string,
                                   numeroSala: string, augin: string, tracker: string, qrCode: string,
                                   statusRA: string)

  function YesNo(flag: Option<int>): (r: string)
    ensures r == "Sim" <==> NumTruthy(flag)
    ensures r == "Sim" || r == "Não"
  {
    if NumTruthy(flag) then "Sim" else "Não"
  }

  function MappingRowOf(s: Sala): MappingRow
  {
    MappingRow(s.edificacao, s.pavimento, s.setor, s.nome, s.numeroSala,
               YesNo(s.augin), YesNo(s.trackerPosicionado), YesNo(s.qrCodePlastificado),
               OrElse(s.statusRA, PENDENTE))
  }

  /** The export's sort key: the number in the room's number text. */
  function RoomNumberKey(s: Sala): Key
  {
    Key(NumberInText(s.numeroSala), 0, "")
  }

  /** The rooms of the export: of the building, when one is given, by room number. */
  function ExportedSalas(all: seq<Sala>, edificacao: Option<string>): seq<Sala>
  {
    SortBy(Filter(all, (s: Sala) => !Truthy(edificacao) || s.edificacao == edificacao.value), RoomNumberKey)
  }

  /**
   * The export lists the rooms of the building (all rooms when none is
   * given), each once, by room number; rooms with the same number keep
   * their table order.
   */
  lemma ExportedSalasCorrect(all: seq<Sala>, edificacao: Option<string>)
    ensures multiset(ExportedSalas(all, edificacao))
      == multiset(Filter(all, (s: Sala) => !Truthy(edificacao) || s.edificacao == edificacao.value))
    ensures forall s :: s in ExportedSalas(all, edificacao) <==>
      s in all && (!Truthy(edificacao) || s.edificacao == edificacao.value)
    ensures forall i, j :: 0 <= i < j < |ExportedSalas(all, edificacao)| ==>
      NumberInText(ExportedSalas(all, edificacao)[i].numeroSala)
        <= NumberInText(ExportedSalas(all, edificacao)[j].numeroSala)
    ensures forall k ::
      WithKey(ExportedSalas(all, edificacao), RoomNumberKey, k)
        == WithKey(Filter(all, (s: Sala) => !Truthy(edificacao) || s.edificacao == edificacao.value), RoomNumberKey, k)
  {
    var g := Filter(all, (s: Sala) => !Truthy(edificacao) || s.edificacao == edificacao.value);
    SortByCorrect(g, RoomNumberKey);
    SortByStableAll(g, RoomNumberKey);
    var r := ExportedSalas(all, edificacao);
    forall x ensures x in r <==> x in g {
      assert x in r <==> x in multiset(r);
      assert x in g <==> x in multiset(g);
    }
  }

  /**
   * The room sheet: one row per room, in order; a flag reads "Sim" exactly
   * when it is set and non-zero, and a missing release status reads
   * PENDENTE.
   */
  method MappingSheet(salasData: seq<Sala>) returns (rows: seq<MappingRow>)
    ensures |rows| == |salasData|
    ensures forall k :: 0 <= k < |salasData| ==>
      && rows[k].sala == salasData[k].nome && rows[k].numeroSala == salasData[k].numeroSala
      && (rows[k].augin == "Sim" <==> NumTruthy(salasData[k].augin))
      && (rows[k].tracker == "Sim" <==> NumTruthy(salasData[k].trackerPosicionado))
      && (rows[k].qrCode == "Sim" <==> NumTruthy(salasData[k].qrCodePlastificado))
      && (rows[k].statusRA == if Truthy(salasData[k].statusRA) then salasData[k].statusRA.value else PENDENTE)
    ensures forall k :: 0 <= k < |salasData| ==> rows[k] == MappingRowOf(salasData[k])
  {
    rows := [];
    for i := 0 to |salasData|
      invariant |rows| == i
      invariant forall k :: 0 <= k < i ==> rows[k] == MappingRowOf(salasData[k])
    {
      rows := rows + [MappingRowOf(salasData[i])];
    }
  }

  /** A room whose stored release status agrees with the rule shows the rule's status in the sheet. */
  lemma MappingStatusFollowsRule(s: Sala)
    requires s.statusRA == Some(CalculateStatusRA(s))
    ensures MappingRowOf(s).statusRA == LIBERADO <==>
      s.augin == Some(1) && s.trackerPosicionado == Some(1) && s.qrCodePlastificado == Some(1)
    ensures MappingRowOf(s).statusRA == LIBERADO ==>
      MappingRowOf(s).augin == "Sim" && MappingRowOf(s).tracker == "Sim" && MappingRowOf(s).qrCode == "Sim"
  {
  }
}
