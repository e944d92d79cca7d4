/**
 * The viewer component around the controller: the room search of the
 * mapping panel, the choice of the room a "Desvincular ID", "Limpar Tudo"
 * or search-list click acts on, and the state transitions of the panel.
 */
module ViewerPanel {
  import opened Common
  import opened Text
  import opened Records
  import opened Stats
  import opened Links
  import opened Backend
  import opened Viewer
  import Routers

  // ---------------------------------------------------------------------
  // Room search
  // ---------------------------------------------------------------------

  /** The room's lower-cased name contains the lower-cased search term. */
  predicate NameMatches(s: Sala, term: string)
  {
    Contains(Lower(s.nome), Lower(term))
  }

  /** `rows.filter(NameMatches)`. */
  function Matching(rows: seq<Sala>, term: string): (r: seq<Sala>)
    ensures forall x :: x in r <==> x in rows && NameMatches(x, term)
  {
    if |rows| == 0 then []
    else (if NameMatches(rows[0], term) then [rows[0]] else []) + Matching(rows[1..], term)
  }

  /** `a` is `b` with some entries left out, the rest in their order. */
  predicate SubsequenceOf(a: seq<Sala>, b: seq<Sala>)
  {
    if |b| == 0 then |a| == 0
    else (|a| > 0 && a[0] == b[0] && SubsequenceOf(a[1..], b[1..])) || SubsequenceOf(a, b[1..])
  }

  lemma {:induction false} EmptySubsequence(b: seq<Sala>)
    ensures SubsequenceOf([], b)
  {
    if |b| > 0 {
      EmptySubsequence(b[1..]);
    }
  }

  lemma {:induction false} MatchingIsSubsequence(rows: seq<Sala>, term: string)
    ensures SubsequenceOf(Matching(rows, term), rows)
  {
    if |rows| > 0 {
      MatchingIsSubsequence(rows[1..], term);
      if NameMatches(rows[0], term) {
        assert Matching(rows, term)[1..] == Matching(rows[1..], term);
      } else {
        assert Matching(rows, term) == Matching(rows[1..], term);
      }
    }
  }

  /** A prefix of a subsequence is a subsequence. */
  lemma {:induction false} PrefixOfSubsequence(a: seq<Sala>, b: seq<Sala>, n: nat)
    requires n <= |a| && SubsequenceOf(a, b)
    ensures SubsequenceOf(a[..n], b)
  {
    if n == 0 {
      assert a[..n] == [];
      EmptySubsequence(b);
    } else if |a| > 0 && a[0] == b[0] && SubsequenceOf(a[1..], b[1..]) {
      PrefixOfSubsequence(a[1..], b[1..], n - 1);
      assert a[..n][1..] == a[1..][..n - 1];
    } else {
      PrefixOfSubsequence(a, b[1..], n);
    }
  }

  /**
   * filteredRooms: nothing before the rooms are loaded; otherwise the first
   * ten rooms, in table order, whose name contains the search term,
   * ignoring letter case.
   */
  function FilteredRooms(allSalas: Option<seq<Sala>>, term: string): (r: seq<Sala>)
    ensures allSalas.None? ==> r == []
    ensures |r| <= 10
    ensures allSalas.Some? ==> r <= Matching(allSalas.value, term)
    ensures allSalas.Some? ==> |r| == if |Matching(allSalas.value, term)| < 10 then |Matching(allSalas.value, term)| else 10
  {
    if allSalas.None? then []
    else
      var m := Matching(allSalas.value, term);
      if |m| <= 10 then m else m[..10]
  }

  /**
   * The list shows only matching rooms, in table order, and leaves a
   * matching room out only when ten rooms are already shown.
   */
  lemma FilteredRoomsCorrect(all: seq<Sala>, term: string)
    ensures forall x :: x in FilteredRooms(Some(all), term) ==> x in all && NameMatches(x, term)
    ensures SubsequenceOf(FilteredRooms(Some(all), term), all)
    ensures forall x :: x in all && NameMatches(x, term) && x !in FilteredRooms(Some(all), term) ==>
      |FilteredRooms(Some(all), term)| == 10
  {
    var m := Matching(all, term);
    MatchingIsSubsequence(all, term);
    var n := if |m| <= 10 then |m| else 10;
    PrefixOfSubsequence(m, all, n);
    assert m[..n] == FilteredRooms(Some(all), term);
  }

  // ---------------------------------------------------------------------
  // The selected element's id, as the panel sends it
  // ---------------------------------------------------------------------

  /**
   * `selectedRoom.ifcExpressId` as the payload of a request: a selected
   * room passes its whole column (null when it has none), a selected
   * element its numeric id.
   */
  function SelectedId(s: Selection): (v: Option<Routers.IdValue>)
    ensures s.ObjectPick? ==> v == Some(Routers.Num(s.expressId))
    ensures s.RoomPick? ==> (v.None? <==> s.room.sala.ifcExpressId.None?)
  {
    match s
    case RoomPick(room) =>
      if room.sala.ifcExpressId.None? then None else Some(Routers.Str(room.sala.ifcExpressId.value))
    case ObjectPick(id, _) => Some(Routers.Num(id))
  }

  /** `String(selectedRoom.ifcExpressId)`: "null" for a room without a column. */
  function SelectedIdText(s: Selection): (t: string)
    ensures SelectedId(s).Some? ==> t == Routers.IdText(SelectedId(s).value)
    ensures SelectedId(s).None? ==> t == "null"
  {
    match s
    case RoomPick(room) => if room.sala.ifcExpressId.None? then "null" else room.sala.ifcExpressId.value
    case ObjectPick(id, _) => IntToString(id)
  }

  /** `allSalas?.find(...)`: the first room whose list names the element. */
  function OwnerOf(allSalas: Option<seq<Sala>>, t: string): (r: Option<Sala>)
    ensures r.Some? ==> allSalas.Some? && Names(r.value, t)
    ensures r.None? <==> allSalas.None? || forall x :: x in allSalas.value ==> !Names(x, t)
    ensures r.Some? ==> exists k :: 0 <= k < |allSalas.value| && allSalas.value[k] == r.value
                                  && (forall j :: 0 <= j < k ==> !Names(allSalas.value[j], t))
  {
    if allSalas.None? then None else FirstNaming(allSalas.value, t)
  }

  function FirstNaming(rows: seq<Sala>, t: string): (r: Option<Sala>)
    ensures r.Some? ==> Names(r.value, t)
    ensures r.None? <==> forall x :: x in rows ==> !Names(x, t)
    ensures r.Some? ==> exists k :: 0 <= k < |rows| && rows[k] == r.value
                                  && (forall j :: 0 <= j < k ==> !Names(rows[j], t))
  {
    if |rows| == 0 then None
    else if Names(rows[0], t) then Some(rows[0])
    else
      var rest := FirstNaming(rows[1..], t);
      if rest.Some? then
        ghost var k :| 0 <= k < |rows[1..]| && rows[1..][k] == rest.value
          && forall j :: 0 <= j < k ==> !Names(rows[1..][j], t);
        assert rows[k + 1] == rest.value;
        rest
      else
        assert forall x :: x in rows ==> x == rows[0] || x in rows[1..];
        rest
  }

  // ---------------------------------------------------------------------
  // Requests the panel's buttons issue
  // ---------------------------------------------------------------------

  /** An unlink or a link call: the room and the id payload. */
  datatype Request = Request(salaId: int, id: Option<Routers.IdValue>)

  /**
   * "Desvincular ID": an unlink of the selected id from the first room that
   * lists it, and no call at all when no room lists it.
   */
  function UnlinkRequest(allSalas: Option<seq<Sala>>, s: Selection): (r: Option<Request>)
    ensures r.None? <==> OwnerOf(allSalas, SelectedIdText(s)).None?
    ensures r.Some? ==> r.value == Request(OwnerOf(allSalas, SelectedIdText(s)).value.id, SelectedId(s))
  {
    var owner := OwnerOf(allSalas, SelectedIdText(s));
    if owner.Some? then Some(Request(owner.value.id, SelectedId(s))) else None
  }

  /**
   * "Limpar Tudo": a null link (clear the whole list) to the first room that
   * lists the selected id, else to the selected room itself; a selected bare
   * element has no `id`, and a zero id is falsy, so then no call is made.
   */
  function ClearAllRequest(allSalas: Option<seq<Sala>>, s: Selection): (r: Option<Request>)
    ensures r.Some? ==> r.value.id.None? && r.value.salaId != 0
    ensures OwnerOf(allSalas, SelectedIdText(s)).Some? ==>
      var owner := OwnerOf(allSalas, SelectedIdText(s)).value;
      r == if owner.id != 0 then Some(Request(owner.id, None)) else None
    ensures OwnerOf(allSalas, SelectedIdText(s)).None? && s.ObjectPick? ==> r.None?
    ensures OwnerOf(allSalas, SelectedIdText(s)).None? && s.RoomPick? ==>
      r == if s.room.sala.id != 0 then Some(Request(s.room.sala.id, None)) else None
  {
    var owner := OwnerOf(allSalas, SelectedIdText(s));
    var target: Option<int> :=
      if owner.Some? then Some(owner.value.id)
      else if s.RoomPick? then Some(s.room.sala.id)
      else None;
    if target.Some? && target.value != 0 then Some(Request(target.value, None)) else None
  }

  // ---------------------------------------------------------------------
  // What the requests do to the table
  // ---------------------------------------------------------------------

  /**
   * Unlinking a selected element from the room the panel finds leaves no
   * room listing it, when the table was exclusive.
   */
  lemma UnlinkFreesElement(rows: seq<Sala>, id: nat, nome: string)
    requires UniqueIds(rows) && Exclusive(rows)
    requires UnlinkRequest(Some(rows), ObjectPick(id, nome)).Some?
    ensures var req := UnlinkRequest(Some(rows), ObjectPick(id, nome)).value;
      forall x :: x in UnlinkRows(rows, req.salaId, NatToString(id)) ==> !Names(x, NatToString(id))
  {
    var t := NatToString(id);
    assert SelectedIdText(ObjectPick(id, nome)) == t;
    var owner := OwnerOf(Some(rows), t).value;
    var k :| 0 <= k < |rows| && rows[k] == owner;
    var after := UnlinkRows(rows, owner.id, t);
    NamesIsLinked(owner, id);
    assert Truthy(rows[k].ifcExpressId);
    UnlinkRemoves(rows, owner.id, t, k);
    forall x | x in after ensures !Names(x, t) {
      var j :| 0 <= j < |after| && after[j] == x;
      NamesIsLinked(x, id);
      if j != k {
        assert rows[j].id != owner.id;
        assert after[j] == rows[j];
        NamesIsLinked(rows[j], id);
      }
    }
  }

  /**
   * Clearing the room the panel finds for a selected element leaves no room
   * listing it, when the table was exclusive.
   */
  lemma ClearAllFreesElement(rows: seq<Sala>, id: nat, nome: string)
    requires UniqueIds(rows) && Exclusive(rows)
    requires ClearAllRequest(Some(rows), ObjectPick(id, nome)).Some?
    ensures var req := ClearAllRequest(Some(rows), ObjectPick(id, nome)).value;
      forall x :: x in LinkRows(rows, req.salaId, Routers.LinkArgument(req.id)) ==> !Names(x, NatToString(id))
  {
    var t := NatToString(id);
    assert SelectedIdText(ObjectPick(id, nome)) == t;
    var owner := OwnerOf(Some(rows), t).value;
    var k :| 0 <= k < |rows| && rows[k] == owner;
    var after := LinkRows(rows, owner.id, None);
    LinkNullClearsTarget(rows, owner.id);
    NamesIsLinked(owner, id);
    forall x | x in after ensures !Names(x, t) {
      var j :| 0 <= j < |after| && after[j] == x;
      NamesIsLinked(x, id);
      if rows[j].id != owner.id {
        assert j != k;
        NamesIsLinked(rows[j], id);
      } else {
        assert Links.Ids(None) == [];
      }
    }
  }

  /**
   * Linking a selected element to a room from the search list leaves that
   * room, and no other, listing it.
   */
  lemma LinkClaimsElement(rows: seq<Sala>, k: nat, id: nat)
    requires UniqueIds(rows) && k < |rows|
    ensures var after := LinkRows(rows, rows[k].id, Routers.LinkArgument(SelectedId(ObjectPick(id, "Objeto " + NatToString(id)))));
      && Names(after[k], NatToString(id))
      && forall j :: 0 <= j < |rows| && j != k ==> !Names(after[j], NatToString(id))
  {
    var t := NatToString(id);
    NatToStringIsToken(id);
    var after := LinkRows(rows, rows[k].id, Some(t));
    LinkAppendsToTarget(rows, rows[k].id, t, k);
    LinkReleasesOthers(rows, rows[k].id, t);
    NamesIsLinked(after[k], id);
    forall j | 0 <= j < |rows| && j != k ensures !Names(after[j], t) {
      NamesIsLinked(after[j], id);
    }
  }

  // ---------------------------------------------------------------------
  // Panel state
  // ---------------------------------------------------------------------

  /** The room details panel shows only for a selection outside mapping mode. */
  predicate InfoPanelShown(v: IfcViewerController)
    reads v
  {
    v.selected.Some? && !v.mappingMode
  }

  /** The mapping panel shows only in mapping mode. */
  predicate MappingPanelShown(v: IfcViewerController)
    reads v
  {
    v.mappingMode
  }

  /** In mapping mode what is selected is a bare element, never a room. */
  predicate MappingSelectsElements(v: IfcViewerController)
    reads v
  {
    v.mappingMode ==> v.selected.None? || v.selected.value.ObjectPick?
  }

  /** The viewer component's own state. */
  class MappingPanel {
    /** The search box of the mapping panel. */
    var searchTerm: string
    /** The room colours were invalidated and will be fetched again. */
    var colorsStale: bool

    constructor()
      ensures searchTerm == "" && !colorsStale
    {
      searchTerm := "";
      colorsStale := false;
    }

    /** The rooms listed under the search box. */
    function Listed(allSalas: Option<seq<Sala>>): seq<Sala>
      reads this
    {
      FilteredRooms(allSalas, searchTerm)
    }

    method SetSearchTerm(t: string)
      modifies this`searchTerm
      ensures searchTerm == t
    {
      searchTerm := t;
    }

    /** The mapping-mode button: flip the mode and drop the selection. */
    method ToggleMapping(v: IfcViewerController)
      modifies v`mappingMode, v`scene, v`selected
      ensures v.mappingMode == !old(v.mappingMode) && v.selected.None?
      ensures !InfoPanelShown(v) && MappingSelectsElements(v)
      ensures v.initialised ==> v.scene == RestyledScene(old(v.scene), v.xRay || v.mappingMode)
    {
      v.SetMappingMode(!v.mappingMode);
      v.SetSelected(None);
    }

    /** The close button of the mapping panel: leaves mapping mode but keeps the selection. */
    method CloseMapping(v: IfcViewerController)
      modifies v`mappingMode, v`scene
      ensures !v.mappingMode && v.selected == old(v.selected)
      ensures MappingSelectsElements(v) && !MappingPanelShown(v)
    {
      v.SetMappingMode(false);
    }

    /**
     * The end of a link call: on success the colours are refetched, mapping
     * mode ends and the selection is dropped; on failure only a message is
     * shown.
     */
    method OnLinkResult(v: IfcViewerController, ok: bool)
      modifies this`colorsStale, v`mappingMode, v`scene, v`selected
      ensures ok ==> colorsStale && !v.mappingMode && v.selected.None?
      ensures !ok ==> colorsStale == old(colorsStale) && v.mappingMode == old(v.mappingMode)
                      && v.selected == old(v.selected) && v.scene == old(v.scene)
      ensures old(MappingSelectsElements(v)) ==> MappingSelectsElements(v)
    {
      if ok {
        colorsStale := true;
        v.SetMappingMode(false);
        v.SetSelected(None);
      }
    }

    /** The end of an unlink call: on success the colours are refetched and the selection dropped; mapping mode stays. */
    method OnUnlinkResult(v: IfcViewerController, ok: bool)
      modifies this`colorsStale, v`selected
      ensures ok ==> colorsStale && v.selected.None?
      ensures !ok ==> colorsStale == old(colorsStale) && v.selected == old(v.selected)
      ensures v.mappingMode == old(v.mappingMode)
      ensures old(MappingSelectsElements(v)) ==> MappingSelectsElements(v)
    {
      if ok {
        colorsStale := true;
        v.SetSelected(None);
      }
    }

    /**
     * "Desvincular ID" against the server: an unlink call when some room
     * lists the selected id; a null payload fails the procedure's input
     * validation and the call ends in an error.
     */
    method Unlink(v: IfcViewerController, db: Database, allSalas: Option<seq<Sala>>)
      requires v.selected.Some? && db.Valid()
      modifies this`colorsStale, v`selected, db`salas
      ensures db.Valid() && v.mappingMode == old(v.mappingMode)
      ensures var req := UnlinkRequest(allSalas, old(v.selected.value));
        if req.Some? && req.value.id.Some? then
          && db.salas == UnlinkRows(old(db.salas), req.value.salaId, Routers.IdText(req.value.id.value))
          && colorsStale && v.selected.None?
        else
          db.salas == old(db.salas) && colorsStale == old(colorsStale) && v.selected == old(v.selected)
    {
      var req := UnlinkRequest(allSalas, v.selected.value);
      if req.Some? && req.value.id.Some? {
        var _ := Routers.UnlinkRoute(db, req.value.salaId, req.value.id.value);
        OnUnlinkResult(v, true);
      }
    }

    /** "Limpar Tudo" against the server: a null link to the room the panel finds. */
    method ClearAll(v: IfcViewerController, db: Database, allSalas: Option<seq<Sala>>)
      requires v.selected.Some? && db.Valid()
      modifies this`colorsStale, v`mappingMode, v`scene, v`selected, db`salas
      ensures db.Valid()
      ensures var req := ClearAllRequest(allSalas, old(v.selected.value));
        if req.Some? then
          && db.salas == LinkRows(old(db.salas), req.value.salaId, None)
          && colorsStale && !v.mappingMode && v.selected.None?
        else
          db.salas == old(db.salas) && colorsStale == old(colorsStale) && v.selected == old(v.selected)
          && v.mappingMode == old(v.mappingMode)
    {
      var req := ClearAllRequest(allSalas, v.selected.value);
      if req.Some? {
        var _ := Routers.LinkRoute(db, req.value.salaId, None);
        OnLinkResult(v, true);
      }
    }

    /** A click on a room of the search list: link the selected id to it. */
    method LinkTo(v: IfcViewerController, db: Database, sala: Sala)
      requires v.selected.Some? && db.Valid()
      modifies this`colorsStale, v`mappingMode, v`scene, v`selected, db`salas
      ensures db.Valid()
      ensures db.salas == LinkRows(old(db.salas), sala.id, Routers.LinkArgument(SelectedId(old(v.selected.value))))
      ensures colorsStale && !v.mappingMode && v.selected.None?
    {
      var _ := Routers.LinkRoute(db, sala.id, SelectedId(v.selected.value));
      OnLinkResult(v, true);
    }
  }
}
