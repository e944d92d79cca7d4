/**
 * The room <-> model-element link table. A room's `ifcExpressId` column
 * holds a comma-separated list of IFC element identifiers (null when the
 * room has none). Linking an element to a room first removes it from
 * every other room, so each element belongs to at most one room; this
 * module states that on whole tables (sequences of rows).
 */
module Links {
  import opened Common
  import opened Text
  import opened Records

  /** The identifiers the server reads from a column: none when the column is null or "". */
  function Ids(col: Option<string>): seq<string>
  {
    if Truthy(col) then Tokens(col.value) else []
  }

  /** The column written for a list of identifiers: null when the list is empty. */
  function Stored(ids: seq<string>): Option<string>
  {
    if |ids| > 0 then Some(Join(ids, ',')) else None
  }

  /** What the exclusive-mapping pass writes to another room holding `e`. */
  function Released(col: Option<string>, e: string): Option<string>
  {
    if Truthy(col) && e in Ids(col) then Stored(Without(Ids(col), e)) else col
  }

  /** What linking `e` writes to the target room: its list with `e` appended unless present. */
  function Claimed(col: Option<string>, e: string): Option<string>
  {
    var cur := Ids(col);
    Some(Join(if e in cur then cur else cur + [e], ','))
  }

  /** `update salas set ifcExpressId = v where id = salaId`. */
  function SetCol(rows: seq<Sala>, salaId: int, v: Option<string>): (r: seq<Sala>)
    ensures |r| == |rows|
    ensures forall k :: 0 <= k < |rows| ==> r[k].id == rows[k].id
  {
    seq(|rows|, k requires 0 <= k < |rows| =>
      if rows[k].id == salaId then rows[k].(ifcExpressId := v) else rows[k])
  }

  /** linkIfcToRoom on the table: null clears the target; an id is released elsewhere and claimed by the target. */
  function LinkRows(rows: seq<Sala>, salaId: int, e: Option<string>): seq<Sala>
  {
    match e
    case None => SetCol(rows, salaId, None)
    case Some(t) =>
      seq(|rows|, k requires 0 <= k < |rows| =>
        if rows[k].id == salaId then rows[k].(ifcExpressId := Claimed(rows[k].ifcExpressId, t))
        else rows[k].(ifcExpressId := Released(rows[k].ifcExpressId, t)))
  }

  /** linkIfcToRoom returns a result for a clear request, and for a link only when the room exists. */
  predicate LinkAnswered(rows: seq<Sala>, salaId: int, e: Option<string>)
  {
    e.None? || HasRoom(rows, salaId)
  }

  /** unlinkIfcFromRoom on the table: only the target room, and only when it holds a list. */
  function UnlinkRows(rows: seq<Sala>, salaId: int, e: string): seq<Sala>
  {
    seq(|rows|, k requires 0 <= k < |rows| =>
      if rows[k].id == salaId && Truthy(rows[k].ifcExpressId)
      then rows[k].(ifcExpressId := Stored(Without(Ids(rows[k].ifcExpressId), e)))
      else rows[k])
  }

  /** unlinkIfcFromRoom returns a result only when the room exists and holds a list. */
  predicate UnlinkAnswered(rows: seq<Sala>, salaId: int)
  {
    exists k :: 0 <= k < |rows| && rows[k].id == salaId && Truthy(rows[k].ifcExpressId)
  }

  /** No element identifier is listed by two different rooms. */
  predicate Exclusive(rows: seq<Sala>)
  {
    forall i, j, t :: 0 <= i < |rows| && 0 <= j < |rows| && i != j && t in Ids(rows[i].ifcExpressId)
      ==> t !in Ids(rows[j].ifcExpressId)
  }

  // ---------------------------------------------------------------------
  // Parsing what was written
  // ---------------------------------------------------------------------

  lemma IdsAreTokens(col: Option<string>)
    ensures forall i :: 0 <= i < |Ids(col)| ==> IsToken(Ids(col)[i])
  {
    if Truthy(col) { TokensAreTokens(col.value); }
  }

  /** Reading back a written list of tokens gives the list, except that [""] is written as "" and reads as []. */
  lemma IdsOfJoin(xs: seq<string>)
    requires forall i :: 0 <= i < |xs| ==> IsToken(xs[i])
    ensures Ids(Some(Join(xs, ','))) == (if xs == [""] then [] else xs)
  {
    JoinEmpty(xs, ',');
    if |xs| >= 1 && xs != [""] {
      TokensOfJoin(xs);
    }
  }

  lemma {:induction false} WithoutKeepsTokens(xs: seq<string>, e: string)
    requires forall i :: 0 <= i < |xs| ==> IsToken(xs[i])
    ensures forall i :: 0 <= i < |Without(xs, e)| ==> IsToken(Without(xs, e)[i])
  {
    var r := Without(xs, e);
    forall i | 0 <= i < |r| ensures IsToken(r[i]) {
      assert r[i] in r;
      var k :| 0 <= k < |xs| && xs[k] == r[i];
    }
  }

  /**
   * The identifiers left in a room by the exclusive-mapping pass: its own
   * list unchanged when it does not hold `e`, otherwise every other entry
   * in order (a lone empty entry reads back as no list).
   */
  lemma ReleasedIds(col: Option<string>, e: string)
    ensures forall t :: t in Ids(Released(col, e)) ==> t in Ids(col) && t != e
    ensures Ids(Released(col, e)) ==
      if e !in Ids(col) then Ids(col)
      else (var w := Without(Ids(col), e); if w == [""] then [] else w)
  {
    IdsAreTokens(col);
    if Truthy(col) && e in Ids(col) {
      var f := Without(Ids(col), e);
      WithoutKeepsTokens(Ids(col), e);
      if |f| > 0 { IdsOfJoin(f); }
    }
  }

  /** The identifiers of the target after a link: its own plus `e`, in order, `e` added at most once. */
  lemma ClaimedIds(col: Option<string>, e: string)
    requires IsToken(e)
    ensures forall t :: t in Ids(Claimed(col, e)) ==> t in Ids(col) || t == e
    ensures e != "" ==> Ids(Claimed(col, e)) == if e in Ids(col) then Ids(col) else Ids(col) + [e]
  {
    var cur := Ids(col);
    var next := if e in cur then cur else cur + [e];
    IdsAreTokens(col);
    assert forall i :: 0 <= i < |next| ==> IsToken(next[i]);
    IdsOfJoin(next);
  }

  // ---------------------------------------------------------------------
  // Properties of linking and unlinking
  // ---------------------------------------------------------------------

  /** Linking null empties the target's list and touches no other room. */
  lemma LinkNullClearsTarget(rows: seq<Sala>, salaId: int)
    ensures |LinkRows(rows, salaId, None)| == |rows|
    ensures forall k :: 0 <= k < |rows| ==>
      LinkRows(rows, salaId, None)[k] ==
        if rows[k].id == salaId then rows[k].(ifcExpressId := None) else rows[k]
  {
  }

  /**
   * After linking `e` to a room, no other room lists `e`; every other room
   * keeps the rest of its list; rows keep their ids and other columns.
   */
  lemma LinkReleasesOthers(rows: seq<Sala>, salaId: int, e: string)
    ensures |LinkRows(rows, salaId, Some(e))| == |rows|
    ensures forall k :: 0 <= k < |rows| && rows[k].id != salaId ==>
      e !in Ids(LinkRows(rows, salaId, Some(e))[k].ifcExpressId)
    ensures forall k, t ::
      (0 <= k < |rows| && rows[k].id != salaId && t in Ids(LinkRows(rows, salaId, Some(e))[k].ifcExpressId))
      ==> t in Ids(rows[k].ifcExpressId)
    ensures forall k :: 0 <= k < |rows| && rows[k].id != salaId ==>
      Ids(LinkRows(rows, salaId, Some(e))[k].ifcExpressId) ==
        if e !in Ids(rows[k].ifcExpressId) then Ids(rows[k].ifcExpressId)
        else (var w := Without(Ids(rows[k].ifcExpressId), e); if w == [""] then [] else w)
    ensures forall k :: 0 <= k < |rows| ==>
      LinkRows(rows, salaId, Some(e))[k] == rows[k].(ifcExpressId := LinkRows(rows, salaId, Some(e))[k].ifcExpressId)
  {
    forall k | 0 <= k < |rows| && rows[k].id != salaId {
      ReleasedIds(rows[k].ifcExpressId, e);
    }
  }

  /**
   * The target room ends with its previous list plus `e` appended once, in
   * order; linking an element it already lists leaves the list as it was.
   */
  lemma LinkAppendsToTarget(rows: seq<Sala>, salaId: int, e: string, k: nat)
    requires IsToken(e) && e != ""
    requires k < |rows| && rows[k].id == salaId
    ensures Ids(LinkRows(rows, salaId, Some(e))[k].ifcExpressId) ==
      if e in Ids(rows[k].ifcExpressId) then Ids(rows[k].ifcExpressId) else Ids(rows[k].ifcExpressId) + [e]
  {
    ClaimedIds(rows[k].ifcExpressId, e);
  }

  /** Linking the same element to the same room twice leaves the table as linking it once. */
  lemma LinkIdempotent(rows: seq<Sala>, salaId: int, e: string)
    requires IsToken(e) && e != ""
    ensures LinkRows(LinkRows(rows, salaId, Some(e)), salaId, Some(e)) == LinkRows(rows, salaId, Some(e))
  {
    var once := LinkRows(rows, salaId, Some(e));
    LinkReleasesOthers(rows, salaId, e);
    forall k | 0 <= k < |rows|
      ensures LinkRows(once, salaId, Some(e))[k] == once[k]
    {
      var col := once[k].ifcExpressId;
      if rows[k].id == salaId {
        ClaimedIds(rows[k].ifcExpressId, e);
        assert e in Ids(col);
        IdsAreTokens(rows[k].ifcExpressId);
        var next := Ids(col);
        assert col == Some(Join(next, ','));
      }
    }
  }

  /** The link of a clean identifier keeps the table exclusive. */
  lemma {:induction false} LinkPreservesExclusive(rows: seq<Sala>, salaId: int, e: Option<string>)
    requires UniqueIds(rows) && Exclusive(rows)
    requires e.Some? ==> IsToken(e.value)
    ensures Exclusive(LinkRows(rows, salaId, e))
  {
    var after := LinkRows(rows, salaId, e);
    // Each row now lists a subset of what it listed before, and only the target may have gained `e`.
    forall k, t | 0 <= k < |rows| && t in Ids(after[k].ifcExpressId)
      ensures t in Ids(rows[k].ifcExpressId) || (e.Some? && t == e.value && rows[k].id == salaId)
      ensures e.Some? && t == e.value ==> rows[k].id == salaId
    {
      if e.Some? {
        if rows[k].id == salaId {
          ClaimedIds(rows[k].ifcExpressId, e.value);
        } else {
          ReleasedIds(rows[k].ifcExpressId, e.value);
        }
      }
    }
  }

  /** Unlinking removes every occurrence of `e` from the target and keeps the other entries in order. */
  lemma UnlinkRemoves(rows: seq<Sala>, salaId: int, e: string, k: nat)
    requires k < |rows| && rows[k].id == salaId && Truthy(rows[k].ifcExpressId)
    ensures var after := UnlinkRows(rows, salaId, e)[k].ifcExpressId;
      && e !in Ids(after)
      && (after.None? <==> Without(Ids(rows[k].ifcExpressId), e) == [])
      && (Without(Ids(rows[k].ifcExpressId), e) != [""] ==> Ids(after) == Without(Ids(rows[k].ifcExpressId), e))
  {
    var f := Without(Ids(rows[k].ifcExpressId), e);
    IdsAreTokens(rows[k].ifcExpressId);
    WithoutKeepsTokens(Ids(rows[k].ifcExpressId), e);
    if |f| > 0 { IdsOfJoin(f); }
  }

  /** Unlinking from a missing room or from a room with an empty list changes nothing and returns no result. */
  lemma UnlinkWithoutListIsNoOp(rows: seq<Sala>, salaId: int, e: string)
    requires forall k :: 0 <= k < |rows| && rows[k].id == salaId ==> !Truthy(rows[k].ifcExpressId)
    ensures UnlinkRows(rows, salaId, e) == rows
    ensures !UnlinkAnswered(rows, salaId)
  {
  }

  /** Unlinking keeps the table exclusive. */
  lemma {:induction false} UnlinkPreservesExclusive(rows: seq<Sala>, salaId: int, e: string)
    requires Exclusive(rows)
    ensures Exclusive(UnlinkRows(rows, salaId, e))
  {
    var after := UnlinkRows(rows, salaId, e);
    forall k, t | 0 <= k < |rows| && t in Ids(after[k].ifcExpressId)
      ensures t in Ids(rows[k].ifcExpressId)
    {
      if rows[k].id == salaId && Truthy(rows[k].ifcExpressId) {
        var f := Without(Ids(rows[k].ifcExpressId), e);
        IdsAreTokens(rows[k].ifcExpressId);
        WithoutKeepsTokens(Ids(rows[k].ifcExpressId), e);
        if |f| > 0 { IdsOfJoin(f); }
      }
    }
  }

  // ---------------------------------------------------------------------
  // An identifier sent as text with spaces or a comma
  // ---------------------------------------------------------------------

  /**
   * As written, the identifier is compared with the trimmed entries of the
   * other rooms but stored untrimmed in the target: " 7" is not found in a
   * room listing "7", and the target then reads back as "7" too.
   */
  lemma UntrimmedLinkBreaksExclusive(a: Sala, b: Sala)
    requires a.id == 1 && a.ifcExpressId == Some("7")
    requires b.id == 2 && b.ifcExpressId == None
    ensures UniqueIds([a, b]) && Exclusive([a, b])
    ensures !Exclusive(LinkRows([a, b], 2, Some(" 7")))
  {
    SplitFree("7", ',');
    SplitFree(" 7", ',');
    assert " 7"[1..] == "7";
    assert Trim(" 7") == "7";
    assert Ids(Some("7")) == ["7"];
    var after := LinkRows([a, b], 2, Some(" 7"));
    assert Join([" 7"], ',') == " 7";
    assert after[1].ifcExpressId == Some(" 7");
    assert Ids(after[1].ifcExpressId) == ["7"];
    assert after[0].ifcExpressId == Some("7");
    assert "7" in Ids(after[0].ifcExpressId) && "7" in Ids(after[1].ifcExpressId);
  }

  /**
   * linkIfcToRoom with the identifier read the way stored lists are read:
   * trimmed first, and refused (no change) when it holds the separator.
   */
  function LinkRowsNormalised(rows: seq<Sala>, salaId: int, e: string): seq<Sala>
  {
    var t := Trim(e);
    if ',' in t then rows else LinkRows(rows, salaId, Some(t))
  }

  /** With the identifier normalised, every link keeps the table exclusive, whatever text is sent. */
  lemma NormalisedLinkPreservesExclusive(rows: seq<Sala>, salaId: int, e: string)
    requires UniqueIds(rows) && Exclusive(rows)
    ensures Exclusive(LinkRowsNormalised(rows, salaId, e))
  {
    var t := Trim(e);
    if ',' !in t {
      LinkPreservesExclusive(rows, salaId, Some(t));
    }
  }

  /** For a clean identifier (all the viewer ever sends) the normalised link is the link as written. */
  lemma NormalisedAgreesOnTokens(rows: seq<Sala>, salaId: int, e: string)
    requires IsToken(e)
    ensures LinkRowsNormalised(rows, salaId, e) == LinkRows(rows, salaId, Some(e))
  {
  }
}
