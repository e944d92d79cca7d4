/**
 * The 3D viewer controller (the `useIfcViewer` hook): the colour subsets it
 * lays over the IFC model, its busy flag, the click test, picking and the
 * x-ray material effect. The scene is a sequence of tagged nodes; the
 * rendering library is left out, and its calls become parameters.
 */
module Viewer {
  import opened Common
  import opened Text
  import opened Records
  import opened Stats
  import Links

  const DEFAULT_COLOR := "#9CA3AF"
  const HIGHLIGHT := "selection-highlight"
  const STRUCTURAL := "structural_subset"
  const HIGHLIGHT_COLOR := "#3b82f6"

  // ---------------------------------------------------------------------
  // Element ids of a room
  // ---------------------------------------------------------------------

  /**
   * `Number(token)` of a trimmed token, for plain decimal digits only: a
   * string of digits gives its value (the empty string gives 0). The other
   * texts `Number` accepts (a sign, a fraction, an exponent, a 0x/0o/0b
   * prefix, "Infinity") are not modelled and read here as NaN (`None`).
   */
  function NumberOf(t: string): Option<int>
  {
    if AllDigits(t) then Some(DigitValue(t)) else None
  }

  /** The tokens that are numbers greater than zero, as numbers, in order. */
  function PositiveIds(ts: seq<string>): (r: seq<int>)
    ensures |r| <= |ts|
    ensures forall x :: x in r ==> x > 0
  {
    if |ts| == 0 then []
    else (var n := NumberOf(ts[0]); if n.Some? && n.value > 0 then [n.value] else []) + PositiveIds(ts[1..])
  }

  /** The element ids of a room's list: comma-split, trimmed, NaN and non-positive values dropped. */
  function ParseIds(col: string): (r: seq<int>)
    ensures forall x :: x in r ==> x > 0
  {
    PositiveIds(Tokens(col))
  }

  /** The text the link route stores for each element id. */
  function IdTexts(xs: seq<nat>): (r: seq<string>)
    ensures |r| == |xs|
    ensures forall i :: 0 <= i < |xs| ==> r[i] == NatToString(xs[i])
  {
    if |xs| == 0 then [] else [NatToString(xs[0])] + IdTexts(xs[1..])
  }

  lemma {:induction false} PositiveIdsOfTexts(xs: seq<nat>)
    requires forall i :: 0 <= i < |xs| ==> xs[i] > 0
    ensures PositiveIds(IdTexts(xs)) == xs
  {
    if |xs| > 0 {
      DigitValueOfNatToString(xs[0]);
      PositiveIdsOfTexts(xs[1..]);
      assert IdTexts(xs)[1..] == IdTexts(xs[1..]);
    }
  }

  /** A list written as positive element ids joined by commas is parsed back to exactly those ids. */
  lemma ParseIdsOfStoredList(xs: seq<nat>)
    requires |xs| >= 1
    requires forall i :: 0 <= i < |xs| ==> xs[i] > 0
    ensures ParseIds(Join(IdTexts(xs), ',')) == xs
  {
    forall i | 0 <= i < |xs| ensures IsToken(IdTexts(xs)[i]) {
      NatToStringIsToken(xs[i]);
    }
    TokensOfJoin(IdTexts(xs));
    PositiveIdsOfTexts(xs);
  }

  // ---------------------------------------------------------------------
  // Colour groups
  // ---------------------------------------------------------------------

  /** A colour and the element ids to paint with it. */
  datatype Group = Group(color: string, ids: seq<int>)

  /** `room.color || '#9CA3AF'`. */
  function ColorKey(r: ColoredRoom): string
  {
    if r.color != "" then r.color else DEFAULT_COLOR
  }

  /** Only rooms with a non-empty element list take part in the grouping. */
  predicate Contributes(r: ColoredRoom)
  {
    Truthy(r.sala.ifcExpressId)
  }

  function RoomIds(r: ColoredRoom): seq<int>
  {
    if Contributes(r) then ParseIds(r.sala.ifcExpressId.value) else []
  }

  /** Where colour `c` sits among the groups; `|groups|` when it has none. */
  function ColorIndex(groups: seq<Group>, c: string): (k: nat)
    ensures k <= |groups|
    ensures k < |groups| ==> groups[k].color == c
    ensures forall j :: 0 <= j < k ==> groups[j].color != c
  {
    if |groups| == 0 then 0
    else if groups[0].color == c then 0
    else 1 + ColorIndex(groups[1..], c)
  }

  /** One step of the `forEach`: a contributing room pushes its ids onto its colour's group, created on first use. */
  function AddRoom(groups: seq<Group>, r: ColoredRoom): seq<Group>
  {
    if !Contributes(r) then groups
    else
      var c := ColorKey(r);
      var k := ColorIndex(groups, c);
      if k < |groups| then groups[k := Group(c, groups[k].ids + RoomIds(r))]
      else groups + [Group(c, RoomIds(r))]
  }

  /** The `colorGroups` map after every room has been visited, in insertion order. */
  function ColorGroups(rooms: seq<ColoredRoom>): seq<Group>
  {
    if |rooms| == 0 then [] else AddRoom(ColorGroups(rooms[..|rooms| - 1]), rooms[|rooms| - 1])
  }

  /** Reference definition: the ids painted with colour `c` are those of its contributing rooms, in room order. */
  function IdsOfColor(rooms: seq<ColoredRoom>, c: string): seq<int>
  {
    if |rooms| == 0 then []
    else IdsOfColor(rooms[..|rooms| - 1], c)
         + (if Contributes(rooms[|rooms| - 1]) && ColorKey(rooms[|rooms| - 1]) == c then RoomIds(rooms[|rooms| - 1]) else [])
  }

  predicate ColorUsed(rooms: seq<ColoredRoom>, c: string)
  {
    exists r :: r in rooms && Contributes(r) && ColorKey(r) == c
  }

  predicate HasGroup(groups: seq<Group>, c: string)
  {
    exists k :: 0 <= k < |groups| && groups[k].color == c
  }

  predicate DistinctColors(groups: seq<Group>)
  {
    forall i, j :: 0 <= i < j < |groups| ==> groups[i].color != groups[j].color
  }

  /**
   * The grouping is right: one group per colour, a group exactly for each
   * colour some contributing room has, holding that colour's ids in room
   * order.
   */
  lemma {:induction false} ColorGroupsCorrect(rooms: seq<ColoredRoom>)
    ensures DistinctColors(ColorGroups(rooms))
    ensures forall k :: 0 <= k < |ColorGroups(rooms)| ==>
      ColorGroups(rooms)[k].ids == IdsOfColor(rooms, ColorGroups(rooms)[k].color)
    ensures forall c :: HasGroup(ColorGroups(rooms), c) <==> ColorUsed(rooms, c)
  {
    if |rooms| > 0 {
      var init := rooms[..|rooms| - 1];
      var r := rooms[|rooms| - 1];
      ColorGroupsCorrect(init);
      SplitLast(rooms);
      AddRoomIds(ColorGroups(init), init, r);
      AddRoomGroups(ColorGroups(init), init, r);
    }
  }

  lemma IdsOfColorSnoc(init: seq<ColoredRoom>, r: ColoredRoom, c: string)
    ensures IdsOfColor(init + [r], c)
      == IdsOfColor(init, c) + (if Contributes(r) && ColorKey(r) == c then RoomIds(r) else [])
  {
    assert (init + [r])[..|init|] == init;
  }

  /** The step keeps one group per colour, each holding its colour's ids. */
  lemma AddRoomIds(g0: seq<Group>, init: seq<ColoredRoom>, r: ColoredRoom)
    requires DistinctColors(g0)
    requires forall k :: 0 <= k < |g0| ==> g0[k].ids == IdsOfColor(init, g0[k].color)
    requires forall c :: HasGroup(g0, c) <==> ColorUsed(init, c)
    ensures DistinctColors(AddRoom(g0, r))
    ensures forall k :: 0 <= k < |AddRoom(g0, r)| ==>
      AddRoom(g0, r)[k].ids == IdsOfColor(init + [r], AddRoom(g0, r)[k].color)
  {
    var g := AddRoom(g0, r);
    if !Contributes(r) {
      forall k | 0 <= k < |g| ensures g[k].ids == IdsOfColor(init + [r], g[k].color) {
        IdsOfColorSnoc(init, r, g[k].color);
      }
    } else {
      var c := ColorKey(r);
      var i := ColorIndex(g0, c);
      if i < |g0| {
        assert g == g0[i := Group(c, g0[i].ids + RoomIds(r))];
        forall k | 0 <= k < |g| ensures g[k].ids == IdsOfColor(init + [r], g[k].color) {
          IdsOfColorSnoc(init, r, g[k].color);
          if k != i {
            assert g[k] == g0[k] && g0[k].color != c;
          }
        }
      } else {
        assert g == g0 + [Group(c, RoomIds(r))];
        assert !HasGroup(g0, c);
        EmptyWhenUnused(init, c);
        forall k | 0 <= k < |g| ensures g[k].ids == IdsOfColor(init + [r], g[k].color) {
          IdsOfColorSnoc(init, r, g[k].color);
          if k < |g0| {
            assert g[k] == g0[k] && g0[k].color != c;
          }
        }
      }
    }
  }

  /** The step gives a group exactly to the colours some contributing room has. */
  lemma AddRoomGroups(g0: seq<Group>, init: seq<ColoredRoom>, r: ColoredRoom)
    requires forall c :: HasGroup(g0, c) <==> ColorUsed(init, c)
    ensures forall c :: HasGroup(AddRoom(g0, r), c) <==> ColorUsed(init + [r], c)
  {
    var g := AddRoom(g0, r);
    var rooms := init + [r];
    assert forall x :: x in rooms <==> x in init || x == r;
    forall c ensures HasGroup(g, c) <==> ColorUsed(rooms, c) {
      if HasGroup(g0, c) {
        var j :| 0 <= j < |g0| && g0[j].color == c;
        assert g[j].color == c;
      }
      if Contributes(r) && c == ColorKey(r) {
        var k := ColorIndex(g0, c);
        assert g[k].color == c;
      }
    }
  }

  lemma {:induction false} EmptyWhenUnused(rooms: seq<ColoredRoom>, c: string)
    requires !ColorUsed(rooms, c)
    ensures IdsOfColor(rooms, c) == []
  {
    if |rooms| > 0 {
      var init := rooms[..|rooms| - 1];
      assert forall x :: x in init ==> x in rooms;
      EmptyWhenUnused(init, c);
      assert rooms[|rooms| - 1] in rooms;
    }
  }

  // ---------------------------------------------------------------------
  // Scene
  // ---------------------------------------------------------------------

  /** A mesh material; `opacity` in percent. */
  datatype Material = Material(transparent: bool, opacity: nat, depthWrite: bool)

  /**
   * A scene node: a light, or a mesh with its name, its `customID`, its
   * `isStatusSubset` mark, its model id, and for subsets the colour and the
   * element ids it paints.
   */
  datatype Node =
    | Light
    | Mesh(name: string, customId: string, statusSubset: bool, modelId: Option<int>,
           color: string, ids: seq<int>, mat: Material)

  predicate IsStatusSubset(n: Node)
  {
    n.Mesh? && n.statusSubset
  }

  /** The colour a node paints with; only subsets have one. */
  function ColorOf(n: Node): string
  {
    if n.Mesh? then n.color else ""
  }

  predicate IsHighlight(n: Node)
  {
    n.Mesh? && (n.name == HIGHLIGHT || n.customId == HIGHLIGHT)
  }

  /** The subset drawn for a colour group: translucent, faint (30%) for the pending grey, 70% otherwise. */
  function StatusSubset(g: Group, modelId: int): Node
  {
    Mesh("", "", true, Some(modelId), g.color, g.ids,
         Material(true, if Lower(g.color) == "#9ca3af" then 30 else 70, true))
  }

  /** The mesh a loaded model adds to the scene. */
  function ModelMesh(modelId: int): Node
  {
    Mesh("", "", false, Some(modelId), "", [], Material(false, 100, true))
  }

  /** The blue subset drawn over a picked element. */
  function HighlightMesh(modelId: int, id: int): Node
  {
    Mesh(HIGHLIGHT, HIGHLIGHT, false, Some(modelId), HIGHLIGHT_COLOR, [id], Material(true, 60, true))
  }

  function DropStatusSubsets(scene: seq<Node>): (r: seq<Node>)
    ensures forall n :: n in r <==> n in scene && !IsStatusSubset(n)
    ensures forall i :: 0 <= i < |r| ==> !IsStatusSubset(r[i])
  {
    if |scene| == 0 then []
    else DropStatusSubsets(scene[..|scene| - 1])
         + (if IsStatusSubset(scene[|scene| - 1]) then [] else [scene[|scene| - 1]])
  }

  /** The subsets created for the groups, skipping the colours whose creation fails. */
  function NewSubsets(groups: seq<Group>, modelId: int, failing: set<string>): (r: seq<Node>)
    ensures forall i :: 0 <= i < |r| ==> IsStatusSubset(r[i])
  {
    if |groups| == 0 then []
    else NewSubsets(groups[..|groups| - 1], modelId, failing)
         + (if groups[|groups| - 1].color in failing then [] else [StatusSubset(groups[|groups| - 1], modelId)])
  }

  /** The scene after a colour rebuild: old subsets removed, one new subset per group appended. */
  function Recoloured(scene: seq<Node>, groups: seq<Group>, modelId: int, failing: set<string>): seq<Node>
  {
    DropStatusSubsets(scene) + NewSubsets(groups, modelId, failing)
  }

  lemma {:induction false} DropStatusSubsetsAppend(a: seq<Node>, b: seq<Node>)
    ensures DropStatusSubsets(a + b) == DropStatusSubsets(a) + DropStatusSubsets(b)
  {
    if |b| > 0 {
      var b' := b[..|b| - 1];
      assert (a + b)[..|a + b| - 1] == a + b';
      DropStatusSubsetsAppend(a, b');
    } else {
      assert a + b == a;
    }
  }

  lemma {:induction false} DropStatusSubsetsKeepsNone(s: seq<Node>)
    requires forall i :: 0 <= i < |s| ==> !IsStatusSubset(s[i])
    ensures DropStatusSubsets(s) == s
  {
    if |s| > 0 {
      var init, last := s[..|s| - 1], s[|s| - 1];
      SplitLast(s);
      assert forall i :: 0 <= i < |init| ==> !IsStatusSubset(init[i]);
      DropStatusSubsetsKeepsNone(init);
      assert !IsStatusSubset(last);
    }
  }

  lemma {:induction false} DropStatusSubsetsOfSubsets(s: seq<Node>)
    requires forall i :: 0 <= i < |s| ==> IsStatusSubset(s[i])
    ensures DropStatusSubsets(s) == []
  {
    if |s| > 0 {
      DropStatusSubsetsOfSubsets(s[..|s| - 1]);
    }
  }

  lemma DropAfterRebuild(kept: seq<Node>, added: seq<Node>)
    requires forall i :: 0 <= i < |kept| ==> !IsStatusSubset(kept[i])
    requires forall i :: 0 <= i < |added| ==> IsStatusSubset(added[i])
    ensures DropStatusSubsets(kept + added) == kept
  {
    DropStatusSubsetsAppend(kept, added);
    DropStatusSubsetsKeepsNone(kept);
    DropStatusSubsetsOfSubsets(added);
    assert kept + [] == kept;
  }

  /** Rebuilding the colours twice leaves the scene as one rebuild does: subsets never pile up. */
  lemma RecolouredIdempotent(scene: seq<Node>, groups: seq<Group>, modelId: int, failing: set<string>)
    ensures Recoloured(Recoloured(scene, groups, modelId, failing), groups, modelId, failing)
         == Recoloured(scene, groups, modelId, failing)
  {
    DropAfterRebuild(DropStatusSubsets(scene), NewSubsets(groups, modelId, failing));
  }

  lemma {:induction false} NewSubsetsFromGroups(groups: seq<Group>, modelId: int, failing: set<string>)
    ensures forall n :: n in NewSubsets(groups, modelId, failing) ==>
      exists k :: 0 <= k < |groups| && n == StatusSubset(groups[k], modelId) && groups[k].color !in failing
  {
    if |groups| > 0 {
      var init := groups[..|groups| - 1];
      NewSubsetsFromGroups(init, modelId, failing);
      forall n | n in NewSubsets(init, modelId, failing)
        ensures exists k :: 0 <= k < |groups| && n == StatusSubset(groups[k], modelId) && groups[k].color !in failing
      {
        var k :| 0 <= k < |init| && n == StatusSubset(init[k], modelId) && init[k].color !in failing;
        assert groups[k] == init[k];
      }
    }
  }

  lemma {:induction false} NewSubsetsDistinct(groups: seq<Group>, modelId: int, failing: set<string>)
    requires DistinctColors(groups)
    ensures forall i, j :: 0 <= i < j < |NewSubsets(groups, modelId, failing)| ==>
      ColorOf(NewSubsets(groups, modelId, failing)[i]) != ColorOf(NewSubsets(groups, modelId, failing)[j])
  {
    if |groups| > 0 {
      var init := groups[..|groups| - 1];
      var last := groups[|groups| - 1];
      NewSubsetsDistinct(init, modelId, failing);
      NewSubsetsFromGroups(init, modelId, failing);
      var r0 := NewSubsets(init, modelId, failing);
      var r := NewSubsets(groups, modelId, failing);
      forall i | 0 <= i < |r0| ensures ColorOf(r0[i]) != last.color {
        assert r0[i] in r0;
        var k :| 0 <= k < |init| && r0[i] == StatusSubset(init[k], modelId) && init[k].color !in failing;
        assert init[k] == groups[k];
      }
      if last.color !in failing {
        assert r == r0 + [StatusSubset(last, modelId)];
        forall i, j | 0 <= i < j < |r| ensures ColorOf(r[i]) != ColorOf(r[j]) {
          if j < |r0| {
            assert r[i] == r0[i] && r[j] == r0[j];
          } else {
            assert r[i] == r0[i] && ColorOf(r[j]) == last.color;
          }
        }
      } else {
        assert r == r0;
      }
    }
  }

  /** After a rebuild from distinct colours, no two status subsets share a colour. */
  lemma OneSubsetPerColour(scene: seq<Node>, groups: seq<Group>, modelId: int, failing: set<string>)
    requires DistinctColors(groups)
    ensures forall i, j ::
      (0 <= i < j < |Recoloured(scene, groups, modelId, failing)|
       && IsStatusSubset(Recoloured(scene, groups, modelId, failing)[i])
       && IsStatusSubset(Recoloured(scene, groups, modelId, failing)[j]))
      ==> ColorOf(Recoloured(scene, groups, modelId, failing)[i]) != ColorOf(Recoloured(scene, groups, modelId, failing)[j])
  {
    var kept := DropStatusSubsets(scene);
    var added := NewSubsets(groups, modelId, failing);
    var r := kept + added;
    NewSubsetsDistinct(groups, modelId, failing);
    forall i, j | 0 <= i < j < |r| && IsStatusSubset(r[i]) && IsStatusSubset(r[j]) ensures ColorOf(r[i]) != ColorOf(r[j]) {
      assert i >= |kept|;
      assert r[i] == added[i - |kept|] && r[j] == added[j - |kept|];
    }
  }

  /** The pending grey is drawn faint whatever its letter case; any other colour at 70%. */
  lemma SubsetOpacity(g: Group, modelId: int)
    ensures g.color == DEFAULT_COLOR || g.color == "#9ca3af" ==> StatusSubset(g, modelId).mat.opacity == 30
    ensures Lower(g.color) != "#9ca3af" ==> StatusSubset(g, modelId).mat.opacity == 70
  {
    if g.color == DEFAULT_COLOR || g.color == "#9ca3af" {
      assert Lower(g.color) == "#9ca3af";
    }
  }

  /** The scene after a new model load clears it: only the lights stay. */
  function LightsOnly(scene: seq<Node>): (r: seq<Node>)
    ensures forall n :: n in r <==> n in scene && n.Light?
  {
    if |scene| == 0 then [] else (if scene[0].Light? then [scene[0]] else []) + LightsOnly(scene[1..])
  }

  function DropHighlights(scene: seq<Node>): (r: seq<Node>)
    ensures forall n :: n in r <==> n in scene && !IsHighlight(n)
  {
    if |scene| == 0 then []
    else DropHighlights(scene[..|scene| - 1])
         + (if IsHighlight(scene[|scene| - 1]) then [] else [scene[|scene| - 1]])
  }

  /**
   * The x-ray effect on one node: structural subsets and model meshes
   * (any mesh that is not a status subset and has a model id) turn
   * see-through at 30% without depth writes when dimmed, opaque otherwise;
   * status subsets go to 90% when dimmed, 70% otherwise.
   */
  function Restyled(n: Node, dim: bool): Node
  {
    if !n.Mesh? then n
    else
      var structural := n.customId == STRUCTURAL;
      var main := !structural && !n.statusSubset && n.modelId.Some?;
      if structural || main then n.(mat := Material(dim, if dim then 30 else 100, !dim))
      else if n.statusSubset then n.(mat := n.mat.(opacity := if dim then 90 else 70))
      else n
  }

  function RestyledScene(scene: seq<Node>, dim: bool): (r: seq<Node>)
    ensures |r| == |scene|
    ensures forall i :: 0 <= i < |scene| ==> r[i] == Restyled(scene[i], dim)
  {
    seq(|scene|, i requires 0 <= i < |scene| => Restyled(scene[i], dim))
  }

  /** Two nodes are the same object apart from their material. */
  predicate SameObject(a: Node, b: Node)
  {
    (a.Light? && b.Light?) || (a.Mesh? && b.Mesh? && a.(mat := b.mat) == b)
  }

  /**
   * The effect only ever changes materials, and the last setting wins:
   * restyling after a restyle is the same as restyling once.
   */
  lemma RestyleLastWins(scene: seq<Node>, a: bool, b: bool)
    ensures RestyledScene(RestyledScene(scene, a), b) == RestyledScene(scene, b)
    ensures forall i :: 0 <= i < |scene| ==> SameObject(RestyledScene(scene, a)[i], scene[i])
  {
  }

  // ---------------------------------------------------------------------
  // Picking
  // ---------------------------------------------------------------------

  /** What the viewer has selected: a room, or a bare model element. */
  datatype Selection = RoomPick(room: ColoredRoom) | ObjectPick(expressId: int, nome: string)

  /** What a click's ray found: nothing, a mesh without a face, or an element (its id, when the library gives one). */
  datatype Ray = Miss | HitNoFace | Hit(objectModelId: Option<int>, expressId: Option<int>)

  /** `String(r.ifcExpressId || '').split(',').map(s => s.trim()).includes(t)`. */
  predicate Names(s: Sala, t: string)
  {
    t in Tokens(OrElse(s.ifcExpressId, ""))
  }

  /** The first room whose list names the element. */
  function FirstOwner(rooms: seq<ColoredRoom>, t: string): (r: Option<ColoredRoom>)
    ensures r.Some? ==> r.value in rooms && Names(r.value.sala, t)
    ensures r.None? ==> forall x :: x in rooms ==> !Names(x.sala, t)
    ensures r.Some? ==> exists k :: 0 <= k < |rooms| && rooms[k] == r.value
                                 && (forall j :: 0 <= j < k ==> !Names(rooms[j].sala, t))
  {
    if |rooms| == 0 then None
    else if Names(rooms[0].sala, t) then Some(rooms[0])
    else
      var rest := FirstOwner(rooms[1..], t);
      if rest.Some? then
        ghost var k :| 0 <= k < |rooms[1..]| && rooms[1..][k] == rest.value
          && forall j :: 0 <= j < k ==> !Names(rooms[1..][j].sala, t);
        assert rooms[k + 1] == rest.value;
        rest
      else rest
  }

  /** For an id, naming it in a room's list means the same as holding it among the room's linked ids. */
  lemma NamesIsLinked(s: Sala, id: nat)
    ensures Names(s, NatToString(id)) <==> NatToString(id) in Links.Ids(s.ifcExpressId)
  {
    NatToStringIsToken(id);
    if !Truthy(s.ifcExpressId) {
      assert Split("", ',') == [""];
    }
  }

  /** A failure `handleSelection` catches: creating the highlight throws, or reading the element's properties does. */
  datatype SelectionFault = NoFault | HighlightFails | PropertiesFail

  /**
   * Selecting the element reads its IFC properties: outside mapping mode,
   * when no room's list names it.
   */
  predicate NeedsProperties(rooms: Option<seq<ColoredRoom>>, mapping: bool, id: nat)
  {
    !mapping && (rooms.None? || FirstOwner(rooms.value, NatToString(id)).None?)
  }

  /** The properties are read exactly when the selection is the bare element outside mapping mode. */
  lemma NeedsPropertiesForUnownedElements(rooms: Option<seq<ColoredRoom>>, mapping: bool, id: nat, itemName: Option<string>)
    ensures NeedsProperties(rooms, mapping, id) <==> !mapping && PickSelection(rooms, mapping, id, itemName).ObjectPick?
  {
  }

  /**
   * The selection after a pick of element `id`: in mapping mode always the
   * bare element "Objeto <id>"; otherwise the first room naming the element,
   * else the element under its IFC name, or "Objeto <id>" when it has none.
   */
  function PickSelection(rooms: Option<seq<ColoredRoom>>, mapping: bool, id: nat, itemName: Option<string>): (s: Selection)
    ensures mapping ==> s == ObjectPick(id, "Objeto " + NatToString(id))
    ensures s.RoomPick? ==> !mapping && rooms.Some? && s.room in rooms.value && Names(s.room.sala, NatToString(id))
    ensures !mapping && rooms.Some? && (exists r :: r in rooms.value && Names(r.sala, NatToString(id))) ==> s.RoomPick?
    ensures s.ObjectPick? ==> s.expressId == id
  {
    if mapping then ObjectPick(id, "Objeto " + NatToString(id))
    else
      var owner := if rooms.Some? then FirstOwner(rooms.value, NatToString(id)) else None;
      if owner.Some? then RoomPick(owner.value)
      else ObjectPick(id, OrElse(itemName, "Objeto " + NatToString(id)))
  }

  /** `Math.sqrt(dx * dx + dy * dy) < 5`, squared. */
  predicate IsClick(dx: int, dy: int)
  {
    dx * dx + dy * dy < 25
  }

  /** A click moves less than 5 pixels on each axis; a move of at most 3 on each axis is always a click. */
  lemma ClickBounds(dx: int, dy: int)
    ensures IsClick(dx, dy) ==> -5 < dx < 5 && -5 < dy < 5
    ensures -3 <= dx <= 3 && -3 <= dy <= 3 ==> IsClick(dx, dy)
  {
    if dx <= -5 || dx >= 5 {
      assert dx * dx >= 25;
    }
    if dy <= -5 || dy >= 5 {
      assert dy * dy >= 25;
    }
    if -3 <= dx <= 3 && -3 <= dy <= 3 {
      assert dx * dx <= 9 && dy * dy <= 9;
    }
  }

  // ---------------------------------------------------------------------
  // The controller
  // ---------------------------------------------------------------------

  class IfcViewerController {
    /** The scene, camera, renderer and controls exist (`init` ran). */
    var initialised: bool
    /** The IFC loader was created. */
    var loaderReady: bool
    var scene: seq<Node>
    /** The rooms-with-colours query data, once it arrived. */
    var roomColors: Option<seq<ColoredRoom>>
    /** `isProcessingRef`. */
    var processing: bool
    var currentModelId: Option<int>
    /** The id of the model in `modelRef`. */
    var model: Option<int>
    var isModelLoaded: bool
    var selected: Option<Selection>
    var xRay: bool
    var mappingMode: bool
    var mouseDownAt: Option<(int, int)>

    constructor()
      ensures !initialised && !loaderReady && scene == [] && roomColors.None? && !processing
      ensures currentModelId.None? && model.None? && !isModelLoaded && selected.None?
      ensures !xRay && !mappingMode && mouseDownAt.None?
    {
      initialised := false;
      loaderReady := false;
      scene := [];
      roomColors := None;
      processing := false;
      currentModelId := None;
      model := None;
      isModelLoaded := false;
      selected := None;
      xRay := false;
      mappingMode := false;
      mouseDownAt := None;
    }

    /** `init`: a scene with its three lights; the loader may fail to start. */
    method Init(loaderOk: bool)
      modifies this`initialised, this`loaderReady, this`scene
      ensures initialised && loaderReady == loaderOk && scene == [Light, Light, Light]
    {
      scene := [Light, Light, Light];
      loaderReady := loaderOk;
      initialised := true;
    }

    /** `applyColors` does nothing: busy and not forced, or no colours, loader or scene yet. */
    predicate ColorsBlocked(force: bool)
      reads this
    {
      (processing && !force) || roomColors.None? || !loaderReady || !initialised
    }

    /** The `forEach` building `colorGroups`. */
    method BuildColorGroups(rooms: seq<ColoredRoom>) returns (groups: seq<Group>)
      ensures groups == ColorGroups(rooms)
    {
      groups := [];
      for i := 0 to |rooms|
        invariant groups == ColorGroups(rooms[..i])
      {
        var r := rooms[i];
        assert rooms[..i + 1][..i] == rooms[..i];
        ghost var expected := AddRoom(groups, r);
        if Truthy(r.sala.ifcExpressId) {
          var ids := ParseIds(r.sala.ifcExpressId.value);
          var c := if r.color != "" then r.color else DEFAULT_COLOR;
          var k := ColorIndex(groups, c);
          if k == |groups| {
            groups := groups + [Group(c, [])];
            assert [] + ids == ids;
          }
          groups := groups[k := groups[k].(ids := groups[k].ids + ids)];
        }
        assert groups == expected;
      }
      assert rooms[..|rooms|] == rooms;
    }

    /** The traversal collecting and removing every status subset. */
    method RemoveStatusSubsets(nodes: seq<Node>) returns (kept: seq<Node>)
      ensures kept == DropStatusSubsets(nodes)
    {
      kept := [];
      for i := 0 to |nodes|
        invariant kept == DropStatusSubsets(nodes[..i])
      {
        assert nodes[..i + 1][..i] == nodes[..i];
        if !IsStatusSubset(nodes[i]) {
          kept := kept + [nodes[i]];
        }
      }
      assert nodes[..|nodes|] == nodes;
    }

    /** The loop over the colour groups, adding one subset per colour whose creation succeeds. */
    method AddSubsets(nodes: seq<Node>, groups: seq<Group>, modelId: int, failing: set<string>) returns (r: seq<Node>)
      ensures r == nodes + NewSubsets(groups, modelId, failing)
    {
      r := nodes;
      for k := 0 to |groups|
        invariant r == nodes + NewSubsets(groups[..k], modelId, failing)
      {
        assert groups[..k + 1][..k] == groups[..k];
        if groups[k].color !in failing {
          r := r + [StatusSubset(groups[k], modelId)];
        }
      }
      assert groups[..|groups|] == groups;
    }

    /**
     * `applyColors(model, force)`: unless blocked, removes every status
     * subset and adds one per colour group (except colours whose subset
     * cannot be created); the busy flag ends as it was on entry.
     */
    method ApplyColors(modelId: int, force: bool, failing: set<string>)
      modifies this`scene, this`processing
      ensures processing == old(processing)
      ensures old(ColorsBlocked(force)) ==> scene == old(scene)
      ensures !old(ColorsBlocked(force)) ==>
        scene == Recoloured(old(scene), ColorGroups(roomColors.value), modelId, failing)
    {
      if processing && !force {
        return;
      }
      if roomColors.None? || !loaderReady || !initialised {
        return;
      }
      var wasProcessing := processing;
      processing := true;
      var groups := BuildColorGroups(roomColors.value);
      var kept := RemoveStatusSubsets(scene);
      scene := AddSubsets(kept, groups, modelId, failing);
      if !wasProcessing {
        processing := false;
      }
    }

    /**
     * The first half of `loadIfcModel`, up to the wait for the file: busy or
     * not ready, it does nothing; otherwise it takes the busy flag, closes the
     * current model and clears the scene down to its lights.
     */
    method BeginLoad() returns (started: bool)
      modifies this`processing, this`currentModelId, this`scene, this`isModelLoaded
      ensures started <==> old(loaderReady && initialised && !processing)
      ensures !started ==> processing == old(processing) && currentModelId == old(currentModelId)
                           && scene == old(scene) && isModelLoaded == old(isModelLoaded)
      ensures started ==> processing && currentModelId.None? && scene == LightsOnly(old(scene)) && !isModelLoaded
    {
      if !loaderReady || !initialised || processing {
        return false;
      }
      processing := true;
      if currentModelId.Some? {
        currentModelId := None;
      }
      scene := LightsOnly(scene);
      isModelLoaded := false;
      return true;
    }

    /**
     * The second half of `loadIfcModel`, once the loader answered: a model
     * (`Some(id)`) is added to the scene and coloured with a forced rebuild;
     * a failure (`None`) changes nothing; either way the busy flag drops.
     */
    method FinishLoad(loaded: Option<int>, failing: set<string>)
      requires processing
      modifies this`processing, this`currentModelId, this`model, this`scene, this`isModelLoaded
      ensures !processing
      ensures loaded.None? ==> scene == old(scene) && currentModelId == old(currentModelId)
                               && model == old(model) && isModelLoaded == old(isModelLoaded)
      ensures loaded.Some? ==> currentModelId == loaded && model == loaded && isModelLoaded
      ensures loaded.Some? && (roomColors.None? || !loaderReady || !initialised) ==>
        scene == old(scene) + [ModelMesh(loaded.value)]
      ensures loaded.Some? && roomColors.Some? && loaderReady && initialised ==>
        scene == Recoloured(old(scene) + [ModelMesh(loaded.value)], ColorGroups(roomColors.value), loaded.value, failing)
    {
      if loaded.Some? {
        currentModelId := loaded;
        model := loaded;
        scene := scene + [ModelMesh(loaded.value)];
        ApplyColors(loaded.value, true, failing);
        isModelLoaded := true;
      }
      processing := false;
    }

    /** The effect re-run when the colours or the loaded flag change: a non-forced rebuild of a loaded model. */
    method RecolourEffect(failing: set<string>)
      modifies this`scene, this`processing
      ensures processing == old(processing)
      ensures !(model.Some? && isModelLoaded && !processing && roomColors.Some? && loaderReady && initialised) ==>
        scene == old(scene)
      ensures model.Some? && isModelLoaded && !processing && roomColors.Some? && loaderReady && initialised ==>
        scene == Recoloured(old(scene), ColorGroups(roomColors.value), model.value, failing)
    {
      if model.Some? && isModelLoaded && !processing {
        ApplyColors(model.value, false, failing);
      }
    }

    /** New colour data from the server, followed by the recolour effect. */
    method ReceiveRoomColors(rooms: seq<ColoredRoom>, failing: set<string>)
      modifies this`roomColors, this`scene, this`processing
      ensures roomColors == Some(rooms) && processing == old(processing)
      ensures !(model.Some? && isModelLoaded && !processing && loaderReady && initialised) ==> scene == old(scene)
      ensures model.Some? && isModelLoaded && !processing && loaderReady && initialised ==>
        scene == Recoloured(old(scene), ColorGroups(rooms), model.value, failing)
    {
      roomColors := Some(rooms);
      RecolourEffect(failing);
    }

    /** `clearSelectionHighlight` (also bound to Escape): removes highlight meshes and the selection, once a scene exists. */
    method ClearSelectionHighlight()
      modifies this`scene, this`selected
      ensures !initialised ==> scene == old(scene) && selected == old(selected)
      ensures initialised ==> scene == DropHighlights(old(scene)) && selected.None?
    {
      if !initialised {
        return;
      }
      var kept: seq<Node> := [];
      for i := 0 to |scene|
        invariant kept == DropHighlights(scene[..i])
      {
        assert scene[..i + 1][..i] == scene[..i];
        if !IsHighlight(scene[i]) {
          kept := kept + [scene[i]];
        }
      }
      assert scene[..|scene|] == scene;
      scene := kept;
      selected := None;
    }

    /** A mouse-down on the canvas records where it happened (the listeners exist once the scene is up). */
    method MouseDown(x: int, y: int)
      modifies this`mouseDownAt
      ensures mouseDownAt == if initialised then Some((x, y)) else old(mouseDownAt)
    {
      if initialised {
        mouseDownAt := Some((x, y));
      }
    }

    /** A mouse-up picks only after a recorded mouse-down less than 5 pixels away; the record is always reset. */
    method MouseUp(x: int, y: int) returns (pick: bool)
      modifies this`mouseDownAt
      ensures pick <==> initialised && old(mouseDownAt).Some?
                        && IsClick(x - old(mouseDownAt).value.0, y - old(mouseDownAt).value.1)
      ensures mouseDownAt == if initialised && old(mouseDownAt).Some? then None else old(mouseDownAt)
    {
      if !initialised || mouseDownAt.None? {
        return false;
      }
      var dx := x - mouseDownAt.value.0;
      var dy := y - mouseDownAt.value.1;
      pick := dx * dx + dy * dy < 25;
      mouseDownAt := None;
    }

    /**
     * `handleSelection` for a ray's outcome. Busy or not ready: nothing. A
     * miss clears the highlight and the selection. A hit on an element with
     * a non-negative id clears the highlight and the selection, then adds a
     * highlight on that element and selects as `PickSelection` says; a hit
     * without a face or without a usable id (also when reading the id
     * fails) changes nothing. `itemName` is the element's IFC name. When
     * creating the highlight fails, or reading the properties the selection
     * needs fails, the error is caught and the selection stays cleared.
     */
    method HandleSelection(ray: Ray, itemName: Option<string>, fault: SelectionFault)
      modifies this`scene, this`selected
      ensures !initialised || !loaderReady || processing ==> scene == old(scene) && selected == old(selected)
      ensures initialised && loaderReady && !processing && ray.Miss? ==>
        scene == DropHighlights(old(scene)) && selected.None?
      ensures ray.HitNoFace? || (ray.Hit? && (ray.expressId.None? || ray.expressId.value < 0)) ==>
        scene == old(scene) && selected == old(selected)
      ensures initialised && loaderReady && !processing && ray.Hit? && ray.expressId.Some? && ray.expressId.value >= 0 ==>
        var target := if ray.objectModelId.Some? then ray.objectModelId.value
                      else if currentModelId.Some? then currentModelId.value else 0;
        var id := ray.expressId.value;
        if fault.HighlightFails? then
          scene == DropHighlights(old(scene)) && selected.None?
        else if fault.PropertiesFail? && NeedsProperties(roomColors, mappingMode, id) then
          scene == DropHighlights(old(scene)) + [HighlightMesh(target, id)] && selected.None?
        else
          && scene == DropHighlights(old(scene)) + [HighlightMesh(target, id)]
          && selected == Some(PickSelection(roomColors, mappingMode, id, itemName))
    {
      if !initialised || !loaderReady || processing {
        return;
      }
      match ray
      case Miss =>
        ClearSelectionHighlight();
      case HitNoFace =>
      case Hit(objectModelId, expressId) =>
        if expressId.None? || expressId.value < 0 {
          return;
        }
        var id: nat := expressId.value;
        ClearSelectionHighlight();
        if fault.HighlightFails? {
          return;
        }
        var target := if objectModelId.Some? then objectModelId.value
                      else if currentModelId.Some? then currentModelId.value else 0;
        scene := scene + [HighlightMesh(target, id)];
        if fault.PropertiesFail? && NeedsProperties(roomColors, mappingMode, id) {
          return;
        }
        selected := Some(PickSelection(roomColors, mappingMode, id, itemName));
    }

    /** The x-ray effect: restyle every node for the current `xRay || mappingMode`. */
    method RefreshMaterials()
      modifies this`scene
      ensures !initialised ==> scene == old(scene)
      ensures initialised ==> scene == RestyledScene(old(scene), xRay || mappingMode)
    {
      if !initialised {
        return;
      }
      var dim := xRay || mappingMode;
      for i := 0 to |scene|
        invariant |scene| == |old(scene)|
        invariant forall j :: 0 <= j < i ==> scene[j] == Restyled(old(scene)[j], dim)
        invariant forall j :: i <= j < |scene| ==> scene[j] == old(scene)[j]
      {
        scene := scene[i := Restyled(scene[i], dim)];
      }
    }

    /** The x-ray toggle; the effect runs only when the value changes. */
    method SetXRay(on: bool)
      modifies this`xRay, this`scene
      ensures xRay == on
      ensures on == old(xRay) ==> scene == old(scene)
      ensures on != old(xRay) && initialised ==> scene == RestyledScene(old(scene), on || mappingMode)
    {
      if on != xRay {
        xRay := on;
        RefreshMaterials();
      }
    }

    /** The mapping-mode flag; the same effect runs when it changes. */
    method SetMappingMode(on: bool)
      modifies this`mappingMode, this`scene
      ensures mappingMode == on
      ensures on == old(mappingMode) ==> scene == old(scene)
      ensures on != old(mappingMode) && initialised ==> scene == RestyledScene(old(scene), xRay || on)
    {
      if on != mappingMode {
        mappingMode := on;
        RefreshMaterials();
      }
    }

    /** `setSelectedRoom`, used by the panel. */
    method SetSelected(s: Option<Selection>)
      modifies this`selected
      ensures selected == s
    {
      selected := s;
    }
  }
}
