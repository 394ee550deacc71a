/** The data the map hook receives and the values its layer accessors compute: point radius
    and fill, label text and colour, the tooltip a hover shows and the events a click sends.
    Every accessor is a function of the item and of the current selection. */
module MapStyle {
  import opened Wrappers
  import opened Strings
  import opened ColorCodec

  /** One user on the map, as the server sends it in `map_data` */
  datatype Point = Point(
    x: real, y: real,
    userId: int,
    handle: Option<string>,
    did: string,
    displayName: Option<string>,
    color: Option<string>,
    communityIndex: int,
    communityLabel: Option<string>)

  /** One community label on the map, as the server sends it in `map_data` */
  datatype Community = Community(
    centroidX: real, centroidY: real,
    name: Option<string>,        // `label`
    communityIndex: int)

  /** JavaScript truthiness of an optional string: present and not empty */
  predicate Truthy(s: Option<string>) { s.Some? && s.value != "" }

  // ---------------------------------------------------------------------------
  // Selection

  /** The `select_community` toggle: the selected index again clears the selection, any
      other index becomes the selection. */
  function Toggle(selected: Option<int>, index: int): (r: Option<int>)
    ensures r == None <==> selected == Some(index)
    ensures r != None ==> r == Some(index)
  {
    if selected == Some(index) then None else Some(index)
  }

  /** Toggling the same index twice restores a selection of that index and otherwise
      leaves nothing selected */
  lemma ToggleTwice(selected: Option<int>, index: int)
    ensures Toggle(Toggle(selected, index), index) == (if selected == Some(index) then selected else None)
  {
  }

  /** An item is dimmed when a selection exists and the item's community is not it */
  predicate Dimmed(index: int, selected: Option<int>) {
    selected.Some? && index != selected.value
  }

  // ---------------------------------------------------------------------------
  // Accessors

  /** `getRadius` */
  function Radius(p: Point, selected: Option<int>): (r: nat)
    ensures selected.None? ==> r == 3
    ensures selected.Some? ==> (r == 4 <==> p.communityIndex == selected.value)
    ensures selected.Some? ==> (r == 2 <==> Dimmed(p.communityIndex, selected))
  {
    if selected.Some? then (if p.communityIndex == selected.value then 4 else 2) else 3
  }

  /** `getFillColor`: the decoded colour's RGB with alpha 40 when dimmed, 200 otherwise */
  function FillColor(p: Point, selected: Option<int>): (c: Rgba)
    ensures var d := ParseColor(p.color); c.r == d.r && c.g == d.g && c.b == d.b
    ensures c.a == 40 <==> Dimmed(p.communityIndex, selected)
    ensures c.a == 40 || c.a == 200
  {
    var d := ParseColor(p.color);
    Rgba(d.r, d.g, d.b, if Dimmed(p.communityIndex, selected) then 40 else 200)
  }

  /** `getText`: the community's label when truthy, `Community <index>` otherwise */
  function LabelText(c: Community): (t: string)
    ensures Truthy(c.name) ==> t == c.name.value
    ensures !Truthy(c.name) ==> t == "Community " + IntToString(c.communityIndex)
    ensures t != ""
  {
    if Truthy(c.name) then c.name.value else "Community " + IntToString(c.communityIndex)
  }

  const DimLabel := Rgba(200, 200, 200, 60)
  const BrightLabel := Rgba(255, 255, 255, 220)

  /** `getColor` of the label layer */
  function LabelColor(c: Community, selected: Option<int>): (col: Rgba)
    ensures col == DimLabel <==> Dimmed(c.communityIndex, selected)
    ensures col == BrightLabel <==> !Dimmed(c.communityIndex, selected)
  {
    if Dimmed(c.communityIndex, selected) then DimLabel else BrightLabel
  }

  /** With nothing selected every point and label is drawn alike */
  lemma NoSelectionUniform(p: Point, c: Community)
    ensures Radius(p, None) == 3 && FillColor(p, None).a == 200 && LabelColor(c, None) == BrightLabel
  {
  }

  /** A point and a label of the same community are styled consistently: the point is
      shrunk and faded exactly when the label is dimmed, and enlarged exactly when a
      selection exists and the label is bright */
  lemma StylingAgrees(p: Point, c: Community, selected: Option<int>)
    requires p.communityIndex == c.communityIndex
    ensures (Radius(p, selected) == 2) == (FillColor(p, selected).a == 40) == (LabelColor(c, selected) == DimLabel)
    ensures Radius(p, selected) == 4 <==> selected.Some? && LabelColor(c, selected) == BrightLabel
  {
  }

  /** Only the alpha of a fill depends on the selection */
  lemma FillRgbIndependentOfSelection(p: Point, s1: Option<int>, s2: Option<int>)
    ensures FillColor(p, s1).r == FillColor(p, s2).r
    ensures FillColor(p, s1).g == FillColor(p, s2).g
    ensures FillColor(p, s1).b == FillColor(p, s2).b
  {
  }

  // ---------------------------------------------------------------------------
  // Layers

  /** What the scatter layer draws for one point */
  datatype PointStyle = PointStyle(x: real, y: real, radius: nat, fill: Rgba)

  /** What the text layer draws for one community */
  datatype LabelStyle = LabelStyle(x: real, y: real, text: string, color: Rgba)

  /** The two layers `updateLayers` hands to the renderer: the `users` scatter layer and
      the `community-labels` text layer, one entry per data item, in data order */
  datatype LayerSet = LayerSet(scatter: seq<PointStyle>, labels: seq<LabelStyle>)

  function StylePoint(p: Point, selected: Option<int>): PointStyle {
    PointStyle(p.x, p.y, Radius(p, selected), FillColor(p, selected))
  }

  function StyleLabel(c: Community, selected: Option<int>): LabelStyle {
    LabelStyle(c.centroidX, c.centroidY, LabelText(c), LabelColor(c, selected))
  }

  /** The layer values of `updateLayers` for the given data and selection */
  function BuildLayers(points: seq<Point>, communities: seq<Community>, selected: Option<int>): (l: LayerSet)
    ensures |l.scatter| == |points| && |l.labels| == |communities|
    ensures forall i :: 0 <= i < |points| ==> l.scatter[i] == StylePoint(points[i], selected)
    ensures forall i :: 0 <= i < |communities| ==> l.labels[i] == StyleLabel(communities[i], selected)
  {
    LayerSet(seq(|points|, i requires 0 <= i < |points| => StylePoint(points[i], selected)),
             seq(|communities|, i requires 0 <= i < |communities| => StyleLabel(communities[i], selected)))
  }

  /** Under a selection, exactly the points of the selected community are drawn at radius 4 */
  lemma EmphasisedPointsAreSelected(points: seq<Point>, communities: seq<Community>, index: int)
    ensures var l := BuildLayers(points, communities, Some(index));
            forall i :: 0 <= i < |points| ==>
              (l.scatter[i].radius == 4 <==> points[i].communityIndex == index)
  {
  }

  // ---------------------------------------------------------------------------
  // Tooltip

  /** The tooltip's text: a bold title, an optional second line, and the community label
      in the point's colour */
  datatype TooltipContent = TooltipContent(
    title: string, subtitle: Option<string>, swatch: Option<string>, communityLabel: Option<string>)

  /** The tooltip element: shown or hidden, where it was last placed, what it last showed */
  datatype Tooltip = Tooltip(visible: bool, position: Option<(real, real)>, content: Option<TooltipContent>)

  /** The tooltip as `mounted` creates it: hidden, never placed, empty */
  const HiddenTooltip := Tooltip(false, None, None)

  /** The title line of a point's tooltip: its handle, or its DID when the handle is falsy */
  function TooltipTitle(p: Point): (t: string)
    ensures Truthy(p.handle) ==> t == p.handle.value
    ensures !Truthy(p.handle) ==> t == p.did
  {
    if Truthy(p.handle) then p.handle.value else p.did
  }

  /** The tooltip after `onHover`: over a point it is shown at (x+12, y+12) with that point's
      text; over nothing it is only hidden, keeping its last position and text */
  function Hover(t: Tooltip, picked: Option<Point>, x: real, y: real): (r: Tooltip)
    ensures r.visible <==> picked.Some?
    ensures picked.Some? ==> r.position == Some((x + 12.0, y + 12.0))
    ensures picked.Some? ==> r.content.Some? && r.content.value.title == TooltipTitle(picked.value)
    ensures picked.Some? ==> r.content.value.subtitle == (if Truthy(picked.value.displayName) then picked.value.displayName else None)
    ensures picked.Some? ==> r.content.value.swatch == picked.value.color && r.content.value.communityLabel == picked.value.communityLabel
    ensures picked.None? ==> r.position == t.position && r.content == t.content
  {
    match picked
    case None => t.(visible := false)
    case Some(p) =>
      Tooltip(true, Some((x + 12.0, y + 12.0)),
              Some(TooltipContent(TooltipTitle(p), if Truthy(p.displayName) then p.displayName else None,
                                  p.color, p.communityLabel)))
  }

  /** Hovering the same thing twice is hovering it once */
  lemma HoverIdempotent(t: Tooltip, picked: Option<Point>, x: real, y: real)
    ensures Hover(Hover(t, picked, x, y), picked, x, y) == Hover(t, picked, x, y)
  {
  }

  /** What the tooltip shows after a hover over a point does not depend on anything shown before */
  lemma HoverForgetsPast(t1: Tooltip, t2: Tooltip, p: Point, x: real, y: real)
    ensures Hover(t1, Some(p), x, y) == Hover(t2, Some(p), x, y)
  {
  }

  // ---------------------------------------------------------------------------
  // Outbound events

  /** The events the hook pushes to the server */
  datatype OutEvent =
    | PointClicked(userId: int, communityIndex: int)   // `point_clicked`
    | SelectCommunityFromMap(index: int)               // `select_community_from_map`

  /** The events of a click on the scatter layer */
  function PointClickEvents(picked: Option<Point>): (ev: seq<OutEvent>)
    ensures picked.None? <==> ev == []
    ensures picked.Some? ==> ev == [PointClicked(picked.value.userId, picked.value.communityIndex)]
  {
    match picked
    case None => []
    case Some(p) => [PointClicked(p.userId, p.communityIndex)]
  }

  /** The events of a click on the label layer */
  function LabelClickEvents(picked: Option<Community>): (ev: seq<OutEvent>)
    ensures picked.None? <==> ev == []
    ensures picked.Some? ==> ev == [SelectCommunityFromMap(picked.value.communityIndex)]
  {
    match picked
    case None => []
    case Some(c) => [SelectCommunityFromMap(c.communityIndex)]
  }
}
