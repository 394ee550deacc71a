/** The map hook itself: the state `mounted` creates, the three server events it handles
    (`map_data`, `select_community`, `fit_bounds`), the layers it hands to the renderer and
    its pointer handlers. Events pushed back to the server are returned as values. */
module DeckGlMap {
  import opened Wrappers
  import opened MapStyle
  import opened Viewport

  class MapHook {
    var points: seq<Point>
    var communities: seq<Community>
    var selectedCommunity: Option<int>
    /** The deck's view state */
    var viewState: ViewState
    /** The tooltip element */
    var tooltip: Tooltip
    /** The deck's layers: `None` while it still has the empty layer list it was created with */
    var layers: Option<LayerSet>

    /** The deck always shows the current data under the current selection, once it shows
        any layers at all */
    predicate Valid()
      reads this
    {
      layers.Some? ==> layers.value == BuildLayers(points, communities, selectedCommunity)
    }

    /** `mounted`: no data, no selection, the initial view, a hidden tooltip, no layers */
    constructor Mounted()
      ensures Valid()
      ensures points == [] && communities == [] && selectedCommunity == None
      ensures viewState == InitialViewState && tooltip == HiddenTooltip && layers == None
    {
      points := [];
      communities := [];
      selectedCommunity := None;
      viewState := InitialViewState;
      tooltip := HiddenTooltip;
      layers := None;
    }

    /** `updateLayers`: rebuild both layers from the current data and selection */
    method UpdateLayers()
      modifies this
      ensures Valid()
      ensures layers == Some(BuildLayers(points, communities, selectedCommunity))
      ensures points == old(points) && communities == old(communities)
      ensures selectedCommunity == old(selectedCommunity)
      ensures viewState == old(viewState) && tooltip == old(tooltip)
    {
      layers := Some(BuildLayers(points, communities, selectedCommunity));
    }

    /** The `map_data` handler: replace the data and redraw; the selection, the view and the
        tooltip stay as they are */
    method MapData(newPoints: seq<Point>, newCommunities: seq<Community>)
      modifies this
      ensures Valid()
      ensures points == newPoints && communities == newCommunities
      ensures selectedCommunity == old(selectedCommunity)
      ensures viewState == old(viewState) && tooltip == old(tooltip)
      ensures layers == Some(BuildLayers(newPoints, newCommunities, old(selectedCommunity)))
    {
      points := newPoints;
      communities := newCommunities;
      UpdateLayers();
    }

    /** The `select_community` handler: toggle the selection and redraw */
    method SelectCommunity(index: int)
      modifies this
      ensures Valid()
      ensures selectedCommunity == Toggle(old(selectedCommunity), index)
      ensures points == old(points) && communities == old(communities)
      ensures viewState == old(viewState) && tooltip == old(tooltip)
      ensures layers == Some(BuildLayers(points, communities, selectedCommunity))
    {
      selectedCommunity := Toggle(selectedCommunity, index);
      UpdateLayers();
    }

    /** The `fit_bounds` handler for a viewport of `width` x `height` pixels: with no points
        nothing changes, otherwise the view moves to `FitView` */
    method FitBounds(width: nat, height: nat, log2: real -> real)
      modifies this
      requires Valid()
      ensures Valid()
      ensures points == [] ==> viewState == old(viewState)
      ensures points != [] ==> viewState == FitView(points, width, height, log2).value
      ensures points == old(points) && communities == old(communities)
      ensures selectedCommunity == old(selectedCommunity)
      ensures tooltip == old(tooltip) && layers == old(layers)
    {
      if |points| == 0 {
        return;
      }
      viewState := FitView(points, width, height, log2).value;
    }

    /** `onHover` of the scatter layer at pixel (x, y) */
    method OnHover(picked: Option<Point>, x: real, y: real)
      modifies this
      requires Valid()
      ensures Valid()
      ensures tooltip == Hover(old(tooltip), picked, x, y)
      ensures points == old(points) && communities == old(communities)
      ensures selectedCommunity == old(selectedCommunity)
      ensures viewState == old(viewState) && layers == old(layers)
    {
      tooltip := Hover(tooltip, picked, x, y);
    }

    /** `onClick` of the scatter layer: one `point_clicked` event for a point, none otherwise */
    method OnPointClick(picked: Option<Point>) returns (events: seq<OutEvent>)
      ensures events == PointClickEvents(picked)
      ensures |events| <= 1 && (events == [] <==> picked.None?)
    {
      events := [];
      if picked.Some? {
        events := events + [PointClicked(picked.value.userId, picked.value.communityIndex)];
      }
    }

    /** `onClick` of the label layer: one `select_community_from_map` event for a label,
        none otherwise */
    method OnLabelClick(picked: Option<Community>) returns (events: seq<OutEvent>)
      ensures events == LabelClickEvents(picked)
      ensures |events| <= 1 && (events == [] <==> picked.None?)
    {
      events := [];
      if picked.Some? {
        events := events + [SelectCommunityFromMap(picked.value.communityIndex)];
      }
    }
  }

  /** Selecting a community twice from no selection, with new data in between, leaves
      nothing selected and every point at radius 3 */
  method SelectTwiceScenario(ps: seq<Point>, cs: seq<Community>, index: int)
    returns (hook: MapHook)
    ensures fresh(hook) && hook.Valid()
    ensures hook.selectedCommunity == None
    ensures hook.layers.Some? && |hook.layers.value.scatter| == |ps|
    ensures forall i :: 0 <= i < |ps| ==> hook.layers.value.scatter[i].radius == 3
  {
    hook := new MapHook.Mounted();
    hook.SelectCommunity(index);
    assert hook.selectedCommunity == Some(index);
    hook.MapData(ps, cs);
    hook.SelectCommunity(index);
  }
}
