# Community map: colour decoding, map hook and pipeline bookkeeping

The project is a Dafny model of two cooperating pieces of a community-map feature.

- **The deck.gl map hook** (`assets/js/hooks/deck_gl_map.js`) is a LiveView hook. It keeps:
  - the users drawn as points, and the community labels;
  - an optional selected community, toggled by the server's `select_community` event;
  - the camera (view state), which `fit_bounds` moves onto the data;
  - a tooltip, which follows the pointer.

  Each point's radius and fill and each label's text and colour are functions of the item and the selection. A point's fill comes from its `hsl(H, S%, L%)` colour string through `parseColor`/`hslToRgb`. Clicks push `point_clicked` and `select_community_from_map` back to the server.
- **The community pipeline** (`priv/python/leiden_pipeline.py`) does the following:
  1. It interns the follow graph's DIDs as vertex indices and maps the edges onto them.
  2. It takes the Leiden partition (`membership`), sorts the distinct community ids, and joins each community's member bios.
  3. It labels each community from its TF-IDF terms, or as `Community <id>`.
  4. It gives the communities evenly spaced hues, as `hsl(hue, 70%, 50%)` strings.
  5. It computes member counts and centroids, and assembles `communities_out` and `embeddings_out`.

The colour string the pipeline writes is the one the map hook decodes. `LeidenPipeline.ColorRoundTrip` proves that the decoder reads back the hue, 70 and 50.

Modules:
- `Wrappers` holds `Option`.
- `Strings` holds decimal numerals, `join` and Python whitespace.
- `HslMath` holds the `hslToRgb`/`hue2rgb` arithmetic on exact reals.
- `ColorCodec` holds the `hsl(...)` pattern as a scanner, with a declarative partner `HslAt`, and `parseColor`.
- `MapStyle` holds the data items, the selection toggle, the accessors, the layer values, the tooltip and the outbound events.
- `Viewport` holds the view state and the `fitBounds` geometry.
- `DeckGlMap` holds the hook itself, as class `MapHook`.
- `LeidenPipeline` holds the Python bookkeeping.

Where the intended behaviour and the code differ, the model follows the code:
- The hue offset of `hue2rgb` is wrapped once (1 is added below 0 and taken off above 1), not reduced into [0, 1).
- The pattern accepts any run of digits, not only H < 360 and S, L ≤ 100.
- The comment above `parseColor` says it also handles hex colours, but the code decodes `#ff0000` to the default colour (`ColorCodec.HexIsDefault`).

JavaScript `null`/`undefined` become `Option`. The community field `label` is called `name` in `MapStyle.Community`, and `caption` in `LeidenPipeline.CommunityOut`, because `label` is a Dafny keyword.

## Model

| member | source | states |
|---|---|---|
| Strings.NatToString | priv/python/leiden_pipeline.py:120 | the printed hue is a non-empty string of digits with no leading zero |
| Strings.DecimalOfNatToString | priv/python/leiden_pipeline.py:120 | reading a printed non-negative integer back as a decimal numeral gives that integer |
| Strings.IntToString | assets/js/hooks/deck_gl_map.js:110 | a printed integer is non-empty and starts with `-` exactly when negative; the digits (after the `-` for a negative one) read back as its absolute value |
| Strings.DecimalValue | assets/js/hooks/deck_gl_map.js:186-188 | `parseInt` of a run of ASCII digits: its decimal value, the last digit the units |
| Strings.Join | priv/python/leiden_pipeline.py:84 | joining one text gives that text; joining texts whose first is non-empty gives a non-empty text |
| ColorCodec.DigitRunSpec | assets/js/hooks/deck_gl_map.js:183 | the greedy `\d+` run consists of digits and is followed by the end or a non-digit |
| ColorCodec.SpaceRunSpec | assets/js/hooks/deck_gl_map.js:183 | the greedy `\s*` run consists of whitespace and is followed by the end or a non-space |
| ColorCodec.DigitRunOf | assets/js/hooks/deck_gl_map.js:183 | digits followed by a non-digit are scanned as exactly those digits |
| ColorCodec.SpaceRunOf | assets/js/hooks/deck_gl_map.js:183 | whitespace followed by a non-space is scanned as exactly that whitespace |
| ColorCodec.DigitsThenComplete | assets/js/hooks/deck_gl_map.js:183 | digits, then the literal, then any rest: one capture with the value of the digits, leaving the rest |
| ColorCodec.GroupComplete | assets/js/hooks/deck_gl_map.js:183 | every text of a capture group's shape is scanned as that group, with the number it spells |
| ColorCodec.DigitsThenSound | assets/js/hooks/deck_gl_map.js:183 | every successful digits-then-literal scan splits the text into non-empty digits, the literal and the rest |
| ColorCodec.GroupSound | assets/js/hooks/deck_gl_map.js:183 | every scanned group is whitespace (only where `\s*` is allowed), digits and the literal, and its number is the digits' value |
| ColorCodec.MatchAt | assets/js/hooks/deck_gl_map.js:182-184 | the pattern tried at one position: `hsl(`, digits, `,`, optional whitespace, digits, `%,`, optional whitespace, digits, `%)`, giving the three captured numbers or no match |
| ColorCodec.HslColor | assets/js/hooks/deck_gl_map.js:186-190 | the captures divided by 360, 100 and 100 and converted by `hslToRgb`; alpha is always 200, and zero saturation gives three equal channels |
| ColorCodec.MatchAtComplete | assets/js/hooks/deck_gl_map.js:182-184 | every text of the shape `hsl(` d1 `,` w1 d2 `%,` w2 d3 `%)` matches, with the three numbers it spells |
| ColorCodec.MatchAtSound | assets/js/hooks/deck_gl_map.js:182-184 | every match at a position has that shape there, and its numbers are the ones the shape spells |
| ColorCodec.FindHsl | assets/js/hooks/deck_gl_map.js:182-185 | the search returns a position where the pattern matches and no earlier position matches: the leftmost match |
| ColorCodec.ParseColor | assets/js/hooks/deck_gl_map.js:179-194 | alpha is always 200; null, empty and match-free strings give (100,100,255,200); otherwise the leftmost match decides the colour |
| ColorCodec.ParseColorFirstMatch | assets/js/hooks/deck_gl_map.js:182-191 | a string whose first match is at `i` decodes to the colour of the numbers spelled there |
| ColorCodec.HslColorInRange | assets/js/hooks/deck_gl_map.js:186-190 | with S, L ≤ 100, every channel lies in [0, 255] for every hue, and alpha is 200 |
| ColorCodec.GreyWhenUnsaturated | assets/js/hooks/deck_gl_map.js:198-199 | with S = 0 the colour is the grey round(L/100·255) on all three channels |
| ColorCodec.PureRed | assets/js/hooks/deck_gl_map.js:179-216 | `hsl(0,100%,50%)` decodes to (255, 0, 0, 200) |
| ColorCodec.PureGreen | assets/js/hooks/deck_gl_map.js:179-216 | `hsl(120,100%,50%)` decodes to (0, 255, 0, 200) |
| ColorCodec.NoHslIsDefault | assets/js/hooks/deck_gl_map.js:193 | a string in which `hsl(` never occurs decodes to the default colour |
| ColorCodec.HexIsDefault | assets/js/hooks/deck_gl_map.js:178-193 | the hex string `#ff0000` decodes to the default colour |
| HslMath.Round | assets/js/hooks/deck_gl_map.js:215 | `Math.round`: x plus one half, rounded down |
| HslMath.RoundNearest | assets/js/hooks/deck_gl_map.js:215 | the rounded value is the nearest integer: above x − 1/2 and at most x + 1/2 |
| HslMath.Hue2Rgb | assets/js/hooks/deck_gl_map.js:201-208 | `hue2rgb`: the offset wrapped once, then rising from p to q below 1/6, q below 1/2, falling back to p below 2/3, and p from there |
| HslMath.HslToRgb | assets/js/hooks/deck_gl_map.js:196-216 | the channels are `hue2rgb` at h + 1/3, h and h − 1/3, scaled by 255 and rounded; with s = 0 all three channels are equal |
| HslMath.ProfileBetween | assets/js/hooks/deck_gl_map.js:204-207 | for p ≤ q, the piecewise channel profile stays within [p, q] at every offset ≥ 0 |
| HslMath.Hue2RgbBetween | assets/js/hooks/deck_gl_map.js:201-208 | for p ≤ q, `hue2rgb` stays within [p, q] for every offset ≥ -1, so for every hue ≥ 0 and its ±1/3 shifts |
| HslMath.PQInUnit | assets/js/hooks/deck_gl_map.js:209-210 | for S, L in [0, 1]: 0 ≤ p ≤ q ≤ 1 |
| HslMath.RoundChannel | assets/js/hooks/deck_gl_map.js:215 | a value in [0, 1] scaled by 255 and rounded lies in [0, 255] |
| HslMath.RedRgb | assets/js/hooks/deck_gl_map.js:196-216 | h = 0, s = 1, l = 1/2 gives (255, 0, 0) |
| HslMath.GreenRgb | assets/js/hooks/deck_gl_map.js:196-216 | h = 1/3, s = 1, l = 1/2 gives (0, 255, 0) |
| MapStyle.Toggle | assets/js/hooks/deck_gl_map.js:45 | the selection is cleared exactly when the toggled index is the selected one; otherwise the index becomes the selection |
| MapStyle.ToggleTwice | assets/js/hooks/deck_gl_map.js:45 | toggling an index twice restores a selection of that index and otherwise leaves nothing selected, so from none back to none |
| MapStyle.Radius | assets/js/hooks/deck_gl_map.js:63-68 | radius 3 with no selection; under a selection 4 exactly for the selected community and 2 exactly for the others |
| MapStyle.FillColor | assets/js/hooks/deck_gl_map.js:69-75 | the RGB of the decoded colour, with alpha 40 exactly when a selection exists and is another community, else 200 |
| MapStyle.LabelText | assets/js/hooks/deck_gl_map.js:110 | a truthy label itself, else `Community <index>`; never empty |
| MapStyle.LabelColor | assets/js/hooks/deck_gl_map.js:112-117 | (200,200,200,60) exactly when a selection exists and is another community, (255,255,255,220) exactly otherwise |
| MapStyle.NoSelectionUniform | assets/js/hooks/deck_gl_map.js:63-117 | with no selection every point has radius 3 and alpha 200 and every label is bright |
| MapStyle.StylingAgrees | assets/js/hooks/deck_gl_map.js:63-117 | for a point and a label of one community: shrunk point, faded point and dimmed label coincide; enlarged point iff a selection exists and the label is bright |
| MapStyle.FillRgbIndependentOfSelection | assets/js/hooks/deck_gl_map.js:69-75 | only the alpha of a fill depends on the selection |
| MapStyle.BuildLayers | assets/js/hooks/deck_gl_map.js:59-138 | one scatter entry per point and one text entry per community, in data order, each styled by the accessors under the selection |
| MapStyle.EmphasisedPointsAreSelected | assets/js/hooks/deck_gl_map.js:63-68 | under a selection, exactly the selected community's points are drawn at radius 4 |
| MapStyle.TooltipTitle | assets/js/hooks/deck_gl_map.js:85 | the handle when truthy, the DID otherwise |
| MapStyle.Hover | assets/js/hooks/deck_gl_map.js:79-91 | visible iff over a point; placed at (x+12, y+12) with the point's title, truthy display name, colour and community label; over nothing only hidden, keeping place and text |
| MapStyle.HoverIdempotent | assets/js/hooks/deck_gl_map.js:79-91 | a repeated identical hover changes nothing more |
| MapStyle.HoverForgetsPast | assets/js/hooks/deck_gl_map.js:79-91 | the tooltip after hovering a point does not depend on what it showed before |
| MapStyle.PointClickEvents | assets/js/hooks/deck_gl_map.js:92-99 | no events for no object, else exactly one `point_clicked` with its user id and community index |
| MapStyle.LabelClickEvents | assets/js/hooks/deck_gl_map.js:128-134 | no events for no object, else exactly one `select_community_from_map` with its community index |
| Viewport.Min | assets/js/hooks/deck_gl_map.js:148-150 | `Math.min` of a non-empty list is one of its elements and at most every element |
| Viewport.Max | assets/js/hooks/deck_gl_map.js:149-151 | `Math.max` of a non-empty list is one of its elements and at least every element |
| Viewport.Extent | assets/js/hooks/deck_gl_map.js:158-159 | the data extent is always positive: max − min when it is not zero, 1 when it is |
| Viewport.Midpoint | assets/js/hooks/deck_gl_map.js:152-153 | the target: the middle of the min/max box on each axis, at z = 0 |
| Viewport.RawZoom | assets/js/hooks/deck_gl_map.js:156-160 | the zoom before the clamp: log2 of the smaller of the width and height ratios to the data extents, minus 1 |
| Viewport.FitView | assets/js/hooks/deck_gl_map.js:143-169 | no view for no points; otherwise a zoom of at least −2 and a 500 ms transition |
| Viewport.BoxContainsPoints | assets/js/hooks/deck_gl_map.js:146-151 | every point lies in the bounding box of the points |
| Viewport.TargetInsideBox | assets/js/hooks/deck_gl_map.js:152-164 | the new target is the midpoint of the bounding box at z = 0, and lies inside the box |
| Viewport.TargetBetweenPoints | assets/js/hooks/deck_gl_map.js:152-164 | along each axis the target is at least some point's coordinate and at most some point's |
| Viewport.ZoomClamped | assets/js/hooks/deck_gl_map.js:160-165 | whatever `log2` gives, zoom ≥ −2; it is the computed zoom when that is ≥ −2 and −2 otherwise |
| Viewport.FitTwoPoints | assets/js/hooks/deck_gl_map.js:143-169 | points (0,0) and (10,10) in a 100×100 viewport: target (5,5,0), zoom max(log2(10) − 1, −2), 500 ms |
| Viewport.CoincidentPointsUnitExtent | assets/js/hooks/deck_gl_map.js:158-159 | points all at one place give extent 1 on both axes |
| DeckGlMap.MapHook.Mounted | assets/js/hooks/deck_gl_map.js:5-34 | no data, no selection, view target (0,0,0) at zoom 3, a hidden tooltip, no layers yet |
| DeckGlMap.MapHook.UpdateLayers | assets/js/hooks/deck_gl_map.js:55-141 | the layers become those of the current data under the current selection; nothing else changes |
| DeckGlMap.MapHook.MapData | assets/js/hooks/deck_gl_map.js:37-41 | points and communities replaced, selection, view and tooltip unchanged, layers redrawn for the new data |
| DeckGlMap.MapHook.SelectCommunity | assets/js/hooks/deck_gl_map.js:44-47 | the selection is toggled and the layers redrawn; data, view and tooltip unchanged |
| DeckGlMap.MapHook.FitBounds | assets/js/hooks/deck_gl_map.js:143-169 | with no points the view is untouched, otherwise it becomes the fitted view; nothing else changes and the layers stay those of the current state |
| DeckGlMap.MapHook.OnHover | assets/js/hooks/deck_gl_map.js:79-91 | the tooltip follows `Hover`; selection, data, view and layers unchanged, so the layers stay those of the current state |
| DeckGlMap.MapHook.OnPointClick | assets/js/hooks/deck_gl_map.js:92-99 | at most one event, none exactly when nothing was clicked; the hook's state is not touched |
| DeckGlMap.MapHook.OnLabelClick | assets/js/hooks/deck_gl_map.js:128-134 | at most one event, none exactly when nothing was clicked; the hook's state is not touched |
| DeckGlMap.SelectTwiceScenario | assets/js/hooks/deck_gl_map.js:37-68 | select, load data, select the same index again: nothing is selected and every point has radius 3 |
| LeidenPipeline.DidToIdx | priv/python/leiden_pipeline.py:28 | the keys are exactly the DIDs, and the i-th DID maps to i |
| LeidenPipeline.InterningInverse | priv/python/leiden_pipeline.py:27-29 | `idx_to_did` is defined exactly on 0..n−1; the two maps are mutual inverses; index i names the i-th DID |
| LeidenPipeline.DidToIdxInjective | priv/python/leiden_pipeline.py:28-29 | distinct DIDs get distinct indices, so `did_to_idx` can be inverted |
| LeidenPipeline.IndexToDid | priv/python/leiden_pipeline.py:29 | `idx_to_did` is defined exactly on 0..n−1 and gives back the i-th DID |
| LeidenPipeline.IdxToDid | priv/python/leiden_pipeline.py:29 | `idx_to_did` inverts `did_to_idx`: each DID's index maps back to that DID, and every index maps to a DID that has it |
| LeidenPipeline.MapEdges | priv/python/leiden_pipeline.py:31 | each edge with both endpoints interned becomes its index pair, in edge order; never more pairs than edges |
| LeidenPipeline.MapEdgesKeepsAll | priv/python/leiden_pipeline.py:31 | with every endpoint interned, the filter keeps every edge, in order, as its index pair |
| LeidenPipeline.EdgesAllInterned | priv/python/leiden_pipeline.py:27-31 | as many mapped edges as edges; every endpoint index is below n and names the edge's DID |
| LeidenPipeline.Intern | priv/python/leiden_pipeline.py:27-31 | the interning step yields `idx_to_did` and an edge list of valid indices naming the original endpoints |
| LeidenPipeline.InsertSorted | priv/python/leiden_pipeline.py:79 | inserting into an increasing list keeps it increasing and adds exactly the new value |
| LeidenPipeline.CommunityIds | priv/python/leiden_pipeline.py:79 | the ids are strictly increasing and are exactly the values occurring in `membership` |
| LeidenPipeline.Count | priv/python/leiden_pipeline.py:136 | `sum(1 for m in membership if m == cid)`, at most the number of nodes |
| LeidenPipeline.CountPositive | priv/python/leiden_pipeline.py:136 | a value is counted at least once exactly when it occurs in `membership` |
| LeidenPipeline.SumCountsCovers | priv/python/leiden_pipeline.py:135-136 | counting each id of an increasing id list covering `membership` counts every node exactly once |
| LeidenPipeline.MemberCountsPositive | priv/python/leiden_pipeline.py:135-136 | every community's member count is at least 1 |
| LeidenPipeline.MemberCountsSum | priv/python/leiden_pipeline.py:135-136 | the member counts add up to the number of nodes |
| LeidenPipeline.MemberDidsCount | priv/python/leiden_pipeline.py:82 | a community has as many member DIDs as its member count |
| LeidenPipeline.MemberDids | priv/python/leiden_pipeline.py:82 | the DIDs of the indices whose community is `cid`, in index order; each is `idx_to_did` of such an index |
| LeidenPipeline.NonEmptyTexts | priv/python/leiden_pipeline.py:84 | the kept texts are exactly the non-empty ones |
| LeidenPipeline.NonEmptyTextsAppend | priv/python/leiden_pipeline.py:84 | filtering a concatenation is the concatenation of the filtered parts, so order and repeats are kept |
| LeidenPipeline.NonEmptyTextsSingle | priv/python/leiden_pipeline.py:84 | one text is kept exactly when it is non-empty |
| LeidenPipeline.CombinedBio | priv/python/leiden_pipeline.py:81-84 | the members' bios (a missing one as ""), the empty ones dropped, joined by single spaces |
| LeidenPipeline.JoinEmpty | priv/python/leiden_pipeline.py:84 | joining non-empty texts gives the empty text exactly when there are none |
| LeidenPipeline.CombinedBioEmpty | priv/python/leiden_pipeline.py:81-85 | a combined bio is empty exactly when every member's bio is empty or missing |
| LeidenPipeline.CollectBios | priv/python/leiden_pipeline.py:80-85 | one entry per community id, each the space-join of its members' non-empty bios in member order |
| LeidenPipeline.AllTexts | priv/python/leiden_pipeline.py:88 | one entry per community id, the k-th being the combined bio of the k-th id |
| LeidenPipeline.LabelFor | priv/python/leiden_pipeline.py:105 | the first three terms joined by ", " when there are terms, else `Community <id>` |
| LeidenPipeline.FallbackLabels | priv/python/leiden_pipeline.py:106-113 | every community id gets `Community <id>` and no terms, and there are no other keys |
| LeidenPipeline.AssignLabels | priv/python/leiden_pipeline.py:94-113 | for the k-th id: its TF-IDF row when some text is not blank and the vectorizer succeeds, no terms otherwise, and the label those terms give |
| LeidenPipeline.FallbackWhenNoTerms | priv/python/leiden_pipeline.py:106-113 | with every text blank or the vectorizer failing: no terms and the label `Community <id>` |
| LeidenPipeline.LabelFromTerms | priv/python/leiden_pipeline.py:105 | with terms, the label is the first term, or the first two or three joined by `, ` |
| LeidenPipeline.Hue | priv/python/leiden_pipeline.py:119 | `int(360 * i / max(n, 1))`, as integer division |
| LeidenPipeline.HslString | priv/python/leiden_pipeline.py:120 | the f-string `hsl(<hue>, 70%, 50%)` |
| LeidenPipeline.HueProperties | priv/python/leiden_pipeline.py:116-119 | the first hue is 0, hues do not decrease along the ids, and each is below 360 |
| LeidenPipeline.AssignColors | priv/python/leiden_pipeline.py:116-120 | the k-th id gets `hsl(<hue k>, 70%, 50%)`, and there are no other keys |
| LeidenPipeline.HslStringShape | priv/python/leiden_pipeline.py:120 | the colour string has the shape the map's `hsl(...)` pattern matches, at its start |
| LeidenPipeline.ColorStringDecodes | priv/python/leiden_pipeline.py:120 | the map hook's pattern matches the colour string at position 0 with captures hue, 70 and 50, and decodes it to that colour |
| LeidenPipeline.ColorRoundTrip | priv/python/leiden_pipeline.py:120 | the string matches at position 0 with captures (hue, 70, 50), the decoded colour is that of (hue, 70, 50), and its channels lie in [0, 255] |
| LeidenPipeline.Centroid | priv/python/leiden_pipeline.py:124-131 | the mean of the members' coordinates on each axis, or (0.0, 0.0) when there are none |
| LeidenPipeline.MemberSumBounds | priv/python/leiden_pipeline.py:125-128 | members inside a box sum to between their count times its lower and upper corners |
| LeidenPipeline.MeanWithin | priv/python/leiden_pipeline.py:127-128 | a mean lies between the bounds of what it averages |
| LeidenPipeline.CentroidWithin | priv/python/leiden_pipeline.py:124-131 | a community's centroid lies inside every box that holds its members |
| LeidenPipeline.ComputeCentroids | priv/python/leiden_pipeline.py:123-131 | one centroid per community id: the mean of its members' coordinates |
| LeidenPipeline.CommunityEntry | priv/python/leiden_pipeline.py:136-146 | one output record: the id, the label or `Community <id>`, the terms or `[]`, the colour, the member count and the centroid |
| LeidenPipeline.AssembleCommunities | priv/python/leiden_pipeline.py:134-146 | one entry per id in id order, with the `.get` defaults for label and terms, the colour, the member count and the centroid |
| LeidenPipeline.AssembleEmbeddings | priv/python/leiden_pipeline.py:148-155 | one entry per vertex index, in index order, with its DID, coordinates and community |
| LeidenPipeline.BuildCommunities | priv/python/leiden_pipeline.py:79-146 | `communities_out` has one entry per sorted id, with its terms, label, evenly spaced colour, member count and centroid |
| LeidenPipeline.Run | priv/python/leiden_pipeline.py:27-155 | every edge kept with valid indices; the communities as `BuildCommunities` states; `embeddings_out[i]` is the i-th DID with its coordinates and community |
| LeidenPipeline.CommunitiesOutProperties | priv/python/leiden_pipeline.py:134-146 | each output community occurs in `membership`, has at least one member, has a hue below 360 that the map decodes, and has its centroid inside its members' box |

## Left out

- deck.gl itself is not modelled: `Deck`, `OrthographicView`, the controller, `onViewStateChange`, `setProps`, `finalize` in `destroyed`. The model keeps only the layer values the hook hands over, as `MapStyle.LayerSet`.
- Rendering attributes are not modelled: pixel clamps, sizes, fonts, background colour and padding, anchors, `updateTriggers`. The renderer enforces them.
- The DOM is not modelled. The tooltip is structured fields (visible, position, title, subtitle, colour swatch, community label) rather than element, CSS and `innerHTML` strings. The unused `this.tooltip = null` field is dropped.
- LiveView plumbing is not modelled. Inbound events are methods of `DeckGlMap.MapHook`, and `pushEvent` calls are returned event lists.
- Viewport.FitView: `Math.min(...xs)`/`Math.max(...xs)` pass every coordinate as a call argument, and an engine throws `RangeError` past its argument limit, which leaves the view alone. The model always fits the view.
- `Math.log2` is a function parameter, and `clientWidth`/`clientHeight` are method parameters. The exact zoom is floating-point numerics.
- Arithmetic is on exact reals and unbounded integers. Results that differ only by IEEE-754 rounding are not modelled. This covers `Math.round` at exact halves, `parseInt` of digit runs beyond 2^53, and Python's `int(360 * i / n)`, which is modelled as integer division (it agrees for realistic sizes).
- The Python library work enters as inputs:
  - the edge list and bio map (`json.loads`);
  - the Leiden partition (`membership`);
  - the 2-D coordinates (Node2Vec and UMAP);
  - the TF-IDF term rows per community, or their absence when the vectorizer raises `ValueError`. The term scoring and `argsort` are not modelled.
  `json.dumps` of the result is not modelled.
- LeidenPipeline.Run: `all_dids` is any duplicate-free enumeration of the edge endpoints, because the iteration order of `set` is unspecified. The terms input is required to have one row per community, as `fit_transform` on `all_texts` gives.
- Bios are strings. A JSON `null` bio is represented as the empty text, which the `if t` filter drops in the same way.
- The centroid loop's `(0.0, 0.0)` branch is modelled, but it cannot be reached, because every community id has members.
- The pipeline's `index` is assumed to reach the hook as `community_index`. The code that does this is not modelled.
