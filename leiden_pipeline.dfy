/** The bookkeeping of the community pipeline around its library calls: DIDs interned as
    vertex indices, edges mapped onto them, the sorted community ids, each community's
    combined bio, its label and colour, its member count, and the two output lists.
    The partition (`membership`), the TF-IDF term lists and the 2-D coordinates are
    computed by libraries and enter as inputs; the centroids are their exact means. */
module LeidenPipeline {
  import opened Wrappers
  import opened Strings
  import opened ColorCodec

  type Did = string

  // ---------------------------------------------------------------------------
  // Interning

  predicate NoDuplicates<T(==)>(s: seq<T>) {
    forall i, j :: 0 <= i < j < |s| ==> s[i] != s[j]
  }

  /** Every DID that occurs in an edge */
  function Endpoints(edges: seq<(Did, Did)>): set<Did> {
    (set e | e in edges :: e.0) + (set e | e in edges :: e.1)
  }

  /** `list(set(...))`: the endpoints, each once, in an order the set iteration chooses */
  predicate IsEnumerationOf(allDids: seq<Did>, edges: seq<(Did, Did)>) {
    NoDuplicates(allDids) && (set d | d in allDids) == Endpoints(edges)
  }

  /** `did_to_idx`: each DID to its position in `all_dids` */
  function DidToIdx(allDids: seq<Did>): (m: map<Did, nat>)
    requires NoDuplicates(allDids)
    ensures m.Keys == set d | d in allDids
    ensures forall i :: 0 <= i < |allDids| ==> m[allDids[i]] == i
  {
    map i | 0 <= i < |allDids| :: allDids[i] := i
  }

  /** `idx_to_did`: `did_to_idx` with keys and values swapped */
  function IdxToDid(didToIdx: map<Did, nat>): (m: map<nat, Did>)
    requires forall a, b :: a in didToIdx && b in didToIdx && didToIdx[a] == didToIdx[b] ==> a == b
    ensures forall d :: d in didToIdx ==> didToIdx[d] in m && m[didToIdx[d]] == d
    ensures forall i :: i in m ==> m[i] in didToIdx && didToIdx[m[i]] == i
  {
    map d | d in didToIdx :: didToIdx[d] := d
  }

  /** The two maps are mutual inverses over the indices 0 .. |all_dids|-1, and index i
      names the i-th DID of `all_dids` */
  lemma InterningInverse(allDids: seq<Did>)
    requires NoDuplicates(allDids)
    ensures var toIdx := DidToIdx(allDids);
            var toDid := IdxToDid(toIdx);
            (forall i :: i in toDid <==> 0 <= i < |allDids|)
            && (forall i :: 0 <= i < |allDids| ==> toDid[i] == allDids[i] && toIdx[toDid[i]] == i)
            && (forall d :: d in toIdx ==> toIdx[d] < |allDids| && toDid[toIdx[d]] == d)
  {
    var toIdx := DidToIdx(allDids);
    var toDid := IdxToDid(toIdx);
    forall d | d in toIdx
      ensures toIdx[d] < |allDids| && allDids[toIdx[d]] == d
    {
      var i :| 0 <= i < |allDids| && allDids[i] == d;
      assert toIdx[d] == i;
    }
    forall i | 0 <= i < |allDids|
      ensures i in toDid && toDid[i] == allDids[i]
    {
      assert toIdx[allDids[i]] == i;
    }
  }

  /** `ig_edges`: each edge whose endpoints are both interned, as a pair of indices */
  function MapEdges(edges: seq<(Did, Did)>, didToIdx: map<Did, nat>): (r: seq<(nat, nat)>)
    ensures |r| <= |edges|
  {
    if edges == [] then []
    else
      var e := edges[0];
      (if e.0 in didToIdx && e.1 in didToIdx then [(didToIdx[e.0], didToIdx[e.1])] else [])
      + MapEdges(edges[1..], didToIdx)
  }

  /** When both endpoints of every edge are interned the filter keeps every edge, in order */
  lemma {:induction false} MapEdgesKeepsAll(edges: seq<(Did, Did)>, didToIdx: map<Did, nat>)
    requires forall e :: e in edges ==> e.0 in didToIdx && e.1 in didToIdx
    ensures |MapEdges(edges, didToIdx)| == |edges|
    ensures forall k :: 0 <= k < |edges| ==>
              MapEdges(edges, didToIdx)[k] == (didToIdx[edges[k].0], didToIdx[edges[k].1])
  {
    if edges != [] {
      MapEdgesKeepsAll(edges[1..], didToIdx);
      var r := MapEdges(edges, didToIdx);
      assert r == [(didToIdx[edges[0].0], didToIdx[edges[0].1])] + MapEdges(edges[1..], didToIdx);
      forall k | 0 < k < |edges|
        ensures r[k] == (didToIdx[edges[k].0], didToIdx[edges[k].1])
      {
        assert edges[1..][k - 1] == edges[k];
      }
    }
  }

  /** With `all_dids` an enumeration of the endpoints, every edge is kept and every vertex
      index is below the number of DIDs */
  lemma EdgesAllInterned(edges: seq<(Did, Did)>, allDids: seq<Did>)
    requires IsEnumerationOf(allDids, edges)
    ensures var g := MapEdges(edges, DidToIdx(allDids));
            |g| == |edges|
            && forall k :: 0 <= k < |g| ==>
                 (g[k].0 < |allDids| && g[k].1 < |allDids|
                  && allDids[g[k].0] == edges[k].0 && allDids[g[k].1] == edges[k].1)
  {
    var toIdx: map<Did, nat> := DidToIdx(allDids);
    forall e | e in edges
      ensures e.0 in toIdx && e.1 in toIdx
    {
      assert e.0 in Endpoints(edges) && e.1 in Endpoints(edges);
    }
    MapEdgesKeepsAll(edges, toIdx);
    forall d | d in toIdx
      ensures toIdx[d] < |allDids| && allDids[toIdx[d]] == d
    {
      var i :| 0 <= i < |allDids| && allDids[i] == d;
      assert toIdx[d] == i;
    }
  }

  // ---------------------------------------------------------------------------
  // Community ids and member counts

  predicate Increasing(s: seq<int>) {
    forall i, j :: 0 <= i < j < |s| ==> s[i] < s[j]
  }

  /** `x` inserted into an increasing sequence at its place, unless it is already there */
  function InsertSorted(s: seq<int>, x: int): (r: seq<int>)
    requires Increasing(s)
    ensures Increasing(r)
    ensures forall v :: v in r <==> v in s || v == x
  {
    if s == [] then [x]
    else if x < s[0] then [x] + s
    else if x == s[0] then s
    else
      var tail := InsertSorted(s[1..], x);
      assert forall v :: v in tail ==> v > s[0];
      assert s == [s[0]] + s[1..];
      ConsIncreasing(s[0], tail);
      [s[0]] + tail
  }

  lemma ConsIncreasing(x: int, t: seq<int>)
    requires Increasing(t) && forall v :: v in t ==> v > x
    ensures Increasing([x] + t)
  {
    var r := [x] + t;
    forall i, j | 0 <= i < j < |r|
      ensures r[i] < r[j]
    {
      assert r[j] == t[j - 1] && t[j - 1] in t;
      if i > 0 {
        assert r[i] == t[i - 1];
      }
    }
  }

  /** `community_ids = sorted(set(membership))` */
  function CommunityIds(membership: seq<int>): (ids: seq<int>)
    ensures Increasing(ids)
    ensures forall v :: v in ids <==> v in membership
  {
    if membership == [] then []
    else
      var m := membership[..|membership| - 1];
      var r := InsertSorted(CommunityIds(m), membership[|membership| - 1]);
      assert membership == m + [membership[|membership| - 1]];
      r
  }

  /** `sum(1 for m in membership if m == cid)` */
  function Count(membership: seq<int>, cid: int): (n: nat)
    ensures n <= |membership|
  {
    if membership == [] then 0
    else Count(membership[..|membership| - 1], cid) + (if membership[|membership| - 1] == cid then 1 else 0)
  }

  /** A value counted in a list occurs in it, and a value that occurs is counted at least once */
  lemma {:induction false} CountPositive(membership: seq<int>, cid: int)
    ensures Count(membership, cid) >= 1 <==> cid in membership
  {
    if membership != [] {
      var m := membership[..|membership| - 1];
      CountPositive(m, cid);
      assert membership == m + [membership[|membership| - 1]];
    }
  }

  /** In a list without repeats a value is counted once if present */
  lemma {:induction false} CountInDistinct(ids: seq<int>, x: int)
    requires Increasing(ids)
    ensures Count(ids, x) == (if x in ids then 1 else 0)
  {
    if ids != [] {
      var p := ids[..|ids| - 1];
      CountInDistinct(p, x);
      assert ids == p + [ids[|ids| - 1]];
      if x == ids[|ids| - 1] {
        assert x !in p;
      }
    }
  }

  /** The member counts of the communities `ids`, added up */
  function SumCounts(membership: seq<int>, ids: seq<int>): nat {
    if ids == [] then 0
    else SumCounts(membership, ids[..|ids| - 1]) + Count(membership, ids[|ids| - 1])
  }

  lemma {:induction false} SumCountsSnoc(membership: seq<int>, x: int, ids: seq<int>)
    ensures SumCounts(membership + [x], ids) == SumCounts(membership, ids) + Count(ids, x)
  {
    if ids != [] {
      SumCountsSnoc(membership, x, ids[..|ids| - 1]);
      assert (membership + [x])[..|membership + [x]| - 1] == membership;
    }
  }

  /** Counting each community of an increasing id list that covers every membership value
      counts every node exactly once */
  lemma {:induction false} SumCountsCovers(membership: seq<int>, ids: seq<int>)
    requires Increasing(ids)
    requires forall v :: v in membership ==> v in ids
    ensures SumCounts(membership, ids) == |membership|
  {
    if membership == [] {
      ZeroCounts(ids);
    } else {
      var m := membership[..|membership| - 1];
      var x := membership[|membership| - 1];
      assert membership == m + [x];
      SumCountsCovers(m, ids);
      SumCountsSnoc(m, x, ids);
      CountInDistinct(ids, x);
    }
  }

  lemma {:induction false} ZeroCounts(ids: seq<int>)
    ensures SumCounts([], ids) == 0
  {
    if ids != [] {
      ZeroCounts(ids[..|ids| - 1]);
    }
  }

  /** Every community has at least one member */
  lemma MemberCountsPositive(membership: seq<int>)
    ensures forall cid :: cid in CommunityIds(membership) ==> Count(membership, cid) >= 1
  {
    var ids := CommunityIds(membership);
    forall cid | cid in ids
      ensures Count(membership, cid) >= 1
    {
      CountPositive(membership, cid);
    }
  }

  /** The member counts add up to the number of nodes */
  lemma MemberCountsSum(membership: seq<int>)
    ensures SumCounts(membership, CommunityIds(membership)) == |membership|
  {
    var ids := CommunityIds(membership);
    SumCountsCovers(membership, ids);
  }

  /** The member DIDs of a community are as many as its member count */
  lemma {:induction false} MemberDidsCount(membership: seq<int>, idxToDid: map<nat, Did>, cid: int)
    requires forall i :: 0 <= i < |membership| ==> i in idxToDid
    ensures |MemberDids(membership, idxToDid, cid)| == Count(membership, cid)
  {
    if membership != [] {
      MemberDidsCount(membership[..|membership| - 1], idxToDid, cid);
    }
  }

  // ---------------------------------------------------------------------------
  // Combined bios

  /** `[idx_to_did[i] for i, m in enumerate(membership) if m == cid]` */
  function MemberDids(membership: seq<int>, idxToDid: map<nat, Did>, cid: int): (r: seq<Did>)
    requires forall i :: 0 <= i < |membership| ==> i in idxToDid
    ensures forall d :: d in r ==> exists i :: 0 <= i < |membership| && membership[i] == cid && idxToDid[i] == d
  {
    if membership == [] then []
    else
      var k := |membership| - 1;
      MemberDids(membership[..k], idxToDid, cid) + (if membership[k] == cid then [idxToDid[k]] else [])
  }

  /** `bio_map.get(did, "")`; a null bio is the empty text */
  function BioOf(bioMap: map<Did, string>, did: Did): string {
    if did in bioMap then bioMap[did] else ""
  }

  /** `[t for t in texts if t]` */
  function NonEmptyTexts(texts: seq<string>): (r: seq<string>)
    ensures forall t :: t in r <==> t in texts && t != ""
  {
    if texts == [] then []
    else
      var rest := NonEmptyTexts(texts[1..]);
      assert texts == [texts[0]] + texts[1..];
      (if texts[0] != "" then [texts[0]] else []) + rest
  }

  /** Filtering a concatenation filters each part, keeping order and repeats */
  lemma {:induction false} NonEmptyTextsAppend(a: seq<string>, b: seq<string>)
    ensures NonEmptyTexts(a + b) == NonEmptyTexts(a) + NonEmptyTexts(b)
  {
    if a == [] {
      assert a + b == b;
    } else {
      assert (a + b)[1..] == a[1..] + b;
      NonEmptyTextsAppend(a[1..], b);
    }
  }

  /** One text is kept exactly when it is non-empty */
  lemma NonEmptyTextsSingle(t: string)
    ensures NonEmptyTexts([t]) == (if t != "" then [t] else [])
  {
  }

  /** `texts` for one community: its members' bios, in member order */
  function MemberBios(membership: seq<int>, idxToDid: map<nat, Did>, bioMap: map<Did, string>, cid: int): seq<string>
    requires forall i :: 0 <= i < |membership| ==> i in idxToDid
  {
    var dids := MemberDids(membership, idxToDid, cid);
    seq(|dids|, i requires 0 <= i < |dids| => BioOf(bioMap, dids[i]))
  }

  /** `combined`: the non-empty member bios joined by single spaces */
  function CombinedBio(membership: seq<int>, idxToDid: map<nat, Did>, bioMap: map<Did, string>, cid: int): string
    requires forall i :: 0 <= i < |membership| ==> i in idxToDid
  {
    Join(" ", NonEmptyTexts(MemberBios(membership, idxToDid, bioMap, cid)))
  }

  /** Joining texts none of which is empty gives the empty text only for no texts */
  lemma JoinEmpty(sep: string, xs: seq<string>)
    requires forall t :: t in xs ==> t != ""
    ensures Join(sep, xs) == "" <==> xs == []
  {
    if xs != [] {
      assert xs[0] in xs;
    }
  }

  /** A community's combined bio is empty exactly when every member's bio is empty or missing */
  lemma CombinedBioEmpty(membership: seq<int>, idxToDid: map<nat, Did>, bioMap: map<Did, string>, cid: int)
    requires forall i :: 0 <= i < |membership| ==> i in idxToDid
    ensures CombinedBio(membership, idxToDid, bioMap, cid) == ""
            <==> forall d :: d in MemberDids(membership, idxToDid, cid) ==> BioOf(bioMap, d) == ""
  {
    var dids := MemberDids(membership, idxToDid, cid);
    var texts := MemberBios(membership, idxToDid, bioMap, cid);
    var kept := NonEmptyTexts(texts);
    JoinEmpty(" ", kept);
    if kept == [] {
      forall d | d in dids
        ensures BioOf(bioMap, d) == ""
      {
        var i :| 0 <= i < |dids| && dids[i] == d;
        assert texts[i] in texts;
      }
    } else {
      assert kept[0] in kept;
      var i :| 0 <= i < |texts| && texts[i] == kept[0];
      assert dids[i] in dids;
    }
  }

  /** The `community_bios` loop: one combined bio per community id */
  method CollectBios(ids: seq<int>, membership: seq<int>, idxToDid: map<nat, Did>, bioMap: map<Did, string>)
    returns (bios: map<int, string>)
    requires forall i :: 0 <= i < |membership| ==> i in idxToDid
    ensures forall cid :: cid in bios <==> cid in ids
    ensures forall cid :: cid in ids ==> bios[cid] == CombinedBio(membership, idxToDid, bioMap, cid)
  {
    bios := map[];
    for k := 0 to |ids|
      invariant forall cid :: cid in bios <==> cid in ids[..k]
      invariant forall cid :: cid in bios ==> bios[cid] == CombinedBio(membership, idxToDid, bioMap, cid)
    {
      assert ids[..k + 1] == ids[..k] + [ids[k]];
      bios := bios[ids[k] := CombinedBio(membership, idxToDid, bioMap, ids[k])];
    }
    assert ids[..|ids|] == ids;
  }

  // ---------------------------------------------------------------------------
  // Labels

  /** `f"Community {cid}"` */
  function FallbackLabel(cid: int): string {
    "Community " + IntToString(cid)
  }

  function Min(a: nat, b: nat): nat { if a <= b then a else b }

  /** The label of a community whose top terms are `terms`: the first three at most,
      joined by ", ", or the fallback when there are none */
  function LabelFor(cid: int, terms: seq<string>): string {
    if terms != [] then Join(", ", terms[..Min(3, |terms|)]) else FallbackLabel(cid)
  }

  /** `non_empty` is not empty: some community's combined bio is not blank */
  predicate AnyNonBlank(texts: seq<string>) {
    exists i :: 0 <= i < |texts| && !IsBlank(texts[i])
  }

  /** The terms the `k`-th community ends with: its row of TF-IDF terms when some text is not
      blank and the vectorizer succeeded (`terms` is `None` when it raised `ValueError`),
      and no terms otherwise */
  function TermsAt(k: nat, texts: seq<string>, terms: Option<seq<seq<string>>>): seq<string>
    requires terms.Some? ==> k < |terms.value|
  {
    if AnyNonBlank(texts) && terms.Some? then terms.value[k] else []
  }

  /** The fallback loops: every community gets its fallback label and no terms */
  method FallbackLabels(ids: seq<int>) returns (labels: map<int, string>, topTerms: map<int, seq<string>>)
    ensures forall cid :: (cid in labels <==> cid in ids) && (cid in topTerms <==> cid in ids)
    ensures forall cid :: cid in ids ==> labels[cid] == FallbackLabel(cid) && topTerms[cid] == []
  {
    labels, topTerms := map[], map[];
    for k := 0 to |ids|
      invariant forall cid :: (cid in labels <==> cid in ids[..k]) && (cid in topTerms <==> cid in ids[..k])
      invariant forall cid :: cid in labels ==> labels[cid] == FallbackLabel(cid)
      invariant forall cid :: cid in topTerms ==> topTerms[cid] == []
    {
      assert ids[..k + 1] == ids[..k] + [ids[k]];
      labels := labels[ids[k] := FallbackLabel(ids[k])];
      topTerms := topTerms[ids[k] := []];
    }
    assert ids[..|ids|] == ids;
  }

  /** The labelling step: TF-IDF terms when some bio text is not blank and the vectorizer
      succeeds, the fallback loops otherwise */
  method AssignLabels(ids: seq<int>, texts: seq<string>, terms: Option<seq<seq<string>>>)
    returns (labels: map<int, string>, topTerms: map<int, seq<string>>)
    requires Increasing(ids)
    requires terms.Some? ==> |terms.value| == |ids|
    ensures forall cid :: (cid in labels <==> cid in ids) && (cid in topTerms <==> cid in ids)
    ensures forall k :: 0 <= k < |ids| ==>
              ids[k] in topTerms && ids[k] in labels
              && topTerms[ids[k]] == TermsAt(k, texts, terms)
              && labels[ids[k]] == LabelFor(ids[k], topTerms[ids[k]])
  {
    if !AnyNonBlank(texts) || terms.None? {
      labels, topTerms := FallbackLabels(ids);
      forall k | 0 <= k < |ids|
        ensures ids[k] in topTerms && ids[k] in labels
                && topTerms[ids[k]] == TermsAt(k, texts, terms) == []
                && labels[ids[k]] == LabelFor(ids[k], [])
      {
        assert ids[k] in ids;
      }
      return;
    }
    var rows := terms.value;
    labels, topTerms := map[], map[];
    for k := 0 to |ids|
      invariant forall cid :: (cid in labels <==> cid in ids[..k]) && (cid in topTerms <==> cid in ids[..k])
      invariant forall j :: 0 <= j < k ==>
                  ids[j] in topTerms && ids[j] in labels
                  && topTerms[ids[j]] == rows[j] && labels[ids[j]] == LabelFor(ids[j], rows[j])
    {
      assert ids[..k + 1] == ids[..k] + [ids[k]];
      var cid := ids[k];
      topTerms := topTerms[cid := rows[k]];
      labels := labels[cid := LabelFor(cid, rows[k])];
    }
    assert ids[..|ids|] == ids;
  }

  /** With every combined bio blank, or the vectorizer failing, each community is labelled
      `Community <id>` and has no top terms */
  lemma FallbackWhenNoTerms(ids: seq<int>, texts: seq<string>, terms: Option<seq<seq<string>>>, k: nat)
    requires k < |ids| && (terms.Some? ==> |terms.value| == |ids|)
    requires (forall i :: 0 <= i < |texts| ==> IsBlank(texts[i])) || terms.None?
    ensures TermsAt(k, texts, terms) == [] && LabelFor(ids[k], TermsAt(k, texts, terms)) == FallbackLabel(ids[k])
  {
  }

  /** With terms, the label is the first term alone or the first two or three joined by ", " */
  lemma LabelFromTerms(cid: int, terms: seq<string>)
    requires terms != []
    ensures |terms| == 1 ==> LabelFor(cid, terms) == terms[0]
    ensures |terms| == 2 ==> LabelFor(cid, terms) == terms[0] + ", " + terms[1]
    ensures |terms| >= 3 ==> LabelFor(cid, terms) == terms[0] + ", " + terms[1] + ", " + terms[2]
  {
    var t := terms[..Min(3, |terms|)];
    if |terms| == 2 {
      assert t == [terms[0], terms[1]] && t[1..] == [terms[1]];
    } else if |terms| >= 3 {
      assert t == [terms[0], terms[1], terms[2]] && t[1..] == [terms[1], terms[2]];
      assert t[1..][1..] == [terms[2]];
      assert Join(", ", t[1..]) == terms[1] + ", " + terms[2];
      assert Join(", ", t) == terms[0] + ", " + (terms[1] + ", " + terms[2]);
    }
  }

  // ---------------------------------------------------------------------------
  // Colours

  /** `int(360 * i / max(n_communities, 1))` for non-negative i */
  function Hue(i: nat, n: nat): nat {
    (360 * i) / (if n > 1 then n else 1)
  }

  /** Hues are evenly spaced: the first is 0, each lies in [0, 360), and they do not decrease */
  lemma HueProperties(i: nat, j: nat, n: nat)
    requires i <= j < n
    ensures Hue(0, n) == 0
    ensures Hue(i, n) <= Hue(j, n)
    ensures Hue(j, n) < 360
  {
    var m := if n > 1 then n else 1;
    DivMonotone(360 * i, 360 * j, m);
    assert 360 * j < 360 * m;
    DivBelow(360 * j, 360, m);
  }

  lemma DivMonotone(a: nat, b: nat, m: nat)
    requires a <= b && m > 0
    ensures a / m <= b / m
  {
    var q := b / m;
    assert b == q * m + b % m;
    assert a < (q + 1) * m;
    DivBelow(a, q + 1, m);
  }

  lemma DivBelow(a: nat, c: nat, m: nat)
    requires m > 0 && a < c * m
    ensures a / m < c
  {
    var q := a / m;
    assert q * m <= a;
    MulCancel(q, c, m);
  }

  lemma MulCancel(x: int, y: int, m: int)
    requires m > 0 && x * m < y * m
    ensures x < y
  {
  }

  /** `f"hsl({hue}, 70%, 50%)"` */
  function HslString(hue: nat): string {
    "hsl(" + NatToString(hue) + ", 70%, 50%)"
  }

  /** The `colors` loop: the k-th community id gets the k-th evenly spaced hue */
  method AssignColors(ids: seq<int>) returns (colors: map<int, string>)
    requires Increasing(ids)
    ensures forall cid :: cid in colors <==> cid in ids
    ensures forall k :: 0 <= k < |ids| ==> ids[k] in colors && colors[ids[k]] == HslString(Hue(k, |ids|))
  {
    colors := map[];
    var n := |ids|;
    for k := 0 to n
      invariant forall cid :: cid in colors <==> cid in ids[..k]
      invariant forall j :: 0 <= j < k ==> ids[j] in colors && colors[ids[j]] == HslString(Hue(j, n))
    {
      assert ids[..k + 1] == ids[..k] + [ids[k]];
      var hue := Hue(k, n);
      colors := colors[ids[k] := HslString(hue)];
    }
    assert ids[..|ids|] == ids;
  }

  /** The colour string has the shape the map hook's pattern looks for, at its start */
  lemma HslStringShape(hue: nat)
    ensures HslAt(HslString(hue), 0, NatToString(hue), " ", "70", " ", "50")
  {
    var d := NatToString(hue);
    var s := HslString(hue);
    assert s == "hsl(" + (d + ",") + (" " + "70" + "%,") + (" " + "50" + "%)");
    assert s[0..] == s;
    assert AllJsSpace(" ");
  }

  /** The map hook reads the pipeline's colour string as the hue itself at saturation 70%
      and lightness 50% */
  lemma ColorStringDecodes(hue: nat)
    ensures FindHsl(HslString(hue), 0) == Some((0, Hsl(hue, 70, 50)))
    ensures ParseColor(Some(HslString(hue))) == HslColor(Hsl(hue, 70, 50))
  {
    HslStringShape(hue);
    DecimalOfNatToString(hue);
    assert "70"[..1] == "7" && "7"[..0] == "" && "5"[..0] == "" && "50"[..1] == "5";
    assert DecimalValue("70") == 70 && DecimalValue("50") == 50;
    ParseColorFirstMatch(HslString(hue), 0, NatToString(hue), " ", "70", " ", "50");
    MatchAtComplete(HslString(hue), 0, NatToString(hue), " ", "70", " ", "50");
  }

  /** The colour string the pipeline writes is decoded by the map hook to the same hue at
      saturation 70% and lightness 50%, every channel within [0, 255] */
  lemma ColorRoundTrip(hue: nat)
    ensures FindHsl(HslString(hue), 0) == Some((0, Hsl(hue, 70, 50)))
    ensures ParseColor(Some(HslString(hue))) == HslColor(Hsl(hue, 70, 50))
    ensures var c := HslColor(Hsl(hue, 70, 50)); 0 <= c.r <= 255 && 0 <= c.g <= 255 && 0 <= c.b <= 255
  {
    ColorStringDecodes(hue);
    HslColorInRange(Hsl(hue, 70, 50));
  }

  // ---------------------------------------------------------------------------
  // Centroids

  /** The coordinates of the members of `cid` added up, axis by axis */
  function MemberSum(coords: seq<(real, real)>, membership: seq<int>, cid: int): (real, real)
    requires |coords| == |membership|
  {
    if membership == [] then (0.0, 0.0)
    else
      var k := |membership| - 1;
      var s := MemberSum(coords[..k], membership[..k], cid);
      if membership[k] == cid then (s.0 + coords[k].0, s.1 + coords[k].1) else s
  }

  /** The `centroids` entry of `cid`: the mean of its members' coordinates, or the origin
      when it has no members */
  function Centroid(coords: seq<(real, real)>, membership: seq<int>, cid: int): (real, real)
    requires |coords| == |membership|
  {
    var n := Count(membership, cid);
    var s := MemberSum(coords, membership, cid);
    if n > 0 then (s.0 / n as real, s.1 / n as real) else (0.0, 0.0)
  }

  /** `n` points inside the box [lo, hi] add up to a sum between n times each corner */
  predicate SumWithin(n: real, s: (real, real), lo: (real, real), hi: (real, real)) {
    n * lo.0 <= s.0 <= n * hi.0 && n * lo.1 <= s.1 <= n * hi.1
  }

  /** Members inside a box add up to at most, and at least, their count times its corners */
  lemma {:induction false} MemberSumBounds(coords: seq<(real, real)>, membership: seq<int>, cid: int,
                                           lo: (real, real), hi: (real, real))
    requires |coords| == |membership|
    requires forall i :: 0 <= i < |membership| && membership[i] == cid ==>
               lo.0 <= coords[i].0 <= hi.0 && lo.1 <= coords[i].1 <= hi.1
    ensures SumWithin(Count(membership, cid) as real, MemberSum(coords, membership, cid), lo, hi)
  {
    if membership == [] {
      assert SumWithin(0.0, (0.0, 0.0), lo, hi);
    } else {
      var k := |membership| - 1;
      var m, c := membership[..k], coords[..k];
      forall i | 0 <= i < |m| && m[i] == cid
        ensures lo.0 <= c[i].0 <= hi.0 && lo.1 <= c[i].1 <= hi.1
      {
        assert m[i] == membership[i] && c[i] == coords[i];
      }
      MemberSumBounds(c, m, cid, lo, hi);
      if membership[k] == cid {
        StepBounds(Count(m, cid) as real, MemberSum(c, m, cid), coords[k], lo, hi);
      }
    }
  }

  /** One more point inside the box keeps the sum within the bounds */
  lemma StepBounds(n0: real, s0: (real, real), p: (real, real), lo: (real, real), hi: (real, real))
    requires SumWithin(n0, s0, lo, hi)
    requires lo.0 <= p.0 <= hi.0 && lo.1 <= p.1 <= hi.1
    ensures SumWithin(n0 + 1.0, (s0.0 + p.0, s0.1 + p.1), lo, hi)
  {
    assert (n0 + 1.0) * lo.0 == n0 * lo.0 + lo.0 && (n0 + 1.0) * hi.0 == n0 * hi.0 + hi.0;
    assert (n0 + 1.0) * lo.1 == n0 * lo.1 + lo.1 && (n0 + 1.0) * hi.1 == n0 * hi.1 + hi.1;
  }

  /** A mean lies between the bounds of what it averages */
  lemma MeanWithin(s: real, n: real, lo: real, hi: real)
    requires n > 0.0 && n * lo <= s <= n * hi
    ensures lo <= s / n <= hi
  {
    assert s / n - lo == (s - n * lo) / n;
    assert hi - s / n == (n * hi - s) / n;
  }

  /** The centroid of a community with members lies inside any box holding its members */
  lemma CentroidWithin(coords: seq<(real, real)>, membership: seq<int>, cid: int, lo: (real, real), hi: (real, real))
    requires |coords| == |membership| && cid in membership
    requires forall i :: 0 <= i < |membership| && membership[i] == cid ==>
               lo.0 <= coords[i].0 <= hi.0 && lo.1 <= coords[i].1 <= hi.1
    ensures var c := Centroid(coords, membership, cid);
            lo.0 <= c.0 <= hi.0 && lo.1 <= c.1 <= hi.1
  {
    var n, s := Count(membership, cid) as real, MemberSum(coords, membership, cid);
    assert n > 0.0 by {
      CountPositive(membership, cid);
    }
    assert SumWithin(n, s, lo, hi) by {
      MemberSumBounds(coords, membership, cid, lo, hi);
    }
    assert Centroid(coords, membership, cid) == (s.0 / n, s.1 / n);
    MeanWithin(s.0, n, lo.0, hi.0);
    MeanWithin(s.1, n, lo.1, hi.1);
  }

  /** The `centroids` loop: one centroid per community id */
  method ComputeCentroids(ids: seq<int>, membership: seq<int>, coords: seq<(real, real)>)
    returns (centroids: map<int, (real, real)>)
    requires |coords| == |membership|
    ensures forall cid :: cid in centroids <==> cid in ids
    ensures forall cid :: cid in ids ==> centroids[cid] == Centroid(coords, membership, cid)
  {
    centroids := map[];
    for k := 0 to |ids|
      invariant forall cid :: cid in centroids <==> cid in ids[..k]
      invariant forall cid :: cid in centroids ==> centroids[cid] == Centroid(coords, membership, cid)
    {
      assert ids[..k + 1] == ids[..k] + [ids[k]];
      centroids := centroids[ids[k] := Centroid(coords, membership, ids[k])];
    }
    assert ids[..|ids|] == ids;
  }

  // ---------------------------------------------------------------------------
  // Output

  /** One entry of `communities_out`; `caption` is its `label` */
  datatype CommunityOut = CommunityOut(
    index: int, caption: string, topTerms: seq<string>, color: string,
    memberCount: nat, centroidX: real, centroidY: real)

  /** One entry of `embeddings_out` */
  datatype EmbeddingOut = EmbeddingOut(did: Did, x: real, y: real, community: int)

  /** One `communities_out` entry; a missing label or term list defaults as `.get` does */
  function CommunityEntry(cid: int, membership: seq<int>, labels: map<int, string>,
                          topTerms: map<int, seq<string>>, colors: map<int, string>,
                          centroids: map<int, (real, real)>): CommunityOut
    requires cid in colors && cid in centroids
  {
    CommunityOut(cid,
                 if cid in labels then labels[cid] else FallbackLabel(cid),
                 if cid in topTerms then topTerms[cid] else [],
                 colors[cid], Count(membership, cid),
                 centroids[cid].0, centroids[cid].1)
  }

  /** The `communities_out` loop: one entry per community id, in id order */
  method AssembleCommunities(ids: seq<int>, membership: seq<int>, labels: map<int, string>,
                             topTerms: map<int, seq<string>>, colors: map<int, string>,
                             centroids: map<int, (real, real)>)
    returns (out: seq<CommunityOut>)
    requires forall k :: 0 <= k < |ids| ==> ids[k] in colors && ids[k] in centroids
    ensures |out| == |ids|
    ensures forall k :: 0 <= k < |ids| ==>
              out[k] == CommunityEntry(ids[k], membership, labels, topTerms, colors, centroids)
  {
    out := [];
    for k := 0 to |ids|
      invariant |out| == k
      invariant forall j :: 0 <= j < k ==>
                  out[j] == CommunityEntry(ids[j], membership, labels, topTerms, colors, centroids)
    {
      var entry := CommunityEntry(ids[k], membership, labels, topTerms, colors, centroids);
      EntriesExtend(out, entry, ids, membership, labels, topTerms, colors, centroids);
      out := out + [entry];
    }
  }

  /** Appending the entry of the next id keeps every entry that of its id */
  lemma EntriesExtend(prev: seq<CommunityOut>, entry: CommunityOut, ids: seq<int>, membership: seq<int>,
                      labels: map<int, string>, topTerms: map<int, seq<string>>, colors: map<int, string>,
                      centroids: map<int, (real, real)>)
    requires |prev| < |ids|
    requires forall k :: 0 <= k < |ids| ==> ids[k] in colors && ids[k] in centroids
    requires forall j :: 0 <= j < |prev| ==>
               prev[j] == CommunityEntry(ids[j], membership, labels, topTerms, colors, centroids)
    requires entry == CommunityEntry(ids[|prev|], membership, labels, topTerms, colors, centroids)
    ensures forall j :: 0 <= j <= |prev| ==>
              (prev + [entry])[j] == CommunityEntry(ids[j], membership, labels, topTerms, colors, centroids)
  {
    forall j | 0 <= j <= |prev|
      ensures (prev + [entry])[j] == CommunityEntry(ids[j], membership, labels, topTerms, colors, centroids)
    {
      if j < |prev| {
        assert (prev + [entry])[j] == prev[j];
      }
    }
  }

  /** The `embeddings_out` loop: one entry per vertex index, in index order */
  method AssembleEmbeddings(n: nat, idxToDid: map<nat, Did>, coords: seq<(real, real)>, membership: seq<int>)
    returns (out: seq<EmbeddingOut>)
    requires forall i :: 0 <= i < n ==> i in idxToDid
    requires |coords| == n && |membership| == n
    ensures |out| == n
    ensures forall i :: 0 <= i < n ==> out[i] == EmbeddingOut(idxToDid[i], coords[i].0, coords[i].1, membership[i])
  {
    out := [];
    for i := 0 to n
      invariant |out| == i
      invariant forall j :: 0 <= j < i ==> out[j] == EmbeddingOut(idxToDid[j], coords[j].0, coords[j].1, membership[j])
    {
      out := out + [EmbeddingOut(idxToDid[i], coords[i].0, coords[i].1, membership[i])];
    }
  }

  // ---------------------------------------------------------------------------
  // The whole pipeline

  /** `did_to_idx` gives distinct DIDs distinct indices, so it can be inverted */
  lemma DidToIdxInjective(allDids: seq<Did>)
    requires NoDuplicates(allDids)
    ensures var m := DidToIdx(allDids);
            forall a, b :: a in m && b in m && m[a] == m[b] ==> a == b
  {
    var m := DidToIdx(allDids);
    forall a, b | a in m && b in m && m[a] == m[b]
      ensures a == b
    {
      var i :| 0 <= i < |allDids| && allDids[i] == a;
      var j :| 0 <= j < |allDids| && allDids[j] == b;
      assert m[a] == i && m[b] == j;
    }
  }

  /** `all_texts`: the combined bio of each community, in id order */
  function AllTexts(ids: seq<int>, membership: seq<int>, idxToDid: map<nat, Did>, bioMap: map<Did, string>): (r: seq<string>)
    requires forall i :: 0 <= i < |membership| ==> i in idxToDid
    ensures |r| == |ids|
    ensures forall k :: 0 <= k < |ids| ==> r[k] == CombinedBio(membership, idxToDid, bioMap, ids[k])
  {
    seq(|ids|, k requires 0 <= k < |ids| => CombinedBio(membership, idxToDid, bioMap, ids[k]))
  }

  /** `idx_to_did` as a function of `all_dids` */
  function IndexToDid(allDids: seq<Did>): (m: map<nat, Did>)
    requires NoDuplicates(allDids)
    ensures forall i :: i in m <==> 0 <= i < |allDids|
    ensures forall i :: 0 <= i < |allDids| ==> m[i] == allDids[i]
  {
    DidToIdxInjective(allDids);
    InterningInverse(allDids);
    IdxToDid(DidToIdx(allDids))
  }

  /** The interning step: both maps and the edge list over vertex indices */
  method Intern(edges: seq<(Did, Did)>, allDids: seq<Did>)
    returns (idxToDid: map<nat, Did>, igEdges: seq<(nat, nat)>)
    requires IsEnumerationOf(allDids, edges)
    ensures idxToDid == IndexToDid(allDids)
    ensures |igEdges| == |edges|
    ensures forall k :: 0 <= k < |edges| ==>
              igEdges[k].0 < |allDids| && igEdges[k].1 < |allDids|
              && allDids[igEdges[k].0] == edges[k].0 && allDids[igEdges[k].1] == edges[k].1
  {
    var didToIdx := DidToIdx(allDids);
    DidToIdxInjective(allDids);
    idxToDid := IdxToDid(didToIdx);
    EdgesAllInterned(edges, allDids);
    igEdges := MapEdges(edges, didToIdx);
  }

  /** One entry of `communities_out` as the pipeline computes it for the `k`-th id */
  function ExpectedCommunity(k: nat, ids: seq<int>, membership: seq<int>, texts: seq<string>,
                             terms: Option<seq<seq<string>>>, coords: seq<(real, real)>): CommunityOut
    requires k < |ids| && |coords| == |membership|
    requires terms.Some? ==> |terms.value| == |ids|
  {
    var cid := ids[k];
    var tt := TermsAt(k, texts, terms);
    var c := Centroid(coords, membership, cid);
    CommunityOut(cid, LabelFor(cid, tt), tt, HslString(Hue(k, |ids|)), Count(membership, cid), c.0, c.1)
  }

  /** Everything from the community ids to `communities_out` */
  method BuildCommunities(membership: seq<int>, idxToDid: map<nat, Did>, bioMap: map<Did, string>,
                          terms: Option<seq<seq<string>>>, coords: seq<(real, real)>)
    returns (out: seq<CommunityOut>)
    requires forall i :: 0 <= i < |membership| ==> i in idxToDid
    requires terms.Some? ==> |terms.value| == |CommunityIds(membership)|
    requires |coords| == |membership|
    ensures var ids := CommunityIds(membership);
            var texts := AllTexts(ids, membership, idxToDid, bioMap);
            |out| == |ids|
            && forall k :: 0 <= k < |ids| ==> out[k] == ExpectedCommunity(k, ids, membership, texts, terms, coords)
  {
    var ids := CommunityIds(membership);
    var bios := CollectBios(ids, membership, idxToDid, bioMap);
    var texts := seq(|ids|, k requires 0 <= k < |ids| => if ids[k] in bios then bios[ids[k]] else "");
    assert texts == AllTexts(ids, membership, idxToDid, bioMap);
    var labels, topTerms := AssignLabels(ids, texts, terms);
    var colors := AssignColors(ids);
    var centroids := ComputeCentroids(ids, membership, coords);
    out := AssembleCommunities(ids, membership, labels, topTerms, colors, centroids);
    forall k | 0 <= k < |ids|
      ensures out[k] == ExpectedCommunity(k, ids, membership, texts, terms, coords)
    {
      var cid := ids[k];
      assert cid in labels && cid in topTerms && cid in colors && cid in centroids;
    }
  }

  /** The pipeline after the partition: interning, edge mapping, ids, bios, labels, colours
      and the two output lists. `terms` is the vectorizer's top terms per community, or
      `None` when it raised `ValueError`; `coords` are the projection's coordinates, whose
      per-community means `ComputeCentroids` takes. */
  method Run(edges: seq<(Did, Did)>, allDids: seq<Did>, bioMap: map<Did, string>,
             membership: seq<int>, terms: Option<seq<seq<string>>>, coords: seq<(real, real)>)
    returns (igEdges: seq<(nat, nat)>, communitiesOut: seq<CommunityOut>, embeddingsOut: seq<EmbeddingOut>)
    requires IsEnumerationOf(allDids, edges)
    requires |membership| == |allDids| && |coords| == |allDids|
    requires terms.Some? ==> |terms.value| == |CommunityIds(membership)|
    ensures |igEdges| == |edges|
    ensures forall k :: 0 <= k < |edges| ==>
              igEdges[k].0 < |allDids| && igEdges[k].1 < |allDids|
              && allDids[igEdges[k].0] == edges[k].0 && allDids[igEdges[k].1] == edges[k].1
    ensures var ids := CommunityIds(membership);
            var texts := AllTexts(ids, membership, IndexToDid(allDids), bioMap);
            |communitiesOut| == |ids|
            && forall k :: 0 <= k < |ids| ==>
                 communitiesOut[k] == ExpectedCommunity(k, ids, membership, texts, terms, coords)
    ensures |embeddingsOut| == |allDids|
    ensures forall i :: 0 <= i < |allDids| ==>
              embeddingsOut[i] == EmbeddingOut(allDids[i], coords[i].0, coords[i].1, membership[i])
  {
    var idxToDid;
    idxToDid, igEdges := Intern(edges, allDids);
    communitiesOut := BuildCommunities(membership, idxToDid, bioMap, terms, coords);
    embeddingsOut := AssembleEmbeddings(|allDids|, idxToDid, coords, membership);
  }

  /** Every community in the output has members, its colour decodes on the map to its
      evenly spaced hue, and its centroid lies inside any box holding its members */
  lemma CommunitiesOutProperties(membership: seq<int>, texts: seq<string>, terms: Option<seq<seq<string>>>,
                                 coords: seq<(real, real)>, k: nat, lo: (real, real), hi: (real, real))
    requires terms.Some? ==> |terms.value| == |CommunityIds(membership)|
    requires |coords| == |membership| && k < |CommunityIds(membership)|
    requires forall i :: 0 <= i < |membership| && membership[i] == CommunityIds(membership)[k] ==>
               lo.0 <= coords[i].0 <= hi.0 && lo.1 <= coords[i].1 <= hi.1
    ensures var ids := CommunityIds(membership);
            var c := ExpectedCommunity(k, ids, membership, texts, terms, coords);
            c.index in membership && c.memberCount >= 1
            && ParseColor(Some(c.color)) == HslColor(Hsl(Hue(k, |ids|), 70, 50))
            && Hue(k, |ids|) < 360
            && lo.0 <= c.centroidX <= hi.0 && lo.1 <= c.centroidY <= hi.1
  {
    var ids := CommunityIds(membership);
    assert ids[k] in ids;
    CountPositive(membership, ids[k]);
    ColorRoundTrip(Hue(k, |ids|));
    HueProperties(k, k, |ids|);
    CentroidWithin(coords, membership, ids[k], lo, hi);
  }
}
