/**
 * Source negotiation: the list form of `setSrc` keeps, in order, the
 * candidate `<source>` elements the browser can play and, for those with a
 * media query, for which `window.matchMedia(query)` is truthy.
 */
module Sources {
  import opened Optional

  /**
   * A candidate source: URL, MIME type, media query ("" when absent) and
   * title ("" when absent), whether it is an `HTMLSourceElement`, and
   * whether `src` is an own property of it (true of a plain object literal).
   */
  datatype Source = Source(src: string, mimeType: string, media: string, title: string, isElement: bool, ownSrc: bool)

  /**
   * What the browser answers: `media.canPlayType(type)` ("" for no, "maybe"
   * or "probably" otherwise), `window.matchMedia(query)` when the window
   * has that function, and whether the page defines `HTMLSourceElement`.
   * `matchMedia` gives the truthiness of `window.matchMedia(query)`, left
   * abstract; a browser returns a `MediaQueryList` object, which is always
   * truthy, whether or not the query matches.
   */
  datatype Platform = Platform(canPlayType: string -> string, matchMedia: Option<string -> bool>, sourceElementType: bool)

  /** A candidate survives when its type is playable and, if it has a media query and the window has `matchMedia`, that call's result is truthy. */
  predicate Playable(p: Platform, s: Source) {
    && p.canPlayType(s.mimeType) != ""
    && (s.media == "" || p.matchMedia.None? || p.matchMedia.value(s.media))
  }

  /** Candidate `j` is the first playable one. */
  predicate FirstPlayable(p: Platform, list: seq<Source>, j: int) {
    && 0 <= j < |list| && Playable(p, list[j])
    && forall i :: 0 <= i < j ==> !Playable(p, list[i])
  }

  /** The survivors of a candidate list, in their original order. */
  function Negotiate(p: Platform, list: seq<Source>): (r: seq<Source>)
    ensures |r| <= |list|
    ensures forall x :: x in r ==> x in list && Playable(p, x)
  {
    if list == [] then []
    else
      var rest := Negotiate(p, list[..|list| - 1]);
      if Playable(p, list[|list| - 1]) then rest + [list[|list| - 1]] else rest
  }

  /** The positions of the survivors in the candidate list. */
  function KeptIndices(p: Platform, list: seq<Source>): (idx: seq<nat>)
  {
    if list == [] then []
    else KeptIndices(p, list[..|list| - 1]) + (if Playable(p, list[|list| - 1]) then [|list| - 1] else [])
  }

  /** The kept positions lie in the list, strictly increase, and are exactly the playable ones. */
  lemma {:induction false} KeptIndicesSpec(p: Platform, list: seq<Source>)
    ensures var idx := KeptIndices(p, list);
      && (forall k :: 0 <= k < |idx| ==> idx[k] < |list|)
      && (forall k, l :: 0 <= k < l < |idx| ==> idx[k] < idx[l])
      && (forall i :: 0 <= i < |list| ==> (i in idx <==> Playable(p, list[i])))
  {
    if list != [] {
      var n := |list| - 1;
      var init := list[..n];
      KeptIndicesSpec(p, init);
      assert forall i :: 0 <= i < n ==> init[i] == list[i];
      var before := KeptIndices(p, init);
      assert n !in before;
      assert KeptIndices(p, list) == before + (if Playable(p, list[n]) then [n] else []);
    }
  }

  /** Survivor k is the candidate at kept position k. */
  lemma {:induction false} NegotiateAtIndices(p: Platform, list: seq<Source>)
    ensures var r, idx := Negotiate(p, list), KeptIndices(p, list);
      && |r| == |idx|
      && forall k :: 0 <= k < |idx| ==> idx[k] < |list| && r[k] == list[idx[k]]
  {
    if list != [] {
      var n := |list| - 1;
      var init := list[..n];
      NegotiateAtIndices(p, init);
      var r0, idx0 := Negotiate(p, init), KeptIndices(p, init);
      forall k | 0 <= k < |idx0|
        ensures r0[k] == list[idx0[k]]
      {
        assert init[idx0[k]] == list[idx0[k]];
      }
      if Playable(p, list[n]) {
        assert Negotiate(p, list) == r0 + [list[n]];
        assert KeptIndices(p, list) == idx0 + [n];
      } else {
        assert Negotiate(p, list) == r0;
        assert KeptIndices(p, list) == idx0;
      }
    }
  }

  /**
   * Negotiation is an order-preserving filter: survivor k is the candidate at
   * position idx[k], the positions strictly increase, and a position is among
   * them exactly when its candidate is playable.
   */
  lemma NegotiateIsFilter(p: Platform, list: seq<Source>)
    ensures var r, idx := Negotiate(p, list), KeptIndices(p, list);
      && |r| == |idx|
      && (forall k :: 0 <= k < |idx| ==> idx[k] < |list| && r[k] == list[idx[k]])
      && (forall k, l :: 0 <= k < l < |idx| ==> idx[k] < idx[l])
      && (forall i :: 0 <= i < |list| ==> (i in idx <==> Playable(p, list[i])))
  {
    KeptIndicesSpec(p, list);
    NegotiateAtIndices(p, list);
  }

  /** The first survivor is the first playable candidate. */
  lemma FirstSurvivor(p: Platform, list: seq<Source>)
    requires Negotiate(p, list) != []
    ensures exists j :: FirstPlayable(p, list, j) && Negotiate(p, list)[0] == list[j]
  {
    NegotiateIsFilter(p, list);
    var idx := KeptIndices(p, list);
    var j := idx[0];
    assert forall k :: 0 <= k < |idx| ==> j <= idx[k];
    forall i | 0 <= i < j
      ensures i !in idx
    {
      assert forall k :: 0 <= k < |idx| ==> idx[k] != i;
    }
    assert FirstPlayable(p, list, j);
  }

  /** Some candidate survives exactly when some candidate is playable. */
  lemma NegotiateNonEmpty(p: Platform, list: seq<Source>)
    ensures Negotiate(p, list) != [] <==> exists j :: 0 <= j < |list| && Playable(p, list[j])
  {
    NegotiateIsFilter(p, list);
    if j :| 0 <= j < |list| && Playable(p, list[j]) {
      assert j in KeptIndices(p, list);
    }
  }

  /** When every candidate is playable, negotiation keeps the list as it is. */
  lemma {:induction false} NegotiateAllPlayable(p: Platform, list: seq<Source>)
    requires forall i :: 0 <= i < |list| ==> Playable(p, list[i])
    ensures Negotiate(p, list) == list
  {
    if list != [] {
      NegotiateAllPlayable(p, list[..|list| - 1]);
      assert list[..|list| - 1] + [list[|list| - 1]] == list;
    }
  }
}
