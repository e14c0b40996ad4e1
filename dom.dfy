/** The slice of the DOM that the dialog host's focus trap looks at: the
    descendants of the host node, each reduced to its `tabIndex` attribute and
    whether it carries a `disabled` attribute, and the two event operations
    the handlers call. */
module Dom {

  datatype Option<T> = None | Some(value: T)

  /** An element as the focus trap sees it. `tabIndexAttr` is the raw value of
      the `tabIndex` attribute, `None` when the attribute is absent. */
  datatype Element = Element(tabIndexAttr: Option<string>, disabled: bool)

  /** The host's content mount node: a live node whose descendants, in
      document order, change when dialog content is mounted into it. Whoever
      holds a reference to it sees the change. */
  class HostNode {
    var descendants: seq<Element>

    constructor ()
      ensures descendants == []
    {
      descendants := [];
    }

    /** Replaces the node's content with the given descendants. */
    method ReplaceChildren(content: seq<Element>)
      modifies this
      ensures descendants == content
    {
      descendants := content;
    }
  }

  /** A (synthetic) DOM event: the two flags its handlers can set. */
  class UiEvent {
    var propagationStopped: bool
    var defaultPrevented: bool

    constructor ()
      ensures !propagationStopped && !defaultPrevented
    {
      propagationStopped, defaultPrevented := false, false;
    }

    method StopPropagation()
      modifies this`propagationStopped
      ensures propagationStopped
    {
      propagationStopped := true;
    }

    method PreventDefault()
      modifies this`defaultPrevented
      ensures defaultPrevented
    {
      defaultPrevented := true;
    }
  }

  /** Whether an element matches the selector `[tabIndex]:not([tabIndex="-1"])`:
      the attribute is present and its value is not exactly the string "-1". */
  predicate MatchesFocusableSelector(e: Element)
  {
    e.tabIndexAttr.Some? && e.tabIndexAttr.value != "-1"
  }

  /** `querySelectorAll` with the focusable selector, over descendants in
      document order: the matching elements, in the same order. */
  function QueryFocusable(descendants: seq<Element>): (r: seq<Element>)
    ensures |r| <= |descendants|
    ensures forall k :: 0 <= k < |r| ==> MatchesFocusableSelector(r[k])
    ensures forall j :: 0 <= j < |descendants| && MatchesFocusableSelector(descendants[j]) ==> descendants[j] in r
  {
    if descendants == [] then []
    else
      var n := |descendants| - 1;
      QueryFocusable(descendants[..n]) + (if MatchesFocusableSelector(descendants[n]) then [descendants[n]] else [])
  }

  /** The positions, among the descendants, of the elements the selector keeps. */
  function FocusableIndices(descendants: seq<Element>): (idx: seq<nat>)
    ensures forall k :: 0 <= k < |idx| ==> idx[k] < |descendants|
  {
    if descendants == [] then []
    else
      var n := |descendants| - 1;
      FocusableIndices(descendants[..n]) + (if MatchesFocusableSelector(descendants[n]) then [n] else [])
  }

  /** `r` consists of the elements of `s` at the positions `idx`, in that order. */
  ghost predicate PicksAt(s: seq<Element>, r: seq<Element>, idx: seq<nat>)
  {
    |idx| == |r| && forall k :: 0 <= k < |idx| ==> idx[k] < |s| && r[k] == s[idx[k]]
  }

  ghost predicate StrictlyIncreasing(idx: seq<nat>)
  {
    forall k, l :: 0 <= k < l < |idx| ==> idx[k] < idx[l]
  }

  /** Every position of `s` holding a matching element is among `idx`. */
  ghost predicate CoversMatching(s: seq<Element>, idx: seq<nat>)
  {
    forall j :: 0 <= j < |s| && MatchesFocusableSelector(s[j]) ==> j in idx
  }

  lemma {:induction false} QueryFocusablePicksAtIndices(descendants: seq<Element>)
    ensures PicksAt(descendants, QueryFocusable(descendants), FocusableIndices(descendants))
  {
    if descendants != [] {
      var n := |descendants| - 1;
      var prefix := descendants[..n];
      QueryFocusablePicksAtIndices(prefix);
      var idx, r := FocusableIndices(descendants), QueryFocusable(descendants);
      var idxP, rP := FocusableIndices(prefix), QueryFocusable(prefix);
      forall k | 0 <= k < |idx|
        ensures idx[k] < |descendants| && r[k] == descendants[idx[k]]
      {
        if k < |idxP| {
          assert r[k] == rP[k] && idx[k] == idxP[k];
          assert prefix[idxP[k]] == descendants[idxP[k]];
        }
      }
    }
  }

  lemma {:induction false} FocusableIndicesIncreasing(descendants: seq<Element>)
    ensures StrictlyIncreasing(FocusableIndices(descendants))
  {
    if descendants != [] {
      var n := |descendants| - 1;
      FocusableIndicesIncreasing(descendants[..n]);
      var idxP := FocusableIndices(descendants[..n]);
      assert forall k :: 0 <= k < |idxP| ==> idxP[k] < n;
    }
  }

  lemma {:induction false} FocusableIndicesCover(descendants: seq<Element>)
    ensures CoversMatching(descendants, FocusableIndices(descendants))
  {
    if descendants != [] {
      var n := |descendants| - 1;
      var prefix := descendants[..n];
      FocusableIndicesCover(prefix);
      var idx, idxP := FocusableIndices(descendants), FocusableIndices(prefix);
      forall j | 0 <= j < |descendants| && MatchesFocusableSelector(descendants[j])
        ensures j in idx
      {
        if j < n {
          assert prefix[j] == descendants[j];
          assert j in idxP;
        } else {
          assert idx[|idx| - 1] == n;
        }
      }
    }
  }

  /** The selector's result is exactly the ordered subsequence of the matching
      descendants: it picks them at strictly increasing positions, and misses none. */
  lemma {:induction false} QueryFocusableIsOrderedSubsequence(descendants: seq<Element>)
    ensures PicksAt(descendants, QueryFocusable(descendants), FocusableIndices(descendants))
    ensures StrictlyIncreasing(FocusableIndices(descendants))
    ensures CoversMatching(descendants, FocusableIndices(descendants))
  {
    QueryFocusablePicksAtIndices(descendants);
    FocusableIndicesIncreasing(descendants);
    FocusableIndicesCover(descendants);
  }

  /** Selecting over a concatenation selects over each part, keeping order. */
  lemma {:induction false} QueryFocusableAppend(a: seq<Element>, b: seq<Element>)
    ensures QueryFocusable(a + b) == QueryFocusable(a) + QueryFocusable(b)
  {
    if b == [] {
      assert a + b == a;
    } else {
      var n := |b| - 1;
      assert (a + b)[..|a + b| - 1] == a + b[..n];
      assert (a + b)[|a + b| - 1] == b[n];
      QueryFocusableAppend(a, b[..n]);
    }
  }

  /** Selecting again from the selected elements changes nothing. */
  lemma {:induction false} QueryFocusableIdempotent(descendants: seq<Element>)
    ensures QueryFocusable(QueryFocusable(descendants)) == QueryFocusable(descendants)
  {
    if descendants != [] {
      var n := |descendants| - 1;
      var last := if MatchesFocusableSelector(descendants[n]) then [descendants[n]] else [];
      QueryFocusableIdempotent(descendants[..n]);
      QueryFocusableAppend(QueryFocusable(descendants[..n]), last);
      if last != [] {
        assert [] + last == last;
        assert QueryFocusable(last) == QueryFocusable(last[..0]) + last;
      }
    }
  }
}
