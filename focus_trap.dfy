/** Which element of the focusable set the two sentinel handlers move focus
    to. A target is an index into the focusable set; `None` means the handler
    leaves focus where it is. */
module FocusTrap {
  import opened Dom

  /** The greatest index of a non-disabled element, if there is one. */
  function LastEnabled(focusable: seq<Element>): (t: Option<nat>)
    ensures t.Some? ==> t.value < |focusable| && !focusable[t.value].disabled
    ensures t.Some? ==> forall j :: t.value < j < |focusable| ==> focusable[j].disabled
    ensures t.None? <==> forall j :: 0 <= j < |focusable| ==> focusable[j].disabled
  {
    if focusable == [] then None
    else if !focusable[|focusable| - 1].disabled then Some(|focusable| - 1)
    else LastEnabled(focusable[..|focusable| - 1])
  }

  /** The smallest index of a non-disabled element, if there is one. */
  function FirstEnabled(focusable: seq<Element>): (t: Option<nat>)
    ensures t.Some? ==> t.value < |focusable| && !focusable[t.value].disabled
    ensures t.Some? ==> forall j :: 0 <= j < t.value ==> focusable[j].disabled
    ensures t.None? <==> forall j :: 0 <= j < |focusable| ==> focusable[j].disabled
  {
    if focusable == [] then None
    else if !focusable[0].disabled then Some(0)
    else match FirstEnabled(focusable[1..])
      case None => None
      case Some(k) => Some(k + 1)
  }

  /** Both sentinels find a target exactly when some element is enabled, and
      the forward target never comes after the backward one. */
  lemma SentinelTargetsAgree(focusable: seq<Element>)
    ensures FirstEnabled(focusable).Some? <==> LastEnabled(focusable).Some?
    ensures FirstEnabled(focusable).Some? ==> FirstEnabled(focusable).value <= LastEnabled(focusable).value
  {
  }

  /** The starting sentinel's choice: the last element unless it is disabled,
      in which case a backward scan from the second-to-last element stops at the
      first element that is not disabled. */
  method StartSentinelTarget(focusable: seq<Element>) returns (t: Option<nat>)
    ensures t == LastEnabled(focusable)
  {
    t := None;
    if |focusable| > 0 {
      var last := |focusable| - 1;
      if focusable[last].disabled {
        var i: int := |focusable| - 2;
        while i >= 0
          invariant -1 <= i <= |focusable| - 2
          invariant forall j :: i < j < |focusable| ==> focusable[j].disabled
          invariant t == None
        {
          if !focusable[i].disabled {
            t := Some(i);
            break;
          }
          i := i - 1;
        }
      } else {
        t := Some(last);
      }
    }
  }

  /** The ending sentinel's choice: the first element unless it is disabled,
      in which case a forward scan from the second element stops at the first
      element that is not disabled. */
  method EndSentinelTarget(focusable: seq<Element>) returns (t: Option<nat>)
    ensures t == FirstEnabled(focusable)
  {
    t := None;
    if |focusable| > 0 {
      if focusable[0].disabled {
        var i := 1;
        while i <= |focusable| - 1
          invariant 1 <= i <= |focusable|
          invariant forall j :: 0 <= j < i ==> focusable[j].disabled
          invariant t == None
        {
          if !focusable[i].disabled {
            t := Some(i);
            break;
          }
          i := i + 1;
        }
      } else {
        t := Some(0);
      }
    }
  }
}
