/** The dialog overlay host: the render mapping from the `showing` flag to the
    overlay's class and the sentinels' tab index, the store-to-props mapping,
    and the component itself with its host reference, focus trap and dismiss
    handling. */
module DialogHost {
  import opened Dom
  import opened FocusTrap

  // ---------------------------------------------------------------- render

  const OverlayClassName := " dialog-host-overlay"
  const VisibleClassName := " dialog-host-visible"

  /** The props the store supplies. */
  datatype Props = Props(showing: bool)

  /** What `render` decides from the props: the overlay's class name and the
      tab index given to both sentinels. */
  datatype View = View(overlayClassName: string, sentinelTabIndex: int)

  predicate EndsWith(s: string, suffix: string)
  {
    |suffix| <= |s| && s[|s| - |suffix|..] == suffix
  }

  /** `cssClass` is the generated class name of the overlay's style rule. */
  function Render(props: Props, cssClass: string): (v: View)
    ensures v.sentinelTabIndex == (if props.showing then 0 else -1)
    ensures cssClass + OverlayClassName <= v.overlayClassName
    ensures EndsWith(v.overlayClassName, VisibleClassName) <==> props.showing
    ensures |v.overlayClassName| == |cssClass + OverlayClassName| + (if props.showing then |VisibleClassName| else 0)
  {
    var visibilityClass := if props.showing then VisibleClassName else "";
    var base := cssClass + OverlayClassName;
    var v := View(base + visibilityClass, if props.showing then 0 else -1);
    assert props.showing ==> v.overlayClassName[|v.overlayClassName| - |VisibleClassName|..] == VisibleClassName;
    assert !props.showing ==> v.overlayClassName[|v.overlayClassName| - 1] == 'y';
    v
  }

  /** The decimal text of a natural number. */
  function NatToDecimal(n: nat): (s: string)
    ensures |s| >= 1
    ensures forall k :: 0 <= k < |s| ==> '0' <= s[k] <= '9'
    ensures n >= 10 ==> |s| >= 2
  {
    var digit := "0123456789"[n % 10];
    if n < 10 then [digit] else NatToDecimal(n / 10) + [digit]
  }

  /** The attribute value React writes for a numeric `tabIndex` prop. */
  function TabIndexAttribute(i: int): string
  {
    if i < 0 then "-" + NatToDecimal(-i) else NatToDecimal(i)
  }

  /** The only numeric tab index whose attribute is the text "-1" is -1. */
  lemma TabIndexAttributeIsMinusOne(i: int)
    ensures TabIndexAttribute(i) == "-1" <==> i == -1
  {
    if i < 0 && TabIndexAttribute(i) == "-1" {
      var d := NatToDecimal(-i);
      assert d == TabIndexAttribute(i)[1..];
      assert -i < 10;
    } else if i >= 0 {
      assert TabIndexAttribute(i)[0] != '-';
    }
  }

  /** A sentinel of the rendered view, as an element. */
  function Sentinel(v: View): Element
  {
    Element(Some(TabIndexAttribute(v.sentinelTabIndex)), false)
  }

  /** The sentinels are in the tab sequence (match the focusable selector)
      exactly when a dialog is showing. */
  lemma SentinelsTabbableIffShowing(props: Props, cssClass: string)
    ensures MatchesFocusableSelector(Sentinel(Render(props, cssClass))) <==> props.showing
  {
    TabIndexAttributeIsMinusOne(Render(props, cssClass).sentinelTabIndex);
  }

  // ------------------------------------------------------- store to props

  datatype DialogState = DialogState(showing: bool)

  /** The application store: the dialog slice and the rest, which the host ignores. */
  datatype AppState<Rest> = AppState(dialog: DialogState, rest: Rest)

  function MapStateToProps<Rest>(state: AppState<Rest>): (p: Props)
    ensures p.showing == state.dialog.showing
  {
    Props(state.dialog.showing)
  }

  /** The props depend on the dialog's `showing` flag and on nothing else. */
  lemma MapStateToPropsReadsOnlyShowing<Rest>(s1: AppState<Rest>, s2: AppState<Rest>)
    requires s1.dialog.showing == s2.dialog.showing
    ensures MapStateToProps(s1) == MapStateToProps(s2)
  {
  }

  // ------------------------------------------------------------ component

  /** The dialog service as the host sees it: the mount node it was last
      given, how many times hiding the dialog was requested, and the mounting
      of dialog content into that node. */
  class DialogService {
    var host: HostNode?
    var hideRequests: nat

    constructor ()
      ensures host == null && hideRequests == 0
    {
      host, hideRequests := null, 0;
    }

    method SetHost(node: HostNode?)
      modifies this`host
      ensures host == node
    {
      host := node;
    }

    /** Mounts dialog markup into the recorded node, if there is one. */
    method MountContent(content: seq<Element>)
      modifies host
      ensures host != null ==> host.descendants == content
    {
      if host != null {
        host.ReplaceChildren(content);
      }
    }

    method HideDialog()
      modifies this`hideRequests
      ensures hideRequests == old(hideRequests) + 1
    {
      hideRequests := hideRequests + 1;
    }
  }

  /** Where a click lands inside the overlay. */
  datatype ClickTarget = Overlay | StartSentinel | Content | EndSentinel

  class DialogHostComponent {
    const service: DialogService
    /** The content mount node last passed to the ref callback (`null` before
        the first call and after the node is detached). */
    var hostRef: HostNode?
    /** The index, in the focusable set, of the element the host last focused. */
    var focusedIndex: Option<nat>

    constructor (service: DialogService)
      ensures this.service == service
      ensures hostRef == null && focusedIndex == None
    {
      this.service := service;
      hostRef, focusedIndex := null, None;
    }

    /** The focusable set. With no recorded host the source constructs an empty
        `NodeList`; that constructor is not legal in browsers, and the model
        assumes the evidently intended empty set. */
    function FocusableElementsInModal(): (r: seq<Element>)
      reads this, hostRef
      ensures hostRef == null ==> r == []
      ensures hostRef != null ==> r == QueryFocusable(hostRef.descendants)
    {
      if hostRef != null then QueryFocusable(hostRef.descendants) else []
    }

    /** The ref callback of the content mount node. */
    method SaveHostRef(elem: HostNode?)
      modifies this`hostRef, service`host
      ensures service.host == elem && hostRef == elem
    {
      service.SetHost(elem);
      hostRef := elem;
    }

    method HandleOverlayClick(e: UiEvent)
      modifies e`propagationStopped, service`hideRequests
      ensures e.propagationStopped
      ensures service.hideRequests == old(service.hideRequests) + 1
    {
      e.StopPropagation();
      service.HideDialog();
    }

    method HandleContentClick(e: UiEvent)
      modifies e`propagationStopped
      ensures e.propagationStopped
    {
      e.StopPropagation();
    }

    /** A click bubbling from its target up to the overlay: the content's
        handler runs first when the click is inside the content, and the
        overlay's handler runs only if propagation was not stopped. */
    method Click(target: ClickTarget)
      modifies service`hideRequests
      ensures service.hideRequests == old(service.hideRequests) + (if target == Content then 0 else 1)
    {
      var e := new UiEvent();
      if target == Content {
        HandleContentClick(e);
      }
      if !e.propagationStopped {
        HandleOverlayClick(e);
      }
    }

    /** Runs when the dialog's content has been rendered into the host. The
        first element gets focus whether or not it is disabled. */
    method InitFocusTrap()
      modifies this`focusedIndex
      ensures |FocusableElementsInModal()| > 0 ==> focusedIndex == Some(0)
      ensures |FocusableElementsInModal()| == 0 ==> focusedIndex == old(focusedIndex)
    {
      var focusable := FocusableElementsInModal();
      if |focusable| > 0 {
        focusedIndex := Some(0);
      }
    }

    /** Focus reached the starting sentinel (tabbing backwards): wrap to the
        last element that is not disabled, if any. */
    method OnFocusStartingSentinel(e: UiEvent)
      modifies this`focusedIndex, e`defaultPrevented
      ensures e.defaultPrevented
      ensures LastEnabled(FocusableElementsInModal()).Some? ==>
                focusedIndex == LastEnabled(FocusableElementsInModal())
      ensures LastEnabled(FocusableElementsInModal()).None? ==> focusedIndex == old(focusedIndex)
      ensures hostRef == null ==> focusedIndex == old(focusedIndex)
      ensures focusedIndex != old(focusedIndex) ==>
                focusedIndex.Some? && focusedIndex.value < |FocusableElementsInModal()| &&
                !FocusableElementsInModal()[focusedIndex.value].disabled
    {
      e.PreventDefault();
      var focusable := FocusableElementsInModal();
      var target := StartSentinelTarget(focusable);
      if target.Some? {
        focusedIndex := target;
      }
    }

    /** Focus reached the ending sentinel (tabbing forwards): wrap to the
        first element that is not disabled, if any. */
    method OnFocusEndingSentinel(e: UiEvent)
      modifies this`focusedIndex, e`defaultPrevented
      ensures e.defaultPrevented
      ensures FirstEnabled(FocusableElementsInModal()).Some? ==>
                focusedIndex == FirstEnabled(FocusableElementsInModal())
      ensures FirstEnabled(FocusableElementsInModal()).None? ==> focusedIndex == old(focusedIndex)
      ensures hostRef == null ==> focusedIndex == old(focusedIndex)
      ensures focusedIndex != old(focusedIndex) ==>
                focusedIndex.Some? && focusedIndex.value < |FocusableElementsInModal()| &&
                !FocusableElementsInModal()[focusedIndex.value].disabled
    {
      e.PreventDefault();
      var focusable := FocusableElementsInModal();
      var target := EndSentinelTarget(focusable);
      if target.Some? {
        focusedIndex := target;
      }
    }
  }

  /** Clients of the component: walk-throughs of the focus-trap scenarios,
      derived from the contracts above alone. */
  method NoHostWalkthrough()
  {
    var service := new DialogService();
    var host := new DialogHostComponent(service);
    var e := new UiEvent();
    host.InitFocusTrap();
    host.OnFocusStartingSentinel(e);
    host.OnFocusEndingSentinel(e);
    assert host.focusedIndex == None && e.defaultPrevented;
  }

  /** The example content: three tabbable elements and one excluded by `tabIndex="-1"`. */
  lemma ThreeElementSelection(a: Element, hidden: Element, b: Element, c: Element)
    requires a == Element(Some("0"), false) && b == Element(Some("1"), false) && c == Element(Some("2"), false)
    requires hidden == Element(Some("-1"), false)
    ensures QueryFocusable([a, hidden, b, c]) == [a, b, c]
    ensures LastEnabled([a, b, c]) == Some(2) && FirstEnabled([a, b, c]) == Some(0)
  {
    QueryFocusableAppend([a, hidden], [b, c]);
    assert [a, hidden] + [b, c] == [a, hidden, b, c];
    assert QueryFocusable([a, hidden]) == [a] by { assert [a, hidden][..1] == [a]; }
    assert QueryFocusable([b, c]) == [b, c] by { assert [b, c][..1] == [b]; }
  }

  /** The source's own order: the ref callback hands over the empty mount
      node, the service mounts content into it, and only then does the
      content-rendered signal run the trap's initialisation. */
  method ThreeElementWalkthrough()
  {
    var a, b, c := Element(Some("0"), false), Element(Some("1"), false), Element(Some("2"), false);
    var hidden := Element(Some("-1"), false);
    ThreeElementSelection(a, hidden, b, c);
    var service := new DialogService();
    var host := new DialogHostComponent(service);
    var node := new HostNode();
    host.SaveHostRef(node);
    assert service.host == host.hostRef == node;
    // Initialising before anything is mounted sees an empty set.
    host.InitFocusTrap();
    assert host.focusedIndex == None;
    service.MountContent([a, hidden, b, c]);
    assert host.FocusableElementsInModal() == [a, b, c];
    var e := new UiEvent();
    host.InitFocusTrap();
    assert host.focusedIndex == Some(0);
    host.OnFocusStartingSentinel(e);
    assert host.focusedIndex == Some(2);
    host.OnFocusEndingSentinel(e);
    assert host.focusedIndex == Some(0);
  }

  /** The example content [A, B(disabled), C(disabled)], and a lone disabled element. */
  lemma DisabledSelection(a: Element, bOff: Element, cOff: Element)
    requires a == Element(Some("0"), false)
    requires bOff == Element(Some("1"), true) && cOff == Element(Some("2"), true)
    ensures QueryFocusable([a, bOff, cOff]) == [a, bOff, cOff]
    ensures LastEnabled([a, bOff, cOff]) == Some(0)
    ensures QueryFocusable([bOff]) == [bOff]
    ensures LastEnabled([bOff]) == None && FirstEnabled([bOff]) == None
  {
    assert [a, bOff, cOff][..2] == [a, bOff];
    assert [a, bOff][..1] == [a];
    assert [a][..0] == [];
    assert QueryFocusable([a]) == [a];
    assert QueryFocusable([a, bOff]) == [a, bOff];
    assert [bOff][..0] == [];
  }

  /** The backward wrap over [A, B(disabled), C(disabled)] lands on A. */
  method DisabledElementsWalkthrough()
  {
    var a, bOff, cOff := Element(Some("0"), false), Element(Some("1"), true), Element(Some("2"), true);
    DisabledSelection(a, bOff, cOff);
    var service := new DialogService();
    var host := new DialogHostComponent(service);
    var node := new HostNode();
    host.SaveHostRef(node);
    service.MountContent([a, bOff, cOff]);
    var e := new UiEvent();
    host.OnFocusStartingSentinel(e);
    assert host.focusedIndex == Some(0);
  }

  /** A single disabled element: the sentinels leave focus alone, initial focus takes it. */
  method SingleDisabledElementWalkthrough()
  {
    var a, bOff, cOff := Element(Some("0"), false), Element(Some("1"), true), Element(Some("2"), true);
    DisabledSelection(a, bOff, cOff);
    var service := new DialogService();
    var host := new DialogHostComponent(service);
    var node := new HostNode();
    host.SaveHostRef(node);
    service.MountContent([bOff]);
    var e := new UiEvent();
    host.OnFocusEndingSentinel(e);
    host.OnFocusStartingSentinel(e);
    assert host.focusedIndex == None;
    host.InitFocusTrap();
    assert host.focusedIndex == Some(0);
  }

  /** A click inside the content never hides; one elsewhere hides once. */
  method ClickWalkthrough()
  {
    var service := new DialogService();
    var host := new DialogHostComponent(service);
    host.Click(Content);
    assert service.hideRequests == 0;
    host.Click(Overlay);
    host.Click(EndSentinel);
    assert service.hideRequests == 2;
  }
}
