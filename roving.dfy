/**
 * The roving controller `registerArrowControls` (src/index.ts:90-134): the
 * per-root state that the source keeps in a closure, as a class. The DOM is
 * reduced to values: `querySelectorAll` is a function from a root and a
 * selector to the matched elements, the listener pair is the `subscribed`
 * flag, and `root.contains(document.activeElement)` is an argument of
 * KeyDown. Activation (src/index.ts:55-59) is reported as an Effect.
 */
module Roving {
  import opened Wrappers
  import opened Direction
  import opened Collector
  import opened Advance
  import opened Configuration

  /** What one event did to focus. */
  datatype Effect =
    | NoListener              // listeners were removed: no handler ran
    | Ignored                 // key-down with focus outside the root: the handler returned at once
    | Focused(index: nat)     // `focus()` was called on the child at `index`
    | NotFocusable(index: nat) // the child at `index` has no `focus` method and was skipped
    | TypeError               // the index names no child: reading `focus` of `undefined` throws

  /** `activateElement(children[idx])`. */
  function Activate(children: seq<Element>, idx: int): (e: Effect)
    ensures e == TypeError <==> !(0 <= idx < |children|)
    ensures 0 <= idx < |children| ==> (e == Focused(idx) <==> children[idx].hasFocusMethod)
    ensures 0 <= idx < |children| ==> (e == NotFocusable(idx) <==> !children[idx].hasFocusMethod)
  {
    if 0 <= idx < |children| then
      if children[idx].hasFocusMethod then Focused(idx) else NotFocusable(idx)
    else TypeError
  }

  class RovingController {
    const root: Root
    const config: Config
    const isRtl: bool
    /** The collected children, a snapshot taken at registration. */
    const children: seq<Element>
    /** The `tabIndex` of each collected child, in the order of `children`. */
    const childTabIndex: array<int>
    var rootTabIndex: int
    var currentIdx: int
    var subscribed: bool

    /**
     * The controller's invariant: one tab index per child, the active index
     * within IndexInvariant, the root in the tab order and every child out of it.
     */
    ghost predicate Valid()
      reads this, childTabIndex
    {
      && childTabIndex.Length == |children|
      && IndexInvariant(currentIdx, |children|)
      && rootTabIndex == 0
      && forall j :: 0 <= j < childTabIndex.Length ==> childTabIndex[j] == -1
    }

    /** The state right after registering `root` with `config`. */
    ghost predicate JustRegistered(root: Root, config: Config, isRtl: bool, query: (Root, string) -> seq<Element>)
      reads this, childTabIndex
    {
      && Valid()
      && this.root == root && this.config == config && this.isRtl == isRtl
      && children == Collect(query(root, ChildSelector(config.customSelector)))
      && currentIdx == 0
      && subscribed
    }

    /**
     * Registration: collect the children with the configured selector, make
     * the root tabbable (0), take every child out of the tab order (-1) and
     * start at index 0 with both listeners installed.
     */
    constructor (root: Root, config: Config, isRtl: bool, query: (Root, string) -> seq<Element>)
      ensures JustRegistered(root, config, isRtl, query)
      ensures fresh(childTabIndex)
    {
      this.root := root;
      this.config := config;
      this.isRtl := isRtl;
      var collected := Collect(query(root, ChildSelector(config.customSelector)));
      children := collected;
      childTabIndex := new int[|collected|](i requires 0 <= i < |collected| => collected[i].tabIndex);
      currentIdx := 0;
      rootTabIndex := 0;
      subscribed := true;
      new;
      var i := 0;
      while i < childTabIndex.Length
        modifies childTabIndex
        invariant 0 <= i <= childTabIndex.Length
        invariant forall j :: 0 <= j < i ==> childTabIndex[j] == -1
      {
        childTabIndex[i] := -1;
        i := i + 1;
      }
    }

    /**
     * A focus-in event: activate the child at the current index. On a root
     * with no children this throws; otherwise it reaches a child.
     */
    method FocusIn() returns (effect: Effect)
      requires Valid()
      ensures !subscribed ==> effect == NoListener
      ensures subscribed ==> (effect == TypeError <==> |children| == 0)
      ensures subscribed && |children| > 0 ==>
        (effect == Focused(currentIdx) || effect == NotFocusable(currentIdx))
      ensures subscribed ==> effect == Activate(children, currentIdx)
    {
      if !subscribed {
        return NoListener;
      }
      effect := Activate(children, currentIdx);
    }

    /**
     * A key-down event. With focus inside the root the default action is
     * prevented exactly for the arrow keys when so configured, the index
     * advances and the new child is activated (that last step throws on a
     * root with no children, after the index has been updated).
     */
    method KeyDown(key: string, activeInRoot: bool) returns (prevented: bool, effect: Effect)
      requires Valid()
      modifies this`currentIdx
      ensures Valid()
      ensures !old(subscribed) ==> !prevented && effect == NoListener && currentIdx == old(currentIdx)
      ensures old(subscribed) && !activeInRoot ==> !prevented && effect == Ignored && currentIdx == old(currentIdx)
      ensures old(subscribed) && activeInRoot ==>
        && prevented == (key in UsedKeys && config.preventDefault)
        && currentIdx == HandleIndex(isRtl, key, old(currentIdx), |children|, config.wrapControls)
        && effect == Activate(children, currentIdx)
    {
      if !subscribed {
        return false, NoListener;
      }
      if !activeInRoot {
        return false, Ignored;
      }
      prevented := key in UsedKeys && config.preventDefault;
      PreservesIndexInvariant(isRtl, key, currentIdx, |children|, config.wrapControls);
      currentIdx := HandleIndex(isRtl, key, currentIdx, |children|, config.wrapControls);
      effect := Activate(children, currentIdx);
    }

    /** Remove both listeners; nothing else changes. */
    method Unsubscribe()
      requires Valid()
      modifies this`subscribed
      ensures Valid() && !subscribed
    {
      subscribed := false;
    }
  }

  /**
   * Three buttons, default configuration, left-to-right: focus enters at the
   * first, two next presses reach the third, a third press wraps to the first;
   * after unsubscribing, key presses change nothing.
   */
  method ThreeButtons() returns (indices: seq<int>)
    ensures indices == [0, 1, 2, 0, 0]
  {
    var button := Element(false, None, 0, true);
    var buttons := [button, button, button];
    assert Collect(buttons) == Collect(buttons[..2]) + [button];
    assert Collect(buttons[..2]) == Collect(buttons[..1]) + [button];
    var c := new RovingController(Root(0), DefaultConfig, false, (r: Root, s: string) => buttons);
    var e := c.FocusIn();
    assert e == Focused(0);
    indices := [c.currentIdx];
    var p;
    p, e := c.KeyDown(ArrowRight, true);
    indices := indices + [c.currentIdx];
    p, e := c.KeyDown(ArrowDown, true);
    assert e == Focused(2) && p;
    indices := indices + [c.currentIdx];
    p, e := c.KeyDown(ArrowRight, true);
    indices := indices + [c.currentIdx];
    c.Unsubscribe();
    p, e := c.KeyDown(ArrowRight, true);
    assert e == NoListener && !p;
    indices := indices + [c.currentIdx];
  }
}
