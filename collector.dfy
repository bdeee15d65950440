/**
 * The focusable collector (src/index.ts:43-53). The browser's selector
 * engine is not modelled: for a root and a selector, the elements that
 * `querySelectorAll` matches, in document order, are an input sequence. What
 * is modelled is the selector choice and the attribute filter applied to the
 * matches.
 */
module Collector {
  import opened Wrappers

  /** A root container, known by its identity only. */
  datatype Root = Root(id: nat)

  /**
   * A matched descendant of a root, reduced to what the controller reads of it:
   * whether it carries a `disabled` attribute, the value of its `aria-hidden`
   * attribute (None when absent), its initial `tabIndex`, and whether it
   * exposes a `focus` method.
   */
  datatype Element = Element(
    hasDisabled: bool,
    ariaHidden: Option<string>,
    tabIndex: int,
    hasFocusMethod: bool)

  /** The selector used when the configuration names no custom selector. */
  const FocusableElementSelector: string :=
    "a[href], button, input, textarea, select, details,[tabindex]:not([tabindex=\"-1\"])"

  /** The selector passed to the query: the custom one when given, else the default. */
  function ChildSelector(customSelector: Option<string>): (s: string)
    ensures customSelector.Some? ==> s == customSelector.value
    ensures customSelector.None? ==> s == FocusableElementSelector
  {
    customSelector.GetOr(FocusableElementSelector)
  }

  /**
   * An attribute value read as a JavaScript condition: a missing attribute
   * (null) and the empty string are falsy, every other string is truthy.
   */
  predicate Truthy(attribute: Option<string>) {
    attribute.Some? && attribute.value != ""
  }

  /** The filter applied to each match: no `disabled` attribute and a falsy `aria-hidden`. */
  predicate Keeps(e: Element) {
    !e.hasDisabled && !Truthy(e.ariaHidden)
  }

  /** The collected children of a root: the matches that pass the filter, in order. */
  function Collect(matched: seq<Element>): (r: seq<Element>)
    ensures |r| <= |matched|
  {
    if matched == [] then []
    else
      var last := matched[|matched| - 1];
      Collect(matched[..|matched| - 1]) + (if Keeps(last) then [last] else [])
  }

  /**
   * Independent description of the filter's outcome: the positions of the
   * matches that pass it, in increasing order.
   */
  ghost function KeptPositions(matched: seq<Element>): (p: seq<nat>)
    ensures forall k :: 0 <= k < |p| ==> p[k] < |matched| && Keeps(matched[p[k]])
    ensures forall k, l :: 0 <= k < l < |p| ==> p[k] < p[l]
    ensures forall i :: 0 <= i < |matched| && Keeps(matched[i]) ==> i in p
  {
    if matched == [] then []
    else
      var n := |matched| - 1;
      KeptPositions(matched[..n]) + (if Keeps(matched[n]) then [n] else [])
  }

  /** An element is collected exactly when it is among the matches and passes the filter. */
  lemma {:induction false} CollectMembership(matched: seq<Element>, e: Element)
    ensures e in Collect(matched) <==> e in matched && Keeps(e)
  {
    if matched != [] {
      var n := |matched| - 1;
      CollectMembership(matched[..n], e);
      assert matched == matched[..n] + [matched[n]];
    }
  }

  /** As many children are collected as there are kept positions. */
  lemma {:induction false} CollectLength(matched: seq<Element>)
    ensures |Collect(matched)| == |KeptPositions(matched)|
  {
    if matched != [] {
      CollectLength(matched[..|matched| - 1]);
    }
  }

  /**
   * The k-th collected child is the match at the k-th kept position: with
   * KeptPositions, the collected children are an order-preserving
   * subsequence that holds every match passing the filter and no other.
   */
  lemma {:induction false} CollectIsKeptSubsequence(matched: seq<Element>, k: nat)
    requires k < |Collect(matched)|
    ensures |Collect(matched)| == |KeptPositions(matched)|
    ensures Collect(matched)[k] == matched[KeptPositions(matched)[k]]
  {
    CollectLength(matched);
    var n := |matched| - 1;
    var front := matched[..n];
    CollectLength(front);
    var c, p := Collect(front), KeptPositions(front);
    var last := if Keeps(matched[n]) then [matched[n]] else [];
    var lastPosition := if Keeps(matched[n]) then [n] else [];
    assert Collect(matched) == c + last;
    assert KeptPositions(matched) == p + lastPosition;
    if k < |c| {
      CollectIsKeptSubsequence(front, k);
      assert p[k] < |front| && (p + lastPosition)[k] == p[k];
      assert (c + last)[k] == c[k] == front[p[k]];
    }
  }

  /** An element with a `disabled` attribute is never collected. */
  lemma DisabledIsExcluded(matched: seq<Element>, e: Element)
    requires e.hasDisabled
    ensures e !in Collect(matched)
  {
    CollectMembership(matched, e);
  }

  /** Any non-empty `aria-hidden` value excludes an element, "false" included. */
  lemma NonEmptyAriaHiddenIsExcluded(matched: seq<Element>, e: Element)
    requires e.ariaHidden.Some? && e.ariaHidden.value != ""
    ensures e !in Collect(matched)
  {
    CollectMembership(matched, e);
  }
}
