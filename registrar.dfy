/**
 * The registrar `withArrowControls` (src/index.ts:136-154): merge the options
 * over the defaults, find the roots, fail when there are none, and register
 * one controller per root. The document-wide `querySelectorAll` is the
 * function `queryRoots`; the per-root one is `queryChildren`.
 */
module Registrar {
  import opened Wrappers
  import opened Collector
  import opened Configuration
  import opened Roving

  const DefaultRootSelector: string := "[data-with-arrowcontrols]"

  /** The root selector in use: the caller's, or the default attribute selector. */
  function RootSelector(rootSelector: Option<string>): (s: string)
    ensures rootSelector.Some? ==> s == rootSelector.value
    ensures rootSelector.None? ==> s == DefaultRootSelector
  {
    rootSelector.GetOr(DefaultRootSelector)
  }

  /** The error raised when no element matches the root selector; it names that selector. */
  datatype RegistrationError = NoRootElements(selector: string)

  /**
   * Register every matched root. No match is an error; otherwise the handles
   * are new, distinct controllers, one per root in the roots' order, each
   * freshly registered with the merged configuration.
   */
  method WithArrowControls(
    rootSelector: Option<string>,
    options: Option<Options>,
    isRtl: bool,
    queryRoots: string -> seq<Root>,
    queryChildren: (Root, string) -> seq<Element>)
    returns (r: Result<seq<RovingController>, RegistrationError>)
    ensures r.Failure? <==> |queryRoots(RootSelector(rootSelector))| == 0
    ensures r.Failure? ==> r.error == NoRootElements(RootSelector(rootSelector))
    ensures r.Success? ==>
      var roots := queryRoots(RootSelector(rootSelector));
      && |r.value| == |roots|
      && (forall i :: 0 <= i < |roots| ==>
            fresh(r.value[i]) && r.value[i].JustRegistered(roots[i], Merge(options), isRtl, queryChildren))
      && (forall i, j :: 0 <= i < j < |roots| ==> r.value[i] != r.value[j])
  {
    var config := Merge(options);
    var selector := RootSelector(rootSelector);
    var roots := queryRoots(selector);
    if |roots| == 0 {
      return Failure(NoRootElements(selector));
    }
    var handles: seq<RovingController> := [];
    var i := 0;
    while i < |roots|
      invariant 0 <= i <= |roots| && |handles| == i
      invariant forall k :: 0 <= k < i ==>
        fresh(handles[k]) && handles[k].JustRegistered(roots[k], config, isRtl, queryChildren)
      invariant forall k, l :: 0 <= k < l < i ==> handles[k] != handles[l]
    {
      var c := new RovingController(roots[i], config, isRtl, queryChildren);
      handles := handles + [c];
      i := i + 1;
    }
    return Success(handles);
  }
}
