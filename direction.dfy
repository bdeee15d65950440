/**
 * The direction-dependent classification of arrow keys (src/index.ts:33-41).
 * The document's reading direction, which the source reads once from the
 * computed style of the document element, is the parameter `isRtl` here.
 */
module Direction {

  const ArrowUp: string := "ArrowUp"
  const ArrowDown: string := "ArrowDown"
  const ArrowLeft: string := "ArrowLeft"
  const ArrowRight: string := "ArrowRight"

  /** The keys whose default browser behaviour may be suppressed, whatever the direction. */
  const UsedKeys: set<string> := {ArrowUp, ArrowDown, ArrowLeft, ArrowRight}

  /** The keys that move to the previous child. */
  function PrevKeys(isRtl: bool): set<string> {
    if isRtl then {ArrowRight, ArrowUp} else {ArrowLeft, ArrowUp}
  }

  /** The keys that move to the next child. */
  function NextKeys(isRtl: bool): set<string> {
    if isRtl then {ArrowLeft, ArrowDown} else {ArrowRight, ArrowDown}
  }

  /** The horizontal mirror image of a key: left and right swap, every other key stays. */
  function Mirror(key: string): string {
    if key == ArrowLeft then ArrowRight
    else if key == ArrowRight then ArrowLeft
    else key
  }

  /** Mirroring twice gives the key back. */
  lemma MirrorIsInvolution(key: string)
    ensures Mirror(Mirror(key)) == key
  {
  }

  /** In either direction the previous and next keys split the used keys in two. */
  lemma KeySetsPartitionUsedKeys(isRtl: bool)
    ensures PrevKeys(isRtl) !! NextKeys(isRtl)
    ensures PrevKeys(isRtl) + NextKeys(isRtl) == UsedKeys
  {
  }

  /** Right-to-left classifies each key as left-to-right classifies its mirror image. */
  lemma RtlMirrorsLtr(key: string)
    ensures key in PrevKeys(true) <==> Mirror(key) in PrevKeys(false)
    ensures key in NextKeys(true) <==> Mirror(key) in NextKeys(false)
  {
  }

  /** Right-to-left moves ArrowLeft and ArrowRight between the two sets. */
  lemma RtlSwapsHorizontalKeys()
    ensures ArrowLeft in PrevKeys(false) && ArrowLeft in NextKeys(true)
    ensures ArrowRight in NextKeys(false) && ArrowRight in PrevKeys(true)
  {
  }

  /** ArrowUp always means previous and ArrowDown always means next. */
  lemma VerticalKeysIgnoreDirection(isRtl: bool)
    ensures ArrowUp in PrevKeys(isRtl) && ArrowUp !in NextKeys(isRtl)
    ensures ArrowDown in NextKeys(isRtl) && ArrowDown !in PrevKeys(isRtl)
  {
  }
}
