/**
 * The occupancy detector shared by both camera scripts: contours whose area
 * is below `min_area` are skipped, and a tick shows motion when at least one
 * contour survives. The vision that produces the areas is not modelled.
 */
module Contours {

  /** Some contour of the tick has `contourArea(c) >= min_area`. */
  function AnyLarge(areas: seq<real>, minArea: real): (b: bool)
    ensures b <==> exists i :: 0 <= i < |areas| && areas[i] >= minArea
  {
    if areas == [] then false else areas[0] >= minArea || AnyLarge(areas[1..], minArea)
  }

  /** Scanning one more contour adds exactly that contour's verdict. */
  lemma AnyLargeSnoc(areas: seq<real>, i: nat, minArea: real)
    requires i < |areas|
    ensures AnyLarge(areas[..i + 1], minArea) == (AnyLarge(areas[..i], minArea) || areas[i] >= minArea)
  {
    assert forall j :: 0 <= j < i ==> areas[..i + 1][j] == areas[..i][j];
    assert areas[..i + 1][i] == areas[i];
  }
}
