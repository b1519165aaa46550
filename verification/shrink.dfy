/**
 * The vertical fit-shrinker: the selected frame is set to the printable
 * width and a height of 1, then grown by 2 while its text overflows, until
 * the text fits or the height has reached the printable height.
 *
 * Heights are counted in steps: the k-th probe is `1 + 2k`. The layout
 * engine's overflow test is an oracle over the frame's height.
 */
module Shrink {
  import opened Geometry

  /** The first height tried. */
  const MinHeight: real := 1.0

  /** The growth per iteration. */
  const Step: real := 2.0

  /** The height after `k` growth steps. */
  function Probe(k: nat): real
  {
    MinHeight + Step * k as real
  }

  /** How the loop ended: the text fits, or it still overflows at the bound
      (the script's warning). The script reports success in both cases. */
  datatype Report = Fitted | StillOverflows

  /** The resized frame and the number of growth steps taken. */
  datatype Shrunk = Shrunk(rect: Rect, steps: nat, report: Report)

  /** The grow-until-fit loop from step `k` on: it stops at the first probe
      that does not overflow or that has reached `maxHeight`, whatever the
      oracle says, because every step below the bound adds 2. */
  function Grow(k: nat, maxHeight: real, overflows: real -> bool): (r: nat)
    ensures k <= r
    ensures forall j: nat :: k <= j < r ==> overflows(Probe(j)) && Probe(j) < maxHeight
    ensures !overflows(Probe(r)) || Probe(r) >= maxHeight
    ensures r == k || Probe(r) < maxHeight + Step
    decreases maxHeight.Floor - 2 * k
  {
    if !overflows(Probe(k)) then k
    else if Probe(k) >= maxHeight then k
    else Grow(k + 1, maxHeight, overflows)
  }

  /** The script's shrink on a frame at `frame` on a page with geometry `g`. */
  function ShrinkTextFrame(frame: Rect, g: Page, overflows: real -> bool): (r: Shrunk)
    ensures r.rect.x == frame.x && r.rect.y == frame.y
    ensures g.margins.left + r.rect.width + g.margins.right == g.size.width
    ensures r.rect.height == Probe(r.steps)
    ensures forall j: nat :: j < r.steps ==> overflows(Probe(j)) && Probe(j) < PrintableHeight(g)
    ensures r.report == Fitted <==> !overflows(r.rect.height)
    ensures r.report == StillOverflows ==> r.rect.height >= PrintableHeight(g)
    ensures r.steps == 0 || r.rect.height < PrintableHeight(g) + Step
  {
    var width := PrintableWidth(g);
    var maxHeight := PrintableHeight(g);
    var k := Grow(0, maxHeight, overflows);
    var report := if overflows(Probe(k)) then StillOverflows else Fitted;
    Shrunk(Rect(frame.x, frame.y, width, Probe(k)), k, report)
  }

  /** Without the warning, the final height is the first probe at which the
      text fits: the search is a minimal one over the probe heights. */
  lemma FirstFit(frame: Rect, g: Page, overflows: real -> bool)
    ensures var r := ShrinkTextFrame(frame, g, overflows);
      r.report == Fitted ==>
        && !overflows(r.rect.height)
        && forall k: nat :: Probe(k) < r.rect.height ==> overflows(Probe(k))
  {
    var r := ShrinkTextFrame(frame, g, overflows);
    forall k: nat | Probe(k) < r.rect.height
      ensures overflows(Probe(k))
    {
      assert k < r.steps;
    }
  }

  /** When the text fits from some height `need` up and `need` is within
      the printable height, the loop ends without the warning at the least
      probe not below `need`. */
  lemma ThresholdFit(frame: Rect, g: Page, overflows: real -> bool, need: real)
    requires forall h :: overflows(h) <==> h < need
    requires need <= PrintableHeight(g)
    ensures var r := ShrinkTextFrame(frame, g, overflows);
      && r.report == Fitted
      && need <= r.rect.height
      && (r.rect.height == MinHeight || r.rect.height < need + Step)
  {
    var r := ShrinkTextFrame(frame, g, overflows);
    if r.steps > 0 {
      assert overflows(Probe(r.steps - 1));
    }
  }

  /** A frame whose text needs 40 units on a page with 50 units of
      printable height ends at 41 units, without the warning. */
  lemma ScenarioFitsAt41(frame: Rect, g: Page)
    requires PrintableHeight(g) == 50.0
    ensures var r := ShrinkTextFrame(frame, g, h => h < 40.0);
      r.report == Fitted && r.rect.height == 41.0 && r.steps == 20
  {
    ThresholdFit(frame, g, h => h < 40.0, 40.0);
  }

  /** A frame whose text never fits on a page with 50 units of printable
      height ends with the warning at 51 units: the last step overshoots
      the bound. */
  lemma ScenarioNeverFits(frame: Rect, g: Page)
    requires PrintableHeight(g) == 50.0
    ensures var r := ShrinkTextFrame(frame, g, h => true);
      r.report == StillOverflows && r.rect.height == 51.0 && r.rect.height > PrintableHeight(g)
  {
    var r := ShrinkTextFrame(frame, g, h => true);
    assert r.steps > 0;
    assert Probe(r.steps - 1) < 50.0;
  }

}
