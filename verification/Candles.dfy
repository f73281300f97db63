/** Candles: frames of rows by date, and the grid of dates that a timeframe gives. */
module Candles {
  datatype Row = Row(date: int, values: seq<real>)

  type Frame = seq<Row>

  function LastDate(frame: Frame): int
    requires frame != []
  {
    frame[|frame| - 1].date
  }

  // Neighbouring rows are one candle apart.
  ghost predicate Contiguous(frame: Frame, step: int) {
    forall i :: 0 <= i < |frame| - 1 ==> frame[i + 1].date == frame[i].date + step
  }

  function GridPoint(step: int, phase: int, k: int): int {
    phase + k * step
  }

  ghost predicate IsGridPoint(date: int, step: int, phase: int) {
    exists k :: date == GridPoint(step, phase, k)
  }

  ghost predicate OnGrid(frame: Frame, step: int, phase: int) {
    forall i :: 0 <= i < |frame| ==> IsGridPoint(frame[i].date, step, phase)
  }

  lemma {:induction false} DatesOfContiguous(frame: Frame, step: int, i: nat, j: nat)
    requires Contiguous(frame, step) && i <= j < |frame|
    ensures frame[j].date == frame[i].date + (j - i) * step
    decreases j
  {
    if i < j {
      DatesOfContiguous(frame, step, i, j - 1);
      assert (j - i) * step == (j - 1 - i) * step + step;
    }
  }

  lemma AtLeastOneStep(k: int, step: int)
    requires step > 0
    ensures k >= 1 ==> k * step >= step
    ensures k <= -1 ==> k * step <= -step
  {
  }

  // Two grid points less than a candle apart are the same.
  lemma SameGridPoint(a: int, b: int, step: int, phase: int)
    requires step > 0 && IsGridPoint(a, step, phase) && IsGridPoint(b, step, phase) && a <= b < a + step
    ensures a == b
  {
    var i :| a == GridPoint(step, phase, i);
    var j :| b == GridPoint(step, phase, j);
    assert (j - i) * step == b - a;
    AtLeastOneStep(j - i, step);
  }

  lemma NextGridPoint(a: int, step: int, phase: int)
    requires IsGridPoint(a, step, phase)
    ensures IsGridPoint(a + step, step, phase)
  {
    var i :| a == GridPoint(step, phase, i);
    assert a + step == GridPoint(step, phase, i + 1);
  }

  lemma JoinIsContiguous(a: Frame, b: Frame, step: int)
    requires Contiguous(a, step) && Contiguous(b, step) && a != [] && b != []
    requires LastDate(a) + step == b[0].date
    ensures Contiguous(a + b, step)
  {
  }

  lemma Increasing(frame: Frame, step: int)
    requires step > 0 && Contiguous(frame, step)
    ensures forall i, j :: 0 <= i < j < |frame| ==> frame[i].date < frame[j].date
  {
    forall i, j | 0 <= i < j < |frame| ensures frame[i].date < frame[j].date {
      DatesOfContiguous(frame, step, i, j);
      AtLeastOneStep(j - i, step);
    }
  }
}
