/**
 * The per-event 64 x 64 charge matrix of read_pixelCharge
 * (OutputReaderExperimental.C): zeroed for every event, then each record
 * writes its charge into cell [pixel_x][pixel_y], a later record
 * overwriting an earlier one at the same pixel.
 */
module PixelMatrix {
  import opened PixelCharge

  /** Both dimensions of std::array<std::array<long, 64>, 64>. */
  const MatrixSize := 64

  type Matrix = seq<seq<int>>

  predicate IsMatrix(m: Matrix) {
    |m| == MatrixSize && forall x :: 0 <= x < MatrixSize ==> |m[x]| == MatrixSize
  }

  /** The matrix is indexed without a bounds check, so every record must name a pixel inside it. */
  predicate InMatrix(r: Record) {
    0 <= r.pixelX < MatrixSize && 0 <= r.pixelY < MatrixSize
  }

  predicate AllInMatrix(event: Event) {
    forall i :: 0 <= i < |event| ==> InMatrix(event[i])
  }

  /** True iff record r writes cell [x][y]. */
  predicate Writes(r: Record, x: int, y: int) {
    r.pixelX == x && r.pixelY == y
  }

  /** What cell [x][y] holds after the event: the charge of the last record at (x, y), or 0. */
  function LastCharge(event: Event, x: int, y: int): int {
    if |event| == 0 then 0
    else if Writes(event[|event| - 1], x, y) then event[|event| - 1].charge
    else LastCharge(event[..|event| - 1], x, y)
  }

  /**
   * LastCharge read in the forward direction: 0 when no record writes the
   * cell, otherwise the charge of a record at (x, y) that no later record
   * at (x, y) follows.
   */
  lemma {:induction false} LastChargeSpec(event: Event, x: int, y: int)
    ensures (forall i :: 0 <= i < |event| ==> !Writes(event[i], x, y)) ==> LastCharge(event, x, y) == 0
    ensures forall i :: 0 <= i < |event| && Writes(event[i], x, y)
                        && (forall j :: i < j < |event| ==> !Writes(event[j], x, y))
                        ==> LastCharge(event, x, y) == event[i].charge
  {
    if |event| > 0 {
      var init := event[..|event| - 1];
      LastChargeSpec(init, x, y);
      forall i | 0 <= i < |init|
        ensures init[i] == event[i]
      {
      }
    }
  }

  function ZeroMatrix(): (m: Matrix)
    ensures IsMatrix(m)
    ensures forall x, y :: 0 <= x < MatrixSize && 0 <= y < MatrixSize ==> m[x][y] == 0
  {
    seq(MatrixSize, _ => seq(MatrixSize, _ => 0))
  }

  /**
   * The body of the event loop of read_pixelCharge: a fresh zero matrix,
   * then one write per record in record order.
   */
  method FillMatrix(event: Event) returns (m: Matrix)
    requires AllInMatrix(event)
    ensures IsMatrix(m)
    ensures forall x, y :: 0 <= x < MatrixSize && 0 <= y < MatrixSize ==> m[x][y] == LastCharge(event, x, y)
  {
    m := ZeroMatrix();
    var i := 0;
    while i < |event|
      invariant 0 <= i <= |event|
      invariant IsMatrix(m)
      invariant forall x, y :: 0 <= x < MatrixSize && 0 <= y < MatrixSize ==> m[x][y] == LastCharge(event[..i], x, y)
    {
      var r := event[i];
      assert event[..i + 1][..i] == event[..i];
      assert event[..i + 1][i] == r;
      m := m[r.pixelX := m[r.pixelX][r.pixelY := r.charge]];
      i := i + 1;
    }
    assert event[..i] == event;
  }

  /**
   * read_pixelCharge over a whole tree, without the printing: one matrix per
   * event, each depending on that event's records alone, so nothing carries
   * over from one event to the next.
   */
  method ReadPixelCharge(events: seq<Event>) returns (matrices: seq<Matrix>)
    requires forall e :: 0 <= e < |events| ==> AllInMatrix(events[e])
    ensures |matrices| == |events|
    ensures forall e :: 0 <= e < |events| ==> IsMatrix(matrices[e])
    ensures forall e, x, y :: 0 <= e < |events| && 0 <= x < MatrixSize && 0 <= y < MatrixSize
              ==> |matrices[e]| == MatrixSize && |matrices[e][x]| == MatrixSize
                  && matrices[e][x][y] == LastCharge(events[e], x, y)
  {
    matrices := [];
    var eventIdx := 0;
    while eventIdx < |events|
      invariant 0 <= eventIdx <= |events|
      invariant |matrices| == eventIdx
      invariant forall e :: 0 <= e < eventIdx ==> IsMatrix(matrices[e])
      invariant forall e, x, y :: 0 <= e < eventIdx && 0 <= x < MatrixSize && 0 <= y < MatrixSize
                  ==> |matrices[e]| == MatrixSize && |matrices[e][x]| == MatrixSize
                      && matrices[e][x][y] == LastCharge(events[e], x, y)
    {
      var m := FillMatrix(events[eventIdx]);
      matrices := matrices + [m];
      eventIdx := eventIdx + 1;
    }
  }
}
