/** Areas of effect (engine/src/combat.cpp, engine/src/combat.h): matrices of active cells
    around a centre, their turned copies for each direction, and the wave shapes.

    The rotations are by quarter turns, so sine and cosine are taken as 0, 1 and -1. */
module CombatArea {
  import opened Common

  datatype Rotation = Rotate90 | Rotate180 | Rotate270

  // A number stored in an unsigned 32-bit field.
  function Uint32(x: int): nat {
    x % 0x1_0000_0000
  }

  // ----- Turning ---------------------------------------------------------------------------

  /** Where a rotation takes an offset from the centre, as (x, y); y grows to the south. */
  function Turn(op: Rotation, x: int, y: int): (int, int) {
    match op
    case Rotate90 => (-y, x)
    case Rotate180 => (-x, -y)
    case Rotate270 => (y, -x)
  }

  function TurnBack(op: Rotation, x: int, y: int): (int, int) {
    match op
    case Rotate90 => (y, -x)
    case Rotate180 => (-x, -y)
    case Rotate270 => (-y, x)
  }

  class MatrixArea {
    const rows: nat
    const cols: nat
    const data: array2<bool>
    var centerX: nat
    var centerY: nat

    predicate Valid() {
      data.Length0 == rows < 0x1_0000_0000 && data.Length1 == cols < 0x1_0000_0000
    }

    predicate Inside(y: int, x: int) {
      0 <= y < rows && 0 <= x < cols
    }

    // Whether the cell at an offset from the centre is active.
    predicate Active(dx: int, dy: int)
      requires Valid()
      reads this, data
    {
      Inside(centerY + dy, centerX + dx) && data[centerY + dy, centerX + dx]
    }

    predicate CenterInside()
      reads this
    {
      Inside(centerY, centerX)
    }

    ghost predicate Blank()
      requires Valid()
      reads data
    {
      forall y, x :: Inside(y, x) ==> !data[y, x]
    }

    ghost function Cells(): (r: map<(int, int), bool>)
      requires Valid()
      reads data
      ensures forall y, x :: Inside(y, x) ==> (y, x) in r && r[(y, x)] == data[y, x]
    {
      map y, x | 0 <= y < rows && 0 <= x < cols :: (y, x) := data[y, x]
    }

    constructor (rows: nat, cols: nat)
      requires rows < 0x1_0000_0000 && cols < 0x1_0000_0000
      ensures Valid() && fresh(data) && Blank() && centerX == 0 && centerY == 0
      ensures this.rows == rows && this.cols == cols
    {
      this.rows, this.cols := rows, cols;
      data := new bool[rows, cols]((y, x) => false);
      centerX, centerY := 0, 0;
    }

    method SetCenter(y: int, x: int)
      modifies this`centerX, this`centerY
      ensures centerX == Uint32(x) && centerY == Uint32(y)
    {
      centerX, centerY := Uint32(x), Uint32(y);
    }
  }

  // ----- Copying ---------------------------------------------------------------------------

  // Which cell of the input a cell of the rotated output comes from, as (y, x).
  function Source(op: Rotation, cy: int, cx: int, k: int, row: int, col: int): (int, int) {
    var d := TurnBack(op, col - k, row - k);
    (cy + d.1, cx + d.0)
  }

  function Target(op: Rotation, cy: int, cx: int, k: int, y: int, x: int): (int, int) {
    var d := Turn(op, x - cx, y - cy);
    (d.1 + k, d.0 + k)
  }

  // The cells of the input in the columns before px, and in column px above py, have been
  // written to their turned places; the other cells of the output are as before.
  ghost predicate Rotated(input: MatrixArea, output: MatrixArea, op: Rotation, k: int, px: int, py: int,
                          before: map<(int, int), bool>)
    requires input.Valid() && output.Valid()
    reads input, output.data, input.data
  {
    forall row, col {:trigger output.Inside(row, col)} :: output.Inside(row, col) ==>
      (row, col) in before && output.data[row, col] == RotatedCell(input, op, k, px, py, row, col, before[(row, col)])
  }

  predicate RotatedCell(input: MatrixArea, op: Rotation, k: int, px: int, py: int, row: int, col: int, before: bool)
    requires input.Valid()
    reads input, input.data
  {
    var s := Source(op, input.centerY, input.centerX, k, row, col);
    if input.Inside(s.0, s.1) && (s.1 < px || (s.1 == px && s.0 < py)) then input.data[s.0, s.1] else before
  }

  lemma TargetIffSource(op: Rotation, cy: int, cx: int, k: int, y: int, x: int, row: int, col: int)
    ensures Target(op, cy, cx, k, y, x) == (row, col) <==> Source(op, cy, cx, k, row, col) == (y, x)
  {
  }

  method WriteTurned(input: MatrixArea, output: MatrixArea, op: Rotation, k: int, y: int, x: int,
                     ghost before: map<(int, int), bool>)
    requires input.Valid() && output.Valid() && input != output && input.data != output.data
    requires input.Inside(y, x) && output.Inside(Target(op, input.centerY, input.centerX, k, y, x).0,
             Target(op, input.centerY, input.centerX, k, y, x).1)
    requires Rotated(input, output, op, k, x, y, before)
    modifies output.data
    ensures Rotated(input, output, op, k, x, y + 1, before)
  {
    var t := Turn(op, x - input.centerX, y - input.centerY);
    output.data[t.1 + k, t.0 + k] := input.data[y, x];
    forall row, col {:trigger output.Inside(row, col)} | output.Inside(row, col)
      ensures (row, col) in before && output.data[row, col]
              == RotatedCell(input, op, k, x, y + 1, row, col, before[(row, col)])
    {
      TargetIffSource(op, input.centerY, input.centerX, k, y, x, row, col);
    }
  }

  lemma TargetInside(input: MatrixArea, output: MatrixArea, op: Rotation, y: int, x: int)
    requires output.rows == output.cols == 2 * Max(input.rows, input.cols)
    requires input.CenterInside() && input.Inside(y, x)
    ensures var t := Target(op, input.centerY, input.centerX, Max(input.rows, input.cols) - 1, y, x);
            output.Inside(t.0, t.1)
  {
  }

  method RotateColumn(input: MatrixArea, output: MatrixArea, op: Rotation, x: nat, ghost before: map<(int, int), bool>)
    requires input.Valid() && output.Valid() && input != output && input.data != output.data
    requires output.rows == output.cols == 2 * Max(input.rows, input.cols)
    requires x < input.cols && (input.rows > 0 ==> input.CenterInside())
    requires Rotated(input, output, op, Max(input.rows, input.cols) - 1, x, 0, before)
    modifies output.data
    ensures Rotated(input, output, op, Max(input.rows, input.cols) - 1, x + 1, 0, before)
  {
    var k := output.cols / 2 - 1;
    for y := 0 to input.rows
      invariant Rotated(input, output, op, k, x, y, before)
    {
      TargetInside(input, output, op, y, x);
      WriteTurned(input, output, op, k, y, x, before);
    }
  }

  method Rotate(input: MatrixArea, output: MatrixArea, op: Rotation)
    requires input.Valid() && output.Valid() && input != output && input.data != output.data
    requires output.rows == output.cols == 2 * Max(input.rows, input.cols)
    requires input.rows > 0 && input.cols > 0 ==> input.CenterInside()
    modifies output, output.data
    ensures output.centerX == output.centerY == Uint32(Max(input.rows, input.cols) - 1)
    ensures Rotated(input, output, op, Max(input.rows, input.cols) - 1, input.cols, 0, old(output.Cells()))
  {
    ghost var before := output.Cells();
    for x := 0 to input.cols
      invariant Rotated(input, output, op, Max(input.rows, input.cols) - 1, x, 0, before)
    {
      RotateColumn(input, output, op, x, before);
    }
    output.SetCenter(output.rows / 2 - 1, output.cols / 2 - 1);
  }

  /** The active offsets of the output are the turned ones of the input. */
  ghost predicate IsTurned(input: MatrixArea, output: MatrixArea, op: Rotation)
    requires input.Valid() && output.Valid()
    reads input, input.data, output, output.data
  {
    forall dx, dy {:trigger output.Active(dx, dy)} ::
      output.Active(dx, dy) <==> input.Active(TurnBack(op, dx, dy).0, TurnBack(op, dx, dy).1)
  }

  lemma RotatedIsTurned(input: MatrixArea, output: MatrixArea, op: Rotation, before: map<(int, int), bool>)
    requires input.Valid() && output.Valid()
    requires output.rows == output.cols == 2 * Max(input.rows, input.cols)
    requires input.rows > 0 && input.cols > 0 ==> input.CenterInside()
    requires output.centerX == output.centerY == Uint32(Max(input.rows, input.cols) - 1)
    requires Rotated(input, output, op, Max(input.rows, input.cols) - 1, input.cols, 0, before)
    requires forall c :: c in before ==> !before[c]
    ensures IsTurned(input, output, op)
  {
    var k := Max(input.rows, input.cols) - 1;
    forall dx, dy {:trigger output.Active(dx, dy)}
      ensures output.Active(dx, dy) <==> input.Active(TurnBack(op, dx, dy).0, TurnBack(op, dx, dy).1)
    {
      if k >= 0 {
        TurnedCell(input, output, op, before, dx, dy);
      }
    }
  }

  lemma TurnedCell(input: MatrixArea, output: MatrixArea, op: Rotation, before: map<(int, int), bool>, dx: int, dy: int)
    requires input.Valid() && output.Valid()
    requires output.rows == output.cols == 2 * Max(input.rows, input.cols) > 0
    requires input.rows > 0 && input.cols > 0 ==> input.CenterInside()
    requires output.centerX == output.centerY == Max(input.rows, input.cols) - 1
    requires Rotated(input, output, op, Max(input.rows, input.cols) - 1, input.cols, 0, before)
    requires forall c :: c in before ==> !before[c]
    ensures output.Active(dx, dy) <==> input.Active(TurnBack(op, dx, dy).0, TurnBack(op, dx, dy).1)
  {
    var k := Max(input.rows, input.cols) - 1;
    if output.Inside(k + dy, k + dx) {
      assert output.data[k + dy, k + dx] == RotatedCell(input, op, k, input.cols, 0, k + dy, k + dx,
          before[(k + dy, k + dx)]);
    }
  }

  /** Two quarter turns, whatever the matrices they went through, are the half turn, a third
      one is the turn the other way, and a fourth leads back. */
  lemma QuarterTurns(a: MatrixArea, b: MatrixArea, c: MatrixArea, d: MatrixArea)
    requires a.Valid() && b.Valid() && c.Valid() && d.Valid()
    requires IsTurned(a, b, Rotate90) && IsTurned(b, c, Rotate90) && IsTurned(c, d, Rotate90)
    ensures IsTurned(a, c, Rotate180) && IsTurned(a, d, Rotate270) && IsTurned(d, a, Rotate90)
  {
  }

  // ----- Mirroring -------------------------------------------------------------------------

  // The rows before py, and in row py the columns before px, have been mirrored.
  ghost predicate Mirrored(input: MatrixArea, output: MatrixArea, py: int, px: int, before: map<(int, int), bool>)
    requires input.Valid() && output.Valid()
    reads input, output.data, input.data
  {
    forall row, col {:trigger output.Inside(row, col)} :: output.Inside(row, col) ==>
      (row, col) in before &&
      output.data[row, col] == if input.Inside(row, col) && (row < py || (row == py && col < px)) then
          input.data[row, input.cols - 1 - col]
                               else before[(row, col)]
  }

  // The columns before px, and in column px the rows before py, have been flipped.
  ghost predicate Flipped(input: MatrixArea, output: MatrixArea, px: int, py: int, before: map<(int, int), bool>)
    requires input.Valid() && output.Valid()
    reads input, output.data, input.data
  {
    forall row, col {:trigger output.Inside(row, col)} :: output.Inside(row, col) ==>
      (row, col) in before &&
      output.data[row, col] == if input.Inside(row, col) && (col < px || (col == px && row < py)) then
          input.data[input.rows - 1 - row, col]
                               else before[(row, col)]
  }

  method MirrorArea(input: MatrixArea, output: MatrixArea)
    requires input.Valid() && output.Valid() && input != output && input.data != output.data
    requires output.rows >= input.rows && output.cols >= input.cols
    modifies output, output.data
    ensures output.centerY == Uint32(input.centerY) && output.centerX == Uint32(input.rows - 1 - input.centerX)
    ensures Mirrored(input, output, input.rows, 0, old(output.Cells()))
  {
    ghost var before := output.Cells();
    for y := 0 to input.rows
      invariant Mirrored(input, output, y, 0, before)
    {
      var rx := 0;
      var x := input.cols;
      while x > 0
        invariant 0 <= x <= input.cols && rx == input.cols - x
        invariant Mirrored(input, output, y, rx, before)
      {
        x := x - 1;
        output.data[y, rx] := input.data[y, x];
        rx := rx + 1;
      }
    }
    output.SetCenter(input.centerY, input.rows - 1 - input.centerX);
  }

  method FlipArea(input: MatrixArea, output: MatrixArea)
    requires input.Valid() && output.Valid() && input != output && input.data != output.data
    requires output.rows >= input.rows && output.cols >= input.cols
    modifies output, output.data
    ensures output.centerX == Uint32(input.centerX) && output.centerY == Uint32(input.cols - 1 - input.centerY)
    ensures Flipped(input, output, input.cols, 0, old(output.Cells()))
  {
    ghost var before := output.Cells();
    for x := 0 to input.cols
      invariant Flipped(input, output, x, 0, before)
    {
      var ry := 0;
      var y := input.rows;
      while y > 0
        invariant 0 <= y <= input.rows && ry == input.rows - y
        invariant Flipped(input, output, x, ry, before)
      {
        y := y - 1;
        output.data[ry, x] := input.data[y, x];
        ry := ry + 1;
      }
    }
    output.SetCenter(input.cols - 1 - input.centerY, input.centerX);
  }

  ghost predicate IsMirrored(input: MatrixArea, output: MatrixArea)
    requires input.Valid() && output.Valid()
    reads input, input.data, output, output.data
  {
    forall dx, dy {:trigger output.Active(dx, dy)} :: output.Active(dx, dy) <==> input.Active(-dx, dy)
  }

  ghost predicate IsFlipped(input: MatrixArea, output: MatrixArea)
    requires input.Valid() && output.Valid()
    reads input, input.data, output, output.data
  {
    forall dx, dy {:trigger output.Active(dx, dy)} :: output.Active(dx, dy) <==> input.Active(dx, -dy)
  }

  ghost predicate HasActive(a: MatrixArea)
    requires a.Valid()
    reads a, a.data
  {
    exists dx, dy :: a.Active(dx, dy)
  }

  // A finite set of offsets is not a shifted copy of itself.
  lemma {:induction false} NothingShifts(a: MatrixArea, tx: int, ty: int, dx: int, dy: int)
    requires a.Valid() && (tx != 0 || ty != 0)
    requires forall x, y :: a.Active(x, y) ==> a.Active(x + tx, y + ty)
    ensures !a.Active(dx, dy)
    decreases if tx > 0 then a.cols - (a.centerX + dx) else if tx < 0 then a.centerX + dx
              else if ty > 0 then a.rows - (a.centerY + dy) else a.centerY + dy
  {
    if a.Active(dx, dy) {
      NothingShifts(a, tx, ty, dx + tx, dy + ty);
    }
  }

  // The mirrored matrix shows the input mirrored and then shifted by this much.
  lemma MirrorShifts(input: MatrixArea, output: MatrixArea, before: map<(int, int), bool>, dx: int, dy: int)
    requires input.Valid() && output.Valid() && input.centerX < input.cols && input.centerY < 0x1_0000_0000
    requires output.rows >= input.rows && output.cols >= input.cols
    requires output.centerY == Uint32(input.centerY) && output.centerX == Uint32(input.rows - 1 - input.centerX)
    requires Mirrored(input, output, input.rows, 0, before) && forall c :: c in before ==> !before[c]
    ensures output.Active(dx, dy) <==> input.Active(input.cols - 1 - input.centerX - output.centerX - dx, dy)
  {
    var row, col := output.centerY + dy, output.centerX + dx;
    if output.Inside(row, col) {
      assert (row, col) in before;
    }
  }

  lemma FlipShifts(input: MatrixArea, output: MatrixArea, before: map<(int, int), bool>, dx: int, dy: int)
    requires input.Valid() && output.Valid() && input.CenterInside()
    requires output.rows >= input.rows && output.cols >= input.cols
    requires output.centerX == Uint32(input.centerX) && output.centerY == Uint32(input.cols - 1 - input.centerY)
    requires Flipped(input, output, input.cols, 0, before) && forall c :: c in before ==> !before[c]
    ensures output.Active(dx, dy) <==> input.Active(dx, input.rows - 1 - input.centerY - output.centerY - dy)
  {
    var row, col := output.centerY + dy, output.centerX + dx;
    if output.Inside(row, col) {
      assert (row, col) in before;
    }
  }

  /** The mirrored area takes its new center column from the number of rows.  So, of an area
      with an active cell, it is the mirror image exactly when the matrix is square. */
  lemma MirrorExactIff(input: MatrixArea, output: MatrixArea, before: map<(int, int), bool>)
    requires input.Valid() && output.Valid() && input.CenterInside() && HasActive(input)
    requires output.rows >= input.rows && output.cols >= input.cols
    requires output.centerY == Uint32(input.centerY) && output.centerX == Uint32(input.rows - 1 - input.centerX)
    requires Mirrored(input, output, input.rows, 0, before) && forall c :: c in before ==> !before[c]
    ensures IsMirrored(input, output) <==> input.rows == input.cols
  {
    var t := input.cols - 1 - input.centerX - output.centerX;
    forall dx, dy {:trigger output.Active(dx, dy)}
      ensures output.Active(dx, dy) <==> input.Active(t - dx, dy)
    {
      MirrorShifts(input, output, before, dx, dy);
    }
    if IsMirrored(input, output) && t != 0 {
      var dx, dy :| input.Active(dx, dy);
      forall x, y | input.Active(x, y)
        ensures input.Active(x + t, y + 0)
      {
        assert output.Active(-x, y) <==> input.Active(t + x, y);
      }
      NothingShifts(input, t, 0, dx, dy);
    }
  }

  lemma FlipExactIff(input: MatrixArea, output: MatrixArea, before: map<(int, int), bool>)
    requires input.Valid() && output.Valid() && input.CenterInside() && HasActive(input)
    requires output.rows >= input.rows && output.cols >= input.cols
    requires output.centerX == Uint32(input.centerX) && output.centerY == Uint32(input.cols - 1 - input.centerY)
    requires Flipped(input, output, input.cols, 0, before) && forall c :: c in before ==> !before[c]
    ensures IsFlipped(input, output) <==> input.rows == input.cols
  {
    var t := input.rows - 1 - input.centerY - output.centerY;
    forall dx, dy {:trigger output.Active(dx, dy)}
      ensures output.Active(dx, dy) <==> input.Active(dx, t - dy)
    {
      FlipShifts(input, output, before, dx, dy);
    }
    if IsFlipped(input, output) && t != 0 {
      var dx, dy :| input.Active(dx, dy);
      forall x, y | input.Active(x, y)
        ensures input.Active(x + 0, y + t)
      {
        assert output.Active(x, -y) <==> input.Active(x, t + y);
      }
      NothingShifts(input, 0, t, dx, dy);
    }
  }

  // ----- Areas from lists --------------------------------------------------------------------

  // Row by row: y * cols + x.
  function Index(cols: nat, y: nat, x: nat): nat {
    if y == 0 then x else Index(cols, y - 1, x) + cols
  }

  lemma {:induction false} IndexIs(cols: nat, y: nat, x: nat)
    ensures Index(cols, y, x) == y * cols + x
  {
    if y > 0 {
      IndexIs(cols, y - 1, x);
    }
  }

  lemma {:induction false} IndexNext(cols: nat, y: nat, x: nat)
    ensures Index(cols, y, x + 1) == Index(cols, y, x) + 1
    ensures Index(cols, y + 1, 0) == Index(cols, y, cols)
  {
    if y > 0 {
      IndexNext(cols, y - 1, x);
    }
  }

  // A place in the rows before row n.
  lemma {:induction false} IndexBefore(cols: nat, y: nat, x: nat, n: nat)
    requires x < Max(cols, 1)
    ensures Index(cols, y, x) < Index(cols, n, 0) <==> y < n && x < cols
  {
    if cols == 0 {
      IndexIs(0, y, x);
      IndexIs(0, n, 0);
    } else if y > 0 && n > 0 {
      IndexBefore(cols, y - 1, x, n - 1);
    }
  }

  // The list as rows of numbers; 1 and 3 are active cells, 2 and 3 are the center.
  function Entry(list: seq<nat>, cols: nat, y: nat, x: nat): nat {
    if Index(cols, y, x) < |list| then list[Index(cols, y, x)] else 0
  }

  predicate Before(y: int, x: int, py: int, px: int) {
    y < py || (y == py && x < px)
  }

  // The cells before (py, px) are those of the list, the rest are off.
  ghost predicate Filled(area: MatrixArea, list: seq<nat>, py: int, px: int)
    requires area.Valid()
    reads area.data
  {
    forall y, x {:trigger area.Inside(y, x)} :: area.Inside(y, x) ==>
      (area.data[y, x] <==> Before(y, x, py, px) && Entry(list, area.cols, y, x) in {1, 3})
  }

  // The center is the last of the list before (py, px), or the first cell when there is none.
  ghost predicate Centered(area: MatrixArea, list: seq<nat>, py: int, px: int)
    reads area
  {
    || (MarksCenter(area, list, py, px, area.centerY, area.centerX) &&
        forall y, x {:trigger MarksCenter(area, list, py, px, y, x)} ::
            MarksCenter(area, list, py, px, y, x) ==> !Before(area.centerY, area.centerX, y, x))
    || (area.centerY == 0 && area.centerX == 0 &&
        forall y, x {:trigger MarksCenter(area, list, py, px, y, x)} :: !MarksCenter(area, list, py, px, y, x))
  }

  predicate MarksCenter(area: MatrixArea, list: seq<nat>, py: int, px: int, y: int, x: int) {
    area.Inside(y, x) && Before(y, x, py, px) && Entry(list, area.cols, y, x) in {2, 3}
  }

  /** The list must fill its rows. */
  predicate FillsRows(list: seq<nat>, rows: nat) {
    |list| < 0x1_0000_0000 && rows < 0x1_0000_0000 && if rows == 0 then list == [] else |list| % rows == 0
  }

  // Between two places without a mark the center stays.
  lemma SameMarks(area: MatrixArea, list: seq<nat>, y: int, x: int, y': int, x': int)
    requires Centered(area, list, y, x)
    requires forall r, c :: MarksCenter(area, list, y, x, r, c) <==> MarksCenter(area, list, y', x', r, c)
    ensures Centered(area, list, y', x')
  {
  }

  // One entry of the list.
  method PutEntry(area: MatrixArea, list: seq<nat>, value: nat, y: nat, x: nat)
    requires area.Valid() && area.Inside(y, x) && value == Entry(list, area.cols, y, x)
    requires Filled(area, list, y, x) && Centered(area, list, y, x)
    modifies area, area.data
    ensures Filled(area, list, y, x + 1) && Centered(area, list, y, x + 1)
  {
    if value == 1 || value == 3 {
      area.data[y, x] := true;
    }
    if value == 2 || value == 3 {
      area.SetCenter(y, x);
      assert MarksCenter(area, list, y, x + 1, y, x);
    } else {
      SameMarks(area, list, y, x, y, x + 1);
    }
  }

  lemma RowEnd(area: MatrixArea, list: seq<nat>, y: nat)
    requires area.Valid() && Filled(area, list, y, area.cols) && Centered(area, list, y, area.cols)
    ensures Filled(area, list, y + 1, 0) && Centered(area, list, y + 1, 0)
  {
    SameMarks(area, list, y, area.cols, y + 1, 0);
  }

  // One turn of the loop over the list.
  method PutNext(area: MatrixArea, list: seq<nat>, i: nat, y: nat, x: nat) returns (y': nat, x': nat)
    requires area.Valid() && i < |list| == Index(area.cols, area.rows, 0)
    requires x < Max(area.cols, 1) && i == Index(area.cols, y, x)
    requires Filled(area, list, y, x) && Centered(area, list, y, x)
    modifies area, area.data
    ensures x' < Max(area.cols, 1) && i + 1 == Index(area.cols, y', x')
    ensures Filled(area, list, y', x') && Centered(area, list, y', x')
  {
    IndexBefore(area.cols, y, x, area.rows);
    IndexNext(area.cols, y, x);
    PutEntry(area, list, list[i], y, x);
    y', x' := y, x + 1;
    if area.cols == x' {
      RowEnd(area, list, y);
      y', x' := y + 1, 0;
    }
  }

  lemma RowsTimesCols(list: seq<nat>, rows: nat)
    requires FillsRows(list, rows)
    ensures var cols := if rows == 0 then 0 else |list| / rows;
            |list| == Index(cols, rows, 0) && 0 <= cols < 0x1_0000_0000
  {
    IndexIs(if rows == 0 then 0 else |list| / rows, rows, 0);
  }

  lemma NothingFilled(area: MatrixArea, list: seq<nat>)
    requires area.Valid() && area.Blank() && area.centerX == 0 && area.centerY == 0
    ensures Filled(area, list, 0, 0) && Centered(area, list, 0, 0)
  {
  }

  method CreateArea(list: seq<nat>, rows: nat) returns (area: MatrixArea)
    requires FillsRows(list, rows)
    ensures fresh(area) && area.Valid() && fresh(area.data) && area.rows == rows && |list| == Index(area.cols, rows, 0)
    ensures rows == 0 ==> area.cols == 0
    ensures Filled(area, list, rows, 0) && Centered(area, list, rows, 0)
  {
    RowsTimesCols(list, rows);
    var cols := if rows == 0 then 0 else |list| / rows;
    area := new MatrixArea(rows, cols);
    NothingFilled(area, list);
    var x, y := 0, 0;
    for i := 0 to |list|
      invariant 0 <= y && 0 <= x < Max(cols, 1) && i == Index(cols, y, x)
      invariant Filled(area, list, y, x) && Centered(area, list, y, x)
    {
      y, x := PutNext(area, list, i, y, x);
    }
    IndexBefore(cols, y, x, rows);
    AllFilled(area, list, y, x, rows);
  }

  lemma AllFilled(area: MatrixArea, list: seq<nat>, y: nat, x: nat, rows: nat)
    requires area.Valid() && area.rows == rows && Filled(area, list, y, x) && Centered(area, list, y, x)
    requires y >= rows || x >= area.cols
    requires x < Max(area.cols, 1)
    ensures Filled(area, list, rows, 0) && Centered(area, list, rows, 0)
  {
    SameMarks(area, list, y, x, rows, 0);
  }

  // ----- Wave shapes -------------------------------------------------------------------------

  // Columns of a wave: one, and two more for each full spread in its length.
  function WaveCols(length: nat, spread: int): int {
    if spread == 0 then 1 else ((length - (length % spread)) / spread) * 2 + 1
  }

  // By how many columns on each side row y, counted from 1, is narrower than the widest.
  function Narrower(spread: int, y: nat): nat
    requires y >= 1
  {
    if spread > 0 then (y - 1) / spread else 0
  }

  /** Row and column count from 1: the last row has the center in the middle, and each row is
      active between its margins. */
  function WaveCell(length: nat, spread: int, y: nat, x: nat): nat
    requires y >= 1
  {
    var cols := WaveCols(length, spread);
    if y == length && x == ((cols - (cols % 2)) / 2) + 1 then 3
    else if Narrower(spread, y) + 1 <= x <= cols - Narrower(spread, y) then 1
    else 0
  }

  lemma NarrowerNext(spread: int, y: nat)
    requires y >= 1
    ensures Narrower(spread, y + 1) == Narrower(spread, y) + if spread > 0 && y % spread == 0 then 1 else 0
  {
    if spread > 0 {
      var q, r := (y - 1) / spread, (y - 1) % spread;
      assert y == q * spread + (r + 1);
      if r + 1 == spread {
        assert y == (q + 1) * spread + 0;
        DivModIs(y, spread, q + 1, 0);
      } else {
        DivModIs(y, spread, q, r + 1);
      }
    }
  }

  // The rows before y, and in row y the columns before x, are listed.
  ghost predicate Listed(list: seq<nat>, length: nat, spread: int, cols: nat, y: nat, x: nat) {
    && |list| == Index(cols, y, x)
    && forall r: nat, c: nat {:trigger Entry(list, cols, r, c)} ::
        c < cols && Before(r, c, y, x) ==> Entry(list, cols, r, c) == WaveCell(length, spread, r + 1, c + 1)
  }

  lemma ListedNext(list: seq<nat>, length: nat, spread: int, cols: nat, y: nat, x: nat, value: nat)
    requires Listed(list, length, spread, cols, y, x) && x < cols && value == WaveCell(length, spread, y + 1, x + 1)
    ensures Listed(list + [value], length, spread, cols, y, x + 1)
  {
    IndexNext(cols, y, x);
    forall r: nat, c: nat {:trigger Entry(list + [value], cols, r, c)} | c < cols && Before(r, c, y, x + 1)
      ensures Entry(list + [value], cols, r, c) == WaveCell(length, spread, r + 1, c + 1)
    {
      IndexOrder(cols, r, c, y, x);
      assert Entry(list, cols, r, c) == if Before(r, c, y, x) then WaveCell(length, spread, r + 1, c + 1) else 0;
    }
  }

  lemma {:induction false} IndexOrder(cols: nat, r: nat, c: nat, y: nat, x: nat)
    requires c < cols && x < cols
    ensures Before(r, c, y, x) <==> Index(cols, r, c) < Index(cols, y, x)
    ensures Index(cols, r, c) == Index(cols, y, x) <==> r == y && c == x
  {
    if r > 0 && y > 0 {
      IndexOrder(cols, r - 1, c, y - 1, x);
    }
  }

  method WaveList(length: nat, spread: int) returns (list: seq<nat>)
    ensures var cols := Max(WaveCols(length, spread), 0); Listed(list, length, spread, cols, length, 0)
  {
    list := [];
    var cols := 1;
    if spread != 0 {
      cols := ((length - (length % spread)) / spread) * 2 + 1;
    }
    var colSpread := cols;
    ghost var width := Max(cols, 0);
    for y := 1 to length + 1
      invariant colSpread == cols - Narrower(spread, y)
      invariant Listed(list, length, spread, width, y - 1, 0)
    {
      var minCol := cols - colSpread + 1;
      var maxCol := cols - (cols - colSpread);
      var x := 1;
      while x <= cols
        invariant 1 <= x <= width + 1
        invariant Listed(list, length, spread, width, y - 1, x - 1)
      {
        var value := 0;
        if y == length && x == ((cols - (cols % 2)) / 2) + 1 {
          value := 3;
        } else if minCol <= x <= maxCol {
          value := 1;
        }
        ListedNext(list, length, spread, width, y - 1, x - 1, value);
        list := list + [value];
        x := x + 1;
      }
      NarrowerNext(spread, y);
      if spread > 0 && y % spread == 0 {
        colSpread := colSpread - 1;
      }
      ListedRow(list, length, spread, width, y - 1);
    }
  }

  lemma ListedRow(list: seq<nat>, length: nat, spread: int, cols: nat, y: nat)
    requires Listed(list, length, spread, cols, y, cols)
    ensures Listed(list, length, spread, cols, y + 1, 0)
  {
    IndexNext(cols, y, 0);
  }

  /** The wave as a set of offsets from the caster's front cell: length rows to the north, in
      the row at distance -dy as far to each side as whole spreads fit between the far end
      and that row.  A spread below zero gives a beam when longer than the wave, else nothing. */
  predicate WaveOffset(length: nat, spread: int, dx: int, dy: int) {
    && -(length as int) < dy <= 0
    && if spread > 0 then var side := length / spread - (length - 1 + dy) / spread; -side <= dx <= side
       else (spread == 0 || -spread > length) && dx == 0
  }

  lemma WaveWidth(length: nat, spread: int)
    ensures spread > 0 ==> WaveCols(length, spread) == 2 * (length / spread) + 1
    ensures spread < 0 ==> (if -spread > length then WaveCols(length, spread) == 1 else WaveCols(length, spread) < 0)
  {
    if spread != 0 {
      var q, r := length / spread, length % spread;
      assert length - r == q * spread;
      EuclidIs(length - r, spread, q);
      if spread < 0 {
        QuotientSign(length, -spread, -q, r);
      }
    }
  }

  lemma QuotientSign(x: nat, d: nat, q: int, r: nat)
    requires d > 0 && r < d && x - r == (-q) * (-(d as int))
    ensures if d > x then q == 0 else q > 0
  {
    assert (-q) * (-(d as int)) == q * d;
    Multiples(q, d);
  }

  lemma EuclidIs(x: int, d: int, q: int)
    requires d != 0 && x == q * d
    ensures x / d == q
  {
    var k := x / d - q;
    assert x == (x / d) * d + x % d;
    assert k * d == (x / d) * d - q * d;
    Multiples(k, if d > 0 then d else -d);
    Multiples(-k, if d > 0 then d else -d);
  }

  /** The list of a wave, cell by cell, is the set of offsets around its one center. */
  lemma WaveCellIs(length: nat, spread: int, y: nat, x: nat)
    requires 1 <= y <= length && 1 <= x <= WaveCols(length, spread)
    ensures var middle := (WaveCols(length, spread) + 1) / 2;
            && (WaveCell(length, spread, y, x) in {1, 3} <==> WaveOffset(length, spread, x - middle, y - length))
            && (WaveCell(length, spread, y, x) in {2, 3} <==> y == length && x == middle)
  {
    WaveWidth(length, spread);
    if spread > 0 {
      DivMonotone(y - 1, length, spread);
    }
  }

  lemma DivMonotone(a: nat, b: nat, d: nat)
    requires a <= b && d > 0
    ensures a / d <= b / d
  {
    assert a == (a / d) * d + a % d && b == (b / d) * d + b % d;
    Multiples(a / d - b / d, d);
    assert (a / d - b / d) * d == (a / d) * d - (b / d) * d;
  }

  /** Waves are symmetric about the middle column. */
  lemma WaveSymmetric(length: nat, spread: int, y: nat, x: nat)
    requires 1 <= y <= length && 1 <= x <= WaveCols(length, spread)
    ensures WaveCell(length, spread, y, x) == WaveCell(length, spread, y, WaveCols(length, spread) + 1 - x)
  {
    WaveWidth(length, spread);
  }

  // A matrix filled from the list of a wave shows the wave.
  lemma WaveShown(area: MatrixArea, list: seq<nat>, length: nat, spread: int, cols: nat)
    requires area.Valid() && area.rows == length && cols == Max(WaveCols(length, spread), 0)
    requires Listed(list, length, spread, cols, length, 0) && |list| == Index(area.cols, length, 0)
    requires Filled(area, list, length, 0) && Centered(area, list, length, 0)
    ensures forall dx, dy :: area.Active(dx, dy) <==> WaveOffset(length, spread, dx, dy)
  {
    WaveWidth(length, spread);
    if length == 0 {
      forall dx, dy
        ensures area.Active(dx, dy) <==> WaveOffset(length, spread, dx, dy)
      {
      }
    } else {
      IndexIs(area.cols, length, 0);
      IndexIs(cols, length, 0);
      SameFactor(length, area.cols, cols);
      if cols > 0 {
        WaveCenter(area, list, length, spread);
      }
      forall dx, dy
        ensures area.Active(dx, dy) <==> WaveOffset(length, spread, dx, dy)
      {
        WaveActive(area, list, length, spread, dx, dy);
      }
    }
  }

  lemma SameFactor(k: nat, a: nat, b: nat)
    requires k > 0 && k * a == k * b
    ensures a == b
  {
    assert k * (a - b) == 0;
    Multiples(a - b, k);
  }

  lemma WaveCenter(area: MatrixArea, list: seq<nat>, length: nat, spread: int)
    requires area.Valid() && area.rows == length > 0 && area.cols == WaveCols(length, spread) > 0
    requires Listed(list, length, spread, area.cols, length, 0)
    requires Centered(area, list, length, 0)
    ensures area.centerY == length - 1 && area.centerX == (area.cols + 1) / 2 - 1
  {
    var middle := (area.cols + 1) / 2;
    WaveCellIs(length, spread, length, middle);
    assert Entry(list, area.cols, length - 1, middle - 1) == WaveCell(length, spread, length, middle);
    assert MarksCenter(area, list, length, 0, length - 1, middle - 1);
    assert MarksCenter(area, list, length, 0, area.centerY, area.centerX);
    assert Entry(list, area.cols, area.centerY, area.centerX)
        == WaveCell(length, spread, area.centerY + 1, area.centerX + 1);
    WaveCellIs(length, spread, area.centerY + 1, area.centerX + 1);
  }

  lemma WaveActive(area: MatrixArea, list: seq<nat>, length: nat, spread: int, dx: int, dy: int)
    requires area.Valid() && area.rows == length > 0 && area.cols == Max(WaveCols(length, spread), 0)
    requires Listed(list, length, spread, area.cols, length, 0)
    requires Filled(area, list, length, 0)
    requires area.cols > 0 ==> area.centerY == length - 1 && area.centerX == (area.cols + 1) / 2 - 1
    ensures area.Active(dx, dy) <==> WaveOffset(length, spread, dx, dy)
  {
    WaveWidth(length, spread);
    var y, x := area.centerY + dy, area.centerX + dx;
    if area.Inside(y, x) {
      assert Entry(list, area.cols, y, x) == WaveCell(length, spread, y + 1, x + 1);
      WaveCellIs(length, spread, y + 1, x + 1);
    } else {
      OutsideWave(length, spread, dx, dy);
    }
  }

  // Offsets that leave the matrix of a wave are not in the wave.
  lemma OutsideWave(length: nat, spread: int, dx: int, dy: int)
    requires WaveCols(length, spread) > 0 && 0 <= length - 1 + dy < length ==>
               !(0 <= (WaveCols(length, spread) + 1) / 2 - 1 + dx < WaveCols(length, spread))
    ensures !WaveOffset(length, spread, dx, dy)
  {
    WaveWidth(length, spread);
    if spread > 0 && 0 <= length - 1 + dy < length {
      DivMonotone(0, length - 1 + dy, spread);
      DivMonotone(0, length, spread);
      DivModIs(0, spread, 0, 0);
    }
  }

  // ----- The areas of a combat ---------------------------------------------------------------

  datatype Direction = North | East | South | West | NorthWest | NorthEast | SouthWest | SouthEast

  /** Which area is used for a target at an offset from the caster.  The straight directions
      go by the column first, and the diagonal ones apply only with an extended area. */
  function AreaDirection(dx: int, dy: int, hasExtArea: bool): Direction {
    if hasExtArea && dx < 0 && dy < 0 then NorthWest
    else if hasExtArea && dx > 0 && dy < 0 then NorthEast
    else if hasExtArea && dx < 0 && dy > 0 then SouthWest
    else if hasExtArea && dx > 0 && dy > 0 then SouthEast
    else if dx < 0 then West
    else if dx > 0 then East
    else if dy < 0 then North
    else South
  }

  // The way a straight direction leads, and the turn of its area.
  function Heading(d: Direction): (int, int) {
    match d
    case North => (0, -1)
    case East => (1, 0)
    case South => (0, 1)
    case West => (-1, 0)
    case _ => (0, 0)
  }

  // Whether an offset is in the wave as it is turned for a straight direction.
  predicate InWave(length: nat, spread: int, d: Direction, x: int, y: int) {
    match d
    case North => WaveOffset(length, spread, x, y)
    case East => WaveOffset(length, spread, TurnBack(Rotate90, x, y).0, TurnBack(Rotate90, x, y).1)
    case South => WaveOffset(length, spread, TurnBack(Rotate180, x, y).0, TurnBack(Rotate180, x, y).1)
    case West => WaveOffset(length, spread, TurnBack(Rotate270, x, y).0, TurnBack(Rotate270, x, y).1)
    case _ => false
  }

  /** A wave with a spread is one cell wider on each side for every `spread` rows that it has gone,
      the last row counting in full; without one, or with one below minus its length, it is a
      single column. */
  lemma WaveOffsetIff(length: nat, spread: int, dx: int, dy: int)
    ensures WaveOffset(length, spread, dx, dy) <==>
              && -(length as int) < dy <= 0
              && (spread > 0 ==> Abs(dx) <= length / spread - (length - 1 + dy) / spread)
              && (spread == 0 || spread < -(length as int) ==> dx == 0)
              && (-(length as int) <= spread < 0 ==> false)
  {
  }

  /** The wave chosen for a target leads away from the caster: the target lies ahead, and no
      cell of the wave lies behind the target. */
  lemma WaveLeadsAway(length: nat, spread: int, dx: int, dy: int, x: int, y: int)
    requires dx != 0 || dy != 0
    requires InWave(length, spread, AreaDirection(dx, dy, false), x, y)
    ensures var h := Heading(AreaDirection(dx, dy, false));
            h.0 * dx + h.1 * dy > 0 && h.0 * x + h.1 * y >= 0
  {
    match AreaDirection(dx, dy, false)
    case North =>
    case East =>
    case South =>
    case West =>
  }

  // A center inside, unless the matrix has no cells.
  lemma CenteredIsInside(area: MatrixArea, list: seq<nat>)
    requires Centered(area, list, area.rows, 0)
    ensures area.rows > 0 && area.cols > 0 ==> area.CenterInside()
  {
  }

  // A new matrix with the input turned.
  method TurnedArea(input: MatrixArea, op: Rotation) returns (output: MatrixArea)
    requires input.Valid() && input.rows < 0x8000_0000 && input.cols < 0x8000_0000
    requires input.rows > 0 && input.cols > 0 ==> input.CenterInside()
    ensures fresh(output) && output.Valid() && fresh(output.data) && IsTurned(input, output, op)
  {
    var n := if input.cols < input.rows then input.rows * 2 else input.cols * 2;
    output := new MatrixArea(n, n);
    ghost var before := output.Cells();
    BlankCells(output, before);
    Rotate(input, output, op);
    RotatedIsTurned(input, output, op, before);
  }

  lemma BlankCells(area: MatrixArea, cells: map<(int, int), bool>)
    requires area.Valid() && area.Blank() && cells == area.Cells()
    ensures forall c :: c in cells ==> !cells[c]
  {
  }

  // A new matrix of n rows and columns with the input mirrored as the code does it.
  method MirroredArea(input: MatrixArea, n: nat) returns (output: MatrixArea)
    requires input.Valid() && input.rows <= n && input.cols <= n < 0x1_0000_0000 && input.CenterInside()
    ensures fresh(output) && output.Valid() && fresh(output.data)
    ensures HasActive(input) ==> (IsMirrored(input, output) <==> input.rows == input.cols)
    ensures input.rows == input.cols ==> IsMirrored(input, output)
  {
    output := new MatrixArea(n, n);
    ghost var before := output.Cells();
    BlankCells(output, before);
    MirrorArea(input, output);
    MirrorSquare(input, output, before);
    if HasActive(input) {
      MirrorExactIff(input, output, before);
    }
  }

  lemma MirrorSquare(input: MatrixArea, output: MatrixArea, before: map<(int, int), bool>)
    requires input.Valid() && output.Valid() && input.centerX < input.cols && input.centerY < 0x1_0000_0000
    requires output.rows >= input.rows && output.cols >= input.cols
    requires output.centerY == Uint32(input.centerY) && output.centerX == Uint32(input.rows - 1 - input.centerX)
    requires Mirrored(input, output, input.rows, 0, before) && forall c :: c in before ==> !before[c]
    ensures input.rows == input.cols ==> IsMirrored(input, output)
  {
    forall dx, dy {:trigger output.Active(dx, dy)} | input.rows == input.cols
      ensures output.Active(dx, dy) <==> input.Active(-dx, dy)
    {
      MirrorShifts(input, output, before, dx, dy);
    }
  }

  method FlippedArea(input: MatrixArea, n: nat) returns (output: MatrixArea)
    requires input.Valid() && input.rows <= n && input.cols <= n < 0x1_0000_0000 && input.CenterInside()
    ensures fresh(output) && output.Valid() && fresh(output.data) && output.rows == output.cols == n
    ensures HasActive(input) ==> (IsFlipped(input, output) <==> input.rows == input.cols)
    ensures input.rows == input.cols ==> IsFlipped(input, output) && output.CenterInside()
    ensures output.centerY == Uint32(input.cols - 1 - input.centerY) && output.centerX == input.centerX
  {
    output := new MatrixArea(n, n);
    ghost var before := output.Cells();
    BlankCells(output, before);
    FlipArea(input, output);
    FlipSquare(input, output, before);
    if HasActive(input) {
      FlipExactIff(input, output, before);
    }
  }

  lemma FlipSquare(input: MatrixArea, output: MatrixArea, before: map<(int, int), bool>)
    requires input.Valid() && output.Valid() && input.CenterInside()
    requires output.rows >= input.rows && output.cols >= input.cols
    requires output.centerX == Uint32(input.centerX) && output.centerY == Uint32(input.cols - 1 - input.centerY)
    requires Flipped(input, output, input.cols, 0, before) && forall c :: c in before ==> !before[c]
    ensures input.rows == input.cols ==> IsFlipped(input, output)
  {
    forall dx, dy {:trigger output.Active(dx, dy)} | input.rows == input.cols
      ensures output.Active(dx, dy) <==> input.Active(dx, -dy)
    {
      FlipShifts(input, output, before, dx, dy);
    }
  }

  class AreaCombat {
    var areas: map<Direction, MatrixArea>
    var hasExtArea: bool

    constructor ()
      ensures areas == map[] && !hasExtArea
    {
      areas, hasExtArea := map[], false;
    }

    /** The area for a target, by its offset from the caster. */
    method GetArea(center: (int, int), target: (int, int)) returns (area: MatrixArea?)
      ensures var d := AreaDirection(target.0 - center.0, target.1 - center.1, hasExtArea);
              area == if d in areas then areas[d] else null
      ensures var (dx, dy) := (target.0 - center.0, target.1 - center.1);
              && (hasExtArea && dx < 0 && dy < 0 ==> area == if NorthWest in areas then areas[NorthWest] else null)
              && (hasExtArea && dx > 0 && dy < 0 ==> area == if NorthEast in areas then areas[NorthEast] else null)
              && (hasExtArea && dx < 0 && dy > 0 ==> area == if SouthWest in areas then areas[SouthWest] else null)
              && (hasExtArea && dx > 0 && dy > 0 ==> area == if SouthEast in areas then areas[SouthEast] else null)
              && (dx < 0 && (!hasExtArea || dy == 0) ==> area == if West in areas then areas[West] else null)
              && (dx > 0 && (!hasExtArea || dy == 0) ==> area == if East in areas then areas[East] else null)
              && (dx == 0 && dy < 0 ==> area == if North in areas then areas[North] else null)
              && (dx == 0 && dy >= 0 ==> area == if South in areas then areas[South] else null)
    {
      var dx, dy := target.0 - center.0, target.1 - center.1;
      var dir := South;
      if dx < 0 {
        dir := West;
      } else if dx > 0 {
        dir := East;
      } else if dy < 0 {
        dir := North;
      }
      if hasExtArea {
        if dx < 0 && dy < 0 {
          dir := NorthWest;
        } else if dx > 0 && dy < 0 {
          dir := NorthEast;
        } else if dx < 0 && dy > 0 {
          dir := SouthWest;
        } else if dx > 0 && dy > 0 {
          dir := SouthEast;
        }
      }
      if dir !in areas {
        return null;
      }
      area := areas[dir];
    }

    /** The area of the list to the north, and its turned copies for the other directions. */
    method SetupArea(list: seq<nat>, rows: nat)
      requires FillsRows(list, rows) && |list| < 0x8000_0000 && rows < 0x8000_0000
      modifies this`areas
      ensures North in areas && East in areas && South in areas && West in areas
      ensures areas == old(areas)[North := areas[North]][South := areas[South]][East := areas[East]]
              [West := areas[West]]
      ensures areas[North].Valid() && areas[North].rows == rows && |list| == Index(areas[North].cols, rows, 0)
      ensures Filled(areas[North], list, rows, 0) && Centered(areas[North], list, rows, 0)
      ensures areas[East].Valid() && IsTurned(areas[North], areas[East], Rotate90)
      ensures areas[South].Valid() && IsTurned(areas[North], areas[South], Rotate180)
      ensures areas[West].Valid() && IsTurned(areas[North], areas[West], Rotate270)
    {
      var area := CreateArea(list, rows);
      CenteredIsInside(area, list);
      ColsInRange(list, rows, area.cols);
      var south, east, west := TurnedAreas(area);
      areas := areas[North := area];
      areas := areas[South := south];
      areas := areas[East := east];
      areas := areas[West := west];
    }

    /** The wave of this length and spread, in front of the caster in all four directions. */
    method SetupWave(length: nat, spread: int)
      requires length < 0x8000_0000 && Index(Max(WaveCols(length, spread), 0), length, 0) < 0x8000_0000
      modifies this`areas
      ensures North in areas && East in areas && South in areas && West in areas
      ensures areas[North].Valid() && areas[East].Valid() && areas[South].Valid() && areas[West].Valid()
      ensures forall dx, dy {:trigger areas[North].Active(dx, dy)} ::
              areas[North].Active(dx, dy) <==> WaveOffset(length, spread, dx, dy)
      ensures forall dx, dy {:trigger areas[South].Active(dx, dy)} ::
              areas[South].Active(dx, dy) <==> WaveOffset(length, spread, -dx, -dy)
      ensures forall dx, dy {:trigger areas[East].Active(dx, dy)} ::
              areas[East].Active(dx, dy) <==> WaveOffset(length, spread, dy, -dx)
      ensures forall dx, dy {:trigger areas[West].Active(dx, dy)} ::
              areas[West].Active(dx, dy) <==> WaveOffset(length, spread, -dy, dx)
    {
      var list := WaveList(length, spread);
      ghost var cols := Max(WaveCols(length, spread), 0);
      IndexIs(cols, length, 0);
      EmptyOrFull(list, length, cols);
      SetupArea(list, length);
      WaveShown(areas[North], list, length, spread, cols);
    }

    /** The diagonal areas: the list to the north-west, mirrored to the north-east, flipped to
        the south-west, and the flipped one mirrored to the south-east. */
    method SetupExtArea(list: seq<nat>, rows: nat)
      requires FillsRows(list, rows) && |list| < 0x8000_0000 && rows < 0x8000_0000
      modifies this
      ensures list == [] ==> areas == old(areas) && hasExtArea == old(hasExtArea)
      ensures list != [] ==>
                && hasExtArea && NorthWest in areas && NorthEast in areas && SouthWest in areas && SouthEast in areas
                && areas == old(areas)[NorthWest := areas[NorthWest]][NorthEast := areas[NorthEast]]
                    [SouthWest := areas[SouthWest]][SouthEast := areas[SouthEast]]
                && areas[NorthWest].Valid() && Filled(areas[NorthWest], list, rows, 0)
                    && Centered(areas[NorthWest], list, rows, 0)
                && Diagonals(areas[NorthWest], areas[NorthEast], areas[SouthWest], areas[SouthEast])
    {
      if list == [] {
        return;
      }
      hasExtArea := true;
      var area := CreateArea(list, rows);
      CenteredIsInside(area, list);
      ColsInRange(list, rows, area.cols);
      var ne, sw, se := DiagonalAreas(area);
      areas := areas[NorthWest := area];
      areas := areas[NorthEast := ne];
      areas := areas[SouthWest := sw];
      areas := areas[SouthEast := se];
    }
  }

  method TurnedAreas(area: MatrixArea) returns (south: MatrixArea, east: MatrixArea, west: MatrixArea)
    requires area.Valid() && area.rows < 0x8000_0000 && area.cols < 0x8000_0000
    requires area.rows > 0 && area.cols > 0 ==> area.CenterInside()
    ensures south.Valid() && IsTurned(area, south, Rotate180)
    ensures east.Valid() && IsTurned(area, east, Rotate90)
    ensures west.Valid() && IsTurned(area, west, Rotate270)
  {
    south := TurnedArea(area, Rotate180);
    east := TurnedArea(area, Rotate90);
    west := TurnedArea(area, Rotate270);
  }

  /** The three copies are the images they are meant to be when the matrix is square; otherwise
      none of them is, unless nothing is active. */
  ghost predicate Diagonals(nw: MatrixArea, ne: MatrixArea, sw: MatrixArea, se: MatrixArea)
    reads nw, nw.data, ne, ne.data, sw, sw.data, se, se.data
  {
    && nw.Valid() && ne.Valid() && sw.Valid() && se.Valid()
    && (nw.rows == nw.cols ==> IsMirrored(nw, ne) && IsFlipped(nw, sw) && IsTurned(nw, se, Rotate180))
    && (nw.rows != nw.cols && HasActive(nw) ==>
          !IsMirrored(nw, ne) && !IsFlipped(nw, sw) && !IsTurned(nw, se, Rotate180))
  }

  // The south-east area, from the flipped one, whose center may lie outside.
  method MirroredFlip(input: MatrixArea) returns (output: MatrixArea)
    requires input.Valid() && input.rows == input.cols && input.centerX < input.cols && input.centerY < 0x1_0000_0000
    ensures fresh(output) && output.Valid() && fresh(output.data) && IsMirrored(input, output)
  {
    output := new MatrixArea(input.rows, input.cols);
    ghost var before := output.Cells();
    BlankCells(output, before);
    MirrorArea(input, output);
    MirrorSquare(input, output, before);
  }

  // A mirror image of a copy is the half turn exactly when the copy is the flipped image.
  lemma MirrorOfFlip(a: MatrixArea, b: MatrixArea, c: MatrixArea)
    requires a.Valid() && b.Valid() && c.Valid() && IsMirrored(b, c)
    ensures IsTurned(a, c, Rotate180) <==> IsFlipped(a, b)
  {
    if IsTurned(a, c, Rotate180) {
      forall dx, dy {:trigger b.Active(dx, dy)}
        ensures b.Active(dx, dy) <==> a.Active(dx, -dy)
      {
        assert c.Active(-dx, dy) <==> b.Active(dx, dy);
      }
    }
  }

  method DiagonalAreas(area: MatrixArea) returns (ne: MatrixArea, sw: MatrixArea, se: MatrixArea)
    requires area.Valid() && area.rows < 0x8000_0000 && area.cols < 0x8000_0000 && area.CenterInside()
    ensures fresh(ne) && fresh(sw) && fresh(se) && Diagonals(area, ne, sw, se)
  {
    var n := if area.cols < area.rows then area.rows * 2 else area.cols * 2;
    ne := MirroredArea(area, n);
    sw := FlippedArea(area, n);
    se := MirroredFlip(sw);
    MirrorOfFlip(area, sw, se);
  }

  lemma ColsInRange(list: seq<nat>, rows: nat, cols: nat)
    requires |list| == Index(cols, rows, 0) && |list| < 0x8000_0000 && (rows == 0 ==> cols == 0)
    ensures cols < 0x8000_0000 && (list != [] ==> rows > 0 && cols > 0)
  {
    IndexIs(cols, rows, 0);
    if rows > 0 {
      assert rows * cols == (rows - 1) * cols + cols;
    }
  }

  lemma EmptyOrFull(list: seq<nat>, rows: nat, cols: nat)
    requires |list| == Index(cols, rows, 0) && |list| < 0x8000_0000 && rows < 0x8000_0000
    ensures FillsRows(list, rows)
  {
    IndexIs(cols, rows, 0);
    if rows > 0 {
      DivModIs(|list|, rows, cols, 0);
    }
  }

  // ----- The tiles that are hit --------------------------------------------------------------

  // A position in clear sight whose cell is active and before (y, x).
  predicate IsHit(area: MatrixArea, target: (int, int), clear: ((int, int)) -> bool, y: int, x: int, pos: (int, int))
    requires area.Valid()
    reads area, area.data
  {
    && area.Active(pos.0 - target.0, pos.1 - target.1) && clear(pos)
    && Before(area.centerY + pos.1 - target.1, area.centerX + pos.0 - target.0, y, x)
  }

  ghost predicate HitsListed(list: seq<(int, int)>, area: MatrixArea, target: (int, int), clear: ((int, int)) -> bool,
                             y: int, x: int)
    requires area.Valid()
    reads area, area.data
  {
    && (forall pos :: pos in list <==> IsHit(area, target, clear, y, x, pos))
    && (forall i, j :: 0 <= i < j < |list| ==> list[i] != list[j])
  }

  /** AreaCombat::getList for the area chosen: the positions around the target whose offset is
      active and that are in clear sight, each once. */
  method GetList(area: MatrixArea, target: (int, int), clear: ((int, int)) -> bool) returns (list: seq<(int, int)>)
    requires area.Valid()
    ensures forall pos :: pos in list <==> area.Active(pos.0 - target.0, pos.1 - target.1) && clear(pos)
    ensures forall i, j :: 0 <= i < j < |list| ==> list[i] != list[j]
  {
    list := [];
    var tmpX, tmpY := target.0 - area.centerX, target.1 - area.centerY;
    for y := 0 to area.rows
      invariant tmpX == target.0 - area.centerX && tmpY == target.1 - area.centerY + y
      invariant HitsListed(list, area, target, clear, y, 0)
    {
      for x := 0 to area.cols
        invariant tmpX == target.0 - area.centerX + x && tmpY == target.1 - area.centerY + y
        invariant HitsListed(list, area, target, clear, y, x)
      {
        ghost var before := list;
        if area.data[y, x] && clear((tmpX, tmpY)) {
          list := [(tmpX, tmpY)] + list;
        }
        HitsNext(before, list, area, target, clear, y, x);
        tmpX := tmpX + 1;
      }
      RowOfHits(list, area, target, clear, y);
      tmpX := tmpX - area.cols;
      tmpY := tmpY + 1;
    }
    assert forall pos :: IsHit(area, target, clear, area.rows, 0, pos) <==>
        area.Active(pos.0 - target.0, pos.1 - target.1) && clear(pos);
  }

  lemma HitsNext(before: seq<(int, int)>, list: seq<(int, int)>, area: MatrixArea, target: (int, int),
                 clear: ((int, int)) -> bool, y: nat, x: nat)
    requires area.Valid() && area.Inside(y, x) && HitsListed(before, area, target, clear, y, x)
    requires var pos := (target.0 - area.centerX + x, target.1 - area.centerY + y);
             list == if area.data[y, x] && clear(pos) then [pos] + before else before
    ensures HitsListed(list, area, target, clear, y, x + 1)
  {
    var here := (target.0 - area.centerX + x, target.1 - area.centerY + y);
    assert here !in before by {
      assert !IsHit(area, target, clear, y, x, here);
    }
    assert here in list <==> list != before by {
      assert list != before ==> list[0] == here;
    }
    forall pos
      ensures pos in list <==> IsHit(area, target, clear, y, x + 1, pos)
    {
      assert pos in before <==> IsHit(area, target, clear, y, x, pos);
      if pos != here {
        assert pos in list <==> pos in before;
      }
    }
  }

  lemma RowOfHits(list: seq<(int, int)>, area: MatrixArea, target: (int, int), clear: ((int, int)) -> bool, y: nat)
    requires area.Valid() && HitsListed(list, area, target, clear, y, area.cols)
    ensures HitsListed(list, area, target, clear, y + 1, 0)
  {
    assert forall pos :: IsHit(area, target, clear, y, area.cols, pos) <==> IsHit(area, target, clear, y + 1, 0, pos);
  }
}
