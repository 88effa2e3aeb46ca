/**
 * Board geometry and cell access on the shared game state: a row-major
 * `width * height` grid of ints whose reads and writes are bounds-checked,
 * and the table of the eight compass offsets.
 */
module Utils {
  import opened Common

  /** What a read outside the board returns. */
  const OFF_BOARD: int := -999

  /** A move offset `(dx, dy)`; `dy < 0` is up, as rows grow downwards. */
  datatype Offset = Offset(dx: int, dy: int)

  /** One of the eight cells around a cell: both components in -1..1, not both zero. */
  predicate IsUnitStep(o: Offset) {
    -1 <= o.dx <= 1 && -1 <= o.dy <= 1 && !(o.dx == 0 && o.dy == 0)
  }

  /** `a <= b` scales by a non-negative factor. */
  lemma MulMonotone(a: int, b: int, w: int)
    requires a <= b && 0 <= w
    ensures a * w <= b * w
  {
    var d := b - a;
    assert d * w >= 0;
    assert b * w == a * w + d * w;
  }

  lemma RowMajorBound(width: int, height: int, x: int, y: int)
    requires 0 <= x < width && 0 <= y < height
    ensures 0 <= y * width + x < width * height
  {
    MulMonotone(0, y, width);
    MulMonotone(y + 1, height, width);
    assert (y + 1) * width == y * width + width;
  }

  /** The row-major index of an on-board position. */
  function CellIndex(width: int, height: int, x: int, y: int): (i: int)
    requires 0 <= x < width && 0 <= y < height
    ensures 0 <= i < width * height
  {
    RowMajorBound(width, height, x, y);
    y * width + x
  }

  /** Two on-board positions with the same row-major index are the same position. */
  lemma CellIndexInjective(width: int, height: int, x1: int, y1: int, x2: int, y2: int)
    requires 0 <= x1 < width && 0 <= y1 < height
    requires 0 <= x2 < width && 0 <= y2 < height
    requires CellIndex(width, height, x1, y1) == CellIndex(width, height, x2, y2)
    ensures x1 == x2 && y1 == y2
  {
    if y1 != y2 {
      var lo, hi := if y1 < y2 then y1 else y2, if y1 < y2 then y2 else y1;
      MulMonotone(lo + 1, hi, width);
      assert false;
    }
  }

  /** Every index of the grid is the row-major index of exactly the position `(i % width, i / width)`. */
  lemma CellIndexCovers(width: int, height: int, i: int)
    requires 0 <= width && 0 <= height
    requires 0 <= i < width * height
    ensures width > 0 && 0 <= i % width < width && 0 <= i / width < height
    ensures CellIndex(width, height, i % width, i / width) == i
  {
    if width == 0 {
      assert false;
    }
    var x, y := i % width, i / width;
    assert i == y * width + x;
    assert y >= 0;
    if y >= height {
      MulMonotone(height, y, width);
      assert false;
    }
  }

  /** `is_valid_position`: only on-board positions reach the board, at an index inside the grid. */
  predicate IsValidPosition(state: GameState, x: int, y: int)
    reads state
    ensures IsValidPosition(state, x, y) ==>
      0 <= y * state.width as int + x < state.width as int * state.height as int
    ensures IsValidPosition(state, x, y) ==> state.width > 0 && state.height > 0
  {
    if x >= 0 && x < state.width as int && y >= 0 && y < state.height as int then
      RowMajorBound(state.width as int, state.height as int, x, y);
      true
    else
      false
  }

  /** `get_board_cell`: the cell value on the board, OFF_BOARD anywhere else. */
  function GetBoardCell(state: GameState, x: int, y: int): (v: int)
    requires state.Valid()
    reads state, state.board
    ensures !IsValidPosition(state, x, y) ==> v == OFF_BOARD
    ensures IsValidPosition(state, x, y) ==>
      v == state.board[CellIndex(state.width as int, state.height as int, x, y)]
  {
    if x < 0 || x >= state.width as int || y < 0 || y >= state.height as int then
      OFF_BOARD
    else
      RowMajorBound(state.width as int, state.height as int, x, y);
      state.board[y * state.width as int + x]
  }

  /**
   * `set_board_cell`: off the board nothing changes; on the board exactly the
   * cell at `(x, y)` is overwritten, so it reads back as `value` and every
   * other position reads as before.
   */
  method SetBoardCell(state: GameState, x: int, y: int, value: int)
    requires state.Valid()
    modifies state.board
    ensures !IsValidPosition(state, x, y) ==> state.board[..] == old(state.board[..])
    ensures IsValidPosition(state, x, y) ==>
      state.board[..] == old(state.board[..])[CellIndex(state.width as int, state.height as int, x, y) := value]
    ensures forall x', y' ::
      GetBoardCell(state, x', y') ==
        (if IsValidPosition(state, x, y) && x' == x && y' == y then value else old(GetBoardCell(state, x', y')))
  {
    if x >= 0 && x < state.width as int && y >= 0 && y < state.height as int {
      RowMajorBound(state.width as int, state.height as int, x, y);
      state.board[y * state.width as int + x] := value;
      forall x', y' | IsValidPosition(state, x', y') && !(x' == x && y' == y)
        ensures GetBoardCell(state, x', y') == old(GetBoardCell(state, x', y'))
      {
        if CellIndex(state.width as int, state.height as int, x', y') ==
           CellIndex(state.width as int, state.height as int, x, y) {
          CellIndexInjective(state.width as int, state.height as int, x', y', x, y);
        }
      }
    }
  }

  /** `is_cell_free`: on the board and holding a reward in [MIN_REWARD, MAX_REWARD]. */
  predicate IsCellFree(state: GameState, x: int, y: int)
    requires state.Valid()
    reads state, state.board
    ensures IsCellFree(state, x, y) ==> IsValidPosition(state, x, y)
    ensures IsCellFree(state, x, y) <==>
      IsValidPosition(state, x, y) &&
      IsReward(state.board[CellIndex(state.width as int, state.height as int, x, y)])
    ensures GetBoardCell(state, x, y) <= 0 ==> !IsCellFree(state, x, y)
  {
    if !IsValidPosition(state, x, y) then
      false
    else
      var cellValue := GetBoardCell(state, x, y);
      cellValue >= MIN_REWARD && cellValue <= MAX_REWARD
  }

  /** `get_direction_offset`: codes 0..7 give the eight neighbours, any other code (0, 0). */
  function DirectionOffset(direction: uint8): (o: Offset)
    ensures direction < 8 ==> IsUnitStep(o)
    ensures direction >= 8 ==> o == Offset(0, 0)
  {
    match direction
    case 0 => Offset(0, -1)
    case 1 => Offset(1, -1)
    case 2 => Offset(1, 0)
    case 3 => Offset(1, 1)
    case 4 => Offset(0, 1)
    case 5 => Offset(-1, 1)
    case 6 => Offset(-1, 0)
    case 7 => Offset(-1, -1)
    case _ => Offset(0, 0)
  }

  /** The eight codes give eight different offsets. */
  lemma DirectionOffsetsDistinct(d1: uint8, d2: uint8)
    requires d1 < 8 && d2 < 8 && d1 != d2
    ensures DirectionOffset(d1) != DirectionOffset(d2)
  {
  }

  /** Every neighbour of a cell is reached by some code 0..7. */
  lemma DirectionOffsetsCoverNeighbours(o: Offset)
    requires IsUnitStep(o)
    ensures exists d: uint8 :: d < 8 && DirectionOffset(d) == o
  {
    var d: uint8 :=
      if o.dx == 0 then (if o.dy < 0 then 0 else 4)
      else if o.dx == 1 then (if o.dy < 0 then 1 else if o.dy == 0 then 2 else 3)
      else (if o.dy > 0 then 5 else if o.dy == 0 then 6 else 7);
    assert DirectionOffset(d) == o;
  }

  /**
   * The codes run clockwise from up: code 0 is up, two codes further is a
   * quarter turn clockwise, and each odd code is the diagonal between its
   * two neighbours.
   */
  lemma DirectionsClockwiseFromUp(d: uint8)
    requires d < 8
    ensures DirectionOffset(DIR_UP as uint8) == Offset(0, -1)
    ensures DirectionOffset(((d + 2) % 8) as uint8) ==
      Offset(-DirectionOffset(d).dy, DirectionOffset(d).dx)
    ensures d % 2 == 1 ==>
      DirectionOffset(d) == Offset(
        DirectionOffset((d - 1) as uint8).dx + DirectionOffset(((d + 1) % 8) as uint8).dx,
        DirectionOffset((d - 1) as uint8).dy + DirectionOffset(((d + 1) % 8) as uint8).dy)
  {
  }
}
