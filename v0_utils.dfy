/**
 * The earliest copy of the board helpers, from the first prototype of the
 * game. Each member is shown to agree with the Utils model on every input.
 */
module V0Utils {
  import opened Common
  import Utils

  /** `get_board_cell`: the same value as Utils.GetBoardCell everywhere. */
  function GetBoardCell(state: GameState, x: int, y: int): (v: int)
    requires state.Valid()
    reads state, state.board
    ensures v == Utils.GetBoardCell(state, x, y)
    ensures x < 0 || y < 0 || x >= state.width as int || y >= state.height as int ==> v == -999
  {
    if x < 0 || x >= state.width as int || y < 0 || y >= state.height as int then
      -999
    else
      Utils.RowMajorBound(state.width as int, state.height as int, x, y);
      state.board[y * state.width as int + x]
  }

  /** `set_board_cell`: a no-op off the board, exactly one cell changed on it. */
  method SetBoardCell(state: GameState, x: int, y: int, value: int)
    requires state.Valid()
    modifies state.board
    ensures !Utils.IsValidPosition(state, x, y) ==> state.board[..] == old(state.board[..])
    ensures Utils.IsValidPosition(state, x, y) ==>
      state.board[..] == old(state.board[..])[Utils.CellIndex(state.width as int, state.height as int, x, y) := value]
  {
    if x >= 0 && x < state.width as int && y >= 0 && y < state.height as int {
      Utils.RowMajorBound(state.width as int, state.height as int, x, y);
      state.board[y * state.width as int + x] := value;
    }
  }

  /** `is_valid_position`: exactly the rectangle [0, width) x [0, height), as in Utils. */
  predicate IsValidPosition(state: GameState, x: int, y: int)
    reads state
    ensures IsValidPosition(state, x, y) == Utils.IsValidPosition(state, x, y)
  {
    x >= 0 && x < state.width as int && y >= 0 && y < state.height as int
  }

  /** `is_cell_free`: agrees with Utils.IsCellFree, so it implies a valid position holding 1..9. */
  predicate IsCellFree(state: GameState, x: int, y: int)
    requires state.Valid()
    reads state, state.board
    ensures IsCellFree(state, x, y) == Utils.IsCellFree(state, x, y)
    ensures IsCellFree(state, x, y) ==> IsValidPosition(state, x, y) && IsReward(GetBoardCell(state, x, y))
  {
    if !IsValidPosition(state, x, y) then
      false
    else
      var cellValue := GetBoardCell(state, x, y);
      cellValue >= MIN_REWARD && cellValue <= MAX_REWARD
  }

  /** `get_direction_offset`: the same eight-entry table as Utils, (0, 0) outside 0..7. */
  function DirectionOffset(direction: uint8): (o: Utils.Offset)
    ensures o == Utils.DirectionOffset(direction)
  {
    match direction
    case 0 => Utils.Offset(0, -1)
    case 1 => Utils.Offset(1, -1)
    case 2 => Utils.Offset(1, 0)
    case 3 => Utils.Offset(1, 1)
    case 4 => Utils.Offset(0, 1)
    case 5 => Utils.Offset(-1, 1)
    case 6 => Utils.Offset(-1, 0)
    case 7 => Utils.Offset(-1, -1)
    case _ => Utils.Offset(0, 0)
  }
}
