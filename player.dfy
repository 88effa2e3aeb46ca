/**
 * The greedy player program: it finds its roster slot by process id inside a
 * read section, and on each turn copies a snapshot of the state inside a read
 * section, then either stops (game finished or player blocked) or sends the
 * direction of the best neighbouring reward.
 */
module Player {
  import opened Common
  import opened Wrappers
  import Utils
  import opened ReadSection

  /**
   * The first slot at or after `from` among the first `count` whose process
   * id is `pid`, or -1 if there is none.
   */
  function FirstMatch(players: seq<PlayerRecord>, count: int, pid: int, from: nat): (r: int)
    requires count <= |players|
    decreases count - from
    ensures r == -1 || (from <= r < count && players[r].pid == pid)
    ensures r >= 0 ==> forall j :: from <= j < r ==> players[j].pid != pid
    ensures r == -1 <==> forall j :: from <= j < count ==> players[j].pid != pid
  {
    if from >= count then -1
    else if players[from].pid == pid then from
    else FirstMatch(players, count, pid, from + 1)
  }

  /**
   * `find_player_id`: the smallest roster index below `player_count` holding
   * `myPid`, or -1; the read section around the scan leaves the reader count
   * and the state mutex as they were.
   */
  method FindPlayerId(state: GameState, sync: GameSync, myPid: int) returns (id: int)
    requires state.Valid()
    requires sync.readerCountMutex > 0 && EnterRead(Gate(sync)).Some?
    modifies sync
    ensures id == FirstMatch(state.players, state.playerCount as int, myPid, 0)
    ensures id == -1 <==> forall j :: 0 <= j < state.playerCount as int ==> state.players[j].pid != myPid
    ensures id >= 0 ==> id < state.playerCount as int && state.players[id].pid == myPid
    ensures id >= 0 ==> forall j :: 0 <= j < id ==> state.players[j].pid != myPid
    ensures Gate(sync) == old(Gate(sync))
    ensures sync.readerCountMutex == old(sync.readerCountMutex)
    ensures sync.viewNotify == old(sync.viewNotify) && sync.viewDone == old(sync.viewDone)
    ensures sync.masterAccess == old(sync.masterAccess) && sync.playerCanMove == old(sync.playerCanMove)
  {
    ghost var before := Gate(sync);
    EnterReadSection(sync);

    id := -1;
    var i := 0;
    while i < state.playerCount as int
      invariant 0 <= i <= state.playerCount as int
      invariant id == -1
      invariant FirstMatch(state.players, state.playerCount as int, myPid, 0) ==
                FirstMatch(state.players, state.playerCount as int, myPid, i)
    {
      if state.players[i].pid == myPid {
        id := i;
        break;
      }
      i := i + 1;
    }

    EnterThenExitRestores(before);
    ExitReadSection(sync);
  }

  /** The neighbour of `me` in direction `d` lies on the snapshot board and holds a reward. */
  predicate FreeTarget(me: PlayerRecord, board: seq<int>, width: int, height: int, d: nat)
    requires |board| == width * height && d < 8
  {
    var o := Utils.DirectionOffset(d as uint8);
    var nx, ny := me.x as int + o.dx, me.y as int + o.dy;
    0 <= nx < width && 0 <= ny < height && IsReward(board[Utils.CellIndex(width, height, nx, ny)])
  }

  /** The reward at the free neighbour of `me` in direction `d`. */
  function TargetReward(me: PlayerRecord, board: seq<int>, width: int, height: int, d: nat): int
    requires |board| == width * height && d < 8
    requires FreeTarget(me, board, width, height, d)
  {
    var o := Utils.DirectionOffset(d as uint8);
    board[Utils.CellIndex(width, height, me.x as int + o.dx, me.y as int + o.dy)]
  }

  /**
   * `best` is the greedy choice: a direction code; when some neighbour is free
   * it leads to a free neighbour with the highest reward, the lowest code among
   * equal rewards; when none is free it is 0 (up).
   */
  ghost predicate IsGreedyChoice(me: PlayerRecord, board: seq<int>, width: int, height: int, best: int)
    requires |board| == width * height
  {
    0 <= best < 8 &&
    ((exists d: nat :: d < 8 && FreeTarget(me, board, width, height, d)) ==>
       FreeTarget(me, board, width, height, best) &&
       (forall d: nat :: d < 8 && FreeTarget(me, board, width, height, d) ==>
          TargetReward(me, board, width, height, d) <= TargetReward(me, board, width, height, best)) &&
       (forall d: nat :: d < best && FreeTarget(me, board, width, height, d) ==>
          TargetReward(me, board, width, height, d) < TargetReward(me, board, width, height, best))) &&
    ((forall d: nat :: d < 8 ==> !FreeTarget(me, board, width, height, d)) ==> best == 0)
  }

  /** `choose_move_with_local_data`: scan the eight directions and keep the best free reward. */
  method ChooseMove(me: PlayerRecord, localBoard: seq<int>, boardWidth: int, boardHeight: int)
    returns (bestMove: uint8)
    requires |localBoard| == boardWidth * boardHeight
    ensures bestMove < 8
    ensures IsGreedyChoice(me, localBoard, boardWidth, boardHeight, bestMove as int)
  {
    bestMove := 0;
    var bestReward := -1;
    var dir: uint8 := 0;
    while dir < 8
      invariant 0 <= dir <= 8 && bestMove < 8
      invariant bestReward == -1 ==>
        bestMove == 0 && forall d: nat :: d < dir as int ==> !FreeTarget(me, localBoard, boardWidth, boardHeight, d)
      invariant bestReward != -1 ==>
        bestMove < dir && FreeTarget(me, localBoard, boardWidth, boardHeight, bestMove as int) &&
        bestReward == TargetReward(me, localBoard, boardWidth, boardHeight, bestMove as int) &&
        (forall d: nat :: d < dir as int && FreeTarget(me, localBoard, boardWidth, boardHeight, d) ==>
           TargetReward(me, localBoard, boardWidth, boardHeight, d) <= bestReward) &&
        (forall d: nat :: d < bestMove as int && FreeTarget(me, localBoard, boardWidth, boardHeight, d) ==>
           TargetReward(me, localBoard, boardWidth, boardHeight, d) < bestReward)
    {
      var offset := Utils.DirectionOffset(dir);
      var newX := me.x as int + offset.dx;
      var newY := me.y as int + offset.dy;
      if !(newX < 0 || newX >= boardWidth || newY < 0 || newY >= boardHeight) {
        Utils.RowMajorBound(boardWidth, boardHeight, newX, newY);
        var cellValue := localBoard[newY * boardWidth + newX];
        if cellValue >= MIN_REWARD && cellValue <= MAX_REWARD {
          if cellValue > bestReward {
            bestReward := cellValue;
            bestMove := dir;
          }
        }
      }
      dir := dir + 1;
    }
  }

  /**
   * The player's inline test on its snapshot is the shared `is_cell_free` on
   * the state it copied.
   */
  lemma FreeTargetIsCellFree(state: GameState, me: PlayerRecord, d: nat)
    requires state.Valid() && d < 8
    ensures
      var w, h := state.width as int, state.height as int;
      var o := Utils.DirectionOffset(d as uint8);
      FreeTarget(me, state.board[..w * h], w, h, d) <==> Utils.IsCellFree(state, me.x as int + o.dx, me.y as int + o.dy)
  {
  }

  /** What one pass of the main loop copies inside its read section. */
  datatype Snapshot = Snapshot(
    finished: bool,
    blocked: bool,
    me: PlayerRecord,
    board: seq<int>,
    width: int,
    height: int)

  /**
   * The read section of one turn: copy the finished flag, this player's record
   * and blocked flag, the `width * height` board cells and the dimensions.
   */
  method ReadSnapshot(state: GameState, sync: GameSync, playerId: nat) returns (snap: Snapshot)
    requires state.Valid() && playerId < MAX_PLAYERS
    requires sync.readerCountMutex > 0 && EnterRead(Gate(sync)).Some?
    modifies sync
    ensures snap.finished == state.finished && snap.me == state.players[playerId]
    ensures snap.blocked == state.players[playerId].blocked
    ensures snap.width == state.width as int && snap.height == state.height as int
    ensures |snap.board| == snap.width * snap.height
    ensures snap.board == state.board[..snap.width * snap.height]
    ensures Gate(sync) == old(Gate(sync))
    ensures sync.readerCountMutex == old(sync.readerCountMutex)
    ensures sync.viewNotify == old(sync.viewNotify) && sync.viewDone == old(sync.viewDone)
    ensures sync.masterAccess == old(sync.masterAccess) && sync.playerCanMove == old(sync.playerCanMove)
  {
    ghost var before := Gate(sync);
    EnterReadSection(sync);
    var gameFinished := state.finished;
    var blocked := state.players[playerId].blocked;
    var myPlayer := state.players[playerId];
    var localBoard := state.board[..state.width as int * state.height as int];
    var boardWidth := state.width as int;
    var boardHeight := state.height as int;
    EnterThenExitRestores(before);
    ExitReadSection(sync);
    snap := Snapshot(gameFinished, blocked, myPlayer, localBoard, boardWidth, boardHeight);
  }

  /** What a turn ends in: leave the loop, or write one move byte. */
  datatype TurnAction = Quit | SendMove(move: uint8)

  /**
   * One pass of the greedy player's main loop after its gate opened: it quits
   * before writing anything when the snapshot says finished or blocked, and
   * otherwise sends the greedy choice on the snapshot.
   */
  method PlayerTurn(state: GameState, sync: GameSync, playerId: nat) returns (action: TurnAction)
    requires state.Valid() && playerId < MAX_PLAYERS
    requires sync.readerCountMutex > 0 && EnterRead(Gate(sync)).Some?
    modifies sync
    ensures action.Quit? <==> state.finished || state.players[playerId].blocked
    ensures action.SendMove? ==>
      var w, h := state.width as int, state.height as int;
      IsGreedyChoice(state.players[playerId], state.board[..w * h], w, h, action.move as int)
    ensures Gate(sync) == old(Gate(sync))
    ensures sync.readerCountMutex == old(sync.readerCountMutex)
    ensures sync.viewNotify == old(sync.viewNotify) && sync.viewDone == old(sync.viewDone)
    ensures sync.masterAccess == old(sync.masterAccess) && sync.playerCanMove == old(sync.playerCanMove)
  {
    var snap := ReadSnapshot(state, sync, playerId);
    var move: uint8 := 0;
    if !snap.finished && !snap.blocked {
      move := ChooseMove(snap.me, snap.board, snap.width, snap.height);
    }
    if snap.finished || snap.blocked {
      return Quit;
    }
    action := SendMove(move);
  }
}
