/**
 * The shared declarations of the game: the constants, the player record and
 * the two shared-memory regions (the game state with its trailing board, and
 * the synchronisation block of semaphores).
 */
module Common {

  const MAX_PLAYERS: nat := 9
  const MIN_BOARD_SIZE: int := 10
  const DEFAULT_WIDTH: int := 10
  const DEFAULT_HEIGHT: int := 10
  const DEFAULT_DELAY: int := 200
  const DEFAULT_TIMEOUT: int := 10
  const MAX_REWARD: int := 9
  const MIN_REWARD: int := 1
  const PLAYER_NAME_SIZE: nat := 16

  /** Direction codes, clockwise starting from up. */
  const DIR_UP: int := 0
  const DIR_UP_RIGHT: int := 1
  const DIR_RIGHT: int := 2
  const DIR_DOWN_RIGHT: int := 3
  const DIR_DOWN: int := 4
  const DIR_DOWN_LEFT: int := 5
  const DIR_LEFT: int := 6
  const DIR_UP_LEFT: int := 7

  const UINT32_MAX: int := 0xFFFF_FFFF

  /** The C integer types that the shared layout uses. */
  type uint8 = x: int | 0 <= x < 0x100
  type uint16 = x: int | 0 <= x < 0x1_0000
  type uint32 = x: int | 0 <= x < 0x1_0000_0000

  /** A reward value, the only cell content a player may move onto. */
  predicate IsReward(v: int) {
    MIN_REWARD <= v && v <= MAX_REWARD
  }

  /** One roster slot (`player_t`). */
  datatype PlayerRecord = PlayerRecord(
    name: seq<char>,
    score: uint32,
    invalidMoves: uint32,
    validMoves: uint32,
    x: uint16,
    y: uint16,
    pid: int,
    blocked: bool)

  /** A slot of a freshly created region: every byte zero. */
  function ZeroPlayer(): (p: PlayerRecord)
    ensures |p.name| == PLAYER_NAME_SIZE
    ensures p.score == 0 && p.validMoves == 0 && p.invalidMoves == 0 && !p.blocked
  {
    PlayerRecord(seq(PLAYER_NAME_SIZE, _ => '\0'), 0, 0, 0, 0, 0, 0, false)
  }

  /**
   * The game-state region (`game_state_t`): a fixed header with the roster of
   * MAX_PLAYERS slots followed by the board as a trailing array of ints.
   */
  class GameState {
    var width: uint16
    var height: uint16
    var playerCount: uint32
    var players: seq<PlayerRecord>
    var finished: bool
    var board: array<int>

    /**
     * The shape of the region: MAX_PLAYERS roster slots, a player count that
     * indexes into them, and a trailing array large enough for the grid.
     */
    ghost predicate Valid()
      reads this
    {
      |players| == MAX_PLAYERS &&
      playerCount <= MAX_PLAYERS &&
      width as int * height as int <= board.Length
    }

    /** A newly created region of `cells` board cells, zero-filled. */
    constructor Zeroed(cells: nat)
      ensures Valid() && fresh(board)
      ensures width == 0 && height == 0 && playerCount == 0 && !finished
      ensures players == seq(MAX_PLAYERS, _ => ZeroPlayer())
      ensures board.Length == cells && forall i :: 0 <= i < cells ==> board[i] == 0
    {
      width, height, playerCount := 0, 0, 0;
      players := seq(MAX_PLAYERS, _ => ZeroPlayer());
      finished := false;
      board := new int[cells](_ => 0);
    }
  }

  /**
   * The synchronisation region (`game_sync_t`). Each semaphore is modelled by
   * its count; `readerCount` is the plain shared counter of active readers.
   */
  class GameSync {
    var viewNotify: nat
    var viewDone: nat
    var masterAccess: nat
    var stateMutex: nat
    var readerCountMutex: nat
    var readerCount: uint32
    var playerCanMove: array<nat>

    /** One move gate per roster slot. */
    ghost predicate Valid()
      reads this
    {
      playerCanMove.Length == MAX_PLAYERS
    }

    /** A newly created region, zero-filled. */
    constructor Zeroed()
      ensures Valid() && fresh(playerCanMove)
      ensures viewNotify == 0 && viewDone == 0 && masterAccess == 0
      ensures stateMutex == 0 && readerCountMutex == 0 && readerCount == 0
      ensures forall i :: 0 <= i < MAX_PLAYERS ==> playerCanMove[i] == 0
    {
      viewNotify, viewDone, masterAccess := 0, 0, 0;
      stateMutex, readerCountMutex, readerCount := 0, 0, 0;
      playerCanMove := new nat[MAX_PLAYERS](_ => 0);
    }
  }

  /** Rewards are strictly positive, so no reward is ever an occupied marker. */
  lemma RewardsArePositive(v: int)
    ensures IsReward(v) ==> v > 0
    ensures v <= 0 ==> !IsReward(v)
  {
  }
}
