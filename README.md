# ChompChamps core — a Dafny model

ChompChamps is a multi-process snake-like game. A master process creates two
shared-memory regions. The game state holds the board dimensions, a roster of
up to nine players and the board of rewards 1..9. The sync region holds the
semaphores of a readers/writer protocol and one move gate per player. The
master then starts the player programs. Each player locates its roster slot by
process id. On each turn it copies a snapshot of the state inside a read
section and either quits (game finished or player blocked) or writes one move
byte, a direction code 0..7 clockwise from up. When the game ends, the winner
is chosen by score, then fewest valid moves, then fewest invalid moves.

This project models that core:

- **`Common`** (`common.dfy`): the constants, the player record and the two
  shared regions as classes. `GameState` keeps `board` as an `array<int>`;
  `GameSync` keeps semaphore counts and the `playerCanMove` gates.
- **`Utils`** (`utils.dfy`): the board helpers of `src/utils.c`, with
  row-major indexing, bounds-checked reads and writes, and the direction table.
- **`CommonUtils`** and **`V0Utils`**: the second and earliest copies of the
  same helpers. Each is proved to agree with `Utils`.
- **`Ranking`**: `find_winner` and the ranking order it implements.
- **`ReadSection`**: the reader entry and exit of the readers/writer protocol,
  taken sequentially. It includes a trace lemma over any well-nested sequence
  of entries and exits.
- **`Player`** and **`ProxyPlayer`**: player-id search, the greedy move
  choice, and one turn of each player's main loop. `ProxyPlayer.c` carries its
  own copy of `find_player_id` (`src/ProxyPlayer.c:40-72`). It is line for line
  the one in `src/player.c`, so `Player.FindPlayerId` models both.
- **`Master`**: `parse_arguments`, over the sequence of options getopt
  returns, and `initialize_shared_memory`.

Modelling decisions:

- **Shared regions.** A freshly created region is zero-filled, as a new POSIX
  shared-memory object is. The master opens `/game_state` and `/game_sync`
  with `O_CREAT` but not `O_EXCL` (`src/master.c:168`, `src/master.c:178`).
  A region left behind by an earlier run would be reopened with its old
  contents. The model assumes no such leftover region exists.
- **Board dimensions.** The master stores the configured width and height into
  `unsigned short` fields. The model keeps that truncation (`% 0x1_0000`). So
  `GameState.Valid` only asks that `width * height` cells fit in the board
  array; it does not ask them to equal it.
- **Semaphores.** A semaphore is its count. A `sem_wait` that would block is
  the `None` result of `ReadSection.EnterRead`; the model has no concurrency.
- **Ties.** When all three ranking keys are tied, `find_winner` keeps the
  lowest index, because every replacement test is strict. It does not report
  "no winner" in that case unless the tied key is the sentinel
  `(0, UINT32_MAX, UINT32_MAX)` the scan starts from: no player beats that, so
  the result is -1. The model follows the code; see
  `Ranking.ExactTieGoesToLowestIndex` and `Ranking.FindWinner`.
- **Parameters.** `time(NULL)` is the `clock` parameter of
  `Master.ParseArguments`. The proxy's child wait status is the `status`
  parameter of `ProxyPlayer.ProxyTurn`. getopt is given as the sequence of
  `(option, optarg, optind)` triples it returns.

## Model

| member | source | states |
|---|---|---|
| Common.ZeroPlayer | src/common.h:50-59 | a zero-filled roster slot: a 16-byte name and all counters zero, not blocked |
| Common.RewardsArePositive | src/common.h:31-32 | every reward in MIN_REWARD..MAX_REWARD is positive, so no value <= 0 is a reward |
| Common.GameState.Zeroed | src/common.h:62-70 | a new state region: MAX_PLAYERS zeroed slots, zero header, a zero-filled board of the requested size |
| Common.GameSync.Zeroed | src/common.h:73-82 | a new sync region: all counts zero and MAX_PLAYERS move gates |
| Utils.RowMajorBound | src/utils.c:17 | an on-board (x, y) gives an index `y*width + x` inside `0..width*height` |
| Utils.CellIndex | src/utils.c:17 | the row-major index of an on-board position lies inside the grid |
| Utils.CellIndexInjective | src/utils.c:17 | two on-board positions with the same index are the same position |
| Utils.CellIndexCovers | src/utils.c:17 | every grid index is the index of `(i % width, i / width)`, which is on the board |
| Utils.IsValidPosition | src/utils.c:28-31 | a valid position implies a non-empty board and an index inside the grid |
| Utils.GetBoardCell | src/utils.c:11-18 | -999 for any position off the board; the board cell at the row-major index otherwise |
| Utils.SetBoardCell | src/utils.c:20-26 | off the board nothing changes; on it exactly that cell changes, it reads back as `value`, and every other position reads as before |
| Utils.IsCellFree | src/utils.c:33-41 | free iff on the board and the cell holds a reward 1..9; free implies valid; a value <= 0 is never free |
| Utils.DirectionOffset | src/utils.c:43-84 | codes 0..7 give unit steps to one of the eight neighbours; any other code gives (0, 0) |
| Utils.DirectionOffsetsDistinct | src/utils.c:43-84 | the eight codes give eight different offsets |
| Utils.DirectionOffsetsCoverNeighbours | src/utils.c:43-84 | every neighbouring offset is produced by some code below 8 |
| Utils.DirectionsClockwiseFromUp | src/common.h:35-43 | code 0 is up, code d+2 is a quarter turn clockwise from code d, and odd codes are the diagonals between their neighbours |
| CommonUtils.GetBoardCell | src/common_utils.c:32-39 | equals Utils.GetBoardCell everywhere, -999 off the board |
| CommonUtils.SetBoardCell | src/common_utils.c:41-47 | no change off the board; exactly the addressed cell changes on it |
| CommonUtils.IsValidPosition | src/common_utils.c:49-52 | the same rectangle as Utils.IsValidPosition |
| CommonUtils.IsCellFree | src/common_utils.c:54-62 | equals Utils.IsCellFree; free implies a valid position holding a reward |
| CommonUtils.DirectionOffset | src/common_utils.c:64-105 | the same table as Utils.DirectionOffset |
| V0Utils.GetBoardCell | v0code/utils.c:8-13 | equals Utils.GetBoardCell everywhere, -999 off the board |
| V0Utils.SetBoardCell | v0code/utils.c:15-19 | no change off the board; exactly the addressed cell changes on it |
| V0Utils.IsValidPosition | v0code/utils.c:21-23 | the same rectangle as Utils.IsValidPosition |
| V0Utils.IsCellFree | v0code/utils.c:25-31 | equals Utils.IsCellFree; free implies a valid position holding a reward |
| V0Utils.DirectionOffset | v0code/utils.c:33-45 | the same table as Utils.DirectionOffset |
| Ranking.OutranksIsStrictTotalOrder | src/utils.c:182-184 | the replacement test is irreflexive, transitive and total on distinct keys |
| Ranking.SentinelIsBottom | src/utils.c:170-172 | with 32-bit counters every player's key is the sentinel or above it |
| Ranking.RankWinnerUnique | src/utils.c:174-192 | at most one index is the winner |
| Ranking.FindWinner | src/utils.c:162-195 | -1 for no state or no players; otherwise an index below player_count that no player outranks, that strictly outranks every earlier player and that ranks above the sentinel; -1 exactly when every player still has the sentinel key |
| Ranking.FewerValidMovesBreakScoreTie | src/utils.c:182-184 | scores 10, 10, 8 with 5 and 3 valid moves: the second player wins |
| Ranking.ExactTieGoesToLowestIndex | src/utils.c:174-192 | an exact tie on all keys is won by index 0, not reported as no winner |
| ReadSection.EnterRead | src/player.c:53-58 | the count grows by one modulo 2^32; the reader finding it at 0 takes the state mutex; this blocks only when the count is 0 and the mutex is taken |
| ReadSection.ExitRead | src/player.c:68-73 | the count shrinks by one; the reader taking it to 0 releases the state mutex |
| ReadSection.EnterThenExitRestores | src/player.c:53-73 | an entry followed by an exit restores the count and the mutex |
| ReadSection.ReadersHoldMutexIffActive | src/player.c:53-73 | from the initial state, any well-nested sequence of entries and exits never blocks; the count equals the readers inside; the state mutex is taken exactly while that count is positive |
| ReadSection.EnterReadSection | src/player.c:53-58 | the sync region's gate becomes EnterRead of the old one; the other semaphores are unchanged |
| ReadSection.ExitReadSection | src/player.c:68-73 | the gate becomes ExitRead of the old one; the other semaphores are unchanged |
| Player.FirstMatch | src/player.c:60-66 | -1 iff no slot below player_count has the pid; otherwise the lowest such slot |
| Player.FindPlayerId | src/player.c:49-76 | the lowest roster slot below player_count holding the pid, or -1 iff there is none; the read section leaves the gate and reader_count_mutex as they were and changes no other semaphore |
| Player.ChooseMove | src/player.c:81-109 | a code below 8; if some neighbour is free, it is a free neighbour holding the highest reward, and the lowest code among equal rewards; if none is free, 0 |
| Player.FreeTargetIsCellFree | src/player.c:93-100 | the player's inline test on its snapshot is exactly Utils.IsCellFree on the state it copied |
| Player.ReadSnapshot | src/player.c:142-170 | copies the finished flag, the player's record, blocked flag, the dimensions and the first width*height board cells; the gate and reader_count_mutex are restored and no other semaphore changes |
| Player.PlayerTurn | src/player.c:172-185 | quits iff finished or blocked; otherwise sends the greedy choice on the snapshot; the gate and reader_count_mutex are restored and no other semaphore changes, so turns can follow one another |
| ProxyPlayer.ProxyTurn | src/ProxyPlayer.c:117-162 | quits iff finished or blocked; otherwise sends the child's status as an unsigned char; the gate and reader_count_mutex are restored and no other semaphore changes |
| Master.FillPlayerPaths | src/master.c:146-148 | the player-path slots the loop leaves, as written (see PlayerPathsAsWritten) |
| Master.PathsAsWrittenFillHalf | src/master.c:146-148 | when count = argc - optind + 1, slot i is assigned iff i <= count / 2 |
| Master.PathsAsWrittenLeaveLastSlotUnset | src/master.c:146-148 | with three or more player paths, the last slot is never assigned |
| Master.FillPlayerPathsIntended | src/master.c:140-144 | the earlier loop assigns optarg to slot 0 and each later path to its own slot, so every slot is filled |
| Master.ParseArguments | src/master.c:78-161 | the outcome of folding the getopt options over the defaults, then the at-least-one-player check |
| Master.ParsedConfigIsValid | src/master.c:95-160 | a successful parse has width, height >= 10, delay in 0..5000, timeout in 1..3600, 1..9 players and one path slot per player |
| Master.ApplyOptionAccepts | src/master.c:94-153 | one option fails iff it does not pass its own check, with that option's error; `-p` sets found and a count >= 1, other options keep the count |
| Master.AllAcceptedOutcome | src/master.c:156-160 | when every option passes, parsing succeeds iff some `-p` was seen, and fails otherwise with NoPlayers |
| Master.FirstRejectionDecides | src/master.c:94-153 | the first option that fails its check decides the error |
| Master.FirstRejected | src/master.c:93 | getopt's order singles out a first failing option when one exists |
| Master.ParseSucceedsIff | src/master.c:78-161 | parsing succeeds iff every option passes its check and one is `-p`; otherwise the first failing option's error, or NoPlayers |
| Master.OnlyPlayersKeepsDefaults | src/master.c:81-88 | with only `-p` the board is 10x10, the delay 200 ms and the timeout 10 s; the seed is the clock and there is no view |
| Master.InitializeSharedMemory | src/master.c:163-202 | fresh regions whose board has width*height cells; the header holds the dimensions as unsigned short, the player count and not-finished; view semaphores 0, master_access, state_mutex and reader_count_mutex 1, reader count 0, all nine move gates 1, and the read-section gate idle |

## Left out

- Processes, pipes, `fork`/`execl`/`waitpid`, signals and the master's
  `main` loop are not modelled. `create_processes` and the master's move
  handling are not part of this model.
- Shared-memory creation and mapping are left out: `shm_open`, `ftruncate`,
  `mmap`, `connect_shared_memory`, `cleanup_shared_memory` and `error_exit`.
  New regions are constructor calls.
- Semaphores are counts in a sequential model. Blocking, fairness,
  `master_access` and the writer side are not modelled. The wait on
  `player_can_move[id]` at the top of each turn is left out.
- Player.PlayerTurn: omits the `sleep(3)` of player 0, a timing effect.
- Player.PlayerTurn and ProxyPlayer.ProxyTurn stop at the decision. They do not
  model the `write` of the move byte or the loop exit on a failed write,
  because that is I/O.
- ProxyPlayer.ProxyTurn: the child's wait status is a parameter. Spawning
  `/bin/true` is process I/O.
- The view programs (`view.c`, `view-ncurses.c`) are rendering. The winner
  loops inline in them follow `find_winner`, which `Ranking.FindWinner`
  models. `v0code/test_simple.c` is not part of this model.
- The usage printers and the program-argument checks in each `main` are
  left out.
- Master.ParseArguments: `atoi` overflow is undefined behaviour in C. The model
  reads an unbounded decimal value.
- Master.ParseArguments: the `optind` advance inside the path loop is not
  passed back to getopt. getopt's later results are given as input.
- Master.InitializeSharedMemory: requires the configuration a successful parse
  produces.
- Utils.GetBoardCell, Utils.SetBoardCell and Player.ChooseMove: the C index
  `y * width + x` (`src/utils.c:17`, `src/utils.c:24`, `src/player.c:98`) is an
  `int`, and the model computes it unbounded. It can overflow only when
  `width * height` exceeds 2^31 cells, for example 50000 x 50000. Such a board
  is a region over 8 GiB, which the model does not consider.

## Findings

| source | as written | input that shows it | evidently intended | confidence | as-written member | corrected member |
|---|---|---|---|---|---|---|
| src/master.c:146-148 | the guard `optind - 1 + i < argc` also counts the `optind++` of each iteration, so it advances twice per slot | `master -p a b c`: count is 3, only slots 0 and 1 are assigned, `player_paths[2]` is left uninitialised | every slot gets the path at its position, as in the commented-out loop at 140-144 | not executed | Master.PathsAsWrittenLeaveLastSlotUnset | Master.FillPlayerPathsIntended |
