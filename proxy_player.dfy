/**
 * The proxy player program: it finds its roster slot like the greedy player,
 * runs one child process before the loop, and sends the low byte of that
 * child's wait status as its move on every turn.
 */
module ProxyPlayer {
  import opened Common
  import opened ReadSection
  import Player

  /**
   * One pass of the proxy's main loop: it quits before writing anything when
   * the snapshot says finished or blocked, and otherwise sends `status`
   * converted to an unsigned char.
   */
  method ProxyTurn(state: GameState, sync: GameSync, playerId: nat, status: int) returns (action: Player.TurnAction)
    requires state.Valid() && playerId < MAX_PLAYERS
    requires sync.readerCountMutex > 0 && EnterRead(Gate(sync)).Some?
    modifies sync
    ensures action.Quit? <==> state.finished || state.players[playerId].blocked
    ensures action.SendMove? ==> action.move == status % 0x100
    ensures Gate(sync) == old(Gate(sync))
    ensures sync.readerCountMutex == old(sync.readerCountMutex)
    ensures sync.viewNotify == old(sync.viewNotify) && sync.viewDone == old(sync.viewDone)
    ensures sync.masterAccess == old(sync.masterAccess) && sync.playerCanMove == old(sync.playerCanMove)
  {
    var snap := Player.ReadSnapshot(state, sync, playerId);
    var move: uint8 := 0;
    if !snap.finished && !snap.blocked {
      move := status % 0x100;
    }
    if snap.finished || snap.blocked {
      return Player.Quit;
    }
    action := Player.SendMove(move);
  }
}
