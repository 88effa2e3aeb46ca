/**
 * The reader side of the readers/writer protocol, taken sequentially: a
 * reader increments the shared reader count under `reader_count_mutex`, the
 * reader that takes the count from 0 to 1 takes `state_mutex` for all
 * readers, and the reader that takes it back to 0 releases it.
 */
module ReadSection {
  import opened Common
  import opened Wrappers

  /** The two values the read section changes: the reader count and the state mutex's count. */
  datatype ReaderGate = ReaderGate(readerCount: uint32, stateMutex: nat)

  /** No reader inside and the state mutex free: the values right after initialisation. */
  const IDLE: ReaderGate := ReaderGate(0, 1)

  /**
   * Entering a read section. The counter is an unsigned int, so the increment
   * wraps; the mutex is taken only by the reader that finds the count at 0.
   * None: that reader's wait on the state mutex would block (a writer holds it).
   */
  function EnterRead(g: ReaderGate): (r: Option<ReaderGate>)
    ensures r.None? <==> g.readerCount == 0 && g.stateMutex == 0
    ensures r.Some? ==> r.value.readerCount == (g.readerCount + 1) % 0x1_0000_0000
    ensures r.Some? ==> r.value.stateMutex == if g.readerCount == 0 then g.stateMutex - 1 else g.stateMutex
  {
    var count := (g.readerCount + 1) % 0x1_0000_0000;
    if count == 1 then
      if g.stateMutex == 0 then None else Some(ReaderGate(count, g.stateMutex - 1))
    else
      Some(ReaderGate(count, g.stateMutex))
  }

  /** Leaving a read section: the reader that brings the count back to 0 releases the state mutex. */
  function ExitRead(g: ReaderGate): (r: ReaderGate)
    ensures r.stateMutex == if g.readerCount == 1 then g.stateMutex + 1 else g.stateMutex
    ensures g.readerCount > 0 ==> r.readerCount == g.readerCount - 1
  {
    var count := (g.readerCount - 1) % 0x1_0000_0000;
    if count == 0 then ReaderGate(count, g.stateMutex + 1) else ReaderGate(count, g.stateMutex)
  }

  /** An enter followed by an exit restores both the count and the mutex. */
  lemma EnterThenExitRestores(g: ReaderGate)
    requires EnterRead(g).Some?
    ensures ExitRead(EnterRead(g).value) == g
  {
  }

  datatype ReadOp = Enter | Exit

  /** The number of readers inside after a sequence of enters and exits. */
  function Depth(ops: seq<ReadOp>): int {
    if ops == [] then 0
    else Depth(ops[..|ops| - 1]) + (if ops[|ops| - 1] == Enter then 1 else -1)
  }

  /** Every exit matches an earlier enter, and fewer than 2^32 readers are ever inside at once. */
  ghost predicate WellNested(ops: seq<ReadOp>) {
    forall k :: 0 <= k <= |ops| ==> 0 <= Depth(ops[..k]) < 0x1_0000_0000
  }

  /** The gate after running `ops` from IDLE; None if some enter would block. */
  function Replay(ops: seq<ReadOp>): Option<ReaderGate> {
    if ops == [] then Some(IDLE)
    else
      match Replay(ops[..|ops| - 1])
      case None => None
      case Some(g) => if ops[|ops| - 1] == Enter then EnterRead(g) else Some(ExitRead(g))
  }

  /**
   * Readers alone never block, the count is the number of readers inside, and
   * the readers hold the state mutex exactly while that count is positive.
   */
  lemma {:induction false} ReadersHoldMutexIffActive(ops: seq<ReadOp>)
    requires WellNested(ops)
    ensures Replay(ops).Some?
    ensures Replay(ops).value.readerCount == Depth(ops)
    ensures Replay(ops).value.stateMutex == (if Depth(ops) > 0 then 0 else 1)
  {
    if ops != [] {
      var front := ops[..|ops| - 1];
      assert WellNested(front) by {
        forall k | 0 <= k <= |front|
          ensures 0 <= Depth(front[..k]) < 0x1_0000_0000
        {
          assert front[..k] == ops[..k];
        }
      }
      assert ops[..|ops|] == ops;
      ReadersHoldMutexIffActive(front);
    }
  }

  /** The read-section part of the sync region. */
  function Gate(sync: GameSync): ReaderGate
    reads sync
  {
    ReaderGate(sync.readerCount, sync.stateMutex)
  }

  /**
   * The enter half of every read section: wait on reader_count_mutex, count
   * this reader, take the state mutex if it is the first, post the count mutex.
   */
  method EnterReadSection(sync: GameSync)
    requires sync.readerCountMutex > 0
    requires EnterRead(Gate(sync)).Some?
    modifies sync
    ensures Gate(sync) == EnterRead(old(Gate(sync))).value
    ensures sync.readerCountMutex == old(sync.readerCountMutex)
    ensures sync.viewNotify == old(sync.viewNotify) && sync.viewDone == old(sync.viewDone)
    ensures sync.masterAccess == old(sync.masterAccess) && sync.playerCanMove == old(sync.playerCanMove)
  {
    sync.readerCountMutex := sync.readerCountMutex - 1;
    sync.readerCount := (sync.readerCount + 1) % 0x1_0000_0000;
    if sync.readerCount == 1 {
      sync.stateMutex := sync.stateMutex - 1;
    }
    sync.readerCountMutex := sync.readerCountMutex + 1;
  }

  /**
   * The exit half: wait on reader_count_mutex, uncount this reader, release
   * the state mutex if it was the last, post the count mutex.
   */
  method ExitReadSection(sync: GameSync)
    requires sync.readerCountMutex > 0
    modifies sync
    ensures Gate(sync) == ExitRead(old(Gate(sync)))
    ensures sync.readerCountMutex == old(sync.readerCountMutex)
    ensures sync.viewNotify == old(sync.viewNotify) && sync.viewDone == old(sync.viewDone)
    ensures sync.masterAccess == old(sync.masterAccess) && sync.playerCanMove == old(sync.playerCanMove)
  {
    sync.readerCountMutex := sync.readerCountMutex - 1;
    sync.readerCount := (sync.readerCount - 1) % 0x1_0000_0000;
    if sync.readerCount == 0 {
      sync.stateMutex := sync.stateMutex + 1;
    }
    sync.readerCountMutex := sync.readerCountMutex + 1;
  }
}
