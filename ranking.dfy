/**
 * Winner selection over the final roster: highest score, then fewest valid
 * moves, then fewest invalid moves, with every replacement test strict.
 */
module Ranking {
  import opened Common

  /** What a player is ranked by. */
  datatype RankKey = RankKey(score: int, validMoves: int, invalidMoves: int)

  function KeyOf(p: PlayerRecord): RankKey {
    RankKey(p.score, p.validMoves, p.invalidMoves)
  }

  /** The running best before any player is seen. */
  const SENTINEL: RankKey := RankKey(0, UINT32_MAX, UINT32_MAX)

  /** `a` ranks strictly above `b`. */
  predicate Outranks(a: RankKey, b: RankKey) {
    a.score > b.score ||
    (a.score == b.score && a.validMoves < b.validMoves) ||
    (a.score == b.score && a.validMoves == b.validMoves && a.invalidMoves < b.invalidMoves)
  }

  /** Outranks is a strict total order on keys. */
  lemma OutranksIsStrictTotalOrder(a: RankKey, b: RankKey, c: RankKey)
    ensures !Outranks(a, a)
    ensures Outranks(a, b) && Outranks(b, c) ==> Outranks(a, c)
    ensures a != b ==> Outranks(a, b) || Outranks(b, a)
  {
  }

  /** With 32-bit counters no player ranks below the initial running best. */
  lemma SentinelIsBottom(p: PlayerRecord)
    ensures KeyOf(p) == SENTINEL || Outranks(KeyOf(p), SENTINEL)
  {
  }

  /**
   * `w` is the winner among the first `count` players: no player outranks it,
   * and it strictly outranks every player before it, so among exact ties the
   * lowest index wins.
   */
  ghost predicate IsRankWinner(players: seq<PlayerRecord>, count: int, w: int)
    requires 0 <= count <= |players|
  {
    0 <= w < count &&
    (forall j :: 0 <= j < count ==> !Outranks(KeyOf(players[j]), KeyOf(players[w]))) &&
    (forall j :: 0 <= j < w ==> Outranks(KeyOf(players[w]), KeyOf(players[j])))
  }

  /** At most one index is the winner. */
  lemma RankWinnerUnique(players: seq<PlayerRecord>, count: int, w1: int, w2: int)
    requires 0 <= count <= |players|
    requires IsRankWinner(players, count, w1) && IsRankWinner(players, count, w2)
    ensures w1 == w2
  {
    assert !Outranks(KeyOf(players[w2]), KeyOf(players[w1]));
    assert !Outranks(KeyOf(players[w1]), KeyOf(players[w2]));
  }

  /**
   * `find_winner`: -1 for no state or no players; otherwise the ranking
   * winner, which ranks above the sentinel, or -1 exactly when every player
   * still has the sentinel key.
   */
  method FindWinner(state: GameState?) returns (winner: int)
    requires state != null ==> state.Valid()
    ensures state == null || state.playerCount == 0 ==> winner == -1
    ensures winner == -1 || (state != null && 0 <= winner < state.playerCount as int)
    ensures winner >= 0 ==> IsRankWinner(state.players, state.playerCount as int, winner)
    ensures winner >= 0 ==> Outranks(KeyOf(state.players[winner]), SENTINEL)
    ensures state != null ==>
      (winner == -1 <==> forall j :: 0 <= j < state.playerCount as int ==> KeyOf(state.players[j]) == SENTINEL)
  {
    if state == null || state.playerCount == 0 {
      return -1;
    }
    winner := -1;
    var maxScore: uint32 := 0;
    var minValidMoves: uint32 := UINT32_MAX;
    var minInvalidMoves: uint32 := UINT32_MAX;
    var players, count := state.players, state.playerCount as int;
    var i := 0;
    while i < count
      invariant 0 <= i <= count
      invariant winner == -1 ==>
        RankKey(maxScore, minValidMoves, minInvalidMoves) == SENTINEL &&
        forall j :: 0 <= j < i ==> KeyOf(players[j]) == SENTINEL
      invariant winner >= 0 ==>
        winner < i && RankKey(maxScore, minValidMoves, minInvalidMoves) == KeyOf(players[winner]) &&
        Outranks(KeyOf(players[winner]), SENTINEL) &&
        (forall j :: 0 <= j < i ==> !Outranks(KeyOf(players[j]), KeyOf(players[winner]))) &&
        (forall j :: 0 <= j < winner ==> Outranks(KeyOf(players[winner]), KeyOf(players[j])))
    {
      var p := players[i];
      if p.score > maxScore ||
         (p.score == maxScore && p.validMoves < minValidMoves) ||
         (p.score == maxScore && p.validMoves == minValidMoves && p.invalidMoves < minInvalidMoves)
      {
        if winner >= 0 {
          OutranksIsStrictTotalOrder(KeyOf(p), KeyOf(players[winner]), SENTINEL);
        }
        winner := i;
        maxScore := p.score;
        minValidMoves := p.validMoves;
        minInvalidMoves := p.invalidMoves;
      } else {
        SentinelIsBottom(p);
      }
      i := i + 1;
    }
  }

  /**
   * The example ranking: scores 10, 10, 8 with 5 and 3 valid moves for the
   * first two; the second player wins on fewer valid moves.
   */
  lemma FewerValidMovesBreakScoreTie(players: seq<PlayerRecord>)
    requires |players| == MAX_PLAYERS
    requires players[0].score == 10 && players[0].validMoves == 5
    requires players[1].score == 10 && players[1].validMoves == 3
    requires players[2].score == 8
    ensures IsRankWinner(players, 3, 1)
  {
  }

  /**
   * An exact tie on all three keys still has a winner: the lowest index among
   * the tied players.
   */
  lemma ExactTieGoesToLowestIndex(players: seq<PlayerRecord>, count: int)
    requires 0 < count <= |players|
    requires KeyOf(players[0]) != SENTINEL
    requires forall j :: 0 <= j < count ==> KeyOf(players[j]) == KeyOf(players[0])
    ensures IsRankWinner(players, count, 0)
  {
  }
}
