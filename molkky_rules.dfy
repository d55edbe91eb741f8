/**
 * The scoring rules of the Mölkky scoreboard, stated on values.
 *
 * A board is an ordered, fixed list of players (the order is the turn
 * order) and a throw counter. Each throw is appended to the history of the
 * player whose turn it is and added to that player's total; a total that
 * goes over 50 falls back to exactly 25, and a total of exactly 50 wins.
 * The class in molkky_scoreboard.dfy updates a board in place and is
 * proved against the functions here.
 */
module MolkkyRules {

  /** The total that wins the game. */
  const WinningTotal: int := 50
  /** The total a player falls back to after going over WinningTotal. */
  const OvershootTotal: int := 25
  /** The skittles are numbered 1 to 12; a button adds one skittle's number. */
  const MinSkittle: int := 1
  const MaxSkittle: int := 12

  datatype Player = Player(name: string, total: int, scores: seq<int>)

  /** `turnIndex` counts the throws made since the last reset. */
  datatype Board = Board(players: seq<Player>, turnIndex: nat)

  predicate IsSkittle(points: int) {
    MinSkittle <= points <= MaxSkittle
  }

  predicate AllSkittles(scores: seq<int>) {
    forall k :: 0 <= k < |scores| ==> IsSkittle(scores[k])
  }

  /** The player's total after a throw worth `points`: the overshoot rule. */
  function AfterThrow(total: int, points: int): (r: int)
    ensures r <= WinningTotal
    ensures total + points <= WinningTotal ==> r == total + points
    ensures total + points > WinningTotal ==> r == OvershootTotal
    ensures r == WinningTotal <==> total + points == WinningTotal
    ensures 0 <= total && 0 <= points ==> 0 <= r
  {
    var sum := total + points;
    if sum > WinningTotal then OvershootTotal else sum
  }

  /**
   * The total that a history of throws produces from zero: the left fold
   * of the overshoot rule over `scores`.
   */
  function ReplayTotal(scores: seq<int>): (r: int)
    ensures r <= WinningTotal
    ensures (forall k :: 0 <= k < |scores| ==> 0 <= scores[k]) ==> 0 <= r
  {
    if scores == [] then 0
    else AfterThrow(ReplayTotal(scores[..|scores| - 1]), scores[|scores| - 1])
  }

  /** The number of throws recorded on the board, over all players. */
  function TotalThrows(players: seq<Player>): nat
  {
    if players == [] then 0 else |players[0].scores| + TotalThrows(players[1..])
  }

  /** A player record is what its own history of skittle throws produces. */
  predicate PlayerConsistent(p: Player) {
    AllSkittles(p.scores) && p.total == ReplayTotal(p.scores)
  }

  /**
   * The board invariant: every total is the replay of its history, and the
   * throw counter is the number of throws recorded.
   */
  predicate Consistent(b: Board) {
    && (forall j :: 0 <= j < |b.players| ==> PlayerConsistent(b.players[j]))
    && b.turnIndex == TotalThrows(b.players)
  }

  /** How many of the first `t` throws fell to player `j` when `n` players take turns. */
  function TurnsOf(j: nat, t: nat, n: nat): nat
    requires n > 0
  {
    if t == 0 then 0 else TurnsOf(j, t - 1, n) + (if (t - 1) % n == j then 1 else 0)
  }

  /**
   * The turn-order invariant: the board has players, and each of them has
   * thrown exactly once per turn the throw counter has given them.
   */
  predicate TurnOrder(b: Board) {
    && |b.players| > 0
    && forall j :: 0 <= j < |b.players| ==> |b.players[j].scores| == TurnsOf(j, b.turnIndex, |b.players|)
  }

  /** Index of the player whose turn it is. */
  function CurrentPlayer(b: Board): (i: nat)
    requires |b.players| > 0
    ensures i < |b.players|
  {
    b.turnIndex % |b.players|
  }

  /** The board after the current player throws `points`. */
  function Throw(b: Board, points: int): (r: Board)
    requires |b.players| > 0
    ensures |r.players| == |b.players| && r.turnIndex == b.turnIndex + 1
    ensures forall j :: 0 <= j < |b.players| ==> r.players[j].name == b.players[j].name
    ensures forall j :: 0 <= j < |b.players| && j != CurrentPlayer(b) ==> r.players[j] == b.players[j]
    ensures r.players[CurrentPlayer(b)].scores == b.players[CurrentPlayer(b)].scores + [points]
    ensures r.players[CurrentPlayer(b)].total == AfterThrow(b.players[CurrentPlayer(b)].total, points)
  {
    var i := CurrentPlayer(b);
    var p := b.players[i];
    Board(b.players[i := Player(p.name, AfterThrow(p.total, points), p.scores + [points])], b.turnIndex + 1)
  }

  /**
   * Whether a throw wins: the thrower's total after the overshoot rule is
   * exactly WinningTotal. An overshoot never wins, so this happens exactly
   * when the throw lands the old total on WinningTotal.
   */
  function ThrowWins(b: Board, points: int): (w: bool)
    requires |b.players| > 0
    ensures w <==> b.players[CurrentPlayer(b)].total + points == WinningTotal
  {
    Throw(b, points).players[CurrentPlayer(b)].total == WinningTotal
  }

  /** The board after a reset: same players in the same order, nothing thrown. */
  function Reset(b: Board): (r: Board)
    ensures |r.players| == |b.players| && r.turnIndex == 0
    ensures forall j :: 0 <= j < |b.players| ==> r.players[j] == Player(b.players[j].name, 0, [])
  {
    Board(seq(|b.players|, j requires 0 <= j < |b.players| => Player(b.players[j].name, 0, [])), 0)
  }

  /** The board a fresh page starts with: four players, nothing thrown. */
  function InitialBoard(): (b: Board)
  {
    Board([Player("プレイヤー1", 0, []), Player("プレイヤー2", 0, []),
           Player("プレイヤー3", 0, []), Player("プレイヤー4", 0, [])], 0)
  }

  /** The board after the throws `throws`, made one after the other. */
  function Play(b: Board, throws: seq<int>): (r: Board)
    requires |b.players| > 0
    ensures |r.players| == |b.players| && r.turnIndex == b.turnIndex + |throws|
    ensures forall j :: 0 <= j < |b.players| ==> r.players[j].name == b.players[j].name
  {
    if throws == [] then b
    else Throw(Play(b, throws[..|throws| - 1]), throws[|throws| - 1])
  }

  // ---------------------------------------------------------------------
  // The invariant holds initially and is kept by every operation.
  // ---------------------------------------------------------------------

  lemma {:induction false} TotalThrowsUpdate(players: seq<Player>, i: nat, p: Player)
    requires i < |players|
    ensures TotalThrows(players[i := p]) == TotalThrows(players) - |players[i].scores| + |p.scores|
  {
    if i == 0 {
      assert players[i := p][1..] == players[1..];
    } else {
      assert players[i := p][1..] == players[1..][i - 1 := p];
      TotalThrowsUpdate(players[1..], i - 1, p);
    }
  }

  lemma {:induction false} TotalThrowsNone(players: seq<Player>)
    requires forall j :: 0 <= j < |players| ==> players[j].scores == []
    ensures TotalThrows(players) == 0
  {
    if players != [] {
      TotalThrowsNone(players[1..]);
    }
  }

  lemma InitialConsistent()
    ensures Consistent(InitialBoard()) && TurnOrder(InitialBoard())
  {
    TotalThrowsNone(InitialBoard().players);
  }

  /** A skittle throw keeps the invariant. */
  lemma ThrowConsistent(b: Board, points: int)
    requires |b.players| > 0 && Consistent(b) && IsSkittle(points)
    ensures Consistent(Throw(b, points))
  {
    var i := CurrentPlayer(b);
    var p := b.players[i];
    var q := Throw(b, points).players[i];
    assert q.scores[..|q.scores| - 1] == p.scores;
    TotalThrowsUpdate(b.players, i, q);
  }

  /** A throw, whatever its value, keeps the turn order. */
  lemma ThrowTurnOrder(b: Board, points: int)
    requires TurnOrder(b)
    ensures TurnOrder(Throw(b, points))
  {
  }

  lemma ResetTurnOrder(b: Board)
    requires |b.players| > 0
    ensures TurnOrder(Reset(b))
  {
  }

  lemma ResetConsistent(b: Board)
    ensures Consistent(Reset(b))
  {
    TotalThrowsNone(Reset(b).players);
  }

  /** Whatever skittles are thrown, the invariant survives the whole sequence. */
  lemma {:induction false} PlayConsistent(b: Board, throws: seq<int>)
    requires |b.players| > 0 && Consistent(b) && AllSkittles(throws)
    ensures Consistent(Play(b, throws))
  {
    if throws != [] {
      PlayConsistent(b, throws[..|throws| - 1]);
      ThrowConsistent(Play(b, throws[..|throws| - 1]), throws[|throws| - 1]);
    }
  }

  // ---------------------------------------------------------------------
  // What the invariant gives.
  // ---------------------------------------------------------------------

  /** On a consistent board every total lies between 0 and 50. */
  lemma TotalsInRange(b: Board)
    requires Consistent(b)
    ensures forall j :: 0 <= j < |b.players| ==> 0 <= b.players[j].total <= WinningTotal
  {
    forall j | 0 <= j < |b.players|
      ensures 0 <= b.players[j].total
    {
      var s := b.players[j].scores;
      assert forall k :: 0 <= k < |s| ==> 0 <= s[k] by {
        assert AllSkittles(s);
      }
    }
  }

  /**
   * From a reset board, after any sequence of skittle throws, the throw
   * counter equals the number of throws, the current player is the counter
   * modulo the player count, and every total lies between 0 and 50.
   */
  lemma GameFromReset(b: Board, throws: seq<int>)
    requires |b.players| > 0 && AllSkittles(throws)
    ensures Play(Reset(b), throws).turnIndex == |throws|
    ensures CurrentPlayer(Play(Reset(b), throws)) == |throws| % |b.players|
    ensures forall j :: 0 <= j < |b.players| ==>
              0 <= Play(Reset(b), throws).players[j].total <= WinningTotal
  {
    ResetConsistent(b);
    PlayConsistent(Reset(b), throws);
    TotalsInRange(Play(Reset(b), throws));
  }

  /**
   * Turns are shared fairly: the players before the current one in the
   * round have thrown once more than the others; when the round is complete
   * (the current player is the first), all have thrown equally often.
   */
  lemma {:induction false} TurnsFair(j: nat, t: nat, n: nat)
    requires j < n
    ensures TurnsOf(j, t, n) + (if 0 < t % n <= j then 1 else 0) == TurnsOf(0, t, n)
  {
    if t > 0 {
      TurnsFair(j, t - 1, n);
      var r := (t - 1) % n;
      NextTurn(t - 1, n);
      if r + 1 < n {
        ModOf(r + 1, 0, r + 1, n);
      } else {
        ModOf(r + 1, 1, 0, n);
      }
    }
  }

  /** On a board in turn order, histories differ in length by at most one. */
  lemma FairHistories(b: Board)
    requires TurnOrder(b)
    ensures forall j :: 0 <= j < |b.players| ==>
              |b.players[j].scores| + (if 0 < CurrentPlayer(b) <= j then 1 else 0) == |b.players[0].scores|
  {
    forall j | 0 <= j < |b.players|
      ensures |b.players[j].scores| + (if 0 < CurrentPlayer(b) <= j then 1 else 0) == |b.players[0].scores|
    {
      TurnsFair(j, b.turnIndex, |b.players|);
    }
  }

  /** Resetting twice leaves the same board as resetting once. */
  lemma ResetIdempotent(b: Board)
    ensures Reset(Reset(b)) == Reset(b)
  {
  }

  /** A win does not end the game: the next throw goes to the next player. */
  lemma WinDoesNotReset(b: Board, points: int)
    requires |b.players| > 0 && ThrowWins(b, points)
    ensures Throw(b, points).players[CurrentPlayer(b)].total == WinningTotal
    ensures Throw(b, points).turnIndex == b.turnIndex + 1
    ensures CurrentPlayer(Throw(b, points)) == (CurrentPlayer(b) + 1) % |b.players|
  {
    NextTurn(b.turnIndex, |b.players|);
  }

  /** Two players A and B, nothing thrown yet. */
  function TwoPlayers(): Board {
    Board([Player("A", 0, []), Player("B", 0, [])], 0)
  }

  /** The board after A throws 12 three times and B throws 1 three times, alternately. */
  function ThreeRounds(): Board {
    Throw(Throw(Throw(Throw(Throw(Throw(TwoPlayers(), 12), 1), 12), 1), 12), 1)
  }

  /**
   * A at 36 throws 20: the total would be 56, so it falls back to exactly
   * 25 (not capped at 50, not left at 36), and the throw does not win.
   */
  lemma OvershootScenario()
    ensures ThreeRounds().players[0].total == 36
    ensures Throw(ThreeRounds(), 20).players[0] == Player("A", 25, [12, 12, 12, 20])
    ensures !ThrowWins(ThreeRounds(), 20)
  {
    var b1 := Throw(TwoPlayers(), 12);
    assert b1.players[0] == Player("A", 12, [12]) && b1.players[1] == Player("B", 0, []);
    var b2 := Throw(b1, 1);
    assert b2.players[0] == Player("A", 12, [12]) && b2.players[1] == Player("B", 1, [1]);
    var b3 := Throw(b2, 12);
    assert b3.players[0] == Player("A", 24, [12, 12]) && b3.players[1] == Player("B", 1, [1]);
    var b4 := Throw(b3, 1);
    assert b4.players[0] == Player("A", 24, [12, 12]) && b4.players[1] == Player("B", 2, [1, 1]);
    var b5 := Throw(b4, 12);
    assert b5.players[0] == Player("A", 36, [12, 12, 12]) && b5.players[1] == Player("B", 2, [1, 1]);
    var b6 := Throw(b5, 1);
    assert b6.players[0] == Player("A", 36, [12, 12, 12]) && b6.players[1] == Player("B", 3, [1, 1, 1]);
    assert b6 == ThreeRounds();
  }

  /** A at 45 throws 5: exactly 50, which wins; the next throw is B's. */
  lemma WinScenario()
    ensures var b := Throw(Throw(ThreeRounds(), 9), 1);
            b.players[0].total == 45 && ThrowWins(b, 5) && CurrentPlayer(Throw(b, 5)) == 1
  {
    OvershootScenario();
  }

  /** Counting one more throw moves the turn on by one place, cyclically. */
  lemma NextTurn(t: nat, n: nat)
    requires n > 0
    ensures (t + 1) % n == (t % n + 1) % n
  {
    var q, r := t / n, t % n;
    assert t == q * n + r;
    if r + 1 < n {
      ModOf(t + 1, q, r + 1, n);
      ModOf(r + 1, 0, r + 1, n);
    } else {
      ModOf(t + 1, q + 1, 0, n);
      ModOf(r + 1, 1, 0, n);
    }
  }

  /** The remainder is determined by any decomposition x == q * n + r with 0 <= r < n. */
  lemma ModOf(x: int, q: int, r: int, n: int)
    requires n > 0 && 0 <= r < n && x == q * n + r
    ensures x % n == r
  {
    var d := q - x / n;
    assert d * n == x % n - r;
    if d >= 1 {
      MulAtLeast(d, n);
    } else if d <= -1 {
      MulAtLeast(-d, n);
    }
  }

  lemma MulAtLeast(d: int, n: int)
    requires d >= 1 && n > 0
    ensures d * n >= n
  {
    assert d * n == (d - 1) * n + n;
  }
}
