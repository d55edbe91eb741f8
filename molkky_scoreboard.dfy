/**
 * The page's one scoreboard, updated in place: a fixed array of player
 * records in turn order and the throw counter. Adding a score and resetting
 * the game are proved against Throw and Reset of MolkkyRules, and both keep
 * the board invariant (every total is the replay of its history, the
 * counter is the number of throws, and turns go round in order).
 */
module MolkkyScoreboard {
  import opened MolkkyRules
  import opened MolkkyTable

  class Scoreboard {
    /** The players in turn order; the list never grows or shrinks. */
    const players: array<Player>
    /** How many throws have been made since the last reset. */
    var turnIndex: nat

    /** The board as a value. */
    ghost function State(): Board
      reads this, players
    {
      Board(players[..], turnIndex)
    }

    ghost predicate Valid()
      reads this, players
    {
      players.Length > 0 && Consistent(State()) && TurnOrder(State())
    }

    /** The board a fresh page starts with. */
    constructor ()
      ensures Valid() && fresh(players)
      ensures State() == InitialBoard()
    {
      var initial := InitialBoard().players;
      players := new Player[|initial|](i requires 0 <= i < |initial| => initial[i]);
      turnIndex := 0;
      new;
      assert players[..] == InitialBoard().players;
      InitialConsistent();
    }

    /**
     * The current player throws `points`: the throw is appended to that
     * player's history, the total moves by the overshoot rule, the counter
     * advances, and `won` reports a total of exactly 50. The board is not
     * reset after a win.
     */
    method AddScore(points: int) returns (won: bool)
      requires Valid() && IsSkittle(points)
      modifies this, players
      ensures Valid()
      ensures State() == Throw(old(State()), points)
      ensures won == ThrowWins(old(State()), points)
    {
      var current := turnIndex % players.Length;
      var player := players[current];
      var total := player.total + points;
      if total > WinningTotal {
        total := OvershootTotal;
      }
      players[current] := Player(player.name, total, player.scores + [points]);
      won := total == WinningTotal;
      turnIndex := turnIndex + 1;
      ThrowConsistent(old(State()), points);
      ThrowTurnOrder(old(State()), points);
    }

    /** Clears every total and history and the counter; names and order stay. */
    method ResetGame()
      requires Valid()
      modifies this, players
      ensures Valid()
      ensures State() == Reset(old(State()))
    {
      for i := 0 to players.Length
        invariant forall k :: 0 <= k < i ==> players[k] == Player(old(players[k]).name, 0, [])
        invariant forall k :: i <= k < players.Length ==> players[k] == old(players[k])
      {
        players[i] := Player(players[i].name, 0, []);
      }
      turnIndex := 0;
      assert players[..] == Reset(old(State())).players;
      ResetConsistent(old(State()));
      ResetTurnOrder(old(State()));
    }

    /** Draws the current board; reading it changes nothing. */
    method Render() returns (t: Table)
      requires Valid()
      ensures |t.header| == players.Length + 1 && t.header[0] == ThrowHeader
      ensures forall j :: 0 <= j < players.Length ==> t.header[j + 1] == players[j].name
      ensures |t.body| == |players[0].scores| + 1 && IsMaxThrows(players[..], |t.body| - 1)
      ensures forall i :: 0 <= i < |t.body| ==> |t.body[i]| == players.Length + 1
      ensures forall i :: 0 <= i < |t.body| - 1 ==> t.body[i][0] == ThrowLabel(i + 1)
      ensures forall i, j :: 0 <= i < |t.body| - 1 && 0 <= j < players.Length ==>
                t.body[i][j + 1] == ScoreCell(players[j], i)
      ensures t.body[|t.body| - 1][0] == TotalsLabel
      ensures forall j :: 0 <= j < players.Length ==>
                t.body[|t.body| - 1][j + 1] == TotalCell(players[j].total, players[j].total == WinningTotal)
    {
      t := RenderTable(players[..]);
      FairRows(State());
      MaxThrowsUnique(players[..], |t.body| - 1, |players[0].scores|);
    }
  }
}
