/**
 * The score table the page draws from a board: a header row, one row per
 * throw up to the longest history, and a totals row. Only the grid's shape
 * and contents are modelled; each cell records what its text shows.
 */
module MolkkyTable {
  import opened MolkkyRules

  /** The text of the header row's first cell. */
  const ThrowHeader: string := "Throw #"

  datatype Cell =
    | ThrowLabel(number: nat)                 // the row's label, "<number>投目"
    | Points(value: int)                      // a recorded throw
    | NoThrow                                 // "-": the player has no throw in this row
    | TotalsLabel                             // "合計", the label of the last row
    | TotalCell(value: int, highlighted: bool) // a player's total, highlighted at 50

  /** The header row's texts, then the body rows, the totals row last. */
  datatype Table = Table(header: seq<string>, body: seq<seq<Cell>>)

  /** `m` is the length of the longest history, or 0 when there is none. */
  predicate IsMaxThrows(players: seq<Player>, m: nat) {
    && (forall j :: 0 <= j < |players| ==> |players[j].scores| <= m)
    && (m == 0 || exists j :: 0 <= j < |players| && |players[j].scores| == m)
  }

  /** What player `p`'s column shows in throw row `i`. */
  function ScoreCell(p: Player, i: nat): (c: Cell)
    ensures c == NoThrow <==> i >= |p.scores|
  {
    if i < |p.scores| then Points(p.scores[i]) else NoThrow
  }

  /** The number of throw rows: the length of the longest history. */
  method MaxThrows(players: seq<Player>) returns (m: nat)
    ensures IsMaxThrows(players, m)
  {
    m := 0;
    for j := 0 to |players|
      invariant IsMaxThrows(players[..j], m)
    {
      if |players[j].scores| > m {
        m := |players[j].scores|;
      }
    }
    assert players[..|players|] == players;
  }

  /** Lays the board's players out as the score table. */
  method RenderTable(players: seq<Player>) returns (t: Table)
    ensures |t.header| == |players| + 1 && t.header[0] == ThrowHeader
    ensures forall j :: 0 <= j < |players| ==> t.header[j + 1] == players[j].name
    ensures |t.body| >= 1 && IsMaxThrows(players, |t.body| - 1)
    ensures forall i :: 0 <= i < |t.body| ==> |t.body[i]| == |players| + 1
    ensures forall i :: 0 <= i < |t.body| - 1 ==> t.body[i][0] == ThrowLabel(i + 1)
    ensures forall i, j :: 0 <= i < |t.body| - 1 && 0 <= j < |players| ==>
              t.body[i][j + 1] == ScoreCell(players[j], i)
    ensures t.body[|t.body| - 1][0] == TotalsLabel
    ensures forall j :: 0 <= j < |players| ==>
              t.body[|t.body| - 1][j + 1] == TotalCell(players[j].total, players[j].total == WinningTotal)
  {
    var header := [ThrowHeader];
    for j := 0 to |players|
      invariant |header| == j + 1 && header[0] == ThrowHeader
      invariant forall k :: 1 <= k <= j ==> header[k] == players[k - 1].name
    {
      header := header + [players[j].name];
    }

    var maxThrows := MaxThrows(players);
    var body: seq<seq<Cell>> := [];
    for i := 0 to maxThrows
      invariant |body| == i
      invariant forall r :: 0 <= r < i ==> |body[r]| == |players| + 1 && body[r][0] == ThrowLabel(r + 1)
      invariant forall r, k :: 0 <= r < i && 1 <= k <= |players| ==> body[r][k] == ScoreCell(players[k - 1], r)
    {
      var row := [ThrowLabel(i + 1)];
      for j := 0 to |players|
        invariant |row| == j + 1 && row[0] == ThrowLabel(i + 1)
        invariant forall k :: 1 <= k <= j ==> row[k] == ScoreCell(players[k - 1], i)
      {
        row := row + [ScoreCell(players[j], i)];
      }
      body := body + [row];
    }

    var totals := [TotalsLabel];
    for j := 0 to |players|
      invariant |totals| == j + 1 && totals[0] == TotalsLabel
      invariant forall k :: 1 <= k <= j ==>
                  totals[k] == TotalCell(players[k - 1].total, players[k - 1].total == WinningTotal)
    {
      var total := players[j].total;
      totals := totals + [TotalCell(total, total == WinningTotal)];
    }
    body := body + [totals];
    t := Table(header, body);
  }

  /** The longest history has one length: IsMaxThrows pins down the row count. */
  lemma MaxThrowsUnique(players: seq<Player>, m1: nat, m2: nat)
    requires IsMaxThrows(players, m1) && IsMaxThrows(players, m2)
    ensures m1 == m2
  {
  }

  /**
   * On a board in turn order the table has as many throw rows as the first
   * player has throws; every throw row but the last is full, and in the
   * last one exactly the players before the current one have a throw (all
   * of them when the round is complete).
   */
  lemma FairRows(b: Board)
    requires TurnOrder(b)
    ensures IsMaxThrows(b.players, |b.players[0].scores|)
    ensures forall i, j :: 0 <= i < |b.players[0].scores| - 1 && 0 <= j < |b.players| ==>
              ScoreCell(b.players[j], i) != NoThrow
    ensures |b.players[0].scores| > 0 ==>
              forall j :: 0 <= j < |b.players| ==>
                (ScoreCell(b.players[j], |b.players[0].scores| - 1) == NoThrow <==> 0 < CurrentPlayer(b) <= j)
  {
    FairHistories(b);
  }
}
