# Mölkky scoreboard

A Dafny model of the scoring core of the single-page Mölkky scoreboard
(`docs/app.js`). The page keeps one board: a fixed list of players in turn
order, each with a name, a running total and the history of their throws,
plus a counter of the throws made since the last reset. Clicking a skittle
button (1 to 12) adds that many points for the player whose turn it is:
the throw is appended to the player's history and added to the total; a
total over 50 falls back to exactly 25, and a total of exactly 50 is
announced as a win, after which play may go on. Resetting clears every
total and history and the counter. After each change the page redraws a
table: a header with one column per player, one row per throw up to the
longest history (with "-" where a player has no throw yet) and a totals
row in which a 50 is highlighted.

The model has three modules:

- `MolkkyRules` (`molkky_rules.dfy`): the board as a value (`Player`,
  `Board`), the overshoot rule `AfterThrow`, one throw `Throw`, the win
  test `ThrowWins`, `Reset`, the page's initial board, a sequence of throws
  `Play`, and the invariants with their proofs. `Consistent` says that each
  total is the left fold of the overshoot rule over its history (starting
  from 0), that every recorded throw is a skittle value, and that the
  counter equals the number of recorded throws. `TurnOrder` says that each
  player has thrown exactly once per turn the counter has given them
  (player `turnIndex % n` throws next).
- `MolkkyTable` (`molkky_table.dfy`): the table layout. `MaxThrows` is the
  accumulator loop for the longest history; `RenderTable` builds the header,
  the throw rows and the totals row with nested loops. Cells record what
  their text shows (`Points`, `NoThrow` for "-", a `TotalCell` with its
  highlight flag).
- `MolkkyScoreboard` (`molkky_scoreboard.dfy`): the class `Scoreboard`, the
  board updated in place (an array of player records and the counter).
  `AddScore` and `ResetGame` are proved to produce `Throw` and `Reset` of the
  old board and to keep both invariants; `Render` draws the current board.

## Model

| member | source | states |
|---|---|---|
| MolkkyRules.AfterThrow | docs/app.js:97-103 | The new total never exceeds 50; it is the plain sum when that is at most 50 and exactly 25 when the sum goes over 50 (not capped, not left unchanged); it is 50 exactly when old total plus points is 50; non-negative inputs give a non-negative total. |
| MolkkyRules.ReplayTotal | docs/app.js:95-103 | A total rebuilt from zero by replaying a history never exceeds 50, and is non-negative when every throw is. |
| MolkkyRules.CurrentPlayer | docs/app.js:91-92 | The player whose turn it is, `turnIndex % players.length`, is a valid index. |
| MolkkyRules.Throw | docs/app.js:90-111 | A throw appends the points to the history of exactly the current player, moves that player's total by the overshoot rule, leaves every other player unchanged, keeps count, names and order, and advances the counter by exactly one. |
| MolkkyRules.ThrowWins | docs/app.js:105-108 | The win signal fires iff the post-rule total is 50, which is iff old total plus points is exactly 50: an overshoot never wins. |
| MolkkyRules.Reset | docs/app.js:195-201 | Every total is 0, every history empty and the counter 0; player count, names and order are kept. |
| MolkkyRules.InitialConsistent | docs/app.js:10-18 | The page's initial board (four players, nothing thrown) satisfies both invariants. |
| MolkkyRules.ThrowConsistent | docs/app.js:90-111 | A skittle throw keeps the invariant: each total is the replay of its history and the counter is the number of recorded throws. |
| MolkkyRules.ThrowTurnOrder | docs/app.js:91-111 | A throw keeps the turn order: each player has thrown once per turn given to them. |
| MolkkyRules.ResetConsistent | docs/app.js:195-201 | A reset board satisfies the replay/count invariant, whatever the board before. |
| MolkkyRules.ResetTurnOrder | docs/app.js:195-201 | A reset board with players satisfies the turn order. |
| MolkkyRules.Play | docs/app.js:90-111 | After N throws the counter has advanced by N, and the player count and names are unchanged. |
| MolkkyRules.PlayConsistent | docs/app.js:90-111 | Any sequence of skittle throws from a consistent board leaves it consistent. |
| MolkkyRules.TotalsInRange | docs/app.js:98-103 | On a consistent board every total lies between 0 and 50. |
| MolkkyRules.GameFromReset | docs/app.js:90-111 | From a reset board, after any N skittle throws the counter is N, the current player is N modulo the player count, and every total lies between 0 and 50. |
| MolkkyRules.ResetIdempotent | docs/app.js:195-201 | Resetting twice gives the same board as resetting once. |
| MolkkyRules.WinDoesNotReset | docs/app.js:106-111 | After a winning throw the winner's total stays 50, the counter still advances by one and the turn passes to the next player in cyclic order. |
| MolkkyRules.TurnsFair | docs/app.js:91-111 | Turns are shared fairly: the players before the current one in the round have had one turn more than the others, and all have had equally many when the round is complete. |
| MolkkyRules.FairHistories | docs/app.js:91-111 | On a board in turn order each history is as long as the first player's, or, when the current player is not the first, one shorter exactly for the players from the current one onwards. |
| MolkkyRules.OvershootScenario | docs/app.js:98-103 | With two players, A at 36 who throws 20 ends on exactly 25 with history [12, 12, 12, 20], and does not win. |
| MolkkyRules.WinScenario | docs/app.js:105-111 | A at 45 who throws 5 wins, and the next throw is B's. |
| MolkkyTable.ScoreCell | docs/app.js:160-166 | A player's cell in throw row i is "-" exactly when the player has fewer than i + 1 throws. |
| MolkkyTable.MaxThrows | docs/app.js:143-148 | The loop's result is the length of the longest history (0 with no throws): no history is longer and, unless 0, some history has that length. |
| MolkkyTable.MaxThrowsUnique | docs/app.js:143-148 | The longest-history length is unique, so the row count is determined by the board. |
| MolkkyTable.RenderTable | docs/app.js:121-190 | The header is "Throw #" then each player's name in order; there is one throw row per throw up to the longest history, labelled 1, 2, ...; cell (i, player) shows `scores[i]` when it exists and "-" otherwise; the last row shows every total, highlighted iff it is 50. |
| MolkkyTable.FairRows | docs/app.js:143-171 | On a board in turn order the longest history is the first player's; every throw row but the last is full, and in the last one exactly the players from the current one onwards show "-" (none when the round is complete). |
| MolkkyScoreboard.Scoreboard.constructor | docs/app.js:10-18 | The new board is `InitialBoard` (the four players "プレイヤー1" to "プレイヤー4" in that order, every total 0, every history empty, counter 0) in a fresh array, and satisfies both invariants. |
| MolkkyScoreboard.Scoreboard.AddScore | docs/app.js:90-116 | The board in place becomes `Throw` of the old board, `won` is `ThrowWins` of it, and both invariants are kept. |
| MolkkyScoreboard.Scoreboard.ResetGame | docs/app.js:195-205 | The board in place becomes `Reset` of the old board (names and order kept), and both invariants are kept. |
| MolkkyScoreboard.Scoreboard.Render | docs/app.js:121-190 | The drawn table's header is "Throw #" then each player's name in order; there is one throw row per throw up to the longest history (which is the first player's), row i labelled i + 1, each cell from that player's history or "-"; the last row starts with the totals label and shows every total, highlighted iff it is 50. |

## Left out

- Browser storage (`openDB`, `loadScoreboard`, `saveScoreboard`, docs/app.js:23-68, and the save calls at lines 114 and 203): asynchronous IndexedDB. Because `loadScoreboard` replaces the whole board with whatever was stored, the invariants are promised only for boards built by the operations modelled here.
- Redrawing after a change: `addScore` and `resetGame` end by calling `renderTable()` (docs/app.js:115 and 204); in the model `AddScore` and `ResetGame` only update the board, and the redraw is a separate call to `Scoreboard.Render`.
- Button creation and event wiring (`createSkittleButtons`, docs/app.js:73-85, and `window.onload`, lines 210-217): DOM work. Its one rule, that points are a skittle number 1 to 12, is `AddScore`'s precondition.
- `alert` (docs/app.js:107): modelled as the `won` result of `AddScore`.
- DOM element creation and styling in `renderTable`: the table is a value; the green bold style is the `highlighted` flag, and number-to-text conversion (`String(...)`, the "投目" row labels, "合計") is represented by the `Cell` constructors rather than by strings.
- Player records as shared objects: the JavaScript code mutates the player object it looked up; the model stores player records as values in the board's array and replaces the current one, which is the same observable effect since no other reference to a player is kept.
- JavaScript numbers are doubles: the counter and totals are unbounded integers here, so precision loss beyond 2^53 throws is not modelled.
- The free-entry variant with arbitrary points and the workout log (`app/app.js`, form handling and storage) are not part of this model. `Throw` itself accepts any integer, as the JavaScript does; the invariant lemmas assume skittle values.
- A rejection of non-positive points: the scoring rules are sometimes described as refusing them, but `addScore` has no such check, so the model follows the code; the positive range comes only from the buttons. Unique player names are not enforced by the code either and are not modelled.
