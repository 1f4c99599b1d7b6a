# A verified model of the room engine of a hidden-role party game

The backend of the game keeps one row per room and one row per player in an SQL database.
`backend/src/services/gameService.js` is the engine that moves a room through its life.

- A host creates a room in status `waiting`, and up to six players join it.
- `startGame` shuffles the six ranked roles (GF, Fling, Side Chick, Ex, Ex's Ex, Lover) and deals one to each player. The holder of GF becomes the first *seeker*, hunting the role at index 1 (Fling).
- On each turn the seeker accuses a player, and one of the following happens:
  - **Correct guess** (the accused holds the target role): the accused is revealed, the seeker is paid the target's points (10, 8, 6, 4, 2), and the accused seeks the next role. After the last role the game ends.
  - **Wrong guess**: the seeker draws a dare from the least-used classroom-safe dares. Seeker and accused exchange roles, and the accused seeks next and cannot be accused again straight away.
- `resetGame` deals a fresh shuffle for a replay.

The model has eight modules:

- `Outcomes`: `Option`, and `Result` with one error per rejection message of the engine.
- `RoleTable`: the role list, the point table, the role-index fallback and the trimmed, lower-cased name comparison of an accusation.
- `Sequences`: small facts about sequences without repeats.
- `Shuffle`: the Fisher–Yates loop of `shuffleArray` on an array, with each `Math.random()` draw passed in as a real in [0, 1).
- `Players`: player rows, lookup by uid, and `ORDER BY uid` as an insertion sort over row indices.
- `Dares`: the dares table as an `array` in a `DarePool` class, the candidate query as a loop, and the draw.
- `GameRules`: the room as a value `RoomState`, the room invariant `Inv`, and each transition as a function of the old state, with the lemmas saying what each transition keeps and changes.
- `GameService`: the `Room` class whose fields are the room row and its player rows. Each exported operation is a method that updates the room in place. The method is proved to produce exactly the `GameRules` transition, and to keep `Valid()`, which is `Inv` of its state.

The invariant `Inv` says:

- the host is row 0 and the only host;
- uids are distinct, and there are 1 to 6 rows;
- a waiting room has no roles, points, reveals or last-accused player;
- after the start every row holds a role, no two rows hold the same role, and the seeker is in the room;
- while playing, the role index is in 1..5, the points paid equal the sum for targets 1 .. index-1, and index-1 players are revealed;
- after the end, 30 points have been paid and five players are revealed.

## Model

| member | source | states |
|---|---|---|
| RoleTable.RolePoints | backend/src/services/gameService.js:4-11 | A role is worth no points exactly when it is GF, and never more than 10. |
| RoleTable.RolesAreDistinct | backend/src/services/gameService.js:3 | The role list has six entries, all different, and every role is in it. |
| RoleTable.RolePointsDecrease | backend/src/services/gameService.js:3-11 | From index 1 on, later targets in the role list are worth strictly fewer points. |
| RoleTable.AllTargetsFound | backend/src/services/gameService.js:4-11 | Finding targets 1 to 5 in order earns 10 + 8 + 6 + 4 + 2 = 30 points. |
| RoleTable.NormalizeRoleIndex | backend/src/services/gameService.js:314-322 | The index used is the stored one when that lies in [0, 6), and 0 otherwise. It always names a role. |
| RoleTable.NormalizedName | backend/src/services/gameService.js:323-332 | Trimming and lower-casing a stored role name gives its lower-case spelling. |
| RoleTable.NormalizedNamesDistinct | backend/src/services/gameService.js:331-333 | No two different roles compare equal after normalisation. |
| RoleTable.IsCorrectGuessIsRoleEquality | backend/src/services/gameService.js:323-333 | The name comparison succeeds exactly when the accused holds the target role. An unset role (empty string) never matches. |
| Shuffle.RandomBelow | backend/src/services/gameService.js:613 | `floor(x * n)` for a draw x in [0, 1) is an index below n, and it is the floor of `x * n`. |
| Shuffle.Swap | backend/src/services/gameService.js:614 | Cells i and j are exchanged and every other cell is kept. |
| Shuffle.FisherYatesPermutes | backend/src/services/gameService.js:610-617 | Whatever the draws, the shuffle's result is a permutation (same multiset) of its input. |
| Shuffle.ShuffleArray | backend/src/services/gameService.js:610-617 | The loop on a fresh array copy returns the Fisher–Yates result for the draws with the same length. Because it works on a copy, the input is never modified. |
| Players.NewPlayer | backend/src/services/gameService.js:137-139 | An inserted row has the given uid, name and host flag, no role, 0 points and no reveal. |
| Players.FindPlayer | backend/src/services/gameService.js:298-305 | The lookup by uid fails exactly when no row has that uid. Otherwise it returns the first row with that uid. |
| Players.UidOrderSorted | backend/src/services/gameService.js:634-636 | Uid order lists every row exactly once, by non-decreasing uid. |
| Players.UidOrderFirstIsLeast | backend/src/services/gameService.js:635-645 | The first row in uid order has the least uid of the room. |
| Dares.MinUnchosen | backend/src/services/gameService.js:572-575 | Returns the least-used safe dare that is not yet a candidate, and returns none exactly when every safe dare is already a candidate. |
| Dares.LeastUsedSafe | backend/src/services/gameService.js:571-581 | The candidate list has at most 5 distinct safe dares in ascending order of use, and none of them is used more than a safe dare left out. It is shorter than 5 only when it holds every safe dare, and empty exactly when no safe dare exists. |
| Dares.CandidateIsAmongLeastUsed | backend/src/services/gameService.js:571-584 | Each candidate has fewer than five safe dares used strictly less, so it can be among the five least-used whatever the order of ties. |
| Dares.DarePool.GetRandomDare | backend/src/services/gameService.js:568-605 | Fails with the no-dares error, nothing changed, exactly when no safe dare exists. Otherwise it hands out one dare among the least used, and only that dare's count rises, by exactly 1. |
| GameRules.Created | backend/src/services/gameService.js:18-52 | A new room is waiting, its only row is the host, and it satisfies the invariant. |
| GameRules.JoinKeepsInv | backend/src/services/gameService.js:105-154 | Appending a fresh non-host player to a waiting room with fewer than 6 players keeps the invariant. |
| GameRules.WithRolesRows | backend/src/services/gameService.js:199-205 | Dealing writes role i into row i and changes no uid, host flag, point or reveal flag. |
| GameRules.StartKeepsInv | backend/src/services/gameService.js:189-234 | Dealing any permutation of the role list to six waiting players keeps the invariant, with the search at index 1, no points and no reveals. |
| GameRules.StartDealsAllRoles | backend/src/services/gameService.js:189-205 | After the start the roles held are a permutation of the role list, so every role is held. |
| GameRules.StartGirlfriendSeeks | backend/src/services/gameService.js:193-197 | After the start the seeker is the player holding GF. |
| GameRules.AccusationGuardAdmits | backend/src/services/gameService.js:277-311 | The five guards pass exactly when the game is playing, the caller is the seeker, the accused was not accused last, is in the room and is hidden. A repeated target is refused before any role is compared, even for a correct guess. |
| Players.RowOf | backend/src/services/gameService.js:298-305 | The row found for a uid known to be in the room carries that uid. It addresses both the accused and the seeker (lines 399-401). |
| GameRules.RevealAndPaySeats | backend/src/services/gameService.js:389-419 | Revealing the accused and paying the seeker changes no uid, host flag or role. |
| GameRules.RevealAndPayCounts | backend/src/services/gameService.js:389-419 | Revealing a hidden row and paying a row adds the payment to the total points and 1 to the reveal count. |
| GameRules.RevealAndPayKeepsDeal | backend/src/services/gameService.js:389-419 | Revealing and paying keeps the seats and a full distinct deal, and keeps every uid in the room. |
| GameRules.CorrectAccusationKeepsInv | backend/src/services/gameService.js:389-477 | A correct accusation on a valid room keeps the invariant, so the points ledger moves on by exactly one target. |
| GameRules.CorrectAccusationEffects | backend/src/services/gameService.js:389-477 | The accused row becomes revealed and the seeker row gains exactly the target's points. Every other row is unchanged, and no revealed row is hidden again. So the total rises by the target's points, one more player is revealed, and the roles are unchanged. Below the last index the role index rises by 1, the accused seeks and the last-accused player is cleared. At the last index only the status changes, to ended. |
| GameRules.SwapRolesRows | backend/src/services/gameService.js:511-530 | The exchange writes the accused's role into the seeker's row and the seeker's old role into the accused's row, and changes no uid, host flag, point or reveal flag. |
| GameRules.SwapRolesCounts | backend/src/services/gameService.js:511-530 | The exchange keeps the total points and the reveal count. |
| GameRules.SwapRolesDealt | backend/src/services/gameService.js:511-530 | Exchanging two roles of a full distinct deal leaves a full distinct deal. |
| GameRules.WrongAccusationKeepsInv | backend/src/services/gameService.js:511-544 | A wrong accusation keeps the invariant. |
| GameRules.WrongAccusationEffects | backend/src/services/gameService.js:511-544 | The seeker's row gets the accused's role and the accused's row the seeker's. Every other row, and every point and reveal flag, is unchanged. The accused becomes both the last-accused player and the seeker. The status and the role index are unchanged. |
| GameRules.WrongAccusationCounts | backend/src/services/gameService.js:511-530 | A wrong accusation keeps the multiset of roles held (so the deal stays a permutation), the total points and the reveal count. Points come only from correct guesses. |
| GameRules.ResetRowsAt | backend/src/services/gameService.js:643-653 | The row at position q of uid order gets the q-th shuffled role, 0 points and no reveal. |
| GameRules.ResetInOrderIsResetRows | backend/src/services/gameService.js:647-661 | Updating the rows one at a time along uid order yields the reset rows. |
| GameRules.ResetRowsFresh | backend/src/services/gameService.js:649-653 | A reset keeps uids and host flags, and every row gets a role, 0 points and no reveal. |
| GameRules.ResetRowsDistinct | backend/src/services/gameService.js:643-653 | Distinct rows get distinct roles from a shuffle without repeats. |
| GameRules.ResetSeekerIsLeast | backend/src/services/gameService.js:634-645 | After a reset the seeker is the player with the least uid, whoever holds GF. |
| GameRules.ResetKeepsInv | backend/src/services/gameService.js:643-676 | A reset from any status with at least two players keeps the invariant, with 0 points and no reveals. |
| GameRules.EndedGameScoresThirty | backend/src/services/gameService.js:421-442 | In an ended game the points paid add up to 30. |
| GameRules.SixPlayersHoldEveryRole | backend/src/services/gameService.js:183-205 | With six players, after the start every role is held by some player, however many wrong guesses exchanged roles since. |
| GameService.Room.constructor | backend/src/services/gameService.js:18-52 | `createRoom`: the room is waiting with the host as its only row (the `Created` state), and is valid. |
| GameService.Room.Deal | backend/src/services/gameService.js:199-234 | The per-player role writes, then the room row, produce exactly the `Started` state. |
| GameService.Room.ResetPlayers | backend/src/services/gameService.js:647-661 | The per-player reset loop along uid order leaves the rows one update at a time, as `ResetInOrder` says. The room row (status, seeker, role index, last-accused player) is untouched. |
| GameService.Room.ResetRound | backend/src/services/gameService.js:647-676 | The player reset, then the room row, produce exactly the `Reset` state. |
| GameService.AddPlayerToRoom | backend/src/services/gameService.js:105-154 | Missing room, not waiting and six players already are three distinct rejections that leave the room unchanged. Otherwise exactly one fresh player is appended, the new member is returned, and the room stays valid. |
| GameService.StartGame | backend/src/services/gameService.js:159-260 | Missing room, not waiting and not exactly six players are distinct rejections that leave the room unchanged. Otherwise the room is the `Started` state for the shuffle of the role list, and remains valid. |
| GameService.ShuffledStartKeepsInv | backend/src/services/gameService.js:189-234 | Starting with any shuffle the draws produce keeps the invariant. |
| GameService.ProcessAccusation | backend/src/services/gameService.js:265-373 | Each failing guard returns its own error, and room and dares stay unchanged. Otherwise a correct guess yields the `AfterCorrect` state and its result with the dares unchanged. A wrong guess either fails for lack of dares with nothing changed, or draws one dare and yields the `AfterWrong` state. The room stays valid. |
| GameService.ProcessCorrectAccusation | backend/src/services/gameService.js:378-484 | Reveal, pay, then pass the turn or end yield the `AfterCorrect` state. The result names the accused as next seeker, the next role or none, the points earned, and whether the game ended. The room stays valid. |
| GameService.ProcessWrongAccusation | backend/src/services/gameService.js:489-563 | Fails with the no-dares error, nothing changed, exactly when no safe dare exists. Otherwise exactly one dare is drawn, the roles are exchanged, the accused is recorded and seeks, and the room stays valid. |
| GameService.ResetGame | backend/src/services/gameService.js:622-702 | Missing room and fewer than two players are rejections that leave the room unchanged. Otherwise the room is the `Reset` state for the shuffle of the role list, from any status, and remains valid. |
| GameService.ShuffledResetKeepsInv | backend/src/services/gameService.js:643-676 | Resetting with any shuffle the draws produce keeps the invariant. |

## Left out

- `createRoom`'s room code (`Math.random().toString(36)`) and all `uuidv4` ids are not generated. The uid is an input, and `AddPlayerToRoom` requires that it is new to the room.
- `getRoomData` only reads and is not modelled. Neither is `backend/src/server.js`, the socket and HTTP transport.
- Every failure branch of the SQLite calls is not modelled, and each operation is one atomic step. This covers `err` in the callbacks, the "Failed to ..." rejections, the `updatedCount` fan-in of the callbacks, and interleaving with concurrent requests.
- `timer_ends_at` and `Date.now()` are not modelled, nor is console logging. Neither affects the engine's state.
- Each `Math.random()` draw is a parameter in [0, 1). Uniformity of the draws is not modelled.
- Dares.LeastUsedSafe: SQL leaves the order of equal `used_count` values unspecified. The model breaks ties by lowest row. `GetRandomDare` promises only that the chosen dare can be among the five least-used under any tie order.
- Uids are natural numbers. `ORDER BY uid` on the uuid strings becomes numeric order, and the unordered `SELECT uid` of `startGame` is taken as row order.
- RoleTable.NormalizeRoleIndex takes an integer. The null, undefined and non-finite cases of the stored index all fall back to 0 in the source. The model cannot store such values; index 0 is the schema default of a new room.
- RoleTable.Lower lower-cases ASCII letters only. RoleTable.Trim removes the common whitespace characters, not every Unicode space. Stored roles are always one of the six names, so this does not change any comparison.
- The correct branch makes two updates, the reveal and the payment. They form one assignment, `RevealAndPay`, which applies both in source order.
- Rows are addressed by position, found by uid lookup, rather than by `WHERE uid = ?`. Uids are distinct, so both address the same row.
- `resetGame` is commented "First player is always GF", but the code makes the least uid the seeker, whoever holds GF. The model follows the code.
- A non-final correct result in the source has no `gameEnded` field. It is modelled as `false`.
- With fewer than six players at a reset, only the first shuffled roles are dealt. The invariant then requires distinct roles, not all six.
- The frontend, tests and the database setup files are not part of this model.
