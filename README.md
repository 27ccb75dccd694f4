# Kazoot quiz sessions in Dafny

A Dafny model of the live-quiz core of the Kazoot backend (`backend/server.js`):
the `GameSession` class that keeps the players of one quiz, their answers and
scores, its admin and its question cursor; the Socket.IO handlers that move a
session through `waiting → question → results → … → ended` (`join-game`,
`start-game`, `submit-answer`, `next-question`, `disconnect`); the results
broadcast `showQuestionResults`; and the two in-memory registries
`gameSessions` (code → session) and `playerSessions` (socket → code).

The project is split as the source is:

- `types.dfy` — the records: questions, answers, player records, game
  states, leaderboard entries.
- `scoring.dfy` — the points formula, in integers, proved equal to the
  source's `Math.round` on exact reals.
- `names.dfy` — JavaScript `String.prototype.trim` and the
  `username.trim() || username` cleanup of `join-game`.
- `roster.dfy` — the insertion-ordered player `Map` with `adminId`:
  `addPlayer`, `removePlayer`, `isAdmin` as functions on a value.
- `answers.dfy` — the sparse `answers` array, grading and recording a
  submission, and the 4-slot answer distribution.
- `leaderboard.dfy` — `getLeaderboard`: a stable sort by descending score
  (insertion sort) and positional ranks.
- `phase.dfy` — the cursor, the state string and the start time, and how
  `start-game`, `next-question`, `showQuestionResults` and the timer guards
  move them.
- `session.dfy` — `class GameSession`, whose methods update its fields in
  place and are proved to produce exactly the roster and phase functions
  above; its invariant says every record is graded against its questions and
  its score covers its recorded points.
- `server.dfy` — `class Server` with the two registries and one method per
  handler. Each handler returns the events it emits as a list of
  `Message(audience, payload)`; the time is a `now` parameter; a `setTimeout`
  is returned as a `Timer` value that the environment later hands to
  `DeadlineFired`.

Conventions: points use integer division,
`1000 + (max(0, limit - elapsed) + 10) / 20` for a correct answer, which is
the source's `Math.round(1000 + max(0, (limit - elapsed) / 1000) * 50)` when
evaluated exactly (`Scoring.PointsAreJsRound`). The JavaScript `Map` is a key
sequence `order` plus a Dafny `map`; re-setting a present key keeps its
position. `player.answers` is a sequence of `Option<Answer>` whose `None`
entries are the holes of a sparse array.

Where the code and its design description differ, the model follows the code:

- a whitespace-only username is accepted as given (`trim() || username`),
  not refused;
- a creator joining after another admin moves `adminId` but leaves the old
  admin's `isAdmin` flag set, so two records may carry the flag;
- `next-question` has no state check: from `waiting` it opens question 0,
  from an open question it skips the results, from `ended` it ends again;
- the timer set by `next-question` compares the cursor with itself, so it
  closes whatever question is open when it fires;
- a re-join under the same socket replaces the record (score 0, no answers)
  but keeps its place in join order;
- a socket that joins a second session is re-bound to it but stays a player
  of the first.

## Model

| member | source | states |
|---|---|---|
| Scoring.Points | backend/server.js:166-174 | a wrong answer earns 0 and a correct one earns at least 1000; a correct answer at or after the deadline earns exactly 1000 |
| Scoring.PointsAreJsRound | backend/server.js:170-174 | the integer formula equals `Math.round(1000 + max(0, (limit - elapsed) / 1000) * 50)` computed on exact reals, halves rounding up |
| Scoring.PointsRange | backend/server.js:170-174 | with the 20000 ms limit and elapsed ≥ 0 a correct answer earns between 1000 and 2000, and 2000 at elapsed 0 |
| Scoring.PointsNonIncreasing | backend/server.js:170-174 | answering later never earns more points |
| Names.Trim | backend/server.js:340 | the trimmed name is the slice of the name left after cutting whitespace-only runs off both ends, with no whitespace at either end; it is empty exactly when the name is all whitespace, and is the name itself when its ends are not whitespace |
| Names.CleanUsername | backend/server.js:334-340 | for a non-empty name the result is non-empty, is the name or its trim, and has no whitespace at its ends whenever the name has any non-whitespace character |
| Names.TrimIdempotent | backend/server.js:340 | trimming a trimmed name changes nothing |
| Roster.AddPlayer | backend/server.js:124-138 | the map stays well formed: each key once in join order, each record under its own key, an admin exactly when there are players and always one of them |
| Roster.AddPlayerSpec | backend/server.js:124-138 | the new record has score 0 and no answers; only that key is added or replaced; a new key goes last and a present key keeps its place; the socket becomes admin exactly when the flag is passed or there was no admin, and every other socket's admin status is lost exactly when the flag is passed |
| Roster.RemovePlayer | backend/server.js:140-153 | the map stays well formed |
| Roster.RemovePlayerSpec | backend/server.js:140-153 | only that player is deleted and every other record is unchanged, except that when the admin left and players remain the first remaining player in join order becomes admin with its flag set; with no players left there is no admin; removing a non-admin keeps the admin |
| Roster.NewAdminIsFirstRemaining | backend/server.js:144-148 | the new admin is the first key, or the second when the first is the one who left |
| Roster.JoinThenLeave | backend/server.js:124-153 | a player who joined without taking the admin role (or joined an empty session) and leaves restores the roster exactly |
| Roster.CreatorJoinLeavesStaleFlag | backend/server.js:134-137 | after a creator joins behind another admin both records carry `isAdmin` while `adminId` names only the creator |
| Roster.Without | backend/server.js:142 | deleting a key removes exactly that key from the join order, keeps the rest distinct, shortens a distinct order by one, and leaves an order without the key unchanged |
| Roster.WithoutCutsOut | backend/server.js:142-146 | deleting a key cuts it out at its first position and keeps the keys before and after it in their join order, so `keys().next()` yields the earliest remaining joiner |
| Answers.SetAt | backend/server.js:176-181 | writing slot `idx` of a sparse array stores the answer there, grows the array to `idx + 1` when needed, and leaves every other slot as it was |
| Answers.Grade | backend/server.js:163-174 | the graded answer keeps the chosen index and the elapsed time, is correct exactly when the index strictly equals the question's correct index, and carries that answer's points |
| Answers.RecordAnswer | backend/server.js:176-183 | the submitter's slot for the question holds the latest answer, the score grows by exactly its points, and every other slot and field is unchanged |
| Answers.ResubmissionCountsTwice | backend/server.js:176-183 | a second submission for the same question overwrites the slot but both submissions' points stay in the score |
| Answers.RecordedPointsSetAt | backend/server.js:176-183 | the points stored in the answers change by the new answer's points minus those of the answer it overwrote |
| Answers.RecordKeepsScoreCovered | backend/server.js:159-184 | recording a graded answer keeps every stored answer graded against its question and the score at least the stored points |
| Answers.Distribution | backend/server.js:503-514 | four counts, each between 0 and the number of players |
| Answers.DistributionSum | backend/server.js:504-514 | the four `answerStats` counts add up to the players whose recorded choice is in 0..3, which is at most the players who answered and equals it when every choice is in 0..3 |
| Leaderboard.SortByScore | backend/server.js:188-189 | the sorted players are a permutation of the players with non-increasing scores |
| Leaderboard.SortKeepsTies | backend/server.js:188-189 | the sort is stable: for every score, the players holding it keep their join order |
| Leaderboard.SortIsUnique | backend/server.js:188-189 | any non-increasing ordering that keeps tied players in join order is exactly the sorted list |
| Leaderboard.SameTiesSameList | backend/server.js:188-189 | two non-increasing lists that agree, score by score, on the tied players and their order are equal |
| Leaderboard.GetLeaderboard | backend/server.js:187-195 | one entry per player, ranks 1, 2, … by position, non-increasing scores, every entry the name and score of some player |
| Leaderboard.LeaderboardGroups | backend/server.js:187-195 | for every score, the leaderboard entries with that score are, name for name and in order, the players holding it in join order: every player appears once and ties keep join order |
| Phase.Start | backend/server.js:378-380 | starting a waiting session opens question 0 with its start time `now` and keeps the phase consistent |
| Phase.Advance | backend/server.js:428-454 | the cursor never decreases; before the last question it moves to the next one with the state `question` and the new start time; on the last question only the state becomes `ended` |
| Phase.CloseQuestion | backend/server.js:497 | closing sets the state `results` and changes nothing else: the cursor and the start time are kept |
| Phase.TimerAfterCloseIsNoOp | backend/server.js:444-448 | a deadline timer that fires after the question was closed or the game ended does nothing |
| Phase.StaleTimerClosesLaterQuestion | backend/server.js:444-448 | a timer carries no question number: on any open question past question 0 the `next-question` guard holds and the `start-game` guard fails |
| Phase.AdvanceAllMoves | backend/server.js:428-454 | k presses of next from cursor i leave the cursor at min(i + k, n - 1), the game ended once the presses go past the last question and on an open question otherwise |
| Session.AddedKeepStanding | backend/server.js:124-131 | a joining player's fresh record keeps every record graded with its score covering its stored points |
| Session.RemovedKeepStanding | backend/server.js:140-153 | so does removing a player, including the flag set on a new admin |
| Session.StandingAtLaterIndex | backend/server.js:428-430 | moving the cursor forward keeps every record graded with its score covering its stored points |
| Session.GameSession.AddPlayer | backend/server.js:124-138 | the session's roster becomes `Roster.AddPlayer` of the old one and the phase is unchanged |
| Session.GameSession.RemovePlayer | backend/server.js:140-153 | the session's roster becomes `Roster.RemovePlayer` of the old one and the phase is unchanged |
| Session.GameSession.IsAdmin | backend/server.js:155-157 | true exactly when `adminId` is the socket, which is then a player |
| Session.GameSession.SubmitAnswer | backend/server.js:159-185 | accepted exactly when the socket is a player and a question has been opened; then only the submitter's record changes, by `Answers.RecordAnswer` with the graded answer at the elapsed time; otherwise nothing changes |
| Session.GameSession.GetLeaderboard | backend/server.js:187-195 | `Leaderboard.GetLeaderboard` of the players in join order (so `LeaderboardGroups` applies): one entry per player, positional ranks, non-increasing scores |
| Server.QuestionData | backend/server.js:432-438 | the `question-start` payload numbers question i as i + 1 of the quiz's total |
| Server.ResultsMessages | backend/server.js:517-528 | one message per player, addressed to that player, with the shared distribution and that player's recorded choice |
| Server.Tally | backend/server.js:504-514 | the counts equal the answer distribution of the players and each player's remembered choice is its recorded choice or none |
| Server.Announce | backend/server.js:497-529 | one `question-results` per player in join order, with the distribution, the leaderboard, whether this is the last question, and that player's own recorded choice |
| Server.Server.CreateSession | backend/server.js:284-306 | a new waiting session with no players is stored under the fresh code and the question count is returned |
| Server.Server.Admit | backend/server.js:340-360 | the roster becomes `Roster.AddPlayer` with the cleaned name, the phase is unchanged, the caller gets `joined-game` with the new player count and its admin status, the rest of the room `player-joined` |
| Server.Server.JoinGame | backend/server.js:320-361 | an unknown session, a session not waiting, or an empty username give an error to the caller and change nothing; otherwise the roster is `Roster.AddPlayer` with the cleaned name, the socket is bound, the caller gets `joined-game` and the room `player-joined` |
| Server.Server.StartGame | backend/server.js:363-398 | no session or a session not waiting gives `Cannot start game`; a non-admin gets the creator error; nothing changes on either; the admin opens question 0 at `now`, the room gets it, and a first-question timer is set |
| Server.Server.SubmitAnswer | backend/server.js:400-414 | dropped silently unless the caller's session has a question open; an accepted answer is recorded as in `GameSession.SubmitAnswer` and acknowledged to the caller only |
| Server.Server.AdvanceSession | backend/server.js:428-454 | the phase becomes `Phase.Advance`, the roster is unchanged; before the last question the room gets the next question and a timer is set, otherwise the room gets the final leaderboard and no timer is set |
| Server.Server.NextQuestion | backend/server.js:416-455 | ignored without a session; a non-admin gets an error and nothing changes; otherwise the phase becomes `Phase.Advance` and either the next question and a timer or the final leaderboard goes to the room |
| Server.Server.LeaveSession | backend/server.js:462-482 | the roster becomes `Roster.RemovePlayer`, the phase is unchanged, the room gets `player-left` with the leaver's name and the new count, and `admin-changed` naming the first remaining player when the admin left and players remain |
| Server.Server.Disconnect | backend/server.js:457-490 | the socket's binding is dropped; when it led to a live session the player leaves it as in `LeaveSession` and the session is evicted exactly when it is left empty; otherwise nothing else changes and nothing is sent |
| Server.Server.ShowQuestionResults | backend/server.js:493-530 | the phase becomes `Phase.CloseQuestion`, the roster is unchanged, and each player gets its results message |
| Server.Server.DeadlineFired | backend/server.js:444-448 | a timer whose guard fails changes nothing; one whose guard holds closes the question as `showQuestionResults` does |

## Left out

- The Express application, CORS, `/health`, static files and `server.listen`: HTTP plumbing with no quiz logic.
- `generateQuiz` and the OpenAI request: a foreign network service; the question list is a parameter of `CreateSession`. `backend/demoQuestions.js` is static data and is not part of this model.
- The session code `uuidv4().substring(0, 6).toUpperCase()`: random and from a library; the code is a parameter, assumed never to repeat (a repeated code would overwrite the live session).
- Socket.IO itself: rooms, `socket.join`, delivery of events; emits are returned as a message list with their audience.
- `setTimeout` scheduling: a timer is returned as a value and fired by calling `DeadlineFired`, in any order and at any time the environment chooses.
- `Date.now()` and `console.log`: the time is a parameter, logging is dropped.
- Concurrency: every handler runs to completion, as on Node's single thread.
- Server.Server.CreateSession: requires a non-empty quiz; with no questions the source would later fail in `start-game` reading `questions[0]`.
- Scoring.Points: computes on exact values; floating-point rounding of `(limit - elapsed) / 1000 * 50` in a JavaScript double is not modelled.
- Server.Server.SubmitAnswer: `answerIndex` is an integer; a client sending a non-number (compared with `===`, always wrong) is not modelled.
- Answers.Distribution: a recorded choice outside 0..3 counts in no slot; the source would add a property to `answerStats` (a `NaN` entry or one past the four slots) that is sent to the clients.
- Server.Server.ShowQuestionResults: requires the session to have a question opened; the only caller, a deadline timer, checks the state `question` first.
- The React frontend: presentation only.
