# Quiz-Night room orchestrator in Dafny

This project models the room orchestrator of the Quiz-Night server (`server.js`). One host drives a
shared question sequence. Players join a room by its code and submit answers. The server scores
them and broadcasts a ranked leaderboard.

What is modelled:

- **The room registry.** `Orchestrator.Server` holds the `rooms` map, its creation order and each
  socket's remembered room (`socket.data.roomCode`). Each socket handler of the connection callback
  is one method: create room, set quiz, start, next, end question, join, answer and disconnect.
  The auto-end timer callback is one more method.
- **The per-room record.** `Rooms.Room` is a class with the fields the server mutates in place.
  Each handler's effect on it is stated once, as a two-state predicate (`LoadedQuiz`, `Began`,
  `Advanced`, `EndedQuestion`, `Joined`, `Recorded`, `Left`).
- **The loops.** Each loop in the source is a method with loop invariants:
  - the code retry loop, `RoomCodes.MakeCode`, proved to return the first free draw's code;
  - the scoring loop, `Rooms.Room.ScoreLedger`, proved equal to the function `AnswerLedger.Scored`;
  - the answer-statistics loop, `AnswerLedger.CountAnswers`, proved equal to `AnswerLedger.AnswerStats`;
  - the host-list loop, `AnswerLedger.ListAnswers`, proved equal to `AnswerLedger.HostAnswerList`;
  - the disconnect scan, `Orchestrator.Server.Scan`, proved to stop at the first involved room.
- **The pure helpers** are functions, each with lemmas relating it to the program's promises:
  - `isCorrect`, `sanitizeQuestionForPlayers` and `revealAnswerPayload` (`QuizDocument`);
  - `rosterData` and `leaderboardData` (`Standings`);
  - the trim / lower-case key (`Text`);
  - the name index invariant (`Membership`).
- **Scenarios.** `Scenarios` drives the handlers through the room's known behaviours, with no
  restriction on the rest of the state.

These parts of the environment become parameters:

| Source | Model |
|---|---|
| `Math.random` | a list of draws |
| `Date.now()` | the `now` argument of `Answer` |
| `setTimeout` | a `Timer` value returned by `Next`, fired by calling `FireTimer` |
| The socket.io transport | broadcasts are returned as values |

JavaScript Maps iterate in insertion order, so `players` and the ledger are sequences in that order
and the registry keeps its codes in creation order.

The model follows the code as written, including where the code does less than a room evidently
needs:

- **Ending a question twice re-scores the ledger.** A ledger is meant to be scored once per
  question, but nothing in `endQuestion` enforces that. A second `host:endQuestion`, or a manual
  `host:endQuestion` after the timer has ended the question, adds the same points again. See
  `AnswerLedger.ScoringTwiceCountsTwice`, `Scenarios.EndingTwiceScoresTwice` and
  `Scenarios.TimerThenManualEndScoresTwice`. A timer firing after a manual end does nothing,
  because the end closed the gate the callback checks (`Scenarios.TimerAfterManualEndIsIgnored`).
- **The timer's index check is vacuous.** The callback compares the live room's `qIndex` with
  `room.qIndex` of the object it captured, which is the same object while the room lives. A stale
  timer therefore ends whatever question is active when it fires. See `FireTimer` and
  `Scenarios.StaleTimerEndsNextQuestion`.
- **A second join leaves a stale name key.** A second `player:join` from the same socket replaces
  its record (score back to 0) but leaves the earlier name key claimed. See
  `Membership.RejoinLeavesStaleKey` and `Scenarios.RejoinBlocksOldName`.
- **Unchecked phases.** `host:next` does not check that the room was started. `host:setQuiz` is
  accepted during an active question, and it leaves the answer gate and the ledger alone.
- **Ending with no current question.** `endQuestion` closes the gate and scores even when the
  index names no question (before the first `next` or after the last). Building its broadcast
  then fails; this is modelled as the outcome `Faulted`, after the state change.
- **Disconnect leaves the ledger.** A player's disconnect does not remove their ledger entry, so it
  still counts in the statistics.
- **No validation of the quiz document.** The server checks nothing about a loaded quiz.

## Model

| member | source | states |
|---|---|---|
| Text.TrimStartShape | server.js:112 | `trimStart` leaves a suffix that does not start with a space, and every character it drops is a space |
| Text.TrimEndShape | server.js:112 | `trimEnd` leaves a prefix that does not end with a space, and every character it drops is a space |
| Text.Trim | server.js:112 | `trim` as `trimStart` then `trimEnd`; what it leaves is stated by `TrimShape` and `KeyLength` |
| Text.TrimShape | server.js:112 | `trim` returns the middle slice of its input: everything before and after it is space, and it neither starts nor ends with a space |
| Text.Lower | server.js:112 | `toLowerCase` keeps the length and lower-cases each character (ASCII letters only) |
| Text.Key | server.js:112 | the name key `trim().toLowerCase()` used for name claims (server.js:112, 160) and text answers (server.js:201-202) |
| Text.KeyLength | server.js:112 | neither `trim` nor the key lengthens a name, and the key is as long as the trimmed name |
| Text.TrimIdempotent | server.js:122 | trimming the stored, already trimmed name again changes nothing |
| Text.KeyOfTrim | server.js:160 | the key re-derived from the stored trimmed name at disconnect equals the key claimed at join |
| Text.KeyIgnoresCase | server.js:112 | lower-casing a name first does not change its key |
| Text.KeyIgnoresPadding | server.js:112 | adding a space at either end of a name does not change its key |
| Text.AnaKey | server.js:112-118 | "Ana" has a non-empty key, and "ana " has the same key |
| RoomCodes.AlphabetIsCodeChars | server.js:16 | the alphabet has 23 distinct letters: exactly the upper-case letters other than I, L and O |
| RoomCodes.Spell | server.js:19 | a draw of four alphabet positions spells a well-formed four-letter room code, letter by letter |
| RoomCodes.MakeCode | server.js:15-22 | the result is a well-formed code not among the existing ones, spelled by the first draw whose code is not taken |
| QuizDocument.AsText | server.js:201 | the text of a falsy-defaulted answer: a typed answer is its own text; a choice becomes the empty string iff it is 0 |
| QuizDocument.ArmsTimer | server.js:88 | a question arms the auto-end timer iff it declares a time limit greater than 0 |
| QuizDocument.IsCorrect | server.js:196-205 | a multiple-choice answer is right iff it is the integer of the right option; a text answer is right iff its key equals some accepted answer's key |
| QuizDocument.SameKeySameVerdict | server.js:201-203 | two text answers with the same key get the same verdict |
| QuizDocument.OutOfRangeChoiceIsWrong | server.js:197-199 | a choice outside the options is wrong, not an error, when the right option is one of them |
| QuizDocument.PaddedUpperCaseTextIsCorrect | server.js:200-204 | " PARIS " is accepted for the accepted answers "Paris" and "paris " |
| QuizDocument.ShownTime | server.js:209 | the shown time limit, falsy values becoming null: no limit, or a limit of 0, is shown as none; any other limit is shown as is |
| QuizDocument.SanitizeForPlayers | server.js:207-213 | the player view has the index, prompt, options for a multiple-choice question and the time limit with 0 shown as none |
| QuizDocument.ViewHidesAnswer | server.js:207-213 | the player view does not depend on the right option or the accepted answers |
| QuizDocument.RevealAnswer | server.js:215-221 | the revealed payload is the right option's index, or the accepted answers |
| QuizDocument.RevealedAnswersAreCorrect | server.js:196-221 | everything revealed as the answer is judged correct when submitted |
| Standings.Find | server.js:177 | `players.get` returns a record iff one is stored under the id, and it is that record |
| Standings.IndexOf | server.js:177-178 | the position found holds the record under the id; no position means no record |
| Standings.SetPlayer | server.js:122 | `players.set` replaces an existing record in place, or appends a new one at the end |
| Standings.SetPlayerKeepsUnique | server.js:122 | `set` keeps at most one record per socket |
| Standings.SetPlayerLaws | server.js:122 | after `set`, `get` of that id gives the new record and `get` of any other id is unchanged |
| Standings.RemovePlayer | server.js:161 | `players.delete` leaves exactly the other records, with `get` of other ids unchanged and ids still unique |
| Standings.RemovePlayerKeepsOrder | server.js:161 | `delete` keeps the other records in insertion order: an absent id changes nothing, and a stored one is cut out at its position |
| Standings.RemoveAbsentPlayer | server.js:161 | deleting an id with no record leaves the players as they were |
| Standings.RemovePlayerAt | server.js:161 | deleting the record at position i leaves the records before and after it, in order |
| Standings.Roster | server.js:223-225 | the roster lists name and score of every player in insertion order |
| Standings.SortByScore | server.js:229 | the sort gives a permutation, highest score first, with players of equal score in their original order |
| Standings.StableSortIsUnique | server.js:229 | any highest-first ordering that keeps equal scores in their original order is the sort's result |
| Standings.Leaderboard | server.js:227-231 | the leaderboard has one row per player, ranked 1..n, with scores not increasing |
| Standings.LeaderboardRanksStableOrder | server.js:227-231 | the leaderboard ranks, by position, the stable highest-first order of the players |
| Standings.TiedScoresGetConsecutiveRanks | server.js:227-231 | scores 5, 5, 3 get ranks 1, 2, 3, the tied players in join order |
| AnswerLedger.RecordKeepsOnePerSocket | server.js:141-144 | recording for a socket that has no entry keeps one entry per socket |
| AnswerLedger.Credit | server.js:176-178 | one correct entry adds one point to its player only; an incorrect one changes nothing |
| AnswerLedger.Scored | server.js:175-180 | after scoring, each player's score has grown by its number of correct entries, and names and order are kept |
| AnswerLedger.ScoringGivesOnePoint | server.js:175-180 | with one entry per socket, a player gains exactly one point iff they answered correctly |
| AnswerLedger.ScoringNeverLowers | server.js:175-180 | no score goes down when a question ends |
| AnswerLedger.ScoringTwiceCountsTwice | server.js:172-180 | scoring the same ledger twice gives a correct answerer two points |
| AnswerLedger.CorrectCount | server.js:243 | the number of correct entries is at most the number of entries |
| AnswerLedger.AnswerStats | server.js:233-246 | per-option counts of the answers naming each option, or the numbers of answers and of correct ones |
| AnswerLedger.CountAnswers | server.js:233-246 | the counting loop computes exactly `AnswerStats` |
| AnswerLedger.OptionCountsCoverInRangeAnswers | server.js:235-240 | the option counts add up to the number of answers naming an existing option, at most all answers |
| AnswerLedger.HostAnswerList | server.js:248-257 | the host's list has at most one row per entry |
| AnswerLedger.HostAnswerListRows | server.js:251-255 | the host's list has a row for every entry whose player is still present, and no other rows |
| AnswerLedger.ListAnswers | server.js:250-255 | the pushing loop computes exactly `HostAnswerList` |
| Membership.ClaimedNamesDistinct | server.js:117-121 | while the name index mirrors the players, no two players share a name key |
| Membership.JoinKeepsIndex | server.js:122-123 | setting the player and claiming its free key keeps every player's key claimed by that player |
| Membership.JoinKeepsMirror | server.js:122-123 | a first join keeps the index exactly the keys of present players |
| Membership.DropKeepsIndex | server.js:160-162 | deleting the player and the key of its stored name keeps the index for the others |
| Membership.DropKeepsMirror | server.js:160-162 | a disconnect keeps the index exactly the keys of present players |
| Membership.ScoringKeepsIndex | server.js:175-180 | scoring keeps ids unique and the name index valid |
| Membership.RejoinLeavesStaleKey | server.js:122-123 | after one socket joins twice, the first key stays claimed though no player has it, so the index no longer mirrors the players |
| Rooms.Room.Valid | server.js:26-30 | the room invariant: index at least -1, an open gate only with a quiz loaded, one ledger entry per socket, one record per socket, and every player's name key claimed by that player |
| Rooms.Room.constructor | server.js:36-46 | a new room: this host, not started, default title, no quiz, index -1, gate closed, everything empty |
| Rooms.Room.Current | server.js:137-138 | the current question exists iff a quiz is loaded and the index is within its questions |
| Rooms.Room.Report | server.js:181-192 | the end broadcast is built iff there is a current question, otherwise building it faults |
| Rooms.Room.Load | server.js:55-58 | stores the title (default if empty) and the quiz, resets the index to -1 and started to false; gate, ledger and players are kept |
| Rooms.Room.Begin | server.js:66-67 | started, index -1, nothing else changes |
| Rooms.Room.Advance | server.js:75-83 | the index moves on by one; past the end the gate closes, otherwise the ledger empties and the gate opens |
| Rooms.Room.End | server.js:172-192 | gate closed, players scored by the ledger, ledger and index kept, returns the end broadcast of `Report` |
| Rooms.Room.ScoreLedger | server.js:175-180 | the loop leaves the players equal to `Scored`, keeping the room invariant |
| Rooms.Room.AddPlayer | server.js:122-123 | sets the trimmed name with score 0 under the socket and claims its key, keeping the invariant |
| Rooms.Room.Record | server.js:144 | appends exactly one entry and keeps one entry per socket |
| Rooms.Room.Drop | server.js:160-162 | removes the record and the key of its stored name, keeping the invariant |
| Orchestrator.RemoveCode | server.js:155 | deleting one code keeps the codes distinct and removes exactly that code |
| Orchestrator.AppendCode | server.js:36 | adding a new code keeps the codes distinct |
| Orchestrator.Server.Valid | server.js:25-30 | the registry invariant: distinct codes in creation order, exactly the live rooms, each code well formed, one room object per code, each room valid |
| Orchestrator.Server.constructor | server.js:25 | the registry starts empty |
| Orchestrator.Server.CreateRoom | server.js:34-49 | a fresh code from the first free draw, and a new empty room hosted by the sender; other rooms unchanged |
| Orchestrator.Server.Open | server.js:36-46 | adds the new room under the code at the end of the creation order |
| Orchestrator.Server.SetQuiz | server.js:52-60 | only the host of a live room loads a quiz; the meta broadcast carries the title and question count |
| Orchestrator.Server.Start | server.js:63-69 | starts iff the sender hosts the room and a quiz is loaded; otherwise nothing changes |
| Orchestrator.Server.Next | server.js:72-96 | advances iff host and quiz; ends the quiz with the leaderboard past the last question; otherwise shows the safe view and arms a timer iff the time limit is positive |
| Orchestrator.Server.EndQuestion | server.js:169-193 | ends iff the room exists and has a quiz; the state change and broadcast are those of `Room.End` |
| Orchestrator.Server.HostEndQuestion | server.js:99-103 | only the host ends the question |
| Orchestrator.Server.FireTimer | server.js:89-94 | ends iff the room is live, its index equals the captured object's and the gate is open; while the captured room is live, only the gate decides |
| Orchestrator.Server.Join | server.js:106-130 | each error iff its own check fails, in order, and changes nothing; success sets the player, claims the key, remembers the room and returns the roster |
| Orchestrator.Server.AnswerGate | server.js:134-141 | an answer passes iff the socket's remembered room exists, accepts answers, has a current question and holds no entry from this socket |
| Orchestrator.Server.Answer | server.js:133-147 | accepted iff the gate passes; appends one graded, time-stamped entry; acknowledges with correctness and counts |
| Orchestrator.Server.CloseRoom | server.js:155 | removes exactly that room and its code |
| Orchestrator.Server.Leave | server.js:159-164 | removes the player and its stored name's key; returns the new roster |
| Orchestrator.Server.Scan | server.js:152-166 | the first room in creation order that the socket hosts or plays in, or none |
| Orchestrator.Server.Disconnect | server.js:150-167 | at the first involved room: deletes it if the socket hosts it, else removes the player; all other rooms unchanged |
| Scenarios.EndingTwiceScoresTwice | server.js:99-103 | two `host:endQuestion` calls give a correct answerer two points |
| Scenarios.StaleTimerEndsNextQuestion | server.js:89-94 | a timer armed for a question that was ended and moved past ends the next question |
| Scenarios.RejoinBlocksOldName | server.js:118-123 | after one socket joins as two names, another socket is refused the first name, which no player has any more |
| Scenarios.SecondAnaIsRefused | server.js:112-121 | "Ana" joins, and "ana " from another socket is refused as taken |
| Scenarios.LateAnswerIsDropped | server.js:136 | an answer after the question ended is dropped and leaves the ledger and the scores |
| Scenarios.TimerAfterManualEndIsIgnored | server.js:92 | a timer firing after the host ended the question does nothing; the scores are those of the one end |
| Scenarios.TimerThenManualEndScoresTwice | server.js:99-103 | a manual end after the timer ended the question gives a correct answerer two points |

## Left out

- Transport: socket.io delivery, `socket.join` and the room addressing of broadcasts are not modelled. Payloads are returned as values.
- `socket.data.playerName` is not modelled, because nothing in the core reads it.
- `Math.random` is replaced by a list of injected draws.
- RoomCodes.MakeCode: requires that some draw gives a free code. This stands in for the unbounded retry of the source.
- `setTimeout` scheduling, the delay and the order of timer callbacks are not modelled. A timer is a value, and firing it is an explicit call.
- `Date.now()` becomes a parameter.
- QuizDocument.IsCorrect: answers are tagged as an integer choice or a typed string. JavaScript's `Number(value)` coercion is not modelled, so a numeric string sent to a multiple-choice question is judged wrong, where the server would accept it.
- AnswerLedger.AnswerStats: for the same reason, only integer choices are counted, not numeric strings.
- Other JavaScript coercions of malformed input are not modelled: a non-string or missing name, a null quiz in `host:setQuiz`, a non-numeric or fractional time limit.
- Text.Key: lower-casing covers ASCII letters only. `toLowerCase` on other scripts is not modelled.
- AnswerLedger.HostAnswerList: the final sort by `localeCompare` is not modelled, because it depends on the locale. The list is given in ledger order.
- Rooms.Room.End: when `Faulted`, the thrown TypeError and what it does to the process are not modelled. The state change made before it is modelled.
- The static file server, the listener and the browser clients (`public/host.js`, `public/player.js`) are not part of this model.
