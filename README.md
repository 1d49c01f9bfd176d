# Finger game: session store and client round flow

This project models the two stateful parts of a party game where players
hold a finger on the screen, one of them is eliminated each round, and the
last one standing wins.

- **The server's game store.** `backend/server.js` and the top-level
  `server.js` each keep an in-memory map from game id to a record
  `{players, eliminated, winner}`, with handlers for these operations:
  - create a game;
  - draw a random task, filtered by difficulty;
  - add a player;
  - eliminate a player;
  - read the status.

  The handlers' logic differs between the two files only in how addPlayer
  checks that `playerName` is a string. Their reply texts differ too
  (`message: "Game created!"` at server.js:46, "Invalid player name" and
  "Player already exists" at server.js:74 and :77), but reply texts are
  not modelled. `GameStore.Store` is one class with a `variant` constant
  for the type check. Its methods return a `Result` whose error cases are
  the handlers' 404, 400 and 500 answers.
  - `Session` states what a successful add or eliminate does to a record.
    It proves the record invariant and the winner rule.
  - `Leaderboard` is the backend's fold from winning rows to a
    name-to-wins map.
  - `Catalog` is the difficulty pool and the `Math.floor(Math.random() * n)`
    draw. The value of `Math.random()` is a real parameter in [0, 1).
- **The browser client.** `frontend/index.mjs` keeps its state in module
  globals that its event handlers update. `Client.GameClient` holds those
  globals as fields, and its methods are the handlers:
  - the settings, player-count and nickname wizard;
  - back navigation;
  - hold-to-ready;
  - the elimination outcome and the next round;
  - the winner screen's win counter;
  - restart;
  - the purge of denylisted winners.

  The hold timers are events:
  - pressing a button that is not ready schedules a timer;
  - releasing the button clears the timer recorded for that player;
  - `TimerFired` delivers a timer that was not cleared.

  `Denylist` is the case-insensitive profanity test. `Wizard` holds the
  pure parts of the step handlers. `JsStrings` models the JavaScript
  string operations they rely on: `trim`, `toLowerCase`, `includes`, and
  `new Set(xs).size`.

Behaviour of the code worth knowing when reading the model:

- **The server's winner is not final.** eliminate overwrites `winner`
  whenever exactly one player remains (backend/server.js:98-99,
  server.js:95-98), and addPlayer still accepts players after a win.
  `Session.WinnerIsReassigned` shows the title moving to a player added
  later. For the same reason, eliminating an already eliminated name
  again is not always a no-op: once a player has joined since, it can
  name a new winner (`Session.RepeatEliminateMovesWinner`).
- **Final-round winner on the client.** With two players left, "Show
  Winner" does not splice out the player just drawn for elimination
  (frontend/index.mjs:424-427). The winner screen names
  `remainingPlayers[0]` (frontend/index.mjs:556), which is the eliminated
  player whenever the draw picked index 0
  (`Client.FinalRoundWinnerIsEliminated`,
  `Client.FinalRoundCreditsEliminated`).
- **Empty task pool on the client.** An empty pool leaves the client stuck
  on the "Eliminating..." screen, because `task.type` throws.
  `RevealOutcome` then shows no outcome.
- **Denylist case.** Entries are not lower-cased, so only the name side of
  the test ignores case.
- **Blank nickname fields.** The nickname inputs carry `required`
  (frontend/index.mjs:173), so the browser refuses to submit a form with
  an empty field. A "blank" field that reaches the default-name branch is
  therefore one holding only whitespace; the model's `FillName` treats
  the empty and the whitespace-only field alike.
- **Rejected nicknames.** After a validation error, the nickname inputs
  are re-rendered empty.
- **Hold timers.** Timers are cleared only by a release. A second press
  overwrites the recorded timer id, so the first timer can no longer be
  cleared (`Client.DoublePressEscapesRelease`).

The model follows the code in each case.

## Model

| member | source | states |
|---|---|---|
| JsStrings.TrimStart | backend/server.js:78 | the result is a suffix of the input, what was cut is all whitespace, and the result does not start with whitespace |
| JsStrings.TrimEnd | backend/server.js:78 | the result is a prefix of the input, what was cut is all whitespace, and the result does not end with whitespace |
| JsStrings.Trim | backend/server.js:78 | the result is no longer than the input and, when non-empty, neither starts nor ends with whitespace |
| JsStrings.TrimEmptyIffBlank | backend/server.js:78 | a string trims to "" exactly when every character is ECMAScript whitespace |
| JsStrings.TrimIdempotent | frontend/index.mjs:191 | trimming a trimmed string changes nothing |
| JsStrings.ToLower | frontend/index.mjs:22 | lower-casing keeps the length |
| JsStrings.ToLowerAt | frontend/index.mjs:22 | each character of the result is the lower case of the character at that position |
| JsStrings.ToLowerIdempotent | frontend/index.mjs:22 | lower-casing a lower-cased string changes nothing |
| JsStrings.Includes | frontend/index.mjs:23 | a needle that starts the text is included, and an included needle is no longer than the text |
| JsStrings.IncludesIffInfix | frontend/index.mjs:23 | `s.includes(w)` holds exactly when `w` occurs at some position of `s` |
| JsStrings.NatToString | frontend/index.mjs:192 | the decimal text of a number is non-empty, all digits, the digits spell the number, and there is no leading zero except in "0" |
| JsStrings.DistinctIffSetSize | frontend/index.mjs:199 | a list's set never has more elements than the list, and has as many exactly when no element repeats |
| Catalog.RequestedDifficulty | backend/server.js:66 | a missing or empty `difficulty` query means "any", and any other value is used as given |
| Catalog.WithDifficulty | server.js:56-59 | a task is kept exactly when it is in the list and has the given difficulty |
| Catalog.Pool | backend/server.js:69 | "any" gives the whole task list; any other difficulty gives exactly the tasks with that difficulty |
| Catalog.PickIndex | backend/server.js:71 | the floor of `r * n` is a valid index into a non-empty pool, and 0 for an empty one |
| Session.Remaining | backend/server.js:98 | a player is left exactly when rostered and not eliminated; never more than the roster |
| Session.AfterAdd | backend/server.js:83 | the roster grows by one entry with the name at the end; the earlier entries, `eliminated` and `winner` are unchanged |
| Session.AfterEliminate | backend/server.js:95-99 | the roster is unchanged; the names eliminated are the old ones plus this one; a winner that changes is a rostered player who is not eliminated |
| Session.RemainingDistinct | backend/server.js:98 | filtering a roster without repeats gives a list without repeats |
| Session.AddPreservesInv | backend/server.js:80-83 | appending a new non-blank name keeps the roster free of duplicates and keeps the record invariant |
| Session.SoleSurvivorIffOneRemaining | backend/server.js:98-99 | on a roster without repeats, the filter has length 1 exactly when one player is the only one not eliminated |
| Session.EliminatePreservesInv | backend/server.js:91-96 | eliminating a rostered name keeps `eliminated` a duplicate-free part of `players`, and keeps the winner in the roster |
| Session.EliminateIdempotent | backend/server.js:95-102 | eliminating the same name twice in a row changes nothing the second time, so the repeated call reports the same `eliminated` and `winner` |
| Session.EliminateSetsWinner | backend/server.js:95-99 | the roster is unchanged and the name is added at most once; a sole survivor becomes the winner, and otherwise the winner stays as it was |
| Session.EliminateAllState | server.js:92-98 | a run of distinct eliminations appends their names in order and keeps the roster; if one player is left at the end, that player is the winner |
| Session.RemainingCount | server.js:95-97 | with a duplicate-free `eliminated` inside the roster, the number left is the roster size minus the number eliminated |
| Session.LastSurvivorWins | server.js:92-98 | after N-1 distinct eliminations from a roster of N, the one player not named is the winner |
| Session.OnlyUnnamedRemains | backend/server.js:98 | when all but one of a roster of distinct names are eliminated, the filter keeps exactly the one not named |
| Session.WinnerIsReassigned | backend/server.js:83-99 | a player added after a win, followed by another elimination, takes the title over |
| Session.LateJoinerState | backend/server.js:83-99 | adding "Ana" and "Bo", eliminating both and adding "Cy" leaves "Bo" as the recorded winner of a game where only "Cy" is still in |
| Session.RepeatEliminateMovesWinner | backend/server.js:95-99 | from that record, eliminating the already eliminated "Ana" again pushes nothing but makes "Cy" the winner |
| GameStore.HttpStatus | backend/server.js:67-93 | unknown game, unknown player and empty pool are 404; invalid or duplicate name are 400; a thrown handler is 500 |
| GameStore.NameError | backend/server.js:78 | only a string with a non-whitespace character passes; on the backend any value other than a string, `null` or a missing field makes `?.trim()` throw (500), and every other failure is a 400 |
| GameStore.Store.constructor | backend/server.js:47 | the store starts with no games |
| GameStore.Store.Create | backend/server.js:57-60 | the id maps to an empty record, other games are untouched, and the id is returned |
| GameStore.Store.RandomTask | backend/server.js:64-72 | unknown game is a 404; an empty pool is a 404; otherwise the task at the drawn index of the pool, which is from the list and has the requested difficulty unless "any"; nothing changes |
| GameStore.Store.AddPlayer | backend/server.js:75-85 | the name check comes before the game lookup, then the duplicate check, and each failure changes nothing; success appends the name at the end and returns the stored roster |
| GameStore.Store.Eliminate | backend/server.js:88-103 | unknown game or unrostered name is a 404 and changes nothing; otherwise the record becomes the eliminate update, and the reply is its `eliminated` and `winner` |
| GameStore.Store.Status | backend/server.js:106-110 | the stored record, which satisfies the record invariant, or a 404 |
| GameStore.TwoPlayerGame | backend/server.js:57-85 | create, then add "Ana" and "Bo": the record holds players ["Ana","Bo"], nobody eliminated and no winner |
| GameStore.EliminationExample | backend/server.js:57-110 | create, add "Ana" and "Bo", eliminate "Ana": status is players ["Ana","Bo"], eliminated ["Ana"], winner "Bo" |
| GameStore.DuplicateExample | server.js:69-81 | adding "Ana" twice: the second call answers "player exists" and the roster stays ["Ana"] |
| Leaderboard.RowKey | backend/server.js:134 | a row's name if it has a non-empty one, otherwise "Anonymous" |
| Leaderboard.MapSumRemove | backend/server.js:135 | the total of a count map can be taken key by key in any order |
| Leaderboard.MapSumBump | backend/server.js:135 | `counts[n] = (counts[n] \|\| 0) + 1` raises the total by exactly one |
| Leaderboard.CountKeyPositive | backend/server.js:133-136 | a name has a positive count exactly when some row has that name |
| Leaderboard.WinCounts | backend/server.js:128-139 | the keys are exactly the rows' names, each count is the number of rows with that name, and the counts add up to the number of rows |
| Denylist.AnyIncludedIff | frontend/index.mjs:23 | `AnyIncluded`, the model of `some(w => lower.includes(w))`, holds exactly when some entry occurs in the text |
| Denylist.ContainsBadWordIff | frontend/index.mjs:21-24 | `ContainsBadWord` refuses a name exactly when some denylist entry occurs in its lower-cased form |
| Denylist.CaseOfNameIgnored | frontend/index.mjs:22 | a name and its lower-cased form get the same verdict |
| Denylist.EmptyEntryMatchesAll | frontend/index.mjs:23 | an empty denylist entry refuses every name |
| Wizard.ClampPlayers | frontend/index.mjs:142-143 | the count is in [2, 8], kept when inside that range, otherwise moved to the nearer bound |
| Wizard.DefaultName | frontend/index.mjs:192 | "Player " followed by the decimal digits of i + 1, which do not start with a zero |
| Wizard.FillName | frontend/index.mjs:191-192 | the name is non-empty and already trimmed; a field with text gives its trimmed text, a blank field its default name |
| Wizard.FillNicknames | frontend/index.mjs:190-193 | one name per input field |
| Wizard.FilledNamesAreTrimmed | frontend/index.mjs:190-193 | each name is non-empty and already trimmed; a field with text gives its trimmed text, and a blank field gives "Player i+1" |
| Wizard.BlankFormIsDistinct | frontend/index.mjs:190-199 | a form left entirely blank gives distinct default names, so it never trips the duplicate check |
| Wizard.CheckNicknames | frontend/index.mjs:196-201 | the bad-word verdict exactly when some name is denylisted; the duplicate verdict exactly when none is and a name repeats; acceptance exactly when the list is clean and without repeats |
| Wizard.ErrorMessage | frontend/index.mjs:196-201 | the text shown is empty exactly when the names are accepted |
| Wizard.NoneReady | frontend/index.mjs:212 | `n` flags, all false |
| Wizard.AllReady | frontend/index.mjs:247 | `roundStatus.every(Boolean)` holds exactly when no flag is false |
| Wizard.RemoveAt | frontend/index.mjs:416 | one entry shorter; the entries before `k` keep their places, and those after move up by one |
| Wizard.RemoveAtRemovesExactlyOne | frontend/index.mjs:416-418 | on distinct names, exactly the spliced name disappears and the rest stays distinct |
| Wizard.ShownWinner | frontend/index.mjs:556 | the name the winner screen shows is one of the remaining players |
| Client.GameClient.constructor | frontend/index.mjs:27-69 | the settings step with the defaults (elimination, "any", 30 s, 2 players), the stored win counts, no nickname error, no round state, no timers and nothing pending |
| Client.GameClient.StartControlShown | frontend/index.mjs:277-283 | the "Start Elimination" button is on the page exactly when the hold-to-ready screen is up and no flag is false |
| Client.GameClient.PurgeBadWinners | frontend/index.mjs:33-44 | the names left are exactly the old ones without a bad word, with their counts; saved only if a name was removed |
| Client.GameClient.BackOneStep | frontend/index.mjs:70-75 | one step back when past step 0, never below 0 |
| Client.GameClient.SubmitSettings | frontend/index.mjs:119-126 | the chosen mode and difficulty, a time of 0 becomes 30, and step 1 |
| Client.GameClient.SubmitPlayerCount | frontend/index.mjs:141-150 | the clamped count, that many empty nicknames, no round state, and step 2 |
| Client.GameClient.SubmitNicknames | frontend/index.mjs:188-216 | the filled-in names are stored and checked; a rejection keeps step 2 and the round state; acceptance gives step 3, nobody ready, and the remaining players equal to the nicknames |
| Client.GameClient.RejectNames | frontend/index.mjs:203-207 | the names and the verdict are stored, and the wizard stays on step 2 |
| Client.GameClient.StartRound | frontend/index.mjs:208-214 | the accepted names are stored, the error is cleared, step 3, nobody ready, and every player remaining |
| Client.GameClient.PressReady | frontend/index.mjs:300-317 | a ready player becomes not ready, only that flag changes, and the start control disappears; a player not ready gets a new pending timer that replaces the recorded one |
| Client.GameClient.ReleaseReady | frontend/index.mjs:318-322 | for a player not ready, the recorded timer is cleared; all else is unchanged |
| Client.GameClient.TimerFired | frontend/index.mjs:311-314 | a cleared timer does nothing; a pending timer marks its player ready |
| Client.GameClient.StartElimination | frontend/index.mjs:326-331 | only reachable with everyone ready; step 5 and the outcome timer pending |
| Client.GameClient.RevealOutcome | frontend/index.mjs:381-412 | the draw picks an index into the remaining players and a task from the difficulty pool; an empty pool shows nothing |
| Client.GameClient.EliminateAndNextRound | frontend/index.mjs:414-422 | the drawn player is spliced out and the others keep their order; nicknames and count follow; nobody is ready; back to step 3 |
| Client.GameClient.ShowWinner | frontend/index.mjs:555-558 | `remainingPlayers[0]` gets one more win, starting from 0; other counts are unchanged; the map is saved; step 4 |
| Client.GameClient.Restart | frontend/index.mjs:602-609 | step 0, no nicknames, no round state; win counts kept |
| Client.EarlyReleaseStaysNotReady | frontend/index.mjs:310-322 | press then release before the timer: the late timer leaves every flag as it was, and only the flags and timers can change |
| Client.FullHoldMakesReady | frontend/index.mjs:310-314 | press and hold until the timer fires: that player becomes ready, nobody else changes, and only the flags and timers can change |
| Client.TwoHoldsMakeBothReady | frontend/index.mjs:310-314 | two players hold in turn: both become ready, and the page stays on the ready screen with the same players |
| Client.DoublePressEscapesRelease | frontend/index.mjs:311-319 | two presses and a release: the first timer still fires and makes the player ready, and only the flags and timers can change |
| Client.LowDrawPicksFirst | frontend/index.mjs:383-385 | with two players left, every draw below one half picks index 0 |
| Client.FinalRoundWinnerIsEliminated | frontend/index.mjs:408-427 | in the final round, a draw below one half eliminates the very player the winner screen names |
| Client.FinalRoundCreditsEliminated | frontend/index.mjs:381-430 | played through the page, that final round credits the win to the eliminated player, leaves every other win count as it was, and ends on the winner screen |

## Left out

- Catalog.RequestedDifficulty: only a missing or single string `difficulty`
  query is modelled. Express can also parse an array (from
  `?difficulty=a&difficulty=b`), which matches no task, so the handler
  answers 404 "No tasks for that difficulty".
- HTTP plumbing (Express routing, CORS, body parsing, listening) and the
  loading of the JSON datasets: the tasks and the denylist are constant
  parameters of the store and of the client.
- Game id generation (`Math.random().toString(36)`): `Create` takes the id
  as a parameter. A colliding id replaces the old record, as
  `games[id] = ...` does.
- Plain JavaScript objects for `games`, `winStats` and the leaderboard's
  `counts` (backend/server.js:128-135): keys that name
  `Object.prototype` members, such as `"constructor"` or `"__proto__"`, are
  treated like any other key.
- Airtable: the result write endpoint is not modelled, and neither are the
  leaderboard's paging and errors. `Leaderboard.WinCounts` folds the Name
  fields of all winning rows, given as one sequence.
- fetch, localStorage and JSON (de)serialisation: `persisted` is a ghost
  copy of what is saved, and the constructor takes the stored map.
- DOM rendering, colours, the highlight interval, confetti, vibration,
  sharing and memes: none affect the game state.
- Simple mode's winner draw and tasks mode's per-player task draw
  (`renderSimpleWinner`, `renderTasksMode`, `currentTask`): only their
  Restart handlers are modelled.
- Real time: timers are events. The model does not know that a hold lasts
  one second, or that the outcome appears 1.6 s after start.
- Client.GameClient.TimerFired: a stale timer re-renders the
  hold-to-ready screen over whatever screen is up, and its live buttons
  are not modelled. If that timer's index is past the end of
  `roundStatus`, JavaScript would grow the array; the model leaves the
  flags unchanged.
- Client.GameClient.RevealOutcome: the meme draw is not modelled.
- Client.GameClient.Restart: in simple mode the restart button appears
  only after the 1.8 s winner draw; the model allows it at step 3. In
  tasks mode with an empty difficulty pool, renderTasksMode throws at
  `currentTask[i].type` (frontend/index.mjs:533-535) before the restart
  handler is attached (frontend/index.mjs:544), so the page cannot
  restart there; the model still allows Restart at step 3.
- Client.GameClient.SubmitNicknames: `window.nicknameError` is modelled
  as the verdict of the check (`Wizard.NicknameCheck`); the text shown
  for it is `Wizard.ErrorMessage`. `currentTask = null` is not modelled,
  since tasks mode is not.
- Client.GameClient.SubmitSettings: `Number(...) || 30` is modelled for
  integers only. Fractional input and NaN (which also becomes 30) are not
  modelled.
- Wizard.ClampPlayers: modelled for integer input only. A fractional
  count and NaN are not modelled; NaN would pass `Math.max`.
- JsStrings.ToLower: covers ASCII, the Latin-1 capitals U+00C0 to U+00DE
  except U+00D7, and the Cyrillic capitals U+0400 to U+042F. Other scripts, and case mappings that change
  the length of a string, are left unchanged.
- Strings are sequences of Unicode scalar values. JavaScript's UTF-16
  view (an astral character as two code units, lone surrogates) is not
  modelled. `trim` uses the ECMAScript whitespace and line-terminator set.
- Concurrency between requests: each handler runs to completion, as in
  Node's event loop.
