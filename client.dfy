/** The browser side of the game (frontend/index.mjs): the page's module
    globals as the fields of one object, and its event handlers as methods.
    Screens, styles and animations are not modelled; each handler is called
    only while the control it is attached to is on the page, which its
    `requires` states. Timers are events: pressing a not-ready button
    schedules a timer, releasing it clears the last one scheduled for that
    player, and TimerFired delivers a timer that was not cleared. */
module Client {
  import opened Options
  import opened JsStrings
  import opened Catalog
  import opened Denylist
  import opened Wizard

  datatype Mode = Simple | Tasks | Elimination

  class GameClient {
    /** /api/bad-words and /api/tasks, fetched before the first render. */
    const badWords: seq<string>
    const tasks: seq<Task>

    var step: int
    var gameMode: Mode
    var taskDifficulty: string
    var taskTime: int
    var numPlayers: int
    var nicknames: seq<string>
    /** `window.nicknameError`, as the verdict whose text
        (ErrorMessage) is shown under the nickname form. */
    var nicknameError: NicknameCheck
    /** `window.roundStatus` and `window.remainingPlayers`; None is
        `undefined`/`null`. */
    var roundStatus: Option<seq<bool>>
    var remainingPlayers: Option<seq<string>>
    var winStats: map<string, nat>
    /** What localStorage holds under "nfact-winStats". */
    ghost var persisted: Option<map<string, nat>>

    /** Pending hold timers (timer id -> player index), `holdingTimeouts`
        (player index -> last timer id) and the next id setTimeout hands
        out. */
    var timers: map<nat, nat>
    var holdingTimeouts: map<nat, nat>
    var nextTimer: nat
    /** The 1600 ms outcome timer of renderElimination is pending. */
    var revealPending: bool
    /** The outcome screen is shown, with the index and task drawn. */
    var shownOutcome: Option<(nat, Task)>

    ghost predicate Valid()
      reads this
    {
      && 0 <= step <= 5
      && 2 <= numPlayers <= 8
      && (step >= 2 ==> |nicknames| == numPlayers)
      && (step >= 3 ==>
            && remainingPlayers == Some(nicknames)
            && roundStatus.Some? && |roundStatus.value| == numPlayers
            && CheckNicknames(nicknames, badWords) == NamesAccepted)
      && (step == 5 ==> gameMode == Elimination)
      && (revealPending ==> step == 5 && shownOutcome.None?)
      && (shownOutcome.Some? ==> step == 5 && shownOutcome.value.0 < numPlayers)
      && (forall t :: t in timers ==> t < nextTimer)
      && (forall i :: i in holdingTimeouts ==> holdingTimeouts[i] < nextTimer)
    }

    /** Page load: the settings screen, with the win counts read from
        localStorage (`stored`). purgeBadWinners runs next. */
    constructor (badWords: seq<string>, tasks: seq<Task>, stored: Option<map<string, nat>>)
      ensures Valid()
      ensures this.badWords == badWords && this.tasks == tasks
      ensures step == 0 && numPlayers == 2 && nicknames == [] && gameMode == Elimination
      ensures taskDifficulty == AnyDifficulty && taskTime == 30
      ensures winStats == stored.GetOr(map[]) && persisted == stored
      ensures roundStatus.None? && remainingPlayers.None? && timers == map[]
      ensures nicknameError == NamesAccepted && holdingTimeouts == map[] && nextTimer == 1
      ensures !revealPending && shownOutcome.None?
    {
      this.badWords := badWords;
      this.tasks := tasks;
      step := 0;
      gameMode := Elimination;
      taskDifficulty := AnyDifficulty;
      taskTime := 30;
      numPlayers := 2;
      nicknames := [];
      nicknameError := NamesAccepted;
      roundStatus := None;
      remainingPlayers := None;
      winStats := stored.GetOr(map[]);
      persisted := stored;
      timers := map[];
      holdingTimeouts := map[];
      nextTimer := 1;
      revealPending := false;
      shownOutcome := None;
    }

    /** The "Start Elimination" button is on the page: the hold-to-ready
        screen is up and no player's flag is false. */
    predicate StartControlShown(): (r: bool)
      reads this
      ensures r <==> step == 3 && gameMode == Elimination && roundStatus.Some? && false !in roundStatus.value
    {
      step == 3 && gameMode == Elimination && roundStatus.Some? && AllReady(roundStatus.value)
    }

    /** purgeBadWinners: every name that contains a bad word is deleted from
        the win counts, the others keep their counts, and the map is saved
        only if something was deleted. */
    method PurgeBadWinners()
      requires Valid()
      modifies this`winStats, this`persisted
      ensures Valid()
      ensures forall k :: k in winStats <==> k in old(winStats) && !ContainsBadWord(k, badWords)
      ensures forall k :: k in winStats ==> winStats[k] == old(winStats)[k]
      ensures persisted == if exists k :: k in old(winStats) && ContainsBadWord(k, badWords)
                           then Some(winStats) else old(persisted)
    {
      var changed := false;
      var keys := winStats.Keys;
      while keys != {}
        invariant keys <= old(winStats).Keys
        invariant forall k :: k in winStats <==>
          k in old(winStats) && (k in keys || !ContainsBadWord(k, badWords))
        invariant forall k :: k in winStats ==> winStats[k] == old(winStats)[k]
        invariant changed <==> exists k :: k in old(winStats) && k !in keys && ContainsBadWord(k, badWords)
        invariant persisted == old(persisted)
        decreases keys
      {
        var name :| name in keys;
        if ContainsBadWord(name, badWords) {
          winStats := winStats - {name};
          changed := true;
        }
        keys := keys - {name};
      }
      if changed {
        persisted := Some(winStats);
      }
    }

    /** backOneStep, behind the "← Back" link of steps 1 and 2 and of the
        hold-to-ready screen (step 3 in elimination mode). */
    method BackOneStep()
      requires Valid() && (step <= 2 || (step == 3 && gameMode == Elimination))
      modifies this`step
      ensures Valid()
      ensures step == if old(step) > 0 then old(step) - 1 else old(step)
      ensures step >= 0
    {
      if step > 0 {
        step := step - 1;
      }
    }

    /** Step 0, the settings form: `Number(time) || 30`. */
    method SubmitSettings(mode: Mode, difficulty: string, time: int)
      requires Valid() && step == 0
      modifies this`gameMode, this`taskDifficulty, this`taskTime, this`step
      ensures Valid()
      ensures gameMode == mode && taskDifficulty == difficulty
      ensures taskTime == if time == 0 then 30 else time
      ensures step == 1
    {
      gameMode := mode;
      taskDifficulty := difficulty;
      taskTime := if time == 0 then 30 else time;
      step := 1;
    }

    /** Step 1, "Next": the count is clamped to 2..8, the nickname list is
        reset to that many empty strings and the round state is dropped. */
    method SubmitPlayerCount(value: int)
      requires Valid() && step == 1
      modifies this`numPlayers, this`nicknames, this`roundStatus, this`remainingPlayers, this`step
      ensures Valid()
      ensures numPlayers == ClampPlayers(value)
      ensures |nicknames| == numPlayers && forall i :: 0 <= i < |nicknames| ==> nicknames[i] == ""
      ensures roundStatus.None? && remainingPlayers.None?
      ensures step == 2
    {
      numPlayers := ClampPlayers(value);
      nicknames := seq(numPlayers, _ => "");
      roundStatus := None;
      remainingPlayers := None;
      step := 2;
    }

    /** Step 2, "Start Game". `fields` holds the text of the nickname
        inputs, one per entry of `nicknames`. The filled-in names are kept
        in either case; a denylisted name (checked first) or a repeated
        name keeps the wizard on step 2 with the message, and an accepted
        list starts the game with nobody ready. */
    method SubmitNicknames(fields: seq<string>)
      requires Valid() && step == 2 && |fields| == |nicknames|
      modifies this`nicknames, this`nicknameError, this`step, this`roundStatus, this`remainingPlayers
      ensures Valid()
      ensures nicknames == FillNicknames(fields)
      ensures nicknameError == CheckNicknames(nicknames, badWords)
      ensures nicknameError != NamesAccepted ==>
        step == 2 && roundStatus == old(roundStatus) && remainingPlayers == old(remainingPlayers)
      ensures nicknameError == NamesAccepted ==>
        step == 3 && roundStatus == Some(NoneReady(numPlayers)) && remainingPlayers == Some(nicknames)
    {
      var names := FillNicknames(fields);
      var check := CheckNicknames(names, badWords);
      if check != NamesAccepted {
        RejectNames(names, check);
      } else {
        StartRound(names);
      }
    }

    /** The rejected branch of "Start Game": the names and the error are
        stored, and the wizard stays on step 2. */
    method RejectNames(names: seq<string>, check: NicknameCheck)
      requires Valid() && step == 2 && |names| == numPlayers && check != NamesAccepted
      modifies this`nicknames, this`nicknameError
      ensures Valid()
      ensures nicknames == names && nicknameError == check
    {
      nicknames := names;
      nicknameError := check;
    }

    /** The accepted branch of "Start Game": the names are stored, the
        error is cleared, and the first round starts with nobody ready
        and every player remaining. */
    method StartRound(names: seq<string>)
      requires Valid() && step == 2 && |names| == numPlayers
      requires CheckNicknames(names, badWords) == NamesAccepted
      modifies this`nicknames, this`nicknameError, this`step, this`roundStatus, this`remainingPlayers
      ensures Valid()
      ensures nicknames == names && nicknameError == NamesAccepted
      ensures step == 3 && roundStatus == Some(NoneReady(numPlayers)) && remainingPlayers == Some(names)
    {
      nicknames := names;
      nicknameError := NamesAccepted;
      step := 3;
      roundStatus := Some(NoneReady(numPlayers));
      remainingPlayers := Some(names);
    }

    /** mousedown/touchstart on player `i`'s ready button. A ready player
        becomes not ready at once; a player who is not ready starts a
        one-second hold timer, whose id replaces the one in
        `holdingTimeouts[i]`. */
    method PressReady(i: nat)
      requires Valid() && step == 3 && gameMode == Elimination && i < |nicknames|
      modifies this`roundStatus, this`timers, this`holdingTimeouts, this`nextTimer
      ensures Valid()
      ensures old(roundStatus.value[i]) ==>
        && roundStatus == Some(old(roundStatus.value)[i := false])
        && timers == old(timers) && holdingTimeouts == old(holdingTimeouts)
        && !StartControlShown()
      ensures !old(roundStatus.value[i]) ==>
        && roundStatus == old(roundStatus)
        && old(nextTimer) !in old(timers)
        && timers == old(timers)[old(nextTimer) := i]
        && holdingTimeouts == old(holdingTimeouts)[i := old(nextTimer)]
    {
      var status := roundStatus.value;
      if status[i] {
        roundStatus := Some(status[i := false]);
        assert !roundStatus.value[i];
        return;
      }
      var id := nextTimer;
      timers := timers[id := i];
      holdingTimeouts := holdingTimeouts[i := id];
      nextTimer := nextTimer + 1;
    }

    /** mouseup/touchend on player `i`'s button while it reads "Hold to
        Ready": clearTimeout(holdingTimeouts[i]). A ready button has no
        release handler. */
    method ReleaseReady(i: nat)
      requires Valid() && step == 3 && gameMode == Elimination && i < |nicknames|
      modifies this`timers
      ensures Valid()
      ensures old(roundStatus.value[i]) || i !in holdingTimeouts ==> timers == old(timers)
      ensures !old(roundStatus.value[i]) && i in holdingTimeouts ==>
        timers == old(timers) - {holdingTimeouts[i]}
    {
      if !roundStatus.value[i] && i in holdingTimeouts {
        timers := timers - {holdingTimeouts[i]};
      }
    }

    /** A hold timer `t` elapses. A cleared timer never fires; a pending one
        marks its player ready, whatever screen is up. With no
        `roundStatus` the assignment throws and nothing changes. */
    method TimerFired(t: nat)
      requires Valid()
      modifies this`roundStatus, this`timers
      ensures Valid()
      ensures timers == old(timers) - {t}
      ensures t !in old(timers) ==> roundStatus == old(roundStatus)
      ensures t in old(timers) && old(roundStatus).Some? && old(timers)[t] < |old(roundStatus).value| ==>
        roundStatus == Some(old(roundStatus).value[old(timers)[t] := true])
      ensures t in old(timers) && (old(roundStatus).None? || old(timers)[t] >= |old(roundStatus).value|) ==>
        roundStatus == old(roundStatus)
    {
      if t in timers {
        var i := timers[t];
        timers := timers - {t};
        if roundStatus.Some? && i < |roundStatus.value| {
          roundStatus := Some(roundStatus.value[i := true]);
        }
      } else {
        timers := timers - {t};
      }
    }

    /** "Start Elimination", present only when every player is ready:
        step 5 and the outcome timer is scheduled. */
    method StartElimination()
      requires Valid() && StartControlShown()
      modifies this`step, this`revealPending, this`shownOutcome
      ensures Valid()
      ensures step == 5 && revealPending && shownOutcome.None?
    {
      step := 5;
      revealPending := true;
      shownOutcome := None;
    }

    /** The outcome timer fires. `r` and `rTask` are the two Math.random()
        draws: the eliminated index in `remainingPlayers` and the task in
        the difficulty pool. An empty pool makes `task.type` throw, so no
        outcome screen (and no way on) appears. */
    method RevealOutcome(r: real, rTask: real)
      requires Valid() && 0.0 <= r < 1.0 && 0.0 <= rTask < 1.0
      modifies this`revealPending, this`shownOutcome
      ensures Valid()
      ensures !revealPending
      ensures !old(revealPending) ==> shownOutcome == old(shownOutcome)
      ensures old(revealPending) ==>
        var pool := Pool(tasks, taskDifficulty);
        var k := PickIndex(r, |nicknames|);
        && (pool == [] ==> shownOutcome.None?)
        && (pool != [] ==> shownOutcome == Some((k, pool[PickIndex(rTask, |pool|)])))
        && (pool != [] ==> k < |nicknames| && shownOutcome.value.1 in tasks)
    {
      if !revealPending {
        return;
      }
      revealPending := false;
      var remaining := remainingPlayers.value;
      var k := PickIndex(r, |remaining|);
      var pool := Pool(tasks, taskDifficulty);
      if |pool| == 0 {
        return;
      }
      var task := pool[PickIndex(rTask, |pool|)];
      assert task in pool;
      shownOutcome := Some((k, task));
    }

    /** "Eliminate & Next Round", shown when more than two players remain:
        the drawn player is spliced out, the others keep their order, the
        nickname list follows and everybody must get ready again. */
    method EliminateAndNextRound()
      requires Valid() && step == 5 && shownOutcome.Some? && |nicknames| > 2
      modifies this`remainingPlayers, this`roundStatus, this`nicknames, this`numPlayers, this`step,
        this`shownOutcome
      ensures Valid()
      ensures var k := old(shownOutcome.value.0);
        && nicknames == RemoveAt(old(nicknames), k)
        && remainingPlayers == Some(nicknames)
        && numPlayers == old(numPlayers) - 1
        && roundStatus == Some(NoneReady(numPlayers))
        && old(nicknames)[k] !in nicknames
      ensures step == 3 && shownOutcome.None?
      ensures !StartControlShown()
    {
      var k := shownOutcome.value.0;
      var remaining := RemoveAt(remainingPlayers.value, k);
      RemoveAtRemovesExactlyOne(remainingPlayers.value, k);
      remainingPlayers := Some(remaining);
      roundStatus := Some(NoneReady(|remaining|));
      nicknames := remaining;
      numPlayers := |remaining|;
      step := 3;
      shownOutcome := None;
      assert !roundStatus.value[0];
    }

    /** "Show Winner", shown when two players remain, followed by
        renderWinnerScreen: the winner is `remainingPlayers[0]` (the final
        draw splices nobody out), and their count goes up by one. */
    method ShowWinner()
      requires Valid() && step == 5 && shownOutcome.Some? && |nicknames| <= 2
      modifies this`step, this`shownOutcome, this`winStats, this`persisted
      ensures Valid()
      ensures step == 4
      ensures var w := ShownWinner(old(nicknames));
        && winStats == old(winStats)[w := (if w in old(winStats) then old(winStats)[w] else 0) + 1]
        && winStats[w] == (if w in old(winStats) then old(winStats)[w] else 0) + 1
        && (forall k :: k != w ==> (k in winStats <==> k in old(winStats)))
        && (forall k :: k != w && k in winStats ==> winStats[k] == old(winStats)[k])
      ensures persisted == Some(winStats)
    {
      step := 4;
      shownOutcome := None;
      var winner := ShownWinner(remainingPlayers.value);
      winStats := winStats[winner := (if winner in winStats then winStats[winner] else 0) + 1];
      persisted := Some(winStats);
    }

    /** "Restart Game" (winner screen, simple-mode and tasks-mode screens):
        back to the settings step with no players and no round state; the
        win counts are kept. Pending hold timers are not cleared. */
    method Restart()
      requires Valid() && (step == 4 || (step == 3 && gameMode != Elimination))
      modifies this`remainingPlayers, this`roundStatus, this`nicknames, this`step
      ensures Valid()
      ensures step == 0 && nicknames == [] && roundStatus.None? && remainingPlayers.None?
    {
      remainingPlayers := None;
      roundStatus := None;
      nicknames := [];
      step := 0;
    }
  }

  /** Pressing a not-ready button and releasing it before the timer fires:
      the late delivery of that timer leaves the player not ready. */
  method EarlyReleaseStaysNotReady(c: GameClient, i: nat)
    requires c.Valid() && c.step == 3 && c.gameMode == Elimination && i < |c.nicknames|
    requires !c.roundStatus.value[i]
    modifies c`roundStatus, c`timers, c`holdingTimeouts, c`nextTimer
    ensures c.Valid()
    ensures c.roundStatus == old(c.roundStatus)
  {
    c.PressReady(i);
    var t := c.holdingTimeouts[i];
    c.ReleaseReady(i);
    c.TimerFired(t);
  }

  /** Holding until the timer fires makes the player ready and changes no
      other player. */
  method FullHoldMakesReady(c: GameClient, i: nat)
    requires c.Valid() && c.step == 3 && c.gameMode == Elimination && i < |c.nicknames|
    requires !c.roundStatus.value[i]
    modifies c`roundStatus, c`timers, c`holdingTimeouts, c`nextTimer
    ensures c.Valid()
    ensures c.roundStatus == Some(old(c.roundStatus.value)[i := true])
  {
    c.PressReady(i);
    var t := c.holdingTimeouts[i];
    c.TimerFired(t);
  }

  /** A second press before release replaces the timer id in
      `holdingTimeouts`, so release clears only the second timer and the
      first one still makes the player ready. */
  method DoublePressEscapesRelease(c: GameClient, i: nat)
    requires c.Valid() && c.step == 3 && c.gameMode == Elimination && i < |c.nicknames|
    requires !c.roundStatus.value[i]
    modifies c`roundStatus, c`timers, c`holdingTimeouts, c`nextTimer
    ensures c.Valid()
    ensures c.roundStatus == Some(old(c.roundStatus.value)[i := true])
  {
    c.PressReady(i);
    var first := c.holdingTimeouts[i];
    c.PressReady(i);
    c.ReleaseReady(i);
    c.TimerFired(first);
  }

  /** `Math.floor(r * 2)` is 0 for every draw below one half. */
  lemma LowDrawPicksFirst(r: real)
    requires 0.0 <= r < 0.5
    ensures PickIndex(r, 2) == 0
  {
    assert r * 2.0 < 1.0;
  }

  /** In the final round, a draw below one half eliminates
      `remainingPlayers[0]`, and the winner screen then names that same
      player. */
  lemma FinalRoundWinnerIsEliminated(remaining: seq<string>, r: real)
    requires |remaining| == 2 && 0.0 <= r < 0.5
    ensures remaining[PickIndex(r, |remaining|)] == ShownWinner(remaining)
  {
    LowDrawPicksFirst(r);
  }

  /** The final round played through the page: the outcome screen names
      `remainingPlayers[0]` as eliminated for a draw below one half, and
      "Show Winner" then credits the win to that same player. */
  method FinalRoundCreditsEliminated(c: GameClient, r: real, rTask: real) returns (eliminated: string)
    requires c.Valid() && c.step == 5 && c.revealPending && |c.nicknames| == 2
    requires Pool(c.tasks, c.taskDifficulty) != []
    requires 0.0 <= r < 0.5 && 0.0 <= rTask < 1.0
    modifies c`revealPending, c`shownOutcome, c`step, c`winStats, c`persisted
    ensures c.Valid() && c.step == 4
    ensures eliminated == old(c.nicknames)[0]
    ensures eliminated in c.winStats
    ensures c.winStats[eliminated] == (if eliminated in old(c.winStats) then old(c.winStats)[eliminated] else 0) + 1
    ensures forall n :: n != eliminated ==>
      && (n in c.winStats <==> n in old(c.winStats))
      && (n in old(c.winStats) ==> c.winStats[n] == old(c.winStats)[n])
  {
    c.RevealOutcome(r, rTask);
    LowDrawPicksFirst(r);
    eliminated := c.nicknames[c.shownOutcome.value.0];
    c.ShowWinner();
  }

  /** Two players hold in turn: both become ready and the page stays on
      the ready screen with the same players, since a hold touches only
      the flags and the timers. */
  method TwoHoldsMakeBothReady(c: GameClient, i: nat, j: nat)
    requires c.Valid() && c.step == 3 && c.gameMode == Elimination
    requires i < |c.nicknames| && j < |c.nicknames| && i != j
    requires !c.roundStatus.value[i] && !c.roundStatus.value[j]
    modifies c`roundStatus, c`timers, c`holdingTimeouts, c`nextTimer
    ensures c.Valid() && c.step == 3 && c.nicknames == old(c.nicknames)
    ensures c.roundStatus == Some(old(c.roundStatus.value)[i := true][j := true])
  {
    FullHoldMakesReady(c, i);
    FullHoldMakesReady(c, j);
  }
}
