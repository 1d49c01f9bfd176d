/** One game record of the server's in-memory store,
    `{ players: [], eliminated: [], winner: null }`, and what a successful
    addPlayer and eliminate do to it. The route handlers in GameStore
    decide when these updates happen; this module states what they are
    and proves what they keep. */
module Session {
  import opened Options
  import opened JsStrings

  datatype Game = Game(players: seq<string>, eliminated: seq<string>, winner: Option<string>)

  /** The record a new game starts with. */
  const EmptyGame: Game := Game([], [], None)

  /** `players.filter(p => !eliminated.includes(p))`: the players still in
      the game, in roster order. */
  function Remaining(players: seq<string>, eliminated: seq<string>): (r: seq<string>)
    ensures |r| <= |players|
    ensures forall p :: p in r <==> p in players && p !in eliminated
  {
    if players == [] then []
    else (if players[0] in eliminated then [] else [players[0]]) + Remaining(players[1..], eliminated)
  }

  /** The players not yet eliminated are exactly `w`. */
  ghost predicate SoleSurvivor(g: Game, w: string) {
    w in g.players && w !in g.eliminated &&
    forall q :: q in g.players && q !in g.eliminated ==> q == w
  }

  /** What every stored record satisfies: no name twice in the roster or
      in the eliminated list, only rostered names eliminated, no blank
      name in the roster, and a winner (if any) drawn from the roster. */
  ghost predicate GameInv(g: Game) {
    && Distinct(g.players)
    && Distinct(g.eliminated)
    && (forall e :: e in g.eliminated ==> e in g.players)
    && (forall p :: p in g.players ==> Trim(p) != "")
    && (g.winner.Some? ==> g.winner.value in g.players)
  }

  /** `players.push(name)`: the roster grows by one entry, `name` at the
      end, and nothing else changes. */
  function AfterAdd(g: Game, name: string): (r: Game)
    ensures |r.players| == |g.players| + 1 && r.players[|g.players|] == name
    ensures r.players[..|g.players|] == g.players
    ensures r.eliminated == g.eliminated && r.winner == g.winner
  {
    g.(players := g.players + [name])
  }

  /** A successful eliminate: `name` is appended to `eliminated` unless it
      is there already, and then, if exactly one player remains, that
      player becomes the winner (whatever the winner was before). */
  function AfterEliminate(g: Game, name: string): (r: Game)
    ensures r.players == g.players
    ensures forall e :: e in r.eliminated <==> e in g.eliminated || e == name
    ensures r.winner != g.winner ==>
      r.winner.Some? && r.winner.value in g.players && r.winner.value !in r.eliminated
  {
    var e := if name in g.eliminated then g.eliminated else g.eliminated + [name];
    var rest := Remaining(g.players, e);
    Game(g.players, e, if |rest| == 1 then Some(rest[0]) else g.winner)
  }

  /** Successful eliminations of `names`, one after the other. */
  function EliminateAll(g: Game, names: seq<string>): Game
    decreases |names|
  {
    if names == [] then g else EliminateAll(AfterEliminate(g, names[0]), names[1..])
  }

  lemma AddPreservesInv(g: Game, name: string)
    requires GameInv(g) && Trim(name) != "" && name !in g.players
    ensures GameInv(AfterAdd(g, name))
  {
    var p := g.players + [name];
    forall i, j | 0 <= i < j < |p| ensures p[i] != p[j] {
      if j == |g.players| {
        assert p[i] == g.players[i];
      } else {
        assert p[i] == g.players[i] && p[j] == g.players[j];
      }
    }
  }

  lemma {:induction false} RemainingDistinct(players: seq<string>, eliminated: seq<string>)
    requires Distinct(players)
    ensures Distinct(Remaining(players, eliminated))
  {
    if players != [] {
      var rest := players[1..];
      assert Distinct(rest) by {
        forall i, j | 0 <= i < j < |rest| ensures rest[i] != rest[j] {
          assert rest[i] == players[i + 1] && rest[j] == players[j + 1];
        }
      }
      RemainingDistinct(rest, eliminated);
      var tail := Remaining(rest, eliminated);
      if players[0] !in eliminated {
        assert players[0] !in rest;
        var r := [players[0]] + tail;
        forall i, j | 0 <= i < j < |r| ensures r[i] != r[j] {
          if i == 0 {
            assert r[j] == tail[j - 1];
            assert r[j] in rest;
          } else {
            assert r[i] == tail[i - 1] && r[j] == tail[j - 1];
          }
        }
      }
    }
  }

  /** With a roster of distinct names, "exactly one player remains" is the
      same as "the filtered list has length one". */
  lemma SoleSurvivorIffOneRemaining(g: Game, w: string)
    requires Distinct(g.players)
    ensures SoleSurvivor(g, w) <==> Remaining(g.players, g.eliminated) == [w]
  {
    var rest := Remaining(g.players, g.eliminated);
    if SoleSurvivor(g, w) {
      RemainingDistinct(g.players, g.eliminated);
      assert w in rest;
      DistinctIffSetSize(rest);
      assert ToSet(rest) == {w};
      assert rest[0] == w;
    }
  }

  lemma EliminatePreservesInv(g: Game, name: string)
    requires GameInv(g) && name in g.players
    ensures GameInv(AfterEliminate(g, name))
  {
    var r := AfterEliminate(g, name);
    if name !in g.eliminated {
      var e := g.eliminated + [name];
      forall i, j | 0 <= i < j < |e| ensures e[i] != e[j] {
        if j == |g.eliminated| {
          assert e[i] == g.eliminated[i];
        } else {
          assert e[i] == g.eliminated[i] && e[j] == g.eliminated[j];
        }
      }
    }
    var rest := Remaining(g.players, r.eliminated);
    if |rest| == 1 {
      assert rest[0] in rest;
    }
  }

  /** Eliminating the same name twice in a row changes nothing the second
      time, so the repeated call reports the same `eliminated` and
      `winner`. With an addPlayer in between this no longer holds: see
      RepeatEliminateMovesWinner. */
  lemma EliminateIdempotent(g: Game, name: string)
    ensures AfterEliminate(AfterEliminate(g, name), name) == AfterEliminate(g, name)
  {
  }

  /** After an eliminate, if exactly one rostered player is left, that
      player is the winner; otherwise the previous winner is kept. */
  lemma EliminateSetsWinner(g: Game, name: string)
    requires Distinct(g.players)
    ensures var r := AfterEliminate(g, name);
      && r.players == g.players
      && r.eliminated == (if name in g.eliminated then g.eliminated else g.eliminated + [name])
      && (forall w :: SoleSurvivor(r, w) ==> r.winner == Some(w))
      && ((forall w :: !SoleSurvivor(r, w)) ==> r.winner == g.winner)
  {
    var r := AfterEliminate(g, name);
    var rest := Remaining(r.players, r.eliminated);
    forall w | SoleSurvivor(r, w) ensures r.winner == Some(w) {
      SoleSurvivorIffOneRemaining(r, w);
    }
    if |rest| == 1 {
      SoleSurvivorIffOneRemaining(r, rest[0]);
    }
  }

  lemma {:induction false} EliminateAllState(g: Game, names: seq<string>)
    requires Distinct(g.eliminated + names)
    ensures EliminateAll(g, names).players == g.players
    ensures EliminateAll(g, names).eliminated == g.eliminated + names
    ensures names != [] ==>
      var r := EliminateAll(g, names);
      var rest := Remaining(r.players, r.eliminated);
      |rest| == 1 ==> r.winner == Some(rest[0])
    decreases |names|
  {
    if names != [] {
      var all := g.eliminated + names;
      assert names[0] !in g.eliminated by {
        forall i | 0 <= i < |g.eliminated| ensures g.eliminated[i] != names[0] {
          assert all[i] == g.eliminated[i] && all[|g.eliminated|] == names[0];
        }
      }
      var g1 := AfterEliminate(g, names[0]);
      assert g1.eliminated + names[1..] == all;
      EliminateAllState(g1, names[1..]);
    }
  }

  /** With distinct rostered eliminations, the filter keeps exactly the
      players not counted in `eliminated`. */
  lemma RemainingCount(players: seq<string>, eliminated: seq<string>)
    requires Distinct(players) && Distinct(eliminated)
    requires forall e :: e in eliminated ==> e in players
    ensures |Remaining(players, eliminated)| == |players| - |eliminated|
  {
    var rest := Remaining(players, eliminated);
    RemainingDistinct(players, eliminated);
    DistinctIffSetSize(rest);
    DistinctIffSetSize(players);
    DistinctIffSetSize(eliminated);
    var p, e := ToSet(players), ToSet(eliminated);
    assert ToSet(rest) == p - e;
    assert e <= p;
    assert p == (p - e) + e;
    assert |p| == |p - e| + |e|;
  }

  /** For a roster of N distinct names and no eliminations yet, N - 1
      successful eliminations of distinct rostered players leave the one
      player not named as the winner. */
  lemma LastSurvivorWins(g: Game, names: seq<string>, w: string)
    requires GameInv(g) && g.eliminated == []
    requires Distinct(names) && forall n :: n in names ==> n in g.players
    requires |g.players| >= 2 && |names| == |g.players| - 1
    requires w in g.players && w !in names
    ensures EliminateAll(g, names).winner == Some(w)
  {
    assert g.eliminated + names == names;
    EliminateAllState(g, names);
    OnlyUnnamedRemains(g.players, names, w);
  }

  /** When all but one of a roster of distinct names are eliminated, the
      filter keeps exactly the one not named. */
  lemma OnlyUnnamedRemains(players: seq<string>, names: seq<string>, w: string)
    requires Distinct(players) && Distinct(names)
    requires forall n :: n in names ==> n in players
    requires |names| == |players| - 1
    requires w in players && w !in names
    ensures Remaining(players, names) == [w]
  {
    RemainingCount(players, names);
    var rest := Remaining(players, names);
    assert |rest| == 1;
    assert w in rest;
  }

  /** The winner is not final: a player added after a win, then a second
      elimination, moves the title to someone else. */
  lemma WinnerIsReassigned()
    ensures var g1 := AfterEliminate(Game(["Ana", "Bo"], [], None), "Ana");
      && g1.winner == Some("Bo")
      && AfterEliminate(AfterAdd(g1, "Cy"), "Bo").winner == Some("Cy")
  {
    var g1 := AfterEliminate(Game(["Ana", "Bo"], [], None), "Ana");
    assert Remaining(["Ana", "Bo"], ["Ana"]) == ["Bo"];
    assert g1 == Game(["Ana", "Bo"], ["Ana"], Some("Bo"));
    var g2 := AfterAdd(g1, "Cy");
    assert g2.players == ["Ana", "Bo", "Cy"];
    assert "Bo" !in g2.eliminated;
    assert g2.eliminated + ["Bo"] == ["Ana", "Bo"];
    assert Remaining(["Ana", "Bo", "Cy"], ["Ana", "Bo"]) == ["Cy"];
  }

  /** The record after "Ana" and "Bo" join, "Ana" and then "Bo" are
      eliminated, and "Cy" joins: both first players are out and "Bo" is
      still the winner. */
  lemma LateJoinerState()
    ensures AfterAdd(AfterEliminate(AfterEliminate(Game(["Ana", "Bo"], [], None), "Ana"), "Bo"), "Cy")
      == Game(["Ana", "Bo", "Cy"], ["Ana", "Bo"], Some("Bo"))
  {
    assert Remaining(["Ana", "Bo"], ["Ana"]) == ["Bo"];
    assert Remaining(["Ana", "Bo"], ["Ana", "Bo"]) == [];
  }

  /** Eliminating an already eliminated name is not a no-op once the
      roster has changed: from the record of LateJoinerState, a second
      eliminate of "Ana" pushes nothing but names "Cy" the winner. */
  lemma RepeatEliminateMovesWinner()
    ensures AfterEliminate(Game(["Ana", "Bo", "Cy"], ["Ana", "Bo"], Some("Bo")), "Ana")
      == Game(["Ana", "Bo", "Cy"], ["Ana", "Bo"], Some("Cy"))
  {
    assert Remaining(["Ana", "Bo", "Cy"], ["Ana", "Bo"]) == ["Cy"];
  }
}
