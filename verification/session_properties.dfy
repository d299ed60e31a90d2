/**
 * Properties of the session engine that relate several transitions, or a
 * transition and the state invariant.
 */
module SessionProperties {
  import opened Options
  import opened Session

  /** Every event keeps the state invariant: the puzzle index stays a valid
      index into the level and `0 <= highlightPosition <= fenPosition <= |fens|`. */
  lemma ApplyKeepsValid(level: Level, logic: GameLogic, s: State, e: Event)
    requires Valid(level, s)
    ensures Valid(level, Apply(level, logic, s, e).next)
  {
  }

  /** ... and so does every sequence of events. */
  lemma {:induction false} RunKeepsValid(level: Level, logic: GameLogic, s: State, events: seq<Event>)
    requires Valid(level, s)
    ensures Valid(level, Run(level, logic, s, events))
    decreases |events|
  {
    if events != [] {
      ApplyKeepsValid(level, logic, s, events[0]);
      RunKeepsValid(level, logic, Apply(level, logic, s, events[0]).next, events[1..]);
    }
  }

  /** Every good guess is the alias-resolved form of a solution of the current puzzle. */
  predicate GuessesAreSolutions(level: Level, s: State)
    requires OnPuzzle(level, s)
  {
    forall g :: g in s.goodGuesses ==> g in AliasesOf(Current(level, s).solutionAliases, Current(level, s).solutions)
  }

  /** Every event keeps the good guesses among the alias-resolved solutions:
      a correct guess records the alias of a solution, a give-up only aliases
      of solutions, and moving to another puzzle empties the list. */
  lemma ApplyKeepsGuessesAreSolutions(level: Level, logic: GameLogic, s: State, e: Event)
    requires OnPuzzle(level, s) && GuessesAreSolutions(level, s)
    ensures GuessesAreSolutions(level, Apply(level, logic, s, e).next)
  {
    if e.Guess? {
      var p := Current(level, s);
      if !IsDuplicate(p, s, e.guess) && e.guess in p.solutions {
        assert Resolve(p.solutionAliases, e.guess) in AliasesOf(p.solutionAliases, p.solutions);
      }
    }
  }

  /** ... and so does every sequence of events, from the start of a session on. */
  lemma {:induction false} RunKeepsGuessesAreSolutions(level: Level, logic: GameLogic, s: State, events: seq<Event>)
    requires OnPuzzle(level, s) && GuessesAreSolutions(level, s)
    ensures GuessesAreSolutions(level, Run(level, logic, s, events))
    decreases |events|
  {
    if events != [] {
      ApplyKeepsGuessesAreSolutions(level, logic, s, events[0]);
      RunKeepsGuessesAreSolutions(level, logic, Apply(level, logic, s, events[0]).next, events[1..]);
    }
  }

  /** Health never rises and the score never falls; each event moves either by at most one. */
  lemma {:induction false} RunHealthAndScore(level: Level, logic: GameLogic, s: State, events: seq<Event>)
    requires OnPuzzle(level, s)
    ensures s.health - |events| <= Run(level, logic, s, events).health <= s.health
    ensures s.currentScore <= Run(level, logic, s, events).currentScore <= s.currentScore + |events|
    decreases |events|
  {
    if events != [] {
      RunHealthAndScore(level, logic, Apply(level, logic, s, events[0]).next, events[1..]);
    }
  }

  /** A guess never records a good or a bad guess twice. (A give-up can: it
      appends aliases without comparing them with one another.) */
  lemma GuessKeepsListsDistinct(level: Level, logic: GameLogic, s: State, guess: string)
    requires OnPuzzle(level, s)
    requires NoDuplicates(s.goodGuesses) && NoDuplicates(s.badGuesses)
    ensures NoDuplicates(CheckGuess(level, logic, s, guess).next.goodGuesses)
    ensures NoDuplicates(CheckGuess(level, logic, s, guess).next.badGuesses)
  {
    var p := Current(level, s);
    var r := CheckGuess(level, logic, s, guess);
    if !IsDuplicate(p, s, guess) {
      var alias := Resolve(p.solutionAliases, guess);
      if r.next.goodGuesses == s.goodGuesses + [alias] {
        AppendFreshKeepsDistinct(s.goodGuesses, alias);
      }
      if r.next.badGuesses == s.badGuesses + [guess] {
        AppendFreshKeepsDistinct(s.badGuesses, guess);
      }
    }
  }

  lemma AppendFreshKeepsDistinct(xs: seq<string>, x: string)
    requires NoDuplicates(xs) && x !in xs
    ensures NoDuplicates(xs + [x])
  {
    forall i, j | 0 <= i < j < |xs + [x]|
      ensures (xs + [x])[i] != (xs + [x])[j]
    {
      if j == |xs| {
        assert (xs + [x])[i] == xs[i];
      }
    }
  }

  /** Submitting the same raw guess again right after is ignored: same guesses,
      health and score, unless the first submission moved to another puzzle
      (auto-advance), where the guess meets a fresh board. */
  lemma RepeatedGuessIsIgnored(level: Level, logic: GameLogic, s: State, guess: string)
    requires OnPuzzle(level, s)
    requires CheckGuess(level, logic, s, guess).next.puzzleIdx == s.puzzleIdx
    ensures
      var once := CheckGuess(level, logic, s, guess).next;
      var twice := CheckGuess(level, logic, once, guess);
      && !twice.correct
      && twice.outcome == Stay
      && twice.next == once.(playerStatus := Playing)
  {
    var once := CheckGuess(level, logic, s, guess).next;
    assert Current(level, once) == Current(level, s);
    var p := Current(level, s);
    if !IsDuplicate(p, s, guess) {
      if guess in p.solutions {
        assert Resolve(p.solutionAliases, guess) in once.goodGuesses;
      } else {
        assert guess in once.badGuesses;
      }
    }
  }

  /** A correct guess that completes the puzzle with auto-advance off leaves the
      puzzle in place and ready to advance; the advance button then moves on
      without a health penalty. */
  lemma ManualAdvanceLaw(level: Level, logic: GameLogic, s: State, guess: string)
    requires OnPuzzle(level, s) && !logic.autoAdvance
    requires !IsDuplicate(Current(level, s), s, guess) && guess in Current(level, s).solutions
    requires |s.goodGuesses| + 1 == |Current(level, s).solutions|
    ensures
      var after := CheckGuess(level, logic, s, guess).next;
      var advanced := CheckCompleted(level, after);
      && after.puzzleIdx == s.puzzleIdx
      && after.playerStatus == Playing
      && ReadyToAdvance(Current(level, after), after)
      && ShowAdvance(level, logic, after)
      && advanced.next.health == s.health
      && advanced.next.currentScore == s.currentScore + 2
      && (s.puzzleIdx + 1 < |level.puzzles| ==> advanced.next.puzzleIdx == s.puzzleIdx + 1)
      && (s.puzzleIdx + 1 == |level.puzzles| ==> advanced.outcome == NextLevel(NextLevelTarget(level)))
  {
    var after := CheckGuess(level, logic, s, guess).next;
    assert Current(level, after) == Current(level, s);
  }

  /** After a give-up the advance button is shown, and advancing is free. */
  lemma GiveUpThenAdvance(level: Level, logic: GameLogic, s: State)
    requires OnPuzzle(level, s)
    ensures
      var given := GiveUp(level, s).next;
      var advanced := CheckCompleted(level, given);
      && ShowAdvance(level, logic, given)
      && advanced.next.health == s.health - 1
      && advanced.next.currentScore == s.currentScore + 1
      && advanced.next.playerStatus == Playing
  {
    var given := GiveUp(level, s).next;
    assert given.puzzleIdx == s.puzzleIdx;
  }

  /** Replaying when the replay button is shown never ends the game. */
  lemma ShownReplayIsSafe(level: Level, s: State)
    requires OnPuzzle(level, s) && ShowReplay(level, s)
    ensures Replay(s).outcome == Stay && Replay(s).next.health >= 1
  {
  }

  /** The animation tick does not look at the player status. */
  lemma TickIgnoresStatus(fens: seq<string>, s: State, status: PlayerStatus)
    ensures AnimationTick(fens, s.(playerStatus := status)) == AnimationTick(fens, s).(playerStatus := status)
  {
  }

  function Repeat(e: Event, k: nat): (events: seq<Event>)
    ensures |events| == k && forall i :: 0 <= i < k ==> events[i] == e
  {
    if k == 0 then [] else [e] + Repeat(e, k - 1)
  }

  /** Each give-up costs one health point, whatever else holds. */
  lemma {:induction false} GiveUpsDrainHealth(level: Level, logic: GameLogic, s: State, k: nat)
    requires OnPuzzle(level, s)
    ensures Run(level, logic, s, Repeat(GiveUpRequest, k)).health == s.health - k
    ensures Run(level, logic, s, Repeat(GiveUpRequest, k)).puzzleIdx == s.puzzleIdx
    decreases k
  {
    if k > 0 {
      var events := Repeat(GiveUpRequest, k);
      assert events[1..] == Repeat(GiveUpRequest, k - 1);
      GiveUpsDrainHealth(level, logic, GiveUp(level, s).next, k - 1);
    }
  }

  /** The game-over page is reachable from every state that still has health:
      after `health - 1` give-ups, the next one ends the game. */
  lemma GameOverIsReachable(level: Level, logic: GameLogic, s: State)
    requires OnPuzzle(level, s) && s.health >= 1
    ensures
      var worn := Run(level, logic, s, Repeat(GiveUpRequest, s.health - 1));
      && worn.health == 1
      && Apply(level, logic, worn, GiveUpRequest).outcome == GameOver
  {
    GiveUpsDrainHealth(level, logic, s, s.health - 1);
  }

  // ---------------------------------------------------------------------------
  // Worked examples

  /** The alias table only changes what is RECORDED: with "Nf3" aliased to
      "g1f3" and "g1f3" the only solution, the guess "Nf3" is wrong, while
      "g1f3" is right and "Nf3" is then ignored as a repeat of it. */
  lemma AliasIsRecordedNotMatched()
    ensures
      var p := Puzzle(["fen"], [], None, map["Nf3" := "g1f3"], ["g1f3"]);
      var level := Level([p], None);
      var logic := GameLogic(false, MoveSolution, false);
      var s := Initial();
      var viaAlias := CheckGuess(level, logic, s, "Nf3");
      var direct := CheckGuess(level, logic, s, "g1f3");
      && !viaAlias.correct
      && viaAlias.next.badGuesses == ["Nf3"] && viaAlias.next.health == MaxHealth - 1
      && direct.correct && direct.next.goodGuesses == ["g1f3"]
      && !CheckGuess(level, logic, direct.next, "Nf3").correct
      && CheckGuess(level, logic, direct.next, "Nf3").next.health == MaxHealth
  {
    var p := Puzzle(["fen"], [], None, map["Nf3" := "g1f3"], ["g1f3"]);
    var level := Level([p], None);
    var s := Initial();
    assert Resolve(p.solutionAliases, "Nf3") == "g1f3";
    assert "Nf3" != "g1f3";
  }

  /** With auto-advance, finding "e4" and then "d4" moves to the next puzzle
      with a fresh board and two points, without an advance request. */
  lemma AutoAdvanceExample()
    ensures
      var first := Puzzle(["f1"], [], None, map[], ["e4", "d4"]);
      var second := Puzzle(["f2"], [], None, map[], ["c4"]);
      var level := Level([first, second], Some("next"));
      var logic := GameLogic(true, MoveSolution, false);
      var s := Run(level, logic, Initial(), [Guess("e4"), Guess("d4")]);
      && s.puzzleIdx == 1 && s.goodGuesses == [] && s.currentScore == 2 && s.health == MaxHealth
  {
    var first := Puzzle(["f1"], [], None, map[], ["e4", "d4"]);
    var second := Puzzle(["f2"], [], None, map[], ["c4"]);
    var level := Level([first, second], Some("next"));
    var logic := GameLogic(true, MoveSolution, false);
    var events := [Guess("e4"), Guess("d4")];
    assert "e4" != "d4";
    var s1 := Apply(level, logic, Initial(), events[0]).next;
    assert s1.goodGuesses == ["e4"] && s1.puzzleIdx == 0;
    assert events[1..] == [Guess("d4")];
    assert events[1..][1..] == [];
  }

  /** Giving up on a puzzle with solutions "a1" and "b2" and nothing found reveals both. */
  lemma GiveUpExample()
    ensures
      var p := Puzzle(["fen"], [], None, map[], ["a1", "b2"]);
      var level := Level([p], None);
      var t := GiveUp(level, Initial());
      && t.next.goodGuesses == ["a1", "b2"]
      && t.next.playerStatus == GaveUp
      && t.next.health == MaxHealth - 1
  {
    var sols := ["a1", "b2"];
    assert sols[..1] == ["a1"] && sols[..1][..0] == [];
    assert "a1" != "b2";
  }

  /** Two unfound solutions with the same alias: with "b" aliased to "a" and
      solutions "a" and "b", a give-up with nothing found records "a" twice. */
  lemma GiveUpCanRecordAliasTwice()
    ensures
      var p := Puzzle(["fen"], [], None, map["b" := "a"], ["a", "b"]);
      var t := GiveUp(Level([p], None), Initial());
      && t.next.goodGuesses == ["a", "a"]
      && !NoDuplicates(t.next.goodGuesses)
  {
    var aliases := map["b" := "a"];
    var sols := ["a", "b"];
    var p := Puzzle(["fen"], [], None, aliases, sols);
    assert sols[..1] == ["a"] && sols[..1][..0] == [];
    assert Resolve(aliases, "a") == "a" && Resolve(aliases, "b") == "a";
    assert Revealed(aliases, [], sols[..1]) == ["a"];
    assert Revealed(aliases, [], sols) == ["a", "a"];
    var t := GiveUp(Level([p], None), Initial());
    assert t.next.goodGuesses == [] + Revealed(aliases, [], sols);
    assert t.next.goodGuesses[0] == t.next.goodGuesses[1];
  }

  /** The frames of a three-position puzzle, tick by tick, as (fenPosition,
      highlightPosition): (0,0) (1,0) (1,1) (2,1) (2,2) (3,2), and there the
      timer stops, with the position frame one past the last position. */
  lemma AnimationTrace()
    ensures
      var fens := ["p0", "p1", "p2"];
      var s0 := Initial();
      var s1 := AnimationTick(fens, s0);
      var s2 := AnimationTick(fens, s1);
      var s3 := AnimationTick(fens, s2);
      var s4 := AnimationTick(fens, s3);
      var s5 := AnimationTick(fens, s4);
      && (s1.fenPosition, s1.highlightPosition) == (1, 0)
      && (s2.fenPosition, s2.highlightPosition) == (1, 1)
      && (s3.fenPosition, s3.highlightPosition) == (2, 1)
      && (s4.fenPosition, s4.highlightPosition) == (2, 2)
      && (s5.fenPosition, s5.highlightPosition) == (3, 2)
      && AnimationTick(fens, s5) == s5
  {
  }

  // ---------------------------------------------------------------------------
  // The highlight after a give-up

  /** As written, giving up on a square puzzle highlights only strings made of
      digits, so no solution square (a file letter and a rank digit) is ever
      among them. */
  lemma GaveUpHighlightsNoSquare(logic: GameLogic, p: Puzzle, s: State, sq: string)
    requires logic.solutionType == SquareSolution && s.playerStatus == GaveUp
    requires |sq| > 0 && 'a' <= sq[0] <= 'h'
    ensures sq !in HighlightedSquaresAsWritten(logic, p, s)
    ensures |HighlightedSquaresAsWritten(logic, p, s)| == |p.solutions|
  {
  }

  /** The smallest case: one solution "e4"; "0" is highlighted, "e4" is not. */
  lemma GaveUpHighlightExample()
    ensures
      var p := Puzzle(["fen"], [], None, map[], ["e4"]);
      var logic := GameLogic(false, SquareSolution, false);
      var s := GiveUp(Level([p], None), Initial()).next;
      && HighlightedSquaresAsWritten(logic, p, s) == ["0"]
      && "e4" !in HighlightedSquaresAsWritten(logic, p, s)
      && HighlightedSquares(logic, p, s) == ["e4"]
  {
    var p := Puzzle(["fen"], [], None, map[], ["e4"]);
    var logic := GameLogic(false, SquareSolution, false);
    var s := GiveUp(Level([p], None), Initial()).next;
    assert DecimalText(0) == "0";
    assert HighlightedSquaresAsWritten(logic, p, s) == [DecimalText(0)];
  }
}
