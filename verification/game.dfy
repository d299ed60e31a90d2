/**
 * The `Game` component (src/components/Game.tsx) as an object: its state
 * variables are fields, and each event handler is a method that updates them
 * in the order the handler does. Each method is proved to end in the state the
 * corresponding `Session` transition computes from the state before the event,
 * and to keep the invariant `Valid()`.
 */
module GameComponent {
  import opened Options
  import opened Session

  class Game {
    const logic: GameLogic
    const level: Level

    var goodGuesses: seq<string>
    var badGuesses: seq<string>
    var health: int
    var currentScore: int
    var playerStatus: PlayerStatus
    var fenPosition: nat
    var highlightPosition: nat
    var puzzleIdx: nat

    /** The fields as one value. */
    function Snapshot(): State
      reads this
    {
      State(goodGuesses, badGuesses, health, currentScore, playerStatus, fenPosition, highlightPosition, puzzleIdx)
    }

    ghost predicate Valid()
      reads this
    {
      Session.Valid(level, Snapshot())
    }

    /** Mounting the component on a level with at least one puzzle (the
        component reads `level.puzzles[0]` when it first renders). */
    constructor (logic: GameLogic, level: Level)
      requires |level.puzzles| > 0
      ensures this.logic == logic && this.level == level
      ensures Valid() && Snapshot() == Initial()
    {
      this.logic := logic;
      this.level := level;
      goodGuesses, badGuesses := [], [];
      health := MaxHealth;
      currentScore := 0;
      playerStatus := Idle;
      fenPosition, highlightPosition := 0, 0;
      puzzleIdx := 0;
    }

    /** `loseHealth`. */
    method LoseHealth() returns (outcome: Outcome)
      modifies this
      ensures Snapshot() == Session.LoseHealth(old(Snapshot())).next
      ensures outcome == Session.LoseHealth(old(Snapshot())).outcome
    {
      var newHealth := health - 1;
      health := newHealth;
      if newHealth < 1 {
        outcome := GameOver;
      } else {
        outcome := Stay;
      }
    }

    /** `gainPoints`. */
    method GainPoints()
      modifies this
      ensures Snapshot() == Session.GainPoints(old(Snapshot()))
    {
      currentScore := currentScore + 1;
    }

    /** `replayAnimation`. */
    method ReplayAnimation()
      modifies this
      ensures Snapshot() == Session.ReplayAnimation(old(Snapshot()))
    {
      fenPosition := 0;
      highlightPosition := 0;
    }

    /** `resetBoard`. */
    method ResetBoard()
      modifies this
      ensures Snapshot() == Session.ResetBoard(old(Snapshot()))
    {
      goodGuesses := [];
      badGuesses := [];
      ReplayAnimation();
      fenPosition := 0;
      highlightPosition := 0;
    }

    /** `gotoNextPuzzle`. */
    method GotoNextPuzzle() returns (outcome: Outcome)
      requires Valid()
      modifies this
      ensures Valid()
      ensures Snapshot() == NextPuzzle(level, old(Snapshot())).next
      ensures outcome == NextPuzzle(level, old(Snapshot())).outcome
    {
      if puzzleIdx >= |level.puzzles| - 1 {
        return NextLevel(NextLevelTarget(level));
      }
      puzzleIdx := puzzleIdx + 1;
      ResetBoard();
      outcome := Stay;
    }

    /** `checkCompleted`, the advance button. */
    method CheckCompleted() returns (outcome: Outcome)
      requires Valid()
      modifies this
      ensures Valid()
      ensures Snapshot() == Session.CheckCompleted(level, old(Snapshot())).next
      ensures outcome == Session.CheckCompleted(level, old(Snapshot())).outcome
    {
      var readyToAdvance := |goodGuesses| == |level.puzzles[puzzleIdx].solutions|;
      if playerStatus == GaveUp || readyToAdvance {
        outcome := GotoNextPuzzle();
        playerStatus := Playing;
        GainPoints();
      } else {
        outcome := LoseHealth();
      }
    }

    /** `checkGuess`. */
    method CheckGuess(guess: string) returns (correct: bool, outcome: Outcome)
      requires Valid()
      modifies this
      ensures Valid()
      ensures Snapshot() == Session.CheckGuess(level, logic, old(Snapshot()), guess).next
      ensures correct == Session.CheckGuess(level, logic, old(Snapshot()), guess).correct
      ensures outcome == Session.CheckGuess(level, logic, old(Snapshot()), guess).outcome
    {
      playerStatus := Playing;
      var p := level.puzzles[puzzleIdx];
      var guessAlias := Resolve(p.solutionAliases, guess);
      if guess in goodGuesses || guessAlias in goodGuesses || guess in badGuesses {
        return false, Stay;
      }
      correct := guess in p.solutions;
      outcome := Stay;
      if correct {
        var newGoodGuesses := goodGuesses + [guessAlias];
        goodGuesses := newGoodGuesses;
        if |newGoodGuesses| == |p.solutions| && logic.autoAdvance {
          outcome := GotoNextPuzzle();
          GainPoints();
        } else {
          GainPoints();
        }
      } else {
        outcome := LoseHealth();
        badGuesses := badGuesses + [guess];
        playerStatus := WrongGuess;
      }
    }

    /** `replay`. */
    method Replay() returns (outcome: Outcome)
      requires Valid()
      modifies this
      ensures Valid()
      ensures Snapshot() == Session.Replay(old(Snapshot())).next
      ensures outcome == Session.Replay(old(Snapshot())).outcome
    {
      outcome := LoseHealth();
      ResetBoard();
    }

    /** `giveUp`. Each unfound solution queues the append of its alias, but
        whether it is unfound is judged against the good guesses the handler
        started with; the queued appends take effect together once the
        handler has run. */
    method GiveUp() returns (outcome: Outcome)
      requires Valid()
      modifies this
      ensures Valid()
      ensures Snapshot() == Session.GiveUp(level, old(Snapshot())).next
      ensures outcome == Session.GiveUp(level, old(Snapshot())).outcome
    {
      outcome := LoseHealth();
      playerStatus := GaveUp;
      var p := level.puzzles[puzzleIdx];
      var guesses := QueueReveals(p.solutionAliases, goodGuesses, p.solutions);
      goodGuesses := guesses;
    }

    /** One tick of the animation interval. It fires only while `fenPosition`
        is at most the last index of the puzzle's positions. */
    method Tick() returns (fired: bool)
      requires Valid()
      modifies this
      ensures Valid()
      ensures fired <==> old(fenPosition) <= |level.puzzles[puzzleIdx].fens| - 1
      ensures Snapshot() == AnimationTick(level.puzzles[puzzleIdx].fens, old(Snapshot()))
    {
      var fens := level.puzzles[puzzleIdx].fens;
      fired := fenPosition <= |fens| - 1;
      if fired {
        if highlightPosition < fenPosition {
          highlightPosition := highlightPosition + 1;
        } else {
          fenPosition := fenPosition + 1;
        }
      }
    }
  }

  /** The `forEach` of `giveUp`: the good guesses once every queued append
      has been applied, each solution judged against `found`. */
  method QueueReveals(aliases: map<string, string>, found: seq<string>, solutions: seq<string>)
    returns (guesses: seq<string>)
    ensures guesses == found + Revealed(aliases, found, solutions)
  {
    guesses := found;
    for i := 0 to |solutions|
      invariant guesses == found + Revealed(aliases, found, solutions[..i])
    {
      var solution := solutions[i];
      var alias := Resolve(aliases, solution);
      assert solutions[..i + 1][..i] == solutions[..i];
      if solution !in found && alias !in found {
        guesses := guesses + [alias];
      }
    }
    assert solutions[..|solutions|] == solutions;
  }
}
