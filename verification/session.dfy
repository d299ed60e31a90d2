/**
 * The puzzle session engine of the `Game` component (src/components/Game.tsx)
 * as pure transitions over the component's state.
 *
 * Every event handler of the component is one atomic transition computed from
 * the values the handler sees when the event arrives: React hands a handler the
 * state of the last render, so `loseHealth` reads the health from before the
 * event and `giveUp` tests solutions against the guesses from before the event.
 * Navigation (`router.push`) is not an effect here but the `Outcome` a
 * transition returns.
 *
 * The class `GameComponent.Game` keeps this state in fields and updates them
 * step by step; its methods are proved to end in exactly the states computed
 * here, and the lemmas below are about these functions.
 */
module Session {
  import opened Options

  /** Health at the start of a session (`MAX_HEALTH`). */
  const MaxHealth := 3

  /** The statuses the component assigns. */
  datatype PlayerStatus = Idle | Playing | WrongGuess | GaveUp

  datatype SolutionType = SquareSolution | MoveSolution | NumberSolution

  /** Immutable configuration of a game. */
  datatype GameLogic = GameLogic(autoAdvance: bool, solutionType: SolutionType, supportNoSolution: bool)

  /** One puzzle: its positions, per-position highlights, source link, alias table and solutions
      (numeric solutions are already converted to strings, as the component does). */
  datatype Puzzle = Puzzle(
    fens: seq<string>,
    highlights: seq<seq<string>>,
    site: Option<string>,
    solutionAliases: map<string, string>,
    solutions: seq<string>)

  datatype Level = Level(puzzles: seq<Puzzle>, nextLevel: Option<string>)

  /** Where the component navigates after an event: nowhere, to the game-over
      page, or to the level `target` (the next level's id, or "all"). */
  datatype Outcome = Stay | GameOver | NextLevel(target: string)

  /** The component's state variables. */
  datatype State = State(
    goodGuesses: seq<string>,
    badGuesses: seq<string>,
    health: int,
    currentScore: int,
    playerStatus: PlayerStatus,
    fenPosition: nat,
    highlightPosition: nat,
    puzzleIdx: nat)

  datatype Transition = Transition(next: State, outcome: Outcome)

  /** What `checkGuess` returns (whether the guess was correct) together with its transition. */
  datatype GuessResult = GuessResult(correct: bool, next: State, outcome: Outcome)

  /** The events a player (or the animation timer) feeds into the component. */
  datatype Event = Guess(guess: string) | Advance | GiveUpRequest | ReplayRequest | Tick

  /** The state right after the component mounts. */
  function Initial(): State {
    State([], [], MaxHealth, 0, Idle, 0, 0, 0)
  }

  /** The current puzzle exists; the component cannot render otherwise. */
  predicate OnPuzzle(level: Level, s: State) {
    s.puzzleIdx < |level.puzzles|
  }

  /** The state invariant: a current puzzle, and animation frames ordered and in range. */
  predicate Valid(level: Level, s: State) {
    && OnPuzzle(level, s)
    && s.highlightPosition <= s.fenPosition <= |level.puzzles[s.puzzleIdx].fens|
  }

  function Current(level: Level, s: State): Puzzle
    requires OnPuzzle(level, s)
  {
    level.puzzles[s.puzzleIdx]
  }

  /** The alias-table entry for a guess when there is one, else the guess itself. */
  function Resolve(aliases: map<string, string>, guess: string): (r: string)
    ensures r == guess || r in aliases.Values
    ensures guess !in aliases ==> r == guess
    ensures guess in aliases ==> r == aliases[guess]
  {
    if guess in aliases then aliases[guess] else guess
  }

  /** The alias-resolved forms of a list of solutions. */
  function AliasesOf(aliases: map<string, string>, solutions: seq<string>): set<string> {
    set sol | sol in solutions :: Resolve(aliases, sol)
  }

  /** A guess already recorded, in its raw form or its alias among the good
      guesses, or in its raw form among the bad ones. */
  predicate IsDuplicate(p: Puzzle, s: State, guess: string) {
    || guess in s.goodGuesses
    || Resolve(p.solutionAliases, guess) in s.goodGuesses
    || guess in s.badGuesses
  }

  /** `readyToAdvance`: as many good guesses as solutions. When the good
      guesses are distinct aliases of solutions and no two solutions share an
      alias, that is exactly when every solution has been found. */
  predicate ReadyToAdvance(p: Puzzle, s: State)
    ensures
      var aliases := AliasesOf(p.solutionAliases, p.solutions);
      NoDuplicates(s.goodGuesses) && (forall g :: g in s.goodGuesses ==> g in aliases) && |aliases| == |p.solutions| ==>
        (ReadyToAdvance(p, s) <==> forall sol :: sol in p.solutions ==> Resolve(p.solutionAliases, sol) in s.goodGuesses)
  {
    var aliases := AliasesOf(p.solutionAliases, p.solutions);
    var found := set g | g in s.goodGuesses;
    if NoDuplicates(s.goodGuesses) && found <= aliases then
      DistinctCount(s.goodGuesses);
      SubsetSameSize(found, aliases);
      |s.goodGuesses| == |p.solutions|
    else
      |s.goodGuesses| == |p.solutions|
  }

  /** A list without repeats has as many distinct elements as entries. */
  lemma {:induction false} DistinctCount(xs: seq<string>)
    requires NoDuplicates(xs)
    ensures |set x | x in xs| == |xs|
  {
    if xs != [] {
      var init := xs[..|xs| - 1];
      var last := xs[|xs| - 1];
      DistinctCount(init);
      assert (set x | x in xs) == (set x | x in init) + {last};
      assert last !in init;
    }
  }

  /** A subset as large as its superset is the whole superset. */
  lemma SubsetSameSize(a: set<string>, b: set<string>)
    requires a <= b
    ensures |a| == |b| ==> a == b
  {
    assert b == a + (b - a) && a * (b - a) == {};
    if |a| == |b| {
      assert |b - a| == 0;
    }
  }

  /** The level the component navigates to after the last puzzle. */
  function NextLevelTarget(level: Level): string {
    level.nextLevel.GetOr("all")
  }

  predicate NoDuplicates(xs: seq<string>) {
    forall i, j :: 0 <= i < j < |xs| ==> xs[i] != xs[j]
  }

  // ---------------------------------------------------------------------------
  // The handlers' building blocks

  /** `loseHealth`: one health point less; the game is over once health drops below 1. */
  function LoseHealth(s: State): (t: Transition)
    ensures t.next == s.(health := s.health - 1)
    ensures t.outcome == GameOver <==> s.health <= 1
    ensures t.outcome != GameOver ==> t.outcome == Stay
  {
    var newHealth := s.health - 1;
    Transition(s.(health := newHealth), if newHealth < 1 then GameOver else Stay)
  }

  /** `gainPoints`. */
  function GainPoints(s: State): State {
    s.(currentScore := s.currentScore + 1)
  }

  /** `replayAnimation`. */
  function ReplayAnimation(s: State): State {
    s.(fenPosition := 0, highlightPosition := 0)
  }

  /** `resetBoard`: no guesses and the animation back at its first frame. */
  function ResetBoard(s: State): State {
    ReplayAnimation(s.(goodGuesses := [], badGuesses := []))
  }

  /** `gotoNextPuzzle`: the next puzzle with a fresh board, or, from the last
      puzzle, navigation to the next level with the state left as it is. */
  function NextPuzzle(level: Level, s: State): (t: Transition)
    requires OnPuzzle(level, s)
    ensures OnPuzzle(level, t.next)
    ensures s.puzzleIdx + 1 < |level.puzzles| ==>
      && t.outcome == Stay
      && t.next.puzzleIdx == s.puzzleIdx + 1
      && t.next.goodGuesses == [] && t.next.badGuesses == []
      && t.next.fenPosition == 0 && t.next.highlightPosition == 0
      && t.next.health == s.health && t.next.currentScore == s.currentScore
      && t.next.playerStatus == s.playerStatus
    ensures s.puzzleIdx + 1 == |level.puzzles| ==>
      t.next == s && t.outcome == NextLevel(NextLevelTarget(level))
  {
    if s.puzzleIdx >= |level.puzzles| - 1 then
      Transition(s, NextLevel(NextLevelTarget(level)))
    else
      Transition(ResetBoard(s.(puzzleIdx := s.puzzleIdx + 1)), Stay)
  }

  // ---------------------------------------------------------------------------
  // The handlers

  /** `checkGuess`. Correctness is decided on the RAW guess, while the form
      recorded among the good guesses is its alias. */
  function CheckGuess(level: Level, logic: GameLogic, s: State, guess: string): (r: GuessResult)
    requires OnPuzzle(level, s)
    ensures OnPuzzle(level, r.next)
    // a guess is correct exactly when it is new and its raw form is a solution
    ensures r.correct <==> !IsDuplicate(Current(level, s), s, guess) && guess in Current(level, s).solutions
    // a repeated guess changes nothing but the status
    ensures IsDuplicate(Current(level, s), s, guess) ==>
      r.next == s.(playerStatus := Playing) && r.outcome == Stay
    // a new wrong guess: recorded raw, one health point less, status wrong-guess
    ensures !IsDuplicate(Current(level, s), s, guess) && guess !in Current(level, s).solutions ==>
      && r.next == s.(badGuesses := s.badGuesses + [guess], health := s.health - 1, playerStatus := WrongGuess)
      && (r.outcome == GameOver <==> s.health <= 1)
      && (r.outcome != GameOver ==> r.outcome == Stay)
    // a correct guess: one point more, health unchanged, status playing
    ensures r.correct ==>
      && r.next.currentScore == s.currentScore + 1
      && r.next.health == s.health
      && r.next.playerStatus == Playing
    // ... recorded as its alias unless it completed the puzzle with auto-advance on
    ensures r.correct && !(logic.autoAdvance && |s.goodGuesses| + 1 == |Current(level, s).solutions|) ==>
      && r.next.goodGuesses == s.goodGuesses + [Resolve(Current(level, s).solutionAliases, guess)]
      && r.next.badGuesses == s.badGuesses
      && r.next.puzzleIdx == s.puzzleIdx
      && r.next.fenPosition == s.fenPosition && r.next.highlightPosition == s.highlightPosition
      && r.outcome == Stay
    // ... and otherwise the puzzle advances by itself
    ensures r.correct && logic.autoAdvance && |s.goodGuesses| + 1 == |Current(level, s).solutions| ==>
      if s.puzzleIdx + 1 < |level.puzzles| then
        && r.next.puzzleIdx == s.puzzleIdx + 1
        && r.next.goodGuesses == [] && r.next.badGuesses == []
        && r.next.fenPosition == 0 && r.next.highlightPosition == 0
        && r.outcome == Stay
      else
        && r.next == s.(goodGuesses := s.goodGuesses + [Resolve(Current(level, s).solutionAliases, guess)],
                        currentScore := s.currentScore + 1, playerStatus := Playing)
        && r.outcome == NextLevel(NextLevelTarget(level))
  {
    var p := Current(level, s);
    var s0 := s.(playerStatus := Playing);
    var guessAlias := Resolve(p.solutionAliases, guess);
    if guess in s.goodGuesses || guessAlias in s.goodGuesses || guess in s.badGuesses then
      GuessResult(false, s0, Stay)
    else if guess in p.solutions then
      var newGoodGuesses := s.goodGuesses + [guessAlias];
      var s1 := s0.(goodGuesses := newGoodGuesses);
      if |newGoodGuesses| == |p.solutions| && logic.autoAdvance then
        var t := NextPuzzle(level, s1);
        GuessResult(true, GainPoints(t.next), t.outcome)
      else
        GuessResult(true, GainPoints(s1), Stay)
    else
      var t := LoseHealth(s0);
      GuessResult(false, t.next.(badGuesses := s.badGuesses + [guess], playerStatus := WrongGuess), t.outcome)
  }

  /** `checkCompleted`, the advance button: after a give-up or with every
      solution found, the next puzzle and one point; otherwise one health point less. */
  function CheckCompleted(level: Level, s: State): (t: Transition)
    requires OnPuzzle(level, s)
    ensures OnPuzzle(level, t.next)
    ensures s.playerStatus == GaveUp || ReadyToAdvance(Current(level, s), s) ==>
      && t.next.health == s.health
      && t.next.currentScore == s.currentScore + 1
      && t.next.playerStatus == Playing
      && (s.puzzleIdx + 1 < |level.puzzles| ==>
            && t.outcome == Stay
            && t.next.puzzleIdx == s.puzzleIdx + 1
            && t.next.goodGuesses == [] && t.next.badGuesses == []
            && t.next.fenPosition == 0 && t.next.highlightPosition == 0)
      && (s.puzzleIdx + 1 == |level.puzzles| ==>
            && t.outcome == NextLevel(NextLevelTarget(level))
            && t.next == s.(currentScore := s.currentScore + 1, playerStatus := Playing))
    ensures !(s.playerStatus == GaveUp || ReadyToAdvance(Current(level, s), s)) ==>
      && t.next == s.(health := s.health - 1)
      && (t.outcome == GameOver <==> s.health <= 1)
      && (t.outcome != GameOver ==> t.outcome == Stay)
  {
    if s.playerStatus == GaveUp || ReadyToAdvance(Current(level, s), s) then
      var t := NextPuzzle(level, s);
      Transition(GainPoints(t.next.(playerStatus := Playing)), t.outcome)
    else
      LoseHealth(s)
  }

  /** `replay`: always one health point, then the board reset. */
  function Replay(s: State): (t: Transition)
    ensures t.next == s.(health := s.health - 1, goodGuesses := [], badGuesses := [],
                         fenPosition := 0, highlightPosition := 0)
    ensures t.outcome == LoseHealth(s).outcome
  {
    var t := LoseHealth(s);
    Transition(ResetBoard(t.next), t.outcome)
  }

  /** A solution `giveUp` treats as not yet found: neither it nor its alias
      is among `found`. */
  predicate Unfound(aliases: map<string, string>, found: seq<string>, sol: string) {
    sol !in found && Resolve(aliases, sol) !in found
  }

  /** The number of positions in `solutions` holding an unfound solution. */
  function UnfoundCount(aliases: map<string, string>, found: seq<string>, solutions: seq<string>): nat {
    if solutions == [] then 0
    else
      UnfoundCount(aliases, found, solutions[..|solutions| - 1])
        + (if Unfound(aliases, found, solutions[|solutions| - 1]) then 1 else 0)
  }

  /** The aliases `giveUp` appends, in the order of the solutions: that of
      every solution which, neither in its own form nor as its alias, is among
      `found` (the good guesses from before the give-up). */
  function Revealed(aliases: map<string, string>, found: seq<string>, solutions: seq<string>): (r: seq<string>)
    ensures |r| <= |solutions|
    ensures forall x :: x in r ==> x !in found && x in AliasesOf(aliases, solutions)
    ensures forall i :: 0 <= i < |solutions| ==>
      solutions[i] in found || Resolve(aliases, solutions[i]) in found || Resolve(aliases, solutions[i]) in r
  {
    if solutions == [] then []
    else
      var last := solutions[|solutions| - 1];
      var alias := Resolve(aliases, last);
      Revealed(aliases, found, solutions[..|solutions| - 1])
        + (if last !in found && alias !in found then [alias] else [])
  }

  /** `Revealed` exactly: one entry per unfound solution (two unfound
      solutions with the same alias give that alias twice), and its entries are
      exactly the aliases of the unfound solutions. */
  lemma {:induction false} RevealedExactly(aliases: map<string, string>, found: seq<string>, solutions: seq<string>)
    ensures |Revealed(aliases, found, solutions)| == UnfoundCount(aliases, found, solutions)
    ensures forall x :: x in Revealed(aliases, found, solutions) <==>
      exists i :: 0 <= i < |solutions| && Unfound(aliases, found, solutions[i]) && x == Resolve(aliases, solutions[i])
  {
    if solutions != [] {
      var init := solutions[..|solutions| - 1];
      var last := solutions[|solutions| - 1];
      RevealedExactly(aliases, found, init);
      var r := Revealed(aliases, found, solutions);
      forall x | x in r
        ensures exists i :: 0 <= i < |solutions| && Unfound(aliases, found, solutions[i]) && x == Resolve(aliases, solutions[i])
      {
        if x in Revealed(aliases, found, init) {
          var i :| 0 <= i < |init| && Unfound(aliases, found, init[i]) && x == Resolve(aliases, init[i]);
          assert solutions[i] == init[i];
        } else {
          assert Unfound(aliases, found, solutions[|solutions| - 1]) && x == Resolve(aliases, solutions[|solutions| - 1]);
        }
      }
      forall x | exists i :: 0 <= i < |solutions| && Unfound(aliases, found, solutions[i]) && x == Resolve(aliases, solutions[i])
        ensures x in r
      {
        var i :| 0 <= i < |solutions| && Unfound(aliases, found, solutions[i]) && x == Resolve(aliases, solutions[i]);
        if i < |solutions| - 1 {
          assert init[i] == solutions[i];
        }
      }
    }
  }

  /** `giveUp`: one health point, status gave-up, and every solution not yet
      found revealed among the good guesses. */
  function GiveUp(level: Level, s: State): (t: Transition)
    requires OnPuzzle(level, s)
    ensures t.next.health == s.health - 1
    ensures t.outcome == LoseHealth(s).outcome
    ensures t.next.playerStatus == GaveUp
    // the earlier good guesses stay as a prefix ...
    ensures |s.goodGuesses| <= |t.next.goodGuesses| <= |s.goodGuesses| + |Current(level, s).solutions|
    ensures t.next.goodGuesses[..|s.goodGuesses|] == s.goodGuesses
    // ... followed only by aliases of solutions that were not yet found ...
    ensures forall i :: |s.goodGuesses| <= i < |t.next.goodGuesses| ==>
      && t.next.goodGuesses[i] !in s.goodGuesses
      && t.next.goodGuesses[i] in AliasesOf(Current(level, s).solutionAliases, Current(level, s).solutions)
    // ... and every solution is now found, in its own form or as its alias
    ensures forall sol :: sol in Current(level, s).solutions ==>
      sol in t.next.goodGuesses || Resolve(Current(level, s).solutionAliases, sol) in t.next.goodGuesses
    // exactly: one appended entry per unfound solution, and the appended
    // entries are the aliases of the unfound solutions
    ensures |t.next.goodGuesses| == |s.goodGuesses|
      + UnfoundCount(Current(level, s).solutionAliases, s.goodGuesses, Current(level, s).solutions)
    ensures forall x :: x in t.next.goodGuesses[|s.goodGuesses|..] <==>
      exists i :: 0 <= i < |Current(level, s).solutions|
        && Unfound(Current(level, s).solutionAliases, s.goodGuesses, Current(level, s).solutions[i])
        && x == Resolve(Current(level, s).solutionAliases, Current(level, s).solutions[i])
    ensures forall sol :: sol in Current(level, s).solutions && Unfound(Current(level, s).solutionAliases, s.goodGuesses, sol) ==>
      Resolve(Current(level, s).solutionAliases, sol) in t.next.goodGuesses
    ensures t.next.(goodGuesses := s.goodGuesses, health := s.health, playerStatus := s.playerStatus) == s
  {
    var p := Current(level, s);
    RevealedExactly(p.solutionAliases, s.goodGuesses, p.solutions);
    assert (s.goodGuesses + Revealed(p.solutionAliases, s.goodGuesses, p.solutions))[|s.goodGuesses|..]
        == Revealed(p.solutionAliases, s.goodGuesses, p.solutions);
    var t := LoseHealth(s);
    var revealed := Revealed(p.solutionAliases, s.goodGuesses, p.solutions);
    assert (s.goodGuesses + revealed)[..|s.goodGuesses|] == s.goodGuesses;
    Transition(t.next.(playerStatus := GaveUp, goodGuesses := s.goodGuesses + revealed), t.outcome)
  }

  /** One tick of the animation timer. The timer runs only while the position
      frame is at most the last index of `fens` (so the frame can end one past
      the last position), and each tick moves the highlight frame up to the
      position frame before it moves the position frame on. The player status
      plays no part. */
  function AnimationTick(fens: seq<string>, s: State): (r: State)
    ensures s.fenPosition > |fens| - 1 ==> r == s
    ensures s.fenPosition <= |fens| - 1 ==>
      && r.fenPosition + r.highlightPosition == s.fenPosition + s.highlightPosition + 1
      && s.fenPosition <= r.fenPosition && s.highlightPosition <= r.highlightPosition
      && (r.highlightPosition > s.highlightPosition <==> s.highlightPosition < s.fenPosition)
    ensures r.(fenPosition := s.fenPosition, highlightPosition := s.highlightPosition) == s
    ensures s.highlightPosition <= s.fenPosition <= |fens| ==>
      r.highlightPosition <= r.fenPosition <= |fens|
  {
    if s.fenPosition <= |fens| - 1 then
      if s.highlightPosition < s.fenPosition then
        s.(highlightPosition := s.highlightPosition + 1)
      else
        s.(fenPosition := s.fenPosition + 1)
    else
      s
  }

  // ---------------------------------------------------------------------------
  // ActionBar visibility

  /** `showGiveUp`. When it is hidden, advancing costs no health. */
  predicate ShowGiveUp(level: Level, logic: GameLogic, s: State)
    requires OnPuzzle(level, s)
    ensures !ShowGiveUp(level, logic, s) ==>
      && CheckCompleted(level, s).next.health == s.health
      && CheckCompleted(level, s).outcome != GameOver
  {
    logic.supportNoSolution || !ReadyToAdvance(Current(level, s), s)
  }

  /** `showReplay`: shown exactly when the puzzle has an animation to replay
      and replaying it cannot end the game. */
  predicate ShowReplay(level: Level, s: State)
    requires OnPuzzle(level, s)
    ensures ShowReplay(level, s) <==> |Current(level, s).fens| > 1 && Replay(s).outcome == Stay
  {
    |Current(level, s).fens| > 1 && s.health > 1
  }

  /** `showAdvance`. Hidden only while auto-advance is on and the player has
      not given up, and then the guess that completes the puzzle moves on by
      itself; after a give-up it is shown and advancing costs nothing. */
  predicate ShowAdvance(level: Level, logic: GameLogic, s: State)
    requires OnPuzzle(level, s)
    ensures !ShowAdvance(level, logic, s) && |s.goodGuesses| + 1 == |Current(level, s).solutions| ==>
      forall g :: g in Current(level, s).solutions && !IsDuplicate(Current(level, s), s, g) ==>
        CheckGuess(level, logic, s, g).next.puzzleIdx == s.puzzleIdx + 1
        || CheckGuess(level, logic, s, g).outcome.NextLevel?
    ensures s.playerStatus == GaveUp ==>
      ShowAdvance(level, logic, s) && CheckCompleted(level, s).next.health == s.health
  {
    !logic.autoAdvance || s.playerStatus == GaveUp
  }

  /** `showNoSolution`: the "no solution" answer is offered whenever the
      give-up button is, including once every solution has been found. */
  predicate ShowNoSolution(level: Level, logic: GameLogic, s: State)
    requires OnPuzzle(level, s)
    ensures ShowNoSolution(level, logic, s) ==> ShowGiveUp(level, logic, s)
  {
    logic.supportNoSolution
  }

  /** `pulseNoSolution`: the puzzle had no solution to reveal; advancing is then free. */
  predicate PulseNoSolution(level: Level, s: State)
    requires OnPuzzle(level, s)
    ensures PulseNoSolution(level, s) ==>
      && CheckCompleted(level, s).next.health == s.health
      && CheckCompleted(level, s).next.currentScore == s.currentScore + 1
  {
    s.playerStatus == GaveUp && |Current(level, s).solutions| == 0
  }

  // ---------------------------------------------------------------------------
  // Highlighted squares

  /** The decimal text of a natural number, as JavaScript prints it. */
  function DecimalText(n: nat): (r: string)
    ensures |r| > 0 && forall i :: 0 <= i < |r| ==> '0' <= r[i] <= '9'
    decreases n
  {
    var digit := ['0' + (n % 10) as char];
    if n < 10 then digit else DecimalText(n / 10) + digit
  }

  /** The squares the board highlights, as written: the highlights of the
      current frame, or, for a square puzzle the player gave up on, the keys of
      the solution array, which are its indices "0", "1", ... */
  function HighlightedSquaresAsWritten(logic: GameLogic, p: Puzzle, s: State): (r: seq<string>)
    ensures logic.solutionType == SquareSolution && s.playerStatus == GaveUp ==>
      |r| == |p.solutions| && forall k :: 0 <= k < |r| ==> r[k] == DecimalText(k)
    ensures !(logic.solutionType == SquareSolution && s.playerStatus == GaveUp) ==>
      r == (if s.highlightPosition < |p.highlights| then p.highlights[s.highlightPosition] else [])
  {
    if logic.solutionType == SquareSolution && s.playerStatus == GaveUp then
      seq(|p.solutions|, i requires 0 <= i < |p.solutions| => DecimalText(i))
    else if s.highlightPosition < |p.highlights| then
      p.highlights[s.highlightPosition]
    else
      []
  }

  /** The highlighted squares as evidently intended: after giving up on a
      square puzzle, the solution squares themselves. */
  function HighlightedSquares(logic: GameLogic, p: Puzzle, s: State): (r: seq<string>)
    ensures logic.solutionType == SquareSolution && s.playerStatus == GaveUp ==>
      forall sq :: sq in r <==> sq in p.solutions
    ensures !(logic.solutionType == SquareSolution && s.playerStatus == GaveUp) ==>
      r == HighlightedSquaresAsWritten(logic, p, s)
  {
    if logic.solutionType == SquareSolution && s.playerStatus == GaveUp then
      p.solutions
    else
      HighlightedSquaresAsWritten(logic, p, s)
  }

  // ---------------------------------------------------------------------------
  // Runs of events

  /** The component's response to one event. */
  function Apply(level: Level, logic: GameLogic, s: State, e: Event): (t: Transition)
    requires OnPuzzle(level, s)
    ensures OnPuzzle(level, t.next)
    ensures t.next.health == s.health || t.next.health == s.health - 1
    ensures t.next.currentScore == s.currentScore || t.next.currentScore == s.currentScore + 1
  {
    match e
    case Guess(g) =>
      var r := CheckGuess(level, logic, s, g);
      Transition(r.next, r.outcome)
    case Advance => CheckCompleted(level, s)
    case GiveUpRequest => GiveUp(level, s)
    case ReplayRequest => Replay(s)
    case Tick => Transition(AnimationTick(Current(level, s).fens, s), Stay)
  }

  /** The state after a sequence of events. */
  function Run(level: Level, logic: GameLogic, s: State, events: seq<Event>): (r: State)
    requires OnPuzzle(level, s)
    ensures OnPuzzle(level, r)
    decreases |events|
  {
    if events == [] then s
    else Run(level, logic, Apply(level, logic, s, events[0]).next, events[1..])
  }
}
