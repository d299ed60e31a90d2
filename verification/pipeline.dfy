/**
 * The puzzle post-processing of generate-puzzles/chesscoven/pipeline.py:
 * filling defaults into generated puzzles, turning puzzles into table rows,
 * the count filter and sample of `prune`, and the grouping of rows by level.
 *
 * A table (a pandas DataFrame) is a sequence of rows, a row a map from column
 * name to value. What the pipeline gets from code not modelled here is an
 * input: the puzzles a generator produces for a position or a game, the piece
 * count of a position (`count_pieces`), the source link of a game move
 * (`get_site`), the chess-rule check of `is_worthy`, and the rows the random
 * `sample` picks.
 */
module Pipeline {
  import opened Options
  import opened Camel

  /** A cell of the table. */
  datatype Value = Null | Int(i: int) | Str(s: string) | List(items: seq<Value>) | Pairs(entries: seq<(string, Value)>)

  type Row = map<string, Value>

  /** A generated puzzle: the fields the pipeline reads or fills, and the
      remaining fields of the record (highlights, solution aliases, level, ...)
      as (name, value) pairs in declaration order. */
  datatype Candidate = Candidate(
    fens: seq<string>,
    site: Option<string>,
    solutions: seq<Value>,
    gameMoveNumber: Option<int>,
    others: seq<(string, Value)>)

  /** `not puzzle.site`: no link, or an empty one. */
  predicate Missing(site: Option<string>) {
    site.None? || site.value == ""
  }

  /** `puzzle.game_move_number` used as a condition: present and not zero. */
  predicate Truthy(n: Option<int>) {
    n.Some? && n.value != 0
  }

  // ---------------------------------------------------------------------------
  // from_positions

  /** One row of the positions file, with the puzzles the generator makes from its position. */
  datatype PositionRow = PositionRow(fen: string, site: string, generated: seq<Candidate>)

  /** The defaults `from_positions` fills in: the row's site when the puzzle
      has none, and the row's position as the only position when it has none.
      A value that is present is never overwritten. */
  function FillFromPosition(p: Candidate, fen: string, site: string): (q: Candidate)
    ensures !Missing(p.site) ==> q.site == p.site
    ensures Missing(p.site) ==> q.site == Some(site)
    ensures p.fens != [] ==> q.fens == p.fens
    ensures p.fens == [] ==> q.fens == [fen]
    ensures q.(site := p.site, fens := p.fens) == p
  {
    var q := if Missing(p.site) then p.(site := Some(site)) else p;
    if q.fens == [] then q.(fens := [fen]) else q
  }

  function FillAllFromPosition(generated: seq<Candidate>, fen: string, site: string): (r: seq<Candidate>)
    ensures |r| == |generated|
    ensures forall i :: 0 <= i < |generated| ==> r[i] == FillFromPosition(generated[i], fen, site)
  {
    seq(|generated|, i requires 0 <= i < |generated| => FillFromPosition(generated[i], fen, site))
  }

  /** All puzzles of all rows, filled, in the order of the rows and, within a
      row, in the order the generator made them. */
  function PositionPuzzles(rows: seq<PositionRow>): seq<Candidate> {
    if rows == [] then []
    else
      var last := rows[|rows| - 1];
      PositionPuzzles(rows[..|rows| - 1]) + FillAllFromPosition(last.generated, last.fen, last.site)
  }

  function PositionCount(rows: seq<PositionRow>): nat {
    if rows == [] then 0 else PositionCount(rows[..|rows| - 1]) + |rows[|rows| - 1].generated|
  }

  /** `from_positions`, after the file has been read. */
  method FromPositions(rows: seq<PositionRow>) returns (puzzles: seq<Candidate>)
    ensures puzzles == PositionPuzzles(rows)
  {
    puzzles := [];
    for i := 0 to |rows|
      invariant puzzles == PositionPuzzles(rows[..i])
    {
      var row := rows[i];
      ghost var before := puzzles;
      for j := 0 to |row.generated|
        invariant puzzles == before + FillAllFromPosition(row.generated[..j], row.fen, row.site)
      {
        var puzzle := row.generated[j];
        if Missing(puzzle.site) {
          puzzle := puzzle.(site := Some(row.site));
        }
        if puzzle.fens == [] {
          puzzle := puzzle.(fens := [row.fen]);
        }
        puzzles := puzzles + [puzzle];
      }
      assert row.generated[..|row.generated|] == row.generated;
      assert rows[..i + 1][..i] == rows[..i];
    }
    assert rows[..|rows|] == rows;
  }

  /** Every generated puzzle is kept, and every kept puzzle has a position,
      so that `to_df` can read its first one. */
  lemma {:induction false} FromPositionsKeepsEveryPuzzle(rows: seq<PositionRow>)
    ensures |PositionPuzzles(rows)| == PositionCount(rows)
    ensures forall i :: 0 <= i < |PositionPuzzles(rows)| ==> PositionPuzzles(rows)[i].fens != []
  {
    if rows != [] {
      FromPositionsKeepsEveryPuzzle(rows[..|rows| - 1]);
    }
  }

  /** Filling twice changes nothing more, once the row's site is not empty. */
  lemma FillFromPositionIdempotent(p: Candidate, fen: string, site: string, fen': string, site': string)
    requires site != ""
    ensures FillFromPosition(FillFromPosition(p, fen, site), fen', site') == FillFromPosition(p, fen, site)
  {
  }

  // ---------------------------------------------------------------------------
  // from_games

  /** A game read from the games file, with the puzzles the generator makes from it. */
  datatype GameRow<G> = GameRow(game: G, generated: seq<Candidate>)

  /** The default `from_games` fills in: the link to the puzzle's move in the
      game, when the puzzle has a (non-zero) move number and no site. */
  function FillFromGame<G>(p: Candidate, game: G, getSite: (G, int) -> string): (q: Candidate)
    ensures Truthy(p.gameMoveNumber) && Missing(p.site) ==>
      q.site == Some(getSite(game, p.gameMoveNumber.value))
    ensures !(Truthy(p.gameMoveNumber) && Missing(p.site)) ==> q == p
    ensures q.(site := p.site) == p
  {
    if Truthy(p.gameMoveNumber) && Missing(p.site) then
      p.(site := Some(getSite(game, p.gameMoveNumber.value)))
    else
      p
  }

  function FillAllFromGame<G>(generated: seq<Candidate>, game: G, getSite: (G, int) -> string): (r: seq<Candidate>)
    ensures |r| == |generated|
    ensures forall i :: 0 <= i < |generated| ==> r[i] == FillFromGame(generated[i], game, getSite)
  {
    seq(|generated|, i requires 0 <= i < |generated| => FillFromGame(generated[i], game, getSite))
  }

  function GamePuzzles<G>(games: seq<GameRow<G>>, getSite: (G, int) -> string): seq<Candidate> {
    if games == [] then []
    else
      var last := games[|games| - 1];
      GamePuzzles(games[..|games| - 1], getSite) + FillAllFromGame(last.generated, last.game, getSite)
  }

  function GameCount<G>(games: seq<GameRow<G>>): nat {
    if games == [] then 0 else GameCount(games[..|games| - 1]) + |games[|games| - 1].generated|
  }

  /** `from_games`, after the games have been read. */
  method FromGames<G>(games: seq<GameRow<G>>, getSite: (G, int) -> string) returns (puzzles: seq<Candidate>)
    ensures puzzles == GamePuzzles(games, getSite)
  {
    puzzles := [];
    for i := 0 to |games|
      invariant puzzles == GamePuzzles(games[..i], getSite)
    {
      var row := games[i];
      ghost var before := puzzles;
      for j := 0 to |row.generated|
        invariant puzzles == before + FillAllFromGame(row.generated[..j], row.game, getSite)
      {
        var puzzle := row.generated[j];
        if Truthy(puzzle.gameMoveNumber) && Missing(puzzle.site) {
          puzzle := puzzle.(site := Some(getSite(row.game, puzzle.gameMoveNumber.value)));
        }
        puzzles := puzzles + [puzzle];
      }
      assert row.generated[..|row.generated|] == row.generated;
      assert games[..i + 1][..i] == games[..i];
    }
    assert games[..|games|] == games;
  }

  /** Every generated puzzle is kept. */
  lemma {:induction false} FromGamesKeepsEveryPuzzle<G>(games: seq<GameRow<G>>, getSite: (G, int) -> string)
    ensures |GamePuzzles(games, getSite)| == GameCount(games)
  {
    if games != [] {
      FromGamesKeepsEveryPuzzle(games[..|games| - 1], getSite);
    }
  }

  // ---------------------------------------------------------------------------
  // to_df

  function StrList(xs: seq<string>): Value {
    List(seq(|xs|, i requires 0 <= i < |xs| => Str(xs[i])))
  }

  /** `asdict(puzzle).items()`. */
  function AsDict(p: Candidate): seq<(string, Value)> {
    [ ("fens", StrList(p.fens)),
      ("site", if p.site.None? then Null else Str(p.site.value)),
      ("solutions", List(p.solutions)),
      ("game_move_number", if p.gameMoveNumber.None? then Null else Int(p.gameMoveNumber.value)) ]
    + p.others
  }

  /** The row built field by field under camelCase names; a later field wins
      over an earlier one with the same camelCase name. */
  function FieldsToRow(fields: seq<(string, Value)>): Row {
    if fields == [] then map[]
    else
      var last := fields[|fields| - 1];
      FieldsToRow(fields[..|fields| - 1])[ToCamel(last.0) := last.1]
  }

  /** The row `to_df` makes of one puzzle, given its piece count. */
  function RowOf(p: Candidate, pieceCount: nat): (row: Row)
    ensures "solutionCount" in row && row["solutionCount"] == Int(|p.solutions|)
    ensures "pieceCount" in row && row["pieceCount"] == Int(pieceCount)
  {
    FieldsToRow(AsDict(p))["solutionCount" := Int(|p.solutions|)]["pieceCount" := Int(pieceCount)]
  }

  /** The camelCase names of a list of fields. */
  function CamelNames(fields: seq<(string, Value)>): set<string> {
    set i | 0 <= i < |fields| :: ToCamel(fields[i].0)
  }

  /** A row's columns are exactly the camelCase field names. */
  lemma {:induction false} FieldsToRowKeys(fields: seq<(string, Value)>)
    ensures FieldsToRow(fields).Keys == CamelNames(fields)
  {
    if fields != [] {
      var init := fields[..|fields| - 1];
      FieldsToRowKeys(init);
      assert CamelNames(fields) == CamelNames(init) + {ToCamel(fields[|fields| - 1].0)} by {
        forall k | k in CamelNames(fields)
          ensures k in CamelNames(init) + {ToCamel(fields[|fields| - 1].0)}
        {
          var i :| 0 <= i < |fields| && k == ToCamel(fields[i].0);
          if i < |fields| - 1 {
            assert init[i] == fields[i];
          }
        }
        forall k | k in CamelNames(init)
          ensures k in CamelNames(fields)
        {
          var i :| 0 <= i < |init| && k == ToCamel(init[i].0);
          assert fields[i] == init[i];
        }
      }
    }
  }

  /** A field whose camelCase name no later field shares keeps its value. */
  lemma {:induction false} FieldsToRowValue(fields: seq<(string, Value)>, i: int)
    requires 0 <= i < |fields|
    requires forall j :: i < j < |fields| ==> ToCamel(fields[j].0) != ToCamel(fields[i].0)
    ensures ToCamel(fields[i].0) in FieldsToRow(fields)
    ensures FieldsToRow(fields)[ToCamel(fields[i].0)] == fields[i].1
  {
    if i < |fields| - 1 {
      var init := fields[..|fields| - 1];
      assert init[i] == fields[i];
      FieldsToRowValue(init, i);
    }
  }

  /** Each row of `to_df` has the camelCase field names as columns plus
      `solutionCount` and `pieceCount`, and `solutionCount` is the number of solutions. */
  lemma RowOfColumns(p: Candidate, pieceCount: nat)
    ensures RowOf(p, pieceCount).Keys == CamelNames(AsDict(p)) + {"solutionCount", "pieceCount"}
    ensures RowOf(p, pieceCount)["solutionCount"] == Int(|p.solutions|)
    ensures RowOf(p, pieceCount)["pieceCount"] == Int(pieceCount)
    ensures HasCounts(RowOf(p, pieceCount))
  {
    FieldsToRowKeys(AsDict(p));
  }

  /** The body of `to_df`'s loop: the row of one puzzle, field by field,
      then the two counts. */
  method BuildRow(puzzle: Candidate, pieceCount: nat) returns (row: Row)
    ensures row == RowOf(puzzle, pieceCount)
  {
    var fields := AsDict(puzzle);
    row := map[];
    for j := 0 to |fields|
      invariant row == FieldsToRow(fields[..j])
    {
      assert fields[..j + 1][..j] == fields[..j];
      row := row[ToCamel(fields[j].0) := fields[j].1];
    }
    assert fields[..|fields|] == fields;
    row := row["solutionCount" := Int(|puzzle.solutions|)];
    row := row["pieceCount" := Int(pieceCount)];
  }

  /** `to_df`: one row per puzzle, in order. A puzzle without a position
      makes `puzzle.fens[0]` raise, and then there is no table (None). */
  method ToDf(puzzles: seq<Candidate>, countPieces: string -> nat) returns (result: Option<seq<Row>>)
    ensures result.None? <==> exists i :: 0 <= i < |puzzles| && puzzles[i].fens == []
    ensures result.Some? ==> |result.value| == |puzzles|
    ensures result.Some? ==> forall i :: 0 <= i < |puzzles| ==>
      puzzles[i].fens != [] && result.value[i] == RowOf(puzzles[i], countPieces(puzzles[i].fens[0]))
  {
    var rows := [];
    for i := 0 to |puzzles|
      invariant |rows| == i
      invariant forall k :: 0 <= k < i ==>
        puzzles[k].fens != [] && rows[k] == RowOf(puzzles[k], countPieces(puzzles[k].fens[0]))
    {
      if puzzles[i].fens == [] {
        assert 0 <= i < |puzzles| && puzzles[i].fens == [];
        return None;
      }
      var row := BuildRow(puzzles[i], countPieces(puzzles[i].fens[0]));
      rows := rows + [row];
    }
    return Some(rows);
  }

  // ---------------------------------------------------------------------------
  // prune

  /** The parameters of `build_pruner`. */
  datatype Bounds = Bounds(
    minPieceCount: int,
    maxPieceCount: int,
    maxSolutionCount: int,
    minSolutionCount: int,
    minPiecePerSolution: int,
    maxPiecePerSolution: int)

  const DefaultBounds := Bounds(4, 24, 4, 1, 2, 12)

  /** The number of rows `prune` samples at most. */
  const SampleSize := 2000

  /** A row with non-negative integer counts, as every row of `to_df` has. */
  predicate HasCounts(row: Row) {
    && "solutionCount" in row && row["solutionCount"].Int? && row["solutionCount"].i >= 0
    && "pieceCount" in row && row["pieceCount"].Int? && row["pieceCount"].i >= 0
  }

  /** `pieces / solutions >= k` under floating-point division: the quotient
      for a positive count; for zero solutions, +inf when there are pieces and
      NaN (no comparison holds) when there are none. */
  predicate RatioAtLeast(pieces: nat, solutions: nat, k: int) {
    if solutions > 0 then (pieces as real) / (solutions as real) >= k as real else pieces > 0
  }

  /** `pieces / solutions <= k`, likewise: never for zero solutions (+inf or NaN). */
  predicate RatioAtMost(pieces: nat, solutions: nat, k: int) {
    if solutions > 0 then (pieces as real) / (solutions as real) <= k as real else false
  }

  /** The first mask of `prune`. */
  predicate KeepByCounts(b: Bounds, row: Row)
    ensures KeepByCounts(b, row) ==> HasCounts(row) && row["solutionCount"].i > 0
  {
    && HasCounts(row)
    && var solutionCount := row["solutionCount"].i;
       var pieceCount := row["pieceCount"].i;
       && solutionCount <= b.maxSolutionCount
       && solutionCount >= b.minSolutionCount
       && pieceCount >= b.minPieceCount
       && pieceCount <= b.maxPieceCount
       && RatioAtLeast(pieceCount, solutionCount, b.minPiecePerSolution)
       && RatioAtMost(pieceCount, solutionCount, b.maxPiecePerSolution)
  }

  lemma QuotientBounds(p: nat, s: nat, k: int)
    requires s > 0
    ensures (p as real) / (s as real) >= k as real <==> p >= k * s
    ensures (p as real) / (s as real) <= k as real <==> p <= k * s
  {
    var q := (p as real) / (s as real);
    assert q * (s as real) == p as real;
    assert (k * s) as real == (k as real) * (s as real);
    if q >= k as real {
      assert q * (s as real) >= (k as real) * (s as real);
    }
    if p >= k * s {
      assert q * (s as real) >= (k as real) * (s as real);
    }
    if q <= k as real {
      assert q * (s as real) <= (k as real) * (s as real);
    }
    if p <= k * s {
      assert q * (s as real) <= (k as real) * (s as real);
    }
  }

  /** The count mask keeps exactly the rows with at least one solution whose
      counts lie within their bounds, with the pieces-per-solution bounds as
      integer inequalities. A row with no solution is always dropped. */
  lemma CountMaskInIntegers(b: Bounds, row: Row)
    requires HasCounts(row)
    ensures
      var s := row["solutionCount"].i;
      var p := row["pieceCount"].i;
      KeepByCounts(b, row) <==>
        && s > 0
        && b.minSolutionCount <= s <= b.maxSolutionCount
        && b.minPieceCount <= p <= b.maxPieceCount
        && b.minPiecePerSolution * s <= p <= b.maxPiecePerSolution * s
  {
    var s := row["solutionCount"].i;
    var p := row["pieceCount"].i;
    if s > 0 {
      QuotientBounds(p, s, b.minPiecePerSolution);
      QuotientBounds(p, s, b.maxPiecePerSolution);
    }
  }

  /** With `build_pruner`'s default arguments, a row survives the count mask
      exactly when it has 1 to 4 solutions, 4 to 24 pieces, and 2 to 12
      pieces per solution. */
  lemma DefaultCountMask(row: Row)
    requires HasCounts(row)
    ensures
      var s := row["solutionCount"].i;
      var p := row["pieceCount"].i;
      KeepByCounts(DefaultBounds, row) <==>
        && 1 <= s <= 4
        && 4 <= p <= 24
        && 2 * s <= p <= 12 * s
  {
    CountMaskInIntegers(DefaultBounds, row);
  }

  /** `df[mask]`: the rows for which `keep` holds, in order. */
  function Filter(rows: seq<Row>, keep: Row -> bool): (r: seq<Row>)
    ensures |r| <= |rows|
    ensures forall x :: x in r <==> x in rows && keep(x)
    ensures multiset(r) <= multiset(rows)
    ensures forall x :: multiset(r)[x] == if keep(x) then multiset(rows)[x] else 0
  {
    if rows == [] then []
    else
      var rest := Filter(rows[1..], keep);
      assert rows == [rows[0]] + rows[1..];
      assert multiset(rows) == multiset{rows[0]} + multiset(rows[1..]);
      if keep(rows[0]) then [rows[0]] + rest else rest
  }

  function TrueCount(bs: seq<bool>): nat {
    if bs == [] then 0 else (if bs[0] then 1 else 0) + TrueCount(bs[1..])
  }

  /** The rows the random sample picks, given as a mask. */
  function Select(rows: seq<Row>, chosen: seq<bool>): (r: seq<Row>)
    requires |chosen| == |rows|
    ensures |r| == TrueCount(chosen)
    ensures multiset(r) <= multiset(rows)
  {
    if rows == [] then []
    else
      var rest := Select(rows[1..], chosen[1..]);
      assert rows == [rows[0]] + rows[1..];
      if chosen[0] then [rows[0]] + rest else rest
  }

  function Min(a: int, b: int): int {
    if a <= b then a else b
  }

  /** The rows left after the count mask and the `is_worthy` check. */
  function Candidates(df: seq<Row>, b: Bounds, isWorthy: Row -> bool): seq<Row> {
    Filter(Filter(df, row => KeepByCounts(b, row)), isWorthy)
  }

  /** The rows `prune` samples from are every occurrence of a row passing
      both masks, and nothing else. */
  lemma CandidatesArePassingRows(df: seq<Row>, b: Bounds, isWorthy: Row -> bool)
    ensures forall x ::
      multiset(Candidates(df, b, isWorthy))[x] == if KeepByCounts(b, x) && isWorthy(x) then multiset(df)[x] else 0
  {
  }

  /** `prune`: the count mask, the `is_worthy` check, then a sample of at most
      2000 rows. `chosen` marks the rows the sample picks; it picks
      `min(len(df), 2000)` of them. */
  function Prune(df: seq<Row>, b: Bounds, isWorthy: Row -> bool, chosen: seq<bool>): (r: seq<Row>)
    requires |chosen| == |Candidates(df, b, isWorthy)|
    requires TrueCount(chosen) == Min(|Candidates(df, b, isWorthy)|, SampleSize)
    ensures |r| <= SampleSize
    ensures |r| == Min(|Candidates(df, b, isWorthy)|, SampleSize)
    ensures multiset(r) <= multiset(df)
    ensures forall row :: row in r ==> KeepByCounts(b, row) && isWorthy(row)
  {
    var kept := Candidates(df, b, isWorthy);
    var r := Select(kept, chosen);
    assert forall row :: row in r ==> row in kept by {
      forall row | row in r
        ensures row in kept
      {
        assert multiset(r)[row] > 0;
      }
    }
    r
  }

  // ---------------------------------------------------------------------------
  // write_puzzles

  /** A row's level; a row without one holds the missing value, as a table
      column does. */
  function LevelOf(row: Row): Value {
    if "level" in row then row["level"] else Null
  }

  /** The rows of one level, in order. */
  function RowsAt(df: seq<Row>, level: Value): (r: seq<Row>)
    ensures forall x :: x in r <==> x in df && LevelOf(x) == level
    ensures forall x :: LevelOf(x) == level ==> multiset(r)[x] == multiset(df)[x]
    ensures forall x :: LevelOf(x) != level ==> multiset(r)[x] == 0
  {
    if df == [] then []
    else
      var rest := RowsAt(df[1..], level);
      assert df == [df[0]] + df[1..];
      if LevelOf(df[0]) == level then [df[0]] + rest else rest
  }

  /** The distinct levels of the rows, without the missing one (groupby drops it). */
  function Levels(df: seq<Row>): set<Value> {
    set row | row in df && LevelOf(row) != Null :: LevelOf(row)
  }

  /** The grouping of `write_puzzles`: one entry per distinct level, holding
      the rows of that level in order. */
  function GroupByLevel(df: seq<Row>): (groups: map<Value, seq<Row>>)
    ensures groups.Keys == Levels(df)
    ensures forall l :: l in groups ==> groups[l] == RowsAt(df, l)
  {
    map l | l in Levels(df) :: RowsAt(df, l)
  }

  /** Every row with a level appears under its own level exactly as often as
      in the table; a row without a level appears in no group. */
  lemma RowUnderItsLevel(df: seq<Row>, x: Row)
    requires x in df
    ensures LevelOf(x) != Null ==> LevelOf(x) in GroupByLevel(df)
    ensures LevelOf(x) != Null ==> multiset(GroupByLevel(df)[LevelOf(x)])[x] == multiset(df)[x]
    ensures LevelOf(x) == Null ==> forall l :: l in GroupByLevel(df) ==> x !in GroupByLevel(df)[l]
  {
  }

  /** No row appears under a level other than its own. */
  lemma RowUnderNoOtherLevel(df: seq<Row>, x: Row, l: Value)
    requires l in GroupByLevel(df) && l != LevelOf(x)
    ensures x !in GroupByLevel(df)[l]
  {
  }
}
