/**
 * The board of the `Chessboard` component (src/components/Chessboard.tsx):
 * the 8x8 grid of cells, its 180-degree flip when Black is to move, the name
 * of the square each cell stands for, and each cell's light/dark colour.
 *
 * The grid is what the chess library's `board()` returns for the position:
 * eight ranks from the eighth down to the first, each holding the files a to
 * h. Its contents are an input here. The render loop calls the outer index
 * `colIdx` and the inner one `rowIdx`; below, `r` is the outer index and `c`
 * the inner one.
 */
module Board {
  import opened Options

  datatype Color = White | Black
  datatype PieceKind = Pawn | Knight | Bishop | Rook | Queen | King
  datatype Piece = Piece(kind: PieceKind, color: Color)

  /** A cell: a piece, or `null`. */
  type Cell = Option<Piece>

  const Files: string := "abcdefgh"

  /** A grid with eight rows of eight cells. */
  predicate IsBoard<T>(g: seq<seq<T>>) {
    |g| == 8 && forall r :: 0 <= r < 8 ==> |g[r]| == 8
  }

  /** The board shown when there is no position: eight rows of eight `null`s. */
  function EmptyBoard(): seq<seq<Cell>> {
    seq(8, _ => seq(8, _ => None))
  }

  /** The grid the component draws: the parsed position when a non-empty
      position string is given, the empty board otherwise. */
  function BoardFor(fen: Option<string>, parsed: seq<seq<Cell>>): (g: seq<seq<Cell>>)
    ensures IsBoard(parsed) ==> IsBoard(g)
    ensures fen.None? || fen.value == "" ==>
      IsBoard(g) && forall r, c :: 0 <= r < 8 && 0 <= c < 8 ==> g[r][c].None?
    ensures fen.Some? && fen.value != "" ==> g == parsed
  {
    if fen.None? || fen.value == "" then EmptyBoard() else parsed
  }

  /** Whether the board is shown flipped: when the side to move is Black.
      `turn` is None when the position string cannot be parsed, and the board
      is then shown unflipped. */
  function FlippedFor(turn: Option<Color>): (flipped: bool)
    ensures turn.None? ==> !flipped
    ensures turn == Some(White) ==> !flipped
    ensures turn == Some(Black) ==> flipped
  {
    turn == Some(Black)
  }

  // ---------------------------------------------------------------------------
  // Square names

  /** A letter from a to h followed by a digit from 1 to 8. */
  predicate IsSquareName(name: string) {
    |name| == 2 && 'a' <= name[0] <= 'h' && '1' <= name[1] <= '8'
  }

  /** The file of a square name, 0 for a to 7 for h. */
  function FileIndex(name: string): int
    requires IsSquareName(name)
  {
    name[0] as int - 'a' as int
  }

  /** The rank of a square name, 1 to 8. */
  function RankNumber(name: string): int
    requires IsSquareName(name)
  {
    name[1] as int - '0' as int
  }

  /** `toString` of a number from 1 to 8. */
  function DigitText(n: int): string
    requires 1 <= n <= 8
  {
    [('0' as int + n) as char]
  }

  /** `toSquareName(row, col)`, with the source's argument order. */
  function ToSquareName(row: int, col: int, flipped: bool): (name: string)
    requires 0 <= row < 8 && 0 <= col < 8
    ensures IsSquareName(name)
    ensures FileIndex(name) == (if flipped then 7 - row else row)
    ensures RankNumber(name) == (if flipped then col + 1 else 8 - col)
  {
    var rowIdx := if flipped then 7 - row else row;
    var colIdx := if flipped then col else 7 - col;
    [Files[rowIdx]] + DigitText(colIdx + 1)
  }

  /** The name of the cell at outer index `r` and inner index `c`: unflipped,
      file `c` of rank `8 - r`; flipped, file `7 - c` of rank `r + 1`. */
  function CellName(r: int, c: int, flipped: bool): (name: string)
    requires 0 <= r < 8 && 0 <= c < 8
    ensures IsSquareName(name)
    ensures FileIndex(name) == (if flipped then 7 - c else c)
    ensures RankNumber(name) == (if flipped then r + 1 else 8 - r)
  {
    ToSquareName(c, r, flipped)
  }

  /** The cell that carries a square name in a given orientation. */
  function CellOf(name: string, flipped: bool): (rc: (int, int))
    requires IsSquareName(name)
    ensures 0 <= rc.0 < 8 && 0 <= rc.1 < 8
  {
    if flipped then (RankNumber(name) - 1, 7 - FileIndex(name))
    else (8 - RankNumber(name), FileIndex(name))
  }

  /** A square name is determined by its file and rank. */
  lemma SquareNameExtensional(a: string, b: string)
    requires IsSquareName(a) && IsSquareName(b)
    requires FileIndex(a) == FileIndex(b) && RankNumber(a) == RankNumber(b)
    ensures a == b
  {
    assert a[0] == b[0] && a[1] == b[1];
  }

  /** Naming is a bijection between the 64 cells and the 64 square names, in
      each orientation: `CellOf` undoes `CellName` ... */
  lemma CellNameInjective(r: int, c: int, flipped: bool)
    requires 0 <= r < 8 && 0 <= c < 8
    ensures CellOf(CellName(r, c, flipped), flipped) == (r, c)
  {
  }

  /** ... and every square name is the name of a cell. */
  lemma CellNameOnto(name: string, flipped: bool)
    requires IsSquareName(name)
    ensures CellName(CellOf(name, flipped).0, CellOf(name, flipped).1, flipped) == name
  {
    var rc := CellOf(name, flipped);
    SquareNameExtensional(CellName(rc.0, rc.1, flipped), name);
  }

  /** The 64 names of the board in render order. */
  function AllNames(flipped: bool): seq<string> {
    seq(64, i requires 0 <= i < 64 => CellName(i / 8, i % 8, flipped))
  }

  /** Each orientation names the 64 cells with 64 distinct square names. */
  lemma AllNamesDistinct(flipped: bool)
    ensures |AllNames(flipped)| == 64
    ensures forall i :: 0 <= i < 64 ==> IsSquareName(AllNames(flipped)[i])
    ensures forall i, j :: 0 <= i < j < 64 ==> AllNames(flipped)[i] != AllNames(flipped)[j]
  {
    var names := AllNames(flipped);
    forall i, j | 0 <= i < j < 64
      ensures names[i] != names[j]
    {
      CellNameInjective(i / 8, i % 8, flipped);
      CellNameInjective(j / 8, j % 8, flipped);
      assert i == 8 * (i / 8) + i % 8 && j == 8 * (j / 8) + j % 8;
    }
  }

  /** The corners: unflipped, the first cell is a8 and the first cell of the
      last row a1; flipped, the first cell is h1. */
  lemma CornerNames()
    ensures CellName(0, 0, false) == "a8"
    ensures CellName(7, 0, false) == "a1"
    ensures CellName(0, 0, true) == "h1"
    ensures CellName(7, 7, true) == "a8"
  {
    SquareNameExtensional(CellName(0, 0, false), "a8");
    SquareNameExtensional(CellName(7, 0, false), "a1");
    SquareNameExtensional(CellName(0, 0, true), "h1");
    SquareNameExtensional(CellName(7, 7, true), "a8");
  }

  /** The flipped name of a cell is the unflipped name of the opposite cell. */
  lemma FlippedNameIsOppositeName(r: int, c: int)
    requires 0 <= r < 8 && 0 <= c < 8
    ensures CellName(r, c, true) == CellName(7 - r, 7 - c, false)
  {
    SquareNameExtensional(CellName(r, c, true), CellName(7 - r, 7 - c, false));
  }

  // ---------------------------------------------------------------------------
  // The flip

  function Reversed<T>(s: seq<T>): (r: seq<T>)
    ensures |r| == |s|
    ensures forall i :: 0 <= i < |s| ==> r[i] == s[|s| - 1 - i]
  {
    if s == [] then [] else Reversed(s[1..]) + [s[0]]
  }

  function ReversedRows<T>(g: seq<seq<T>>): (h: seq<seq<T>>)
    ensures |h| == |g| && forall i :: 0 <= i < |g| ==> h[i] == Reversed(g[i])
  {
    seq(|g|, i requires 0 <= i < |g| => Reversed(g[i]))
  }

  /** The grid after `board.reverse()` and `row.reverse()` of every row. */
  function Flipped<T>(g: seq<seq<T>>): seq<seq<T>> {
    ReversedRows(Reversed(g))
  }

  /** On an 8x8 board the flip is the 180-degree turn:
      `flipped[r][c] == original[7 - r][7 - c]`. */
  lemma FlippedAt<T>(g: seq<seq<T>>)
    requires IsBoard(g)
    ensures IsBoard(Flipped(g))
    ensures forall r, c :: 0 <= r < 8 && 0 <= c < 8 ==> Flipped(g)[r][c] == g[7 - r][7 - c]
  {
  }

  /** Flipping twice gives back the board. */
  lemma FlipTwice<T>(g: seq<seq<T>>)
    requires IsBoard(g)
    ensures Flipped(Flipped(g)) == g
  {
    FlippedAt(g);
    FlippedAt(Flipped(g));
    var h := Flipped(Flipped(g));
    forall r | 0 <= r < 8
      ensures h[r] == g[r]
    {
      assert forall c :: 0 <= c < 8 ==> h[r][c] == g[r][c];
    }
  }

  /** A board holding the same value in every cell is its own flip. */
  lemma UniformBoardFlipped<T>(g: seq<seq<T>>, x: T)
    requires IsBoard(g)
    requires forall r, c :: 0 <= r < 8 && 0 <= c < 8 ==> g[r][c] == x
    ensures Flipped(g) == g
  {
    FlippedAt(g);
    var f := Flipped(g);
    forall r | 0 <= r < 8
      ensures f[r] == g[r]
    {
      assert forall c :: 0 <= c < 8 ==> f[r][c] == g[r][c];
    }
  }

  /** The empty board looks the same flipped. */
  lemma EmptyBoardFlipped()
    ensures IsBoard(EmptyBoard())
    ensures Flipped(EmptyBoard()) == EmptyBoard()
    ensures forall r, c :: 0 <= r < 8 && 0 <= c < 8 ==> EmptyBoard()[r][c] == None
  {
    UniformBoardFlipped(EmptyBoard(), None);
  }

  /** The piece drawn under a square name is the same in both orientations. */
  lemma SameSquareSamePiece<T>(g: seq<seq<T>>, r: int, c: int, r': int, c': int)
    requires IsBoard(g)
    requires 0 <= r < 8 && 0 <= c < 8 && 0 <= r' < 8 && 0 <= c' < 8
    requires CellName(r, c, true) == CellName(r', c', false)
    ensures Flipped(g)[r][c] == g[r'][c']
  {
    FlippedAt(g);
    FlippedNameIsOppositeName(r, c);
    CellNameInjective(r', c', false);
    CellNameInjective(7 - r, 7 - c, false);
  }

  /** `board.reverse()`: the rows reversed in place. */
  method ReverseInPlace(board: array<seq<Cell>>)
    modifies board
    ensures board[..] == Reversed(old(board[..]))
  {
    var n := board.Length;
    var i := 0;
    while i < n / 2
      invariant 0 <= i <= n / 2
      invariant forall k :: 0 <= k < i ==> board[k] == old(board[n - 1 - k]) && board[n - 1 - k] == old(board[k])
      invariant forall k :: i <= k < n - i ==> board[k] == old(board[k])
    {
      board[i], board[n - 1 - i] := board[n - 1 - i], board[i];
      i := i + 1;
    }
  }

  /** `board.map(row => row.reverse())`: every row reversed. */
  method ReverseEachRow(board: array<seq<Cell>>)
    modifies board
    ensures board[..] == ReversedRows(old(board[..]))
  {
    for j := 0 to board.Length
      invariant forall k :: 0 <= k < j ==> board[k] == Reversed(old(board[k]))
      invariant forall k :: j <= k < board.Length ==> board[k] == old(board[k])
    {
      board[j] := Reversed(board[j]);
    }
  }

  /** The flip done in place, as the component does it. Rows are values here. */
  method FlipBoard(board: array<seq<Cell>>)
    modifies board
    ensures board[..] == Flipped(old(board[..]))
  {
    ReverseInPlace(board);
    ReverseEachRow(board);
  }

  // ---------------------------------------------------------------------------
  // Square colours

  /** The colour of a square on a chessboard: a1 is dark, h1 light. */
  predicate SquareIsLight(name: string)
    requires IsSquareName(name)
  {
    (FileIndex(name) + RankNumber(name)) % 2 == 0
  }

  /** The `isLight` flag as the component computes it. */
  predicate IsLightAsWritten(r: int, c: int, flipped: bool) {
    (r + c) % 2 == (if flipped then 1 else 0)
  }

  /** As written, the flag is right for the unflipped board and wrong for every
      square of the flipped one: the flag attached to a square name inverts
      when the orientation changes. */
  lemma IsLightAsWrittenInvertsWhenFlipped(r: int, c: int)
    requires 0 <= r < 8 && 0 <= c < 8
    ensures IsLightAsWritten(r, c, false) == SquareIsLight(CellName(r, c, false))
    ensures IsLightAsWritten(r, c, true) == !SquareIsLight(CellName(r, c, true))
    ensures IsLightAsWritten(r, c, true) != IsLightAsWritten(7 - r, 7 - c, false)
  {
    var plain, turned := CellName(r, c, false), CellName(r, c, true);
    assert FileIndex(plain) + RankNumber(plain) == (r + c) + 2 * (4 - r);
    assert FileIndex(turned) + RankNumber(turned) == (r + c) + 2 * (4 - c);
    EvenShift(r + c, 4 - r);
    EvenShift(r + c, 4 - c);
    EvenShift(r + c, 7 - r - c);
  }

  lemma EvenShift(a: int, k: int)
    ensures (a + 2 * k) % 2 == a % 2
  {
  }

  /** The smallest case: flipped, the first cell is h1, a light square, drawn dark. */
  lemma FlippedCornerDrawnDark()
    ensures CellName(0, 0, true) == "h1"
    ensures SquareIsLight("h1")
    ensures !IsLightAsWritten(0, 0, true)
  {
    CornerNames();
  }

  /** The corrected flag: the colour of the cell's square, which on either
      orientation is light exactly when `r + c` is even. */
  predicate IsLight(r: int, c: int, flipped: bool)
    requires 0 <= r < 8 && 0 <= c < 8
    ensures IsLight(r, c, flipped) <==> SquareIsLight(CellName(r, c, flipped))
  {
    EvenShift(r + c, 4 - r);
    EvenShift(r + c, 4 - c);
    (r + c) % 2 == 0
  }

  /** What the component draws in one cell. */
  datatype SquareView<T> = SquareView(name: string, piece: T, isLight: bool, isGood: bool, isBad: bool)

  function View<T>(g: seq<seq<T>>, flipped: bool, goodSquares: seq<string>, badSquares: seq<string>,
                   r: int, c: int): SquareView<T>
    requires IsBoard(g) && 0 <= r < 8 && 0 <= c < 8
  {
    var name := CellName(r, c, flipped);
    SquareView(name, g[r][c], IsLight(r, c, flipped), name in goodSquares, name in badSquares)
  }

  /** Flipping the board changes where a square is drawn, never what is drawn
      for it: same piece, same colour, same good/bad marks. */
  lemma FlipPreservesEverySquare<T>(g: seq<seq<T>>, goodSquares: seq<string>, badSquares: seq<string>,
                                     r: int, c: int, r': int, c': int)
    requires IsBoard(g)
    requires 0 <= r < 8 && 0 <= c < 8 && 0 <= r' < 8 && 0 <= c' < 8
    requires CellName(r, c, true) == CellName(r', c', false)
    ensures IsBoard(Flipped(g))
    ensures View(Flipped(g), true, goodSquares, badSquares, r, c) == View(g, false, goodSquares, badSquares, r', c')
  {
    FlippedAt(g);
    SameSquareSamePiece(g, r, c, r', c');
  }
}
