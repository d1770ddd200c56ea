/**
 * The rules of Lights Out on a fixed square grid, stated on values.
 *
 * A board is the row-major list of its cells: cell (row, col) sits at
 * position row * GridSize + col, and `true` means the light is on.
 * The class in game.dfy keeps its lights in a two-dimensional array and
 * is proved against the functions of this module.
 */
module Board {

  /** Side length of the grid (GRID_SIZE). */
  const GridSize: nat := 3

  /** Number of cells on the board, and the length of an encoded state. */
  const CellCount: nat := GridSize * GridSize

  /** The character that encodes a light that is on. */
  const OnSymbol: char := 'T'

  /** The character that encodes a light that is off. */
  const OffSymbol: char := 'F'

  predicate InGrid(row: int, col: int) {
    0 <= row < GridSize && 0 <= col < GridSize
  }

  /** Row-major position of cell (row, col). */
  function Index(row: int, col: int): (i: nat)
    requires InGrid(row, col)
    ensures i < CellCount
  {
    row * GridSize + col
  }

  /** Two coordinates share a position only if they are the same cell. */
  lemma IndexInjective(r1: int, c1: int, r2: int, c2: int)
    requires InGrid(r1, c1) && InGrid(r2, c2)
    ensures Index(r1, c1) == Index(r2, c2) <==> r1 == r2 && c1 == c2
  {
  }

  /** Every position on the board is the position of exactly one cell. */
  lemma IndexSurjective(i: int)
    requires 0 <= i < CellCount
    ensures InGrid(i / GridSize, i % GridSize)
    ensures Index(i / GridSize, i % GridSize) == i
  {
  }

  predicate IsBoard(b: seq<bool>) {
    |b| == CellCount
  }

  /** Boards that agree on every cell are equal. */
  lemma BoardExtensionality(a: seq<bool>, b: seq<bool>)
    requires IsBoard(a) && IsBoard(b)
    requires forall r, c :: InGrid(r, c) ==> a[Index(r, c)] == b[Index(r, c)]
    ensures a == b
  {
    forall i | 0 <= i < CellCount
      ensures a[i] == b[i]
    {
      IndexSurjective(i);
      assert a[Index(i / GridSize, i % GridSize)] == b[Index(i / GridSize, i % GridSize)];
    }
  }

  /** The board with every light set to `on`. */
  function Uniform(on: bool): (b: seq<bool>)
    ensures IsBoard(b)
    ensures forall i :: 0 <= i < |b| ==> b[i] == on
  {
    seq(CellCount, _ => on)
  }

  /** The winning condition: every light is off. */
  predicate Solved(b: seq<bool>) {
    forall i :: 0 <= i < |b| ==> !b[i]
  }

  /** A board is solved exactly when it is the all-off board. */
  lemma SolvedIffAllOff(b: seq<bool>)
    requires IsBoard(b)
    ensures Solved(b) <==> b == Uniform(false)
  {
    if Solved(b) {
      assert forall i :: 0 <= i < |b| ==> b[i] == Uniform(false)[i];
    }
  }

  // ---------------------------------------------------------------------
  // The move

  /** Flip the light at position i. */
  function Toggle(b: seq<bool>, i: nat): seq<bool>
    requires i < |b|
  {
    b[i := !b[i]]
  }

  function Abs(x: int): nat {
    if x < 0 then -x else x
  }

  /**
   * The cells a move at (row, col) flips: the cell itself and its
   * orthogonal neighbours, i.e. every cell at Manhattan distance at most 1.
   */
  predicate Affected(row: int, col: int, r: int, c: int) {
    Abs(r - row) + Abs(c - col) <= 1
  }

  /**
   * Selecting (row, col): flip the cell, then the cell above, below, to
   * the left and to the right of it, each only if it lies on the grid.
   * The result flips exactly the affected cells that lie on the grid;
   * in particular a move at the end of a row does not reach the next row.
   */
  function Select(b: seq<bool>, row: int, col: int): (s: seq<bool>)
    requires IsBoard(b) && InGrid(row, col)
    ensures IsBoard(s)
    ensures forall r, c :: InGrid(r, c) ==>
              s[Index(r, c)] == (b[Index(r, c)] != Affected(row, col, r, c))
  {
    var b0 := Toggle(b, Index(row, col));
    var b1 := if row > 0 then Toggle(b0, Index(row - 1, col)) else b0;
    var b2 := if row < GridSize - 1 then Toggle(b1, Index(row + 1, col)) else b1;
    var b3 := if col > 0 then Toggle(b2, Index(row, col - 1)) else b2;
    var b4 := if col < GridSize - 1 then Toggle(b3, Index(row, col + 1)) else b3;
    assert forall r, c :: InGrid(r, c) ==>
        b4[Index(r, c)] == (b[Index(r, c)] != Affected(row, col, r, c)) by {
      forall r, c | InGrid(r, c)
        ensures b4[Index(r, c)] == (b[Index(r, c)] != Affected(row, col, r, c))
      {
        IndexInjective(r, c, row, col);
        if row > 0 { IndexInjective(r, c, row - 1, col); }
        if row < GridSize - 1 { IndexInjective(r, c, row + 1, col); }
        if col > 0 { IndexInjective(r, c, row, col - 1); }
        if col < GridSize - 1 { IndexInjective(r, c, row, col + 1); }
      }
    }
    b4
  }

  /** Selecting the same cell twice restores the board. */
  lemma SelectInvolution(b: seq<bool>, row: int, col: int)
    requires IsBoard(b) && InGrid(row, col)
    ensures Select(Select(b, row, col), row, col) == b
  {
    BoardExtensionality(Select(Select(b, row, col), row, col), b);
  }

  /** The order of two moves does not matter. */
  lemma SelectCommutes(b: seq<bool>, r1: int, c1: int, r2: int, c2: int)
    requires IsBoard(b) && InGrid(r1, c1) && InGrid(r2, c2)
    ensures Select(Select(b, r1, c1), r2, c2) == Select(Select(b, r2, c2), r1, c1)
  {
    BoardExtensionality(Select(Select(b, r1, c1), r2, c2), Select(Select(b, r2, c2), r1, c1));
  }

  /** A move on a solved board always turns some light back on. */
  lemma SelectUnsolves(b: seq<bool>, row: int, col: int)
    requires IsBoard(b) && InGrid(row, col) && Solved(b)
    ensures !Solved(Select(b, row, col))
  {
    assert Select(b, row, col)[Index(row, col)];
  }

  // ---------------------------------------------------------------------
  // Counting the flipped cells

  /** Number of positions from `from` on where boards a and b differ. */
  function ChangedFrom(a: seq<bool>, b: seq<bool>, from: nat): nat
    requires |a| == |b|
    decreases |a| - from
  {
    if from >= |a| then 0
    else (if a[from] != b[from] then 1 else 0) + ChangedFrom(a, b, from + 1)
  }

  /** Number of positions from `from` on whose cell a move at (row, col) affects. */
  function AffectedFrom(row: int, col: int, from: nat): nat
    decreases CellCount - from
  {
    if from >= CellCount then 0
    else (if Affected(row, col, from / GridSize, from % GridSize) then 1 else 0)
         + AffectedFrom(row, col, from + 1)
  }

  lemma {:induction false} ChangedIsAffected(b: seq<bool>, row: int, col: int, from: nat)
    requires IsBoard(b) && InGrid(row, col)
    ensures ChangedFrom(b, Select(b, row, col), from) == AffectedFrom(row, col, from)
    decreases CellCount - from
  {
    if from < CellCount {
      IndexSurjective(from);
      ChangedIsAffected(b, row, col, from + 1);
    }
  }

  predicate IsCorner(row: int, col: int) {
    (row == 0 || row == GridSize - 1) && (col == 0 || col == GridSize - 1)
  }

  predicate IsInterior(row: int, col: int) {
    0 < row < GridSize - 1 && 0 < col < GridSize - 1
  }

  /** A move flips 3 cells at a corner, 5 in the interior and 4 on an edge. */
  lemma SelectFlipCount(b: seq<bool>, row: int, col: int)
    requires IsBoard(b) && InGrid(row, col)
    ensures ChangedFrom(b, Select(b, row, col), 0)
            == if IsCorner(row, col) then 3 else if IsInterior(row, col) then 5 else 4
  {
    ChangedIsAffected(b, row, col, 0);
    if row == 0 && col == 0 { assert AffectedFrom(0, 0, 0) == 3; }
    else if row == 0 && col == 1 { assert AffectedFrom(0, 1, 0) == 4; }
    else if row == 0 && col == 2 { assert AffectedFrom(0, 2, 0) == 3; }
    else if row == 1 && col == 0 { assert AffectedFrom(1, 0, 0) == 4; }
    else if row == 1 && col == 1 { assert AffectedFrom(1, 1, 0) == 5; }
    else if row == 1 && col == 2 { assert AffectedFrom(1, 2, 0) == 4; }
    else if row == 2 && col == 0 { assert AffectedFrom(2, 0, 0) == 3; }
    else if row == 2 && col == 1 { assert AffectedFrom(2, 1, 0) == 4; }
    else { assert AffectedFrom(2, 2, 0) == 3; }
  }

  // ---------------------------------------------------------------------
  // The text encoding of a board (the `state` property)

  function Symbol(on: bool): char {
    if on then OnSymbol else OffSymbol
  }

  /** Row-major encoding: one symbol per cell. */
  function Encode(b: seq<bool>): (s: string)
    ensures |s| == |b|
    ensures forall i :: 0 <= i < |b| ==> s[i] == Symbol(b[i])
  {
    if b == [] then [] else [Symbol(b[0])] + Encode(b[1..])
  }

  /** Reading a list of symbols: only the on symbol means on. */
  function DecodeCells(s: string): (b: seq<bool>)
    ensures |b| == |s|
    ensures forall i :: 0 <= i < |s| ==> (b[i] <==> s[i] == OnSymbol)
  {
    if s == [] then [] else [s[0] == OnSymbol] + DecodeCells(s[1..])
  }

  /**
   * Decoding a state string: the first CellCount characters give the
   * cells in row-major order and any further characters are ignored.
   */
  function Decode(s: string): (b: seq<bool>)
    requires |s| >= CellCount
    ensures IsBoard(b)
    ensures forall r, c :: InGrid(r, c) ==> (b[Index(r, c)] <==> s[Index(r, c)] == OnSymbol)
  {
    DecodeCells(s[..CellCount])
  }

  /** Characters after the first CellCount do not change the decoded board. */
  lemma DecodeIgnoresTail(s: string, extra: string)
    requires |s| >= CellCount
    ensures Decode(s + extra) == Decode(s)
  {
    BoardExtensionality(Decode(s + extra), Decode(s));
  }

  /** A well-formed state string: exactly one symbol per cell. */
  predicate IsEncoding(s: string) {
    |s| == CellCount && forall i :: 0 <= i < |s| ==> s[i] == OnSymbol || s[i] == OffSymbol
  }

  /** Every board encodes to a well-formed state. */
  lemma EncodeIsEncoding(b: seq<bool>)
    requires IsBoard(b)
    ensures IsEncoding(Encode(b))
  {
  }

  /** Decoding the encoding of a board gives back the board. */
  lemma DecodeEncode(b: seq<bool>)
    requires IsBoard(b)
    ensures Decode(Encode(b)) == b
  {
    BoardExtensionality(Decode(Encode(b)), b);
  }

  /** Encoding the decoding of a well-formed state gives back the state. */
  lemma EncodeDecode(s: string)
    requires IsEncoding(s)
    ensures Encode(Decode(s)) == s
  {
    var e := Encode(Decode(s));
    forall i | 0 <= i < CellCount
      ensures e[i] == s[i]
    {
      IndexSurjective(i);
    }
  }

  /** The all-on board, the one a game starts with, is "TTTTTTTTT". */
  lemma AllOnEncoding()
    ensures Encode(Uniform(true)) == "TTTTTTTTT"
  {
  }

  /** The all-off board, the solved one, is "FFFFFFFFF". */
  lemma AllOffEncoding()
    ensures Encode(Uniform(false)) == "FFFFFFFFF"
  {
  }

  /**
   * From the all-on board, a move in the centre gives "TFTFFFTFT", and the
   * same move again gives back "TTTTTTTTT".
   */
  lemma CentreMoveFromAllOn()
    ensures Encode(Select(Uniform(true), 1, 1)) == "TFTFFFTFT"
    ensures Encode(Select(Select(Uniform(true), 1, 1), 1, 1)) == "TTTTTTTTT"
  {
    SelectInvolution(Uniform(true), 1, 1);
    AllOnEncoding();
  }
}
