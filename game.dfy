/**
 * The Lights Out engine: a 3x3 grid of lights held in a two-dimensional
 * array and changed in place. Each method is proved against the board
 * functions of module Board, applied to the row-major view Cells().
 */
module Game {
  import opened Board

  class LightsOutGame {
    /** The grid of lights, indexed [row, col]; `true` is on. */
    const grid: array2<bool>

    ghost predicate Valid()
      reads this
    {
      grid.Length0 == GridSize && grid.Length1 == GridSize
    }

    /** The grid read row by row. */
    ghost function Cells(): (b: seq<bool>)
      reads this, grid
      requires Valid()
      ensures IsBoard(b)
      ensures forall r, c :: InGrid(r, c) ==> b[Index(r, c)] == grid[r, c]
    {
      seq(CellCount, i requires 0 <= i < CellCount reads grid => grid[i / GridSize, i % GridSize])
    }

    /** A new game starts with every light on. */
    constructor ()
      ensures Valid() && fresh(grid)
      ensures Cells() == Uniform(true)
    {
      grid := new bool[GridSize, GridSize]((r, c) => true);
      new;
      BoardExtensionality(Cells(), Uniform(true));
    }

    /** The `state` getter: the grid as a string, row by row. */
    method GetState() returns (s: string)
      requires Valid()
      ensures s == Encode(Cells())
    {
      var builder: string := [];
      for row := 0 to GridSize
        invariant |builder| == row * GridSize
        invariant forall i :: 0 <= i < |builder| ==> builder[i] == Symbol(Cells()[i])
      {
        for col := 0 to GridSize
          invariant |builder| == row * GridSize + col
          invariant forall i :: 0 <= i < |builder| ==> builder[i] == Symbol(Cells()[i])
        {
          var value := Symbol(grid[row, col]);
          assert value == Symbol(Cells()[Index(row, col)]);
          builder := builder + [value];
        }
      }
      s := builder;
    }

    /**
     * The `state` setter: cell (row, col) is turned on exactly when
     * character row * GridSize + col is OnSymbol ('T'). The string must have at least
     * CellCount characters; later ones are not read.
     */
    method SetState(value: string)
      requires Valid() && |value| >= CellCount
      modifies grid
      ensures Valid()
      ensures Cells() == Decode(value)
    {
      var index := 0;
      for row := 0 to GridSize
        invariant index == row * GridSize
        invariant forall r, c :: InGrid(r, c) && Index(r, c) < index ==>
                    grid[r, c] == (value[Index(r, c)] == OnSymbol)
      {
        for col := 0 to GridSize
          invariant index == row * GridSize + col
          invariant forall r, c :: InGrid(r, c) && Index(r, c) < index ==>
                      grid[r, c] == (value[Index(r, c)] == OnSymbol)
        {
          grid[row, col] := value[index] == OnSymbol;
          index := index + 1;
        }
      }
      BoardExtensionality(Cells(), Decode(value));
    }

    /**
     * Start a new game: every light, in row-major order, takes the next
     * value drawn from the random source, here the sequence `draws`.
     */
    method NewGame(draws: seq<bool>)
      requires Valid() && |draws| >= CellCount
      modifies grid
      ensures Valid()
      ensures Cells() == draws[..CellCount]
    {
      var drawn := 0;
      for row := 0 to GridSize
        invariant drawn == row * GridSize
        invariant forall r, c :: InGrid(r, c) && Index(r, c) < drawn ==> grid[r, c] == draws[Index(r, c)]
      {
        for col := 0 to GridSize
          invariant drawn == row * GridSize + col
          invariant forall r, c :: InGrid(r, c) && Index(r, c) < drawn ==> grid[r, c] == draws[Index(r, c)]
        {
          grid[row, col] := draws[drawn];
          drawn := drawn + 1;
        }
      }
      BoardExtensionality(Cells(), draws[..CellCount]);
    }

    /** Whether the light at (row, col) is on. */
    method IsLightOn(row: int, col: int) returns (on: bool)
      requires Valid() && InGrid(row, col)
      ensures on == Cells()[Index(row, col)]
    {
      on := grid[row, col];
    }

    /** Flip the one light at (row, col). */
    method ToggleCell(row: int, col: int)
      requires Valid() && InGrid(row, col)
      modifies grid
      ensures Valid()
      ensures Cells() == Toggle(old(Cells()), Index(row, col))
    {
      grid[row, col] := !grid[row, col];
      forall r, c | InGrid(r, c)
        ensures Cells()[Index(r, c)] == Toggle(old(Cells()), Index(row, col))[Index(r, c)]
      {
        IndexInjective(r, c, row, col);
      }
      BoardExtensionality(Cells(), Toggle(old(Cells()), Index(row, col)));
    }

    /** Flip the light at (row, col) and its neighbours on the grid. */
    method SelectLight(row: int, col: int)
      requires Valid() && InGrid(row, col)
      modifies grid
      ensures Valid()
      ensures Cells() == Select(old(Cells()), row, col)
    {
      ToggleCell(row, col);
      if row > 0 {
        ToggleCell(row - 1, col);
      }
      if row < GridSize - 1 {
        ToggleCell(row + 1, col);
      }
      if col > 0 {
        ToggleCell(row, col - 1);
      }
      if col < GridSize - 1 {
        ToggleCell(row, col + 1);
      }
    }

    /** The game is over when every light is off. */
    method IsGameOver() returns (over: bool)
      requires Valid()
      ensures over == Solved(Cells())
    {
      for row := 0 to GridSize
        invariant forall r, c :: InGrid(r, c) && r < row ==> !grid[r, c]
      {
        for col := 0 to GridSize
          invariant forall r, c :: InGrid(r, c) && (r < row || (r == row && c < col)) ==> !grid[r, c]
        {
          if grid[row, col] {
            assert Cells()[Index(row, col)];
            return false;
          }
        }
      }
      assert forall i :: 0 <= i < CellCount ==> !Cells()[i] by {
        forall i | 0 <= i < CellCount
          ensures !Cells()[i]
        {
          IndexSurjective(i);
        }
      }
      return true;
    }

    /** Turn every light off. */
    method TurnLightsOff()
      requires Valid()
      modifies grid
      ensures Valid()
      ensures Cells() == Uniform(false)
    {
      for row := 0 to GridSize
        invariant forall r, c :: InGrid(r, c) && r < row ==> !grid[r, c]
      {
        for col := 0 to GridSize
          invariant forall r, c :: InGrid(r, c) && (r < row || (r == row && c < col)) ==> !grid[r, c]
        {
          grid[row, col] := false;
        }
      }
      BoardExtensionality(Cells(), Uniform(false));
    }
  }

  /** Turning the lights off ends the game and reads back as "FFFFFFFFF". */
  method TurnOffScenario(game: LightsOutGame) returns (over: bool, state: string)
    requires game.Valid()
    modifies game.grid
    ensures over && state == "FFFFFFFFF"
  {
    game.TurnLightsOff();
    over := game.IsGameOver();
    AllOffEncoding();
    state := game.GetState();
  }

  /**
   * Saving the state string and setting it back, as the activity does
   * across a restart, leaves every light as it was.
   */
  method SaveAndRestore(game: LightsOutGame) returns (saved: string)
    requires game.Valid()
    modifies game.grid
    ensures game.Valid()
    ensures IsEncoding(saved) && saved == Encode(old(game.Cells()))
    ensures game.Cells() == old(game.Cells())
  {
    saved := game.GetState();
    EncodeIsEncoding(game.Cells());
    game.SetState(saved);
    DecodeEncode(old(game.Cells()));
  }
}
