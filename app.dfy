/** The application's three callbacks: initialisation, one frame per tick, and one input
    event at a time. The globals of the program (the console and the player position) are
    the fields of one Loop object. */
module App {
  import opened Keys
  import opened Console

  /** The console size fixed at initialisation. */
  const Width: nat := 80
  const Height: nat := 40

  /** What a callback tells the driver: keep going, stop successfully, or stop with an error. */
  datatype AppResult = Continue | Success | Failure

  /** The input events the handler distinguishes. */
  datatype Event = KeyDown(key: Key) | Quit | OtherEvent

  /** The player position, in console cells. It is never clamped to the console. */
  datatype Pos = Pos(x: int, y: int)

  /** How one event changes the player position and what the handler answers. */
  function Step(p: Pos, e: Event): (r: (Pos, AppResult))
    ensures r.1 == Success <==> e == Quit
    ensures r.1 != Failure
    ensures -1 <= r.0.x - p.x <= 1 && -1 <= r.0.y - p.y <= 1
    ensures !e.KeyDown? ==> r.0 == p
    ensures e.KeyDown? ==> (r.0 == p <==> Delta(e.key) == Vec(0, 0))
  {
    match e
    case KeyDown(k) => (Pos(p.x + Delta(k).dx, p.y + Delta(k).dy), Continue)
    case Quit => (p, Success)
    case OtherEvent => (p, Continue)
  }

  /** The interactive loop: the console it draws into and the player position. */
  class Loop {
    /** The console, indexed grid[column, row]; it is created once and never replaced. */
    const grid: array2<char>
    var x: int
    var y: int

    /** The console keeps the size it was created with. */
    ghost predicate Valid()
      reads this
    {
      grid.Length0 == Width && grid.Length1 == Height
    }

    function Cursor(): Pos
      reads this
    {
      Pos(x, y)
    }

    /** The console contents as rows of cells, row 0 at the top. */
    ghost function Rows(): (rs: seq<seq<char>>)
      reads this, grid
      ensures |rs| == grid.Length1
    {
      seq(grid.Length1, row requires 0 <= row < grid.Length1 reads grid =>
        seq(grid.Length0, col requires 0 <= col < grid.Length0 reads grid => grid[col, row]))
    }

    /** Creates the 80-by-40 console, all blank, and centres the player on it. */
    constructor Init()
      ensures Valid() && fresh(grid)
      ensures Cursor() == Pos(Width / 2, Height / 2)
      ensures forall col, row :: 0 <= col < Width && 0 <= row < Height ==> grid[col, row] == Blank
    {
      grid := new char[Width, Height]((col, row) => Blank);
      x := Width / 2;
      y := Height / 2;
    }

    /** Handles one event: a key press moves the player by the key's displacement, a quit
        event asks the driver to stop, and anything else is ignored. */
    method HandleEvent(e: Event) returns (r: AppResult)
      modifies this
      ensures (Cursor(), r) == Step(old(Cursor()), e)
      ensures unchanged(grid)
    {
      match e
      case KeyDown(k) =>
        match k {
          case Left | H | Kp4 =>
            x := x - 1;
          case Right | L | Kp6 =>
            x := x + 1;
          case Up | K | Kp8 =>
            y := y - 1;
          case Down | J | Kp2 =>
            y := y + 1;
          case Home | Y | Kp7 =>
            x := x - 1;
            y := y - 1;
          case PageUp | U | Kp9 =>
            x := x + 1;
            y := y - 1;
          case End | B | Kp1 =>
            x := x - 1;
            y := y + 1;
          case PageDown | N | Kp3 =>
            x := x + 1;
            y := y + 1;
          case Period | Clear | Kp5 =>
          case Other(_) =>
        }
        r := Continue;
      case Quit =>
        return Success;
      case OtherEvent =>
        r := Continue;
    }

    /** Sets every cell of the console to blank. */
    method Clear()
      requires Valid()
      modifies grid
      ensures forall col, row :: 0 <= col < Width && 0 <= row < Height ==> grid[col, row] == Blank
    {
      for row := 0 to Height
        invariant forall c, r :: 0 <= c < Width && 0 <= r < row ==> grid[c, r] == Blank
      {
        for col := 0 to Width
          invariant forall c, r :: 0 <= c < Width && 0 <= r < row ==> grid[c, r] == Blank
          invariant forall c :: 0 <= c < col ==> grid[c, row] == Blank
        {
          grid[col, row] := Blank;
        }
      }
    }

    /** Writes the greeting into row 0 from column 0 on. */
    method PrintGreeting()
      requires Valid()
      modifies grid
      ensures forall col, row :: 0 <= col < Width && 0 <= row < Height ==>
                grid[col, row] == if row == 0 && col < |Greeting| then Greeting[col] else old(grid[col, row])
    {
      for col := 0 to |Greeting|
        invariant forall c, r :: 0 <= c < Width && 0 <= r < Height ==>
                    grid[c, r] == if r == 0 && c < col then Greeting[c] else old(grid[c, r])
      {
        grid[col, 0] := Greeting[col];
      }
    }

    /** Draws one frame: clear, print the greeting, and put the glyph under the player when
        the player is on the console. The player position is left as it was. */
    method Render() returns (r: AppResult)
      requires Valid()
      modifies grid
      ensures r == Continue
      ensures Cursor() == old(Cursor())
      ensures Rows() == Frame(Width, Height, x, y)
      ensures old(Rows()) == Frame(Width, Height, x, y) ==> Rows() == old(Rows())
    {
      Clear();
      PrintGreeting();
      if InBounds(Width, Height, x, y) {
        grid[x, y] := PlayerGlyph;
      }
      assert forall col, row :: 0 <= col < Width && 0 <= row < Height ==>
        grid[col, row] == FrameCell(x, y, col, row);
      forall row | 0 <= row < Height
        ensures Rows()[row] == Frame(Width, Height, x, y)[row]
      {
      }
      r := Continue;
    }
  }
}
