/** A run of the event handler over a sequence of input events, as the SDL callback driver
    delivers them: each event goes to the handler in turn until one of them answers
    Success, after which no further event is handled. */
module Session {
  import opened Keys
  import opened Console
  import opened App

  /** Where the player starts: the centre of the console. */
  const Start: Pos := Pos(Width / 2, Height / 2)

  /** The position after handling `events` from `p`, and whether the run was stopped. */
  function Run(p: Pos, events: seq<Event>): (r: (Pos, AppResult))
    ensures r.1 == Success <==> Quit in events
    ensures r.1 != Failure
    ensures -|events| <= r.0.x - p.x <= |events| && -|events| <= r.0.y - p.y <= |events|
    decreases |events|
  {
    if events == [] then (p, Continue)
    else
      var s := Step(p, events[0]);
      if s.1 == Success then s else Run(s.0, events[1..])
  }

  /** n copies of one event. */
  function Repeat(e: Event, n: nat): (es: seq<Event>)
    ensures |es| == n
    ensures forall i :: 0 <= i < n ==> es[i] == e
  {
    seq(n, _ => e)
  }

  /** Once a quit event arrives, the run stops there: later events have no effect, and the
      position is the one reached before it. */
  lemma {:induction false} QuitEndsRun(p: Pos, before: seq<Event>, after: seq<Event>)
    requires Quit !in before
    ensures Run(p, before + [Quit] + after) == (Run(p, before).0, Success)
    decreases |before|
  {
    if before == [] {
      assert before + [Quit] + after == [Quit] + after;
    } else {
      assert (before + [Quit] + after)[1..] == before[1..] + [Quit] + after;
      QuitEndsRun(Step(p, before[0]).0, before[1..], after);
    }
  }

  /** Pressing the same key n times moves the player n times that key's displacement; there
      is no clamping at the console edge. */
  lemma {:induction false} RepeatedKey(p: Pos, k: Key, n: nat)
    ensures Run(p, Repeat(KeyDown(k), n)) == (Pos(p.x + n * Delta(k).dx, p.y + n * Delta(k).dy), Continue)
    decreases n
  {
    if n > 0 {
      var q := Step(p, KeyDown(k)).0;
      assert Repeat(KeyDown(k), n)[1..] == Repeat(KeyDown(k), n - 1);
      RepeatedKey(q, k, n - 1);
    }
  }

  /** Events that move nothing (the wait keys, unlisted keys, and non-key events) leave the
      position as it was and never stop the run. */
  lemma {:induction false} InertEventsKeepPosition(p: Pos, events: seq<Event>)
    requires forall i :: 0 <= i < |events| ==>
               events[i] == OtherEvent || (events[i].KeyDown? && Delta(events[i].key) == Vec(0, 0))
    ensures Run(p, events) == (p, Continue)
    decreases |events|
  {
    if events != [] {
      InertEventsKeepPosition(p, events[1..]);
    }
  }

  /** Three presses of Up from the start, the centre (40, 20), reach (40, 17). */
  lemma ThreeUpsScenario()
    ensures Start == Pos(40, 20)
    ensures Run(Start, Repeat(KeyDown(Up), 3)) == (Pos(40, 17), Continue)
  {
    RepeatedKey(Start, Up, 3);
  }

  /** The frame drawn with the cursor at (40, 17) has the glyph there and the greeting
      intact on row 0. */
  lemma ThreeUpsFrame()
    ensures Frame(Width, Height, 40, 17)[17][40] == PlayerGlyph
    ensures forall col :: 0 <= col < |Greeting| ==> Frame(Width, Height, 40, 17)[0][col] == Greeting[col]
  {
    var f := Frame(Width, Height, 40, 17);
    assert f[17][40] == FrameCell(40, 17, 40, 17);
    forall col | 0 <= col < |Greeting|
      ensures f[0][col] == Greeting[col]
    {
      assert f[0][col] == FrameCell(40, 17, col, 0);
    }
  }

  /** Home, y and keypad 7 each move the player up and to the left: (40, 20) becomes (39, 19). */
  lemma HomeMovesUpLeft()
    ensures forall k :: k in {Home, Y, Kp7} ==> Run(Start, [KeyDown(k)]) == (Pos(39, 19), Continue)
  {
  }

  /** Walking left from the start leaves the console after 41 presses; the frame then shows
      no glyph at all. */
  lemma {:induction false} WalkingLeftLeavesConsole()
    ensures Run(Start, Repeat(KeyDown(Left), Width / 2 + 1)) == (Pos(-1, Height / 2), Continue)
    ensures !InBounds(Width, Height, -1, Height / 2)
    ensures forall row, col :: 0 <= row < Height && 0 <= col < Width ==>
              Frame(Width, Height, -1, Height / 2)[row][col] != PlayerGlyph
  {
    RepeatedKey(Start, Left, Width / 2 + 1);
    GlyphShownIffInBounds(Width, Height, -1, Height / 2);
  }

  /** The scenario above, carried out on a Loop object through its callbacks. */
  method ThreeUpsOnLoop() returns (cursor: Pos, glyph: char, topRow: seq<char>, r: AppResult)
    ensures cursor == Pos(40, 17) && r == Continue
    ensures glyph == PlayerGlyph
    ensures topRow == Greeting
  {
    var loop := new Loop.Init();
    var answer := loop.HandleEvent(KeyDown(Up));
    answer := loop.HandleEvent(KeyDown(Up));
    answer := loop.HandleEvent(KeyDown(Up));
    r := loop.Render();
    cursor := loop.Cursor();
    glyph := loop.grid[40, 17];
    assert glyph == loop.Rows()[17][40];
    assert Frame(Width, Height, 40, 17)[17][40] == FrameCell(40, 17, 40, 17);
    topRow := seq(|Greeting|, col requires 0 <= col < |Greeting| reads loop.grid => loop.grid[col, 0]);
    forall col | 0 <= col < |Greeting|
      ensures topRow[col] == Greeting[col]
    {
      assert topRow[col] == loop.Rows()[0][col];
      assert Frame(Width, Height, 40, 17)[0][col] == FrameCell(40, 17, col, 0);
    }
  }
}
