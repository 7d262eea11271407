# libtcod template: the interactive loop, in Dafny

The template opens an 80-by-40 character console, prints "Hello World" in its top-left
corner every frame, and draws the player glyph `@` at the player position when that
position is on the console. Key presses move the player one cell in one of eight
directions (each reachable by a navigation key, a vi-style letter and a keypad digit) or
not at all; a quit event tells the SDL driver to stop.

The model has four modules:

- `Keys` (keys.dfy): the key table as a pure function `Delta`, and an independent
  reference for it — the compass directions, their vectors and the three keys bound to
  each — with the lemmas that connect the two.
- `Console` (console.dfy): what one rendered frame holds, cell by cell (`FrameCell`) and
  as rows (`Frame`), and the properties of a frame: the glyph appears exactly when the
  cursor is on the console, the greeting stays intact, an off-console cursor draws nothing.
- `App` (app.dfy): the program's globals as a class `Loop` with the console as an
  `array2<char>` (indexed `grid[column, row]`, as `console.at({x, y})` is) and the player
  position as mutable fields; `Init`, `HandleEvent` and `Render` are the three callbacks.
  `HandleEvent` is proved against the pure `Step`, `Render` against `Frame`.
- `Session` (session.dfy): a run of the handler over a sequence of events, stopping at the
  first one answered with Success (as SDL does with `SDL_APP_SUCCESS`), and the
  end-to-end scenarios: three Ups from the centre reach (40, 17); Home moves up-left;
  walking left 41 times leaves the console and the glyph disappears.

The code binds Home, `y` and keypad 7 to (-1, -1), that is up and to the left, as on a
keypad; the model follows the code.

## Model

| member | source | states |
|---|---|---|
| `Keys.Delta` | src/main.cpp:45-94 | a key press moves each coordinate by at most one cell, and moves nothing exactly for Period, Clear, keypad 5 and every unlisted key |
| `Keys.BindingsAgree` | src/main.cpp:46-89 | the navigation key, the vi letter and the keypad key of each direction all apply that direction's compass vector (left (-1,0), right (1,0), up (0,-1), down (0,1), up-left (-1,-1), up-right (1,-1), down-left (-1,1), down-right (1,1), wait (0,0)) |
| `Keys.SameDeltaIffSameDirection` | src/main.cpp:46-93 | two bound keys move the cursor identically if and only if they are bound to the same direction |
| `Keys.EveryKeyBoundOrInert` | src/main.cpp:45-94 | a key is bound to some direction exactly when it is one of the 27 listed keys; every other key moves nothing |
| `Keys.BindingsDisjoint` | src/main.cpp:45-94 | no key is bound to two directions |
| `Console.InBounds` | src/main.cpp:35 | the console's bounds test holds exactly for the cells a frame has, and a cursor that passes it has the glyph drawn under it |
| `Console.Frame` | src/main.cpp:33-37 | the console after one frame: h rows of w cells, each the `FrameCell` of the cursor |
| `Console.OtherCellsBlank` | src/main.cpp:33-36 | every cell that is neither under the greeting nor under the cursor is blank after a frame |
| `Console.TextCell` | src/main.cpp:33-34 | after clearing and printing, a cell is never the glyph, and is non-blank only in row 0 under the greeting |
| `Console.FrameCell` | src/main.cpp:33-37 | a frame cell holds the glyph exactly when it is the cursor cell; any other cell is the cleared-and-printed text |
| `Console.GlyphShownIffInBounds` | src/main.cpp:35-37 | the frame contains the glyph if and only if the cursor is on the console, and only in the cursor cell |
| `Console.GreetingIntact` | src/main.cpp:34-36 | columns 0..10 of row 0 hold "Hello World", except a cell the glyph covers |
| `Console.OffscreenCursorInvisible` | src/main.cpp:35-37 | a cursor off the console writes nothing: the frame is the same for every off-console cursor |
| `App.Step` | src/main.cpp:42-100 | the handler answers Success exactly on quit, Continue otherwise; quit and non-key events leave the position unchanged; a key press moves each coordinate by at most one, and leaves the position unchanged exactly for keys whose displacement is zero |
| `App.Loop.Init` | src/main.cpp:114-116 | the console is 80 by 40 and blank, and the player starts at (width/2, height/2) |
| `App.Loop.HandleEvent` | src/main.cpp:42-100 | the new position and the answer are those of `Step` applied to the old position; the console is not touched |
| `App.Loop.Clear` | src/main.cpp:33 | every cell of the console becomes blank |
| `App.Loop.PrintGreeting` | src/main.cpp:34 | row 0, columns 0..10, receive "Hello World"; every other cell keeps its content |
| `App.Loop.Render` | src/main.cpp:32-40 | the console holds exactly `Frame` for the current position, the position is unchanged, the answer is Continue, and rendering an already rendered frame changes nothing (idempotence) |
| `Session.Run` | src/main.cpp:42-99 | a fold of `Step` (the handler) over an event sequence; stopping at the first Success is the SDL driver's rule, which is not part of this file. A run stops with Success exactly when a quit event is among the events, never fails, and after n events each coordinate has moved by at most n |
| `Session.QuitEndsRun` | src/main.cpp:96-97 | a quit event ends the run with Success whatever the position, and the events after it have no effect |
| `Session.RepeatedKey` | src/main.cpp:45-89 | pressing one key n times moves the player n times its displacement, with no clamping at the console edge |
| `Session.InertEventsKeepPosition` | src/main.cpp:90-93 | any run of wait keys, unlisted keys and non-key events keeps the position and never stops the run |
| `Session.ThreeUpsScenario` | src/main.cpp:56-59 | the start is the centre (40, 20), and three Up presses from it give (40, 17) |
| `Session.ThreeUpsFrame` | src/main.cpp:33-37 | the frame with the cursor at (40, 17) has the glyph at column 40, row 17 and "Hello World" intact in row 0 |
| `Session.HomeMovesUpLeft` | src/main.cpp:66-71 | Home, `y` and keypad 7 each take (40, 20) to (39, 19) |
| `Session.WalkingLeftLeavesConsole` | src/main.cpp:46-50 | 41 Left presses from the centre reach x = -1, off the console, and the frame then contains no glyph |
| `Session.ThreeUpsOnLoop` | src/main.cpp:114-116 | a Loop created by `Init`, sent three Up presses and rendered, has the player at (40, 17), the glyph at that cell and "Hello World" in row 0 |

## Left out

- Locating the data directory (`get_data_dir`, src/main.cpp:11-21): filesystem I/O, with a directory that persists across calls.
- Loading the tileset and creating the rendering context (src/main.cpp:103-113, 117-119): calls into libtcod and SDL with window parameters; their start-up failures are not modelled, so `Init` always succeeds.
- Presenting the frame (`g_context.present`, src/main.cpp:38): display output; `Render` ends without it.
- Colours (src/main.cpp:23, 34): only the character layer of the console is modelled.
- The SDL callback driver, `SDL_AppQuit` and the `SDL_Event` layout: events are an abstract datatype; `Session.Run` models only the driver's rule that no event is handled after Success. The `Failure` answer is part of the result type but no callback modelled here produces it.
- App.Loop.PrintGreeting: `tcod::print` clips text at the console edge; the model writes the 11 characters directly, which is the same on the 80-column console.
- App.Step: positions are unbounded integers; the C `int` position would overflow after about 2^31 presses in one direction, which the model does not capture.
- Keys.Key: SDL key codes are abstracted to the 27 keys the handler names and `Other(code)` for the rest.
