# dnd-token-pusher: the command core in Dafny

dnd-token-pusher lets a game master drive a shared battle map by typing
commands, one per line. A window keeps redrawing the current state. This
project models the pure core of that program and proves properties of it.
The core has three parts:

- **Chess-style cell labels** (`src/chess.rs`). `from_map_coordinates`
  names a zero-based grid cell. It writes the bijective base-26 numeral of
  `column + 1` in the letters A-Z, then the decimal of `row + 1`: (0, 0) is
  "A1", (26, 0) is "AA1" and (701, 10) is "ZZ11". The source's own decoder
  is commented out and only its expected values remain. The model adds a
  decoder that meets those expected values and proves that it inverts the
  encoder in both directions.
- **The line parser** (`src/commands.rs`). `parse` splits a text into lines
  with Rust's `str::lines`. The first word of each line, as split by
  `split_whitespace`, picks the command: `q`, `quit` or `exit` quit. `r`
  rolls dice, carrying the line with every "r " removed. Any other word
  asks for help.
- **The state merge** (`src/game.rs` and `src/domain.rs`). The game state
  holds one battlemap and a single token slot. A battlemap update takes each
  field it supplies and keeps the rest from the previous map. A token update
  takes each field it supplies, otherwise the stored token's value (whatever
  that token's id), otherwise a fixed default. `update` applies the parsed
  results of one message in order. The grid-labelling loop of `render_grid`
  is modelled as well.

Modules, one file each: `Wrappers` (Option, Result), `Text` (the `i32`
range, truncating division, Rust whitespace, `trim`, decimal numerals),
`Chess`, `Commands`, `Domain` and `Game`.

Modelling choices, each following the Rust code:

- A blank line makes `parse` panic, because `words[0]` indexes an empty
  list (src/commands.rs:35-36). `Commands.ParseLine` returns
  `Failure(BlankLine)` there. `Commands.Parse` fails for the whole text,
  because the panic ends the program.
- A roll line keeps the whole line with every "r " removed, wherever it
  occurs (src/commands.rs:40). The model removes them the same way.
- The game state has one `Option<Token>` slot (src/game.rs:26). A token
  update inherits from whatever token is stored, whatever its id
  (src/game.rs:115-126). The model does the same.
- `game.rs` uses a `Command` type that this `commands.rs` does not define.
  It has `PrintHelp(l)`, `UpdateBattlemap`, `UpdateToken` and a roller
  value, and its `parse` returns one `Result` per line. The model defines
  one closed `Command` type with five variants. `Game.Update` takes the
  per-line results, which `Commands.ParseEach` produces. `PrintHelp`
  carries no text, because the text is only printed.
- `Battlemap::new` and `Token::new` become the constructors of the
  `Domain.Battlemap` and `Domain.Token` datatypes, without textures.
  `Battlemap` takes rows before columns, as `Battlemap::new` does.
- `Quit` exits the process in the source. In the model it is the terminal
  outcome `Exited`, and the commands after it are not applied.

## Model

| member | source | states |
|---|---|---|
| Text.TruncRem | src/chess.rs:34-35 | Rust's `/` and `%` on i32: dividend equals quotient times divisor plus remainder, and the remainder lies in [0, b) for a non-negative dividend and in (-b, 0] for a negative one, so the quotient rounds toward zero |
| Text.TruncDiv | src/chess.rs:34 | the truncated quotient never takes the opposite sign of the dividend |
| Text.IntToDecimal | src/chess.rs:45 | `format!("{}", n)`: a minus sign exactly for negative n, then digits without a leading zero whose value is the magnitude of n |
| Text.Trim | src/chess.rs:47 | `str::trim`: the result is no longer than the input and neither starts nor ends with whitespace |
| Text.TrimSlice | src/chess.rs:47 | the trimmed text is a slice of the input, and everything cut off before and after it is whitespace |
| Chess.FromMapCoordinates | src/chess.rs:29-48 | for a column in [0, 702) and a row whose successor fits an i32, the label is the bijective base-26 letters of column+1 followed by the decimal of row+1; the panic for columns from 702 up is the precondition |
| Chess.LabelShape | src/chess.rs:37-47 | for a row of 0 or more the label is one or two upper-case letters followed by a decimal numeral with no leading zero |
| Chess.LettersRoundTrip | src/chess.rs:34-46 | the letter numeral is a true bijective base-26 numeral: reading any non-empty letter string and writing its value back gives the same string |
| Chess.ToMapCoordinates | src/chess.rs:14-27 | the decoder the commented-out tests expect (the commented-out stub itself returns (1, 1)); whenever it succeeds, the column is 0 or more and the row lies in [0, i32::MAX) |
| Chess.DecodeEncode | src/chess.rs:16-48 | decoding the label of any cell with a column in [0, 702) and a row of 0 or more gives back that cell |
| Chess.EncodeDecode | src/chess.rs:16-48 | a label that decodes to a column below 702 and has no leading zero in its number is re-encoded to exactly itself |
| Chess.FromMapInjective | src/chess.rs:29-48 | two cells in [0, 702) x [0, i32::MAX) with equal labels are the same cell |
| Chess.FromMapExamplesFirstLetters | src/chess.rs:52-54 | (0,0), (0,4) and (1,1) are labelled A1, A5 and B2 |
| Chess.FromMapExamplesAcrossZ | src/chess.rs:55-57 | (25,0), (26,0) and (27,0) are labelled Z1, AA1 and AB1 |
| Chess.FromMapExamplesYZToZA | src/chess.rs:58-59 | (675,0) and (676,0) are labelled YZ1 and ZA1 |
| Chess.FromMapExamplesLast | src/chess.rs:60-61 | (677,0) and (701,0) are labelled ZB1 and ZZ1 |
| Chess.ToMapExamplesLast | src/chess.rs:16-17 | ZZ1 and ZZ11 decode to (701,0) and (701,10) |
| Chess.ToMapExamplesFirstLetters | src/chess.rs:18-20 | A1, A5 and B2 decode to (0,0), (0,4) and (1,1) |
| Chess.ToMapExamplesAcrossZ | src/chess.rs:21-23 | Z1, AA1 and AB1 decode to (25,0), (26,0) and (27,0) |
| Chess.ToMapExamplesZBlock | src/chess.rs:24-26 | YZ1, ZA1 and ZB1 decode to (675,0), (676,0) and (677,0) |
| Chess.FromMapCoordinatesAsWritten | src/chess.rs:29-48 | the encoder over every i32 pair, with truncating / and %: it panics for columns from 702 up, for negative columns whose remainder is not zero, and when row+1 overflows |
| Chess.AsWrittenAgrees | src/chess.rs:33-47 | on [0, 702), the padding space and trim of the source produce exactly the label FromMapCoordinates gives, with no panic |
| Chess.NegativeColumnAliases | src/chess.rs:30-35 | every negative multiple of 26 passes the guard and gets the label of column 0 |
| Chess.NegativeColumnCollision | src/chess.rs:30-47 | cells (-26, 0) and (0, 0) are both labelled A1 |
| Commands.Lines | src/commands.rs:33 | `str::lines`: no line contains a newline, and only the empty text has no lines; LinesJoin shows it inverts writing lines with trailing newlines |
| Commands.Words | src/commands.rs:35 | `split_whitespace`: every word is non-empty and free of whitespace |
| Commands.RemoveAll | src/commands.rs:40 | `replace("r ", "")`: the result is never longer than the line |
| Commands.LinesCons | src/commands.rs:33 | a line without a line break or a trailing carriage return, followed by a newline, splits off as the first line |
| Commands.LinesJoin | src/commands.rs:33 | splitting lines that were each written with a trailing newline gives the same lines back |
| Commands.WordsEmptyIffBlank | src/commands.rs:35 | a line has no words exactly when every character is whitespace |
| Commands.FirstWord | src/commands.rs:35-36 | for whitespace, then a run of non-whitespace, then whitespace or the end of the line: the words are that run followed by the words of what comes after it |
| Commands.BlankPrefixWords | src/commands.rs:35 | whitespace in front of a text adds no words; with FirstWord this decides the words of every text |
| Commands.RemoveAllPrefix | src/commands.rs:40 | an occurrence of the pattern at the front is deleted and removal carries on after it |
| Commands.RemoveAllAbsent | src/commands.rs:40 | replace with an empty string leaves a text that does not contain the pattern unchanged |
| Commands.RemoveAllSkip | src/commands.rs:40 | a stretch without the pattern's first character is kept as it is, and removal carries on after it |
| Commands.RemoveAllNoStart | src/commands.rs:40 | a stretch in which no occurrence of the pattern starts is kept as it is, and removal carries on after it; with RemoveAllPrefix this decides the result on every text |
| Commands.RemoveAllOverlapExample | src/commands.rs:40 | "rr d6" becomes "rd6": the scan keeps the first "r" and removes the "r " that starts after it |
| Commands.ParseLine | src/commands.rs:34-42 | a line fails (the source panics) exactly when it is empty or all whitespace |
| Commands.ParseLineByVerb | src/commands.rs:36-41 | for any line of the form whitespace, verb, then nothing or whitespace: q, quit and exit give Quit; r gives Role of the line with every "r " removed; any other verb, compared case-sensitively, gives PrintHelp |
| Commands.RollCarriesExpression | src/commands.rs:40 | "r " followed by an expression that has no "r " rolls exactly that expression |
| Commands.QuitExample | src/commands.rs:37 | "q" gives Quit |
| Commands.UpperQExample | src/commands.rs:36-41 | "Q" gives PrintHelp, because verbs are case-sensitive |
| Commands.HelpExample | src/commands.rs:41 | "help" gives PrintHelp, although the help text lists it |
| Commands.BareRollExample | src/commands.rs:40 | a bare "r" gives Role("r") |
| Commands.RollExample | src/commands.rs:40 | "r 2d20 K1" gives Role("2d20 K1") |
| Commands.RollRemovesEveryPrefixExample | src/commands.rs:40 | "r d6 r d8" gives Role("d6 d8"): the second "r " is removed too |
| Commands.BlankLineExample | src/commands.rs:35-36 | an empty line and a line of a space and a tab both fail |
| Commands.ParseLines | src/commands.rs:30-45 | over a list of lines, parsing succeeds exactly when no line is blank, and then gives one command per line, in order, each the command of its line |
| Commands.Parse | src/commands.rs:30-45 | parsing a text succeeds exactly when none of its lines is blank, and then gives one command per line, in order |
| Commands.ParseSplit | src/commands.rs:32-44 | a non-empty first line, a newline, then the rest: this parses to the first line's commands followed by the rest's, and fails exactly when one of the two fails |
| Commands.ParseEach | src/game.rs:169-175 | one result per line of the text, each that line's own parse; all are successes exactly when `Parse` succeeds, and then they are exactly its commands |
| Commands.ParseLineNoUpdates | src/commands.rs:36-42 | this parser never produces a battlemap or token update |
| Domain.GridCells | src/domain.rs:74-75 | every cell the drawing loops visit lies inside the grid |
| Domain.GridCellsComplete | src/domain.rs:74-75 | every cell inside the grid is visited |
| Domain.GridCellsDistinct | src/domain.rs:74-75 | no cell is visited twice |
| Domain.GridWithinLabelRange | src/domain.rs:74-77 | every visited cell stays within the encoder's column range exactly when the map has at most 702 columns or no rows |
| Domain.GridLabelableIff | src/domain.rs:74-77 | every cell `render_grid` visits can be labelled without the panic at src/chess.rs:30-31 exactly when the map has at most 702 columns or no rows |
| Domain.ColumnLabels | src/domain.rs:75-77 | the inner loop labels rows 0 to rows-1 of one column, in order, with the label of each cell |
| Domain.LabelsDistinct | src/domain.rs:77 | labels of pairwise distinct cells are pairwise distinct |
| Domain.GridLabels | src/domain.rs:74-77 | the loops label every grid cell once, in drawing order, each with the cell's chess label, and no two labels on one map are equal |
| Game.InitialState | src/game.rs:82-83 | the initial state has no token and a map of positive size, every cell of which the encoder can label without panicking |
| Game.MergeBattlemap | src/game.rs:99-110 | the image is the supplied url or else the previous image; rows and columns are each the supplied value or else the previous one, never swapped |
| Game.MergeBattlemapIdempotent | src/game.rs:99-110 | applying the same battlemap update twice equals applying it once, and an update with no fields changes nothing |
| Game.MergeBattlemapCompose | src/game.rs:99-110 | two battlemap updates in a row equal one update whose fields are the second's where given and otherwise the first's |
| Game.MergeToken | src/game.rs:116-118 | the new token's id is always the update's token_id |
| Game.MergeTokenCreates | src/game.rs:121-126 | with no stored token each omitted field gets its default: ./assets/unnamed.png, Unnamed, small, 10, A1 and 1 |
| Game.MergeTokenInherits | src/game.rs:115-126 | with a stored token, supplied fields win and omitted fields come from the stored token; no default is used |
| Game.MergeTokenIgnoresStoredId | src/game.rs:115-126 | inheritance does not depend on the stored token's id |
| Game.MergeTokenCompose | src/game.rs:121-126 | two token updates in a row equal one update whose fields are the second's where given and otherwise the first's, with the second's id |
| Game.MergeTokenIdempotent | src/game.rs:121-126 | applying the same token update twice gives the token that applying it once gives |
| Game.Run | src/game.rs:88-162 | the outcome is terminal exactly for Quit; only UpdateBattlemap changes the battlemap, and it leaves the merge of the old map with the update; only UpdateToken changes the token slot, which it leaves filled with the merge of the old token with the update, carrying the update's id |
| Game.RunKeepsGridLabelable | src/game.rs:99-110 | from a map whose grid can be labelled, a command keeps it so exactly when it is not a battlemap update or the updated map has at most 702 columns or no rows |
| Game.RunUpdateIdempotent | src/game.rs:99-157 | repeating a battlemap or token update leaves the state that the first one left |
| Game.Update | src/game.rs:169-176 | applying a list of parse results ends in the terminal outcome exactly when one of its entries is a successful Quit |
| Game.UpdateAppend | src/game.rs:169-176 | applying two lists in a row equals applying the first, then, unless it quit, the second from the state it reached |
| Game.UpdateIgnoresErrors | src/game.rs:172-175 | error entries change nothing: the outcome is the same once they are dropped |
| Game.UpdateWithoutUpdatesKeepsState | src/game.rs:91-98 | results without battlemap or token updates leave the battlemap and the token as they were |
| Game.UpdateMessage | src/game.rs:165-177 | applying one received message quits exactly when one of its lines parses to Quit |
| Game.MessageKeepsState | src/game.rs:165-177 | with this parser, no message changes the battlemap or the token |
| Game.GoblinScenario | src/game.rs:82-126 | from the initial state (placeholder map, 12 rows, 20 columns, no token), naming a goblin fills in the defaults, and a later max-health update keeps the name Goblin |

## Left out

- Reading the scenario file and stdin on a second thread, and the channel
  to the frame loop (src/game.rs:30-70, 166): these are concurrency and I/O.
  A received message is a parameter of `Game.UpdateMessage`. The source
  sends each file or stdin line trimmed. The model accepts any text, which
  covers those trimmed lines.
- Command-line arguments, DM mode and the on-screen mode text
  (src/game.rs:31-38, 72-75): host setup.
- Camera movement and zoom, the screen scaler, `draw` and `event`
  (src/game.rs:181-244): floating point and rendering.
- Texture, font and canvas loading, and the panic when an image file is
  missing (src/domain.rs:21-24, 47-67, 72, 105-106): file I/O. Only the
  data fields are kept.
- `grid_size`, tile sizes and `Token::render` (src/domain.rs:40-45,
  114-127): these are f64 division and rounding, and the render position is
  hard-coded.
- Rolling dice with the `caith` crate (src/commands.rs:24,
  src/game.rs:93-97): a foreign library. `Role` is opaque and does not
  change the state.
- `commands::run` and the `HELP` text (src/commands.rs:11-28). The game
  loop never calls `commands::run`. It exits, prints, or rolls with
  `caith::Roller::new(l).unwrap().roll().unwrap()`, which panics on any
  expression the roller rejects, such as the `Role("r")` a bare "r" gives.
  `Game.Run` follows src/game.rs:93-97 instead, where a failed roll is only
  printed. The model does not capture that panic.
- The `structopt` `Battlemap` struct and its test (src/commands.rs:47-70):
  a wrapper over an argument-parsing library that is not part of this
  model. No parser in this version produces `UpdateBattlemap` or
  `UpdateToken`, so the model takes those commands as given.
- `println!` debug output, and `main.rs`: host setup.
- Game.MergeBattlemap: stores any rows and columns an update supplies,
  zero and negative values included. In the source, `Battlemap::new` sizes
  the tile canvas from them (src/domain.rs:23-24, 53-65). A zero divides to
  an infinite f64, which saturates to `i32::MAX` tiles. Then either
  `Canvas::new` fails into the `expect` at src/domain.rs:24, or
  `4 * tile_h * EDGE_WIDTH` overflows at src/domain.rs:58. Negative values
  give negative sizes. So such an update very likely crashes the source,
  while the model keeps running with the stored values. The canvas
  arithmetic is floating point and graphics library code, which this model
  leaves out. Likewise an update may set more than 702 columns: with at
  least one row, the next `render_grid` calls `from_map_coordinates(702, 0)`
  (src/domain.rs:74-77), which panics at src/chess.rs:30-31. The model
  stores such a map; `Game.RunKeepsGridLabelable` and
  `Domain.GridLabelableIff` state exactly which updates lead to it.
- Chess.FromMapCoordinates: requires row < i32::MAX, because `row + 1`
  overflows there. Debug builds panic on that overflow, and release builds
  wrap. The as-written model returns `None` for it.
- Commands.Lines: follows the documented `str::lines` behaviour, where a
  lone `\r` at the very end of the text is kept. Older Rust versions
  stripped it.
- Chess.ToMapCoordinates: the source has no working decoder. This one
  accepts any number of letters, and it rejects a row number of 0 or one
  above i32::MAX with `BadNumber`.

## Findings

| source | as written | input that shows it | evidently intended | confidence | as-written member | corrected member |
|---|---|---|---|---|---|---|
| src/chess.rs:30-35 | only `column >= 702` is rejected, and `column / 26` and `column % 26` truncate toward zero | column -26, row 0 gives "A1", the label of (0, 0); any negative multiple of 26 does the same, and other negative columns panic on indexing | reject every column outside [0, 702), the range the panic message names | high; not executed | Chess.NegativeColumnCollision | Chess.FromMapInjective |
