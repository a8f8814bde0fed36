# Pixel Warrior canvas client, modelled in Dafny

Pixel Warrior is a React Native client for a shared 100 x 100 pixel canvas. This
project models the part of the client with real logic, the canvas state engine,
and the two small pieces of session state that gate it:

- `grid.dfy` (module `Grid`). The colour matrix as a value. It has the shape
  invariant (100 rows of 100 cells) and the tolerant reading of a `canvasData`
  snapshot: an entry that is missing or falsy becomes `#FFFFFF`. It also has the
  single-cell write that both a received `pixelChange` and a local press perform.
  Lemmas cover idempotence, last-write-wins, commutation of writes to distinct
  cells, the echo of one's own edit, and the fact that a snapshot depends only on
  its payload.
- `canvas.dfy` (module `CanvasEngine`). The `Canvas` component as a class. Its
  `grid` field is an `array<array<string>>`, and its `loading` flag starts true.
  Every handler builds new arrays and re-points `grid`; it never writes an array
  that others can still see. This matches the source's copy-then-assign updates,
  so the contracts can state the structural sharing. After a delta, the outer
  array and row x are fresh, while every other row is the same array as before.
  `HandlePixelPress` is the nickname gate: with an empty nickname it returns the
  notice and nothing else happens. Otherwise it writes the cell optimistically,
  emits one `pixelChange {x, y, color}` and returns the "painted" notice.
- `nickname.dfy` (module `Nickname`). The nickname modal. It has the draft field,
  `onChangeText`, and the confirm guard `nickname.trim()`. `trim` uses the
  ECMAScript whitespace and line-terminator set (sections 12.2 and 12.3 of
  ECMA-262). The guard forwards the untrimmed draft exactly when the draft has a
  non-whitespace character.
- `session.dfy` (module `Session`). The game screen's fields: `nickname`,
  `showNicknameModal`, `selectedColor`, `pixelInfo` and `userCount`. It also has
  their handlers and the wiring between modal, colour picker and canvas. The
  predicate `Consistent` is the cross-file invariant: the nickname the canvas
  sees is `""` or has a non-whitespace character, and the colour is one of the ten
  palette colours. Each handler states how it affects `Consistent`.
- `channel.dfy` (module `Channel`). The socket, modelled as a log of emitted
  messages. Incoming events (`canvasData`, `pixelChange`, `userCount`) are calls
  to the handler that listens for them.
- `scenarios.dfy` (module `Scenarios`). Whole-session runs that combine the
  handlers, proved from their contracts alone. Examples: cancelling the modal
  keeps the gate closed, an echoed edit changes nothing, and a snapshot overrides
  an earlier local edit.

The model follows the code, which:
- never rejects an out-of-range cell with an error (so the coordinates are a
  precondition);
- does not check `loading` before a local edit;
- attaches no actor to `pixelChange`;
- stores any `userCount` value without validation;
- has no reconnect or re-request state.

## Model

| member | source | states |
|---|---|---|
| `Grid.BlankGrid` | src/components/Canvas.tsx:23 | the initial grid is exactly 100 rows of 100 cells, every cell `#FFFFFF` |
| `Grid.EntryOr` | src/components/Canvas.tsx:57 | a cell reads as a non-empty colour that is either `#FFFFFF` or the payload's own entry for that coordinate |
| `Grid.Validate` | src/components/Canvas.tsx:56-58 | for any payload the snapshot is exactly 100 x 100; cell (x,y) is `data[x][y]` when present and non-empty, otherwise `#FFFFFF` |
| `Grid.ValidateOnlyReadsEntries` | src/components/Canvas.tsx:56-58 | payloads that read alike on every in-range cell give the same grid; extra rows, columns and falsy entries are irrelevant |
| `Grid.EmptySnapshotIsBlank` | src/components/Canvas.tsx:57 | an empty payload yields the initial blank grid |
| `Grid.SetCell` | src/components/Canvas.tsx:70-72 | the point write keeps the 100 x 100 shape, sets cell (x,y) to the colour, leaves every other cell and every other row as it was |
| `Grid.SetCellIdempotent` | src/components/Canvas.tsx:72 | applying the same delta twice gives the same grid as applying it once |
| `Grid.SetCellLastWins` | src/components/Canvas.tsx:72 | of two writes to the same cell, the later colour is the final one whatever the earlier was |
| `Grid.SetCellCommutes` | src/components/Canvas.tsx:69-73 | writes to two different cells give the same grid in either order |
| `Grid.SetCellEcho` | src/components/Canvas.tsx:68-75 | re-applying the colour a cell already holds (the echo of one's own edit) leaves the grid unchanged |
| `CanvasEngine.Allocate` | src/components/Canvas.tsx:23 | builds a fresh outer array of 100 fresh rows holding exactly the given cells |
| `CanvasEngine.Canvas.constructor` | src/components/Canvas.tsx:23-29 | initial state is the blank 100 x 100 grid in distinct fresh rows, with `loading` true |
| `CanvasEngine.Canvas.RequestSnapshot` | src/components/Canvas.tsx:79 | mounting emits exactly one `requestCanvasData` |
| `CanvasEngine.Canvas.OnCanvasData` | src/components/Canvas.tsx:54-61 | a snapshot replaces the grid with `Validate(data)` whatever was shown before (local and delta writes included), in fresh arrays, and clears `loading`; a `null`/`undefined` event throws before any update and changes nothing |
| `CanvasEngine.Canvas.OnPixelChange` | src/components/Canvas.tsx:68-75 | the shown cells become `SetCell(old cells, x, y, color)`; the outer array and row x are fresh copies, every other row is the identical array; `loading` is untouched |
| `CanvasEngine.Canvas.HandlePixelPress` | src/components/Canvas.tsx:99-114 | empty nickname: same arrays, same cells, nothing emitted, notice `Ingresa tu nickname antes de pintar`; otherwise the delta write with the selected colour, exactly one `pixelChange {x, y, color}` appended, and the `Píxel (x, y) pintado con color` notice |
| `CanvasEngine.NatToString` | src/components/Canvas.tsx:113 | a coordinate renders as a non-empty run of decimal digits with no leading zero, and as `0` exactly when it is 0 |
| `CanvasEngine.PaintedMessageShape` | src/components/Canvas.tsx:113 | the painted notice starts with `Píxel (` and ends with the colour |
| `CanvasEngine.NumeralSplit` | src/components/Canvas.tsx:113 | a numeral followed by a non-digit can be read off a notice in one way only |
| `CanvasEngine.PaintedMessageNamesPress` | src/components/Canvas.tsx:113 | equal painted notices come from the same cell and the same colour, so the notice names the press |
| `CanvasEngine.ParseNatToString` | src/components/Canvas.tsx:113 | the rendered numeral reads back as the coordinate it was made from |
| `Channel.Socket.Emit` | src/components/Canvas.tsx:112 | an emit appends exactly its message to the outgoing log |
| `Nickname.TrimStart` | src/components/NicknameModal.tsx:45 | drops only leading whitespace; the rest is a suffix of the input that is empty or starts with a non-whitespace character |
| `Nickname.TrimEnd` | src/components/NicknameModal.tsx:45 | drops only trailing whitespace; the rest is a prefix of the input that is empty or ends with a non-whitespace character |
| `Nickname.Trim` | src/components/NicknameModal.tsx:45 | `s.trim()` is a prefix of `TrimStart(s)`, itself a suffix of `s`, so an inner slice of `s`; it is empty or starts and ends with a non-whitespace character |
| `Nickname.TrimCutsOnlyWhitespace` | src/components/NicknameModal.tsx:45 | what `trim` cuts off before and after that slice is whitespace only |
| `Nickname.TrimEmptyIffBlank` | src/components/NicknameModal.tsx:45 | `s.trim()` is empty (falsy) if and only if every character of `s` is whitespace |
| `Nickname.NicknameModal.constructor` | src/components/NicknameModal.tsx:21 | the draft starts empty |
| `Nickname.NicknameModal.OnChangeText` | src/components/NicknameModal.tsx:31-32 | the draft becomes exactly the typed text |
| `Nickname.NicknameModal.PressConfirm` | src/components/NicknameModal.tsx:44-47 | `onConfirm` is called if and only if the draft is not all whitespace, and then with the untrimmed draft, which is non-empty |
| `Session.GameScreen.constructor` | src/screens/GameScreen.tsx:24-50 | nickname `""`, modal shown, colour `#000000`, `pixelInfo` `""`, `userCount` 0, a blank loading canvas, an empty draft, one `requestCanvasData` emitted, and `Consistent` holds |
| `Session.GameScreen.HandleNicknameConfirm` | src/screens/GameScreen.tsx:80-84 | nickname becomes `nick`, the modal is hidden, exactly one `setNickname(nick)` is emitted, the other fields are kept |
| `Session.GameScreen.HandleNicknameCancel` | src/screens/GameScreen.tsx:125 | the modal is hidden; nickname and all other fields are kept and nothing is emitted |
| `Session.GameScreen.TypeNickname` | src/components/NicknameModal.tsx:28-34 | typing replaces the modal's draft with the text |
| `Session.GameScreen.PressConfirm` | src/screens/GameScreen.tsx:122-126 | a blank draft changes nothing and emits nothing; otherwise the untrimmed draft becomes the nickname with one `setNickname`; `Consistent` is preserved |
| `Session.GameScreen.OnUserCount` | src/screens/GameScreen.tsx:61-63 | `userCount` becomes the received value unvalidated (so the last event wins); nothing else changes |
| `Session.GameScreen.OnColorChange` | src/screens/GameScreen.tsx:104 | `selectedColor` becomes the reported colour; `Consistent` is preserved when that colour is in the palette |
| `Session.GameScreen.PressPixel` | src/screens/GameScreen.tsx:108-113 | the canvas press is run with the screen's nickname and colour and its notice becomes `pixelInfo`; the session fields and `Consistent` are unchanged |
| `Scenarios.CancelKeepsGateClosed` | src/screens/GameScreen.tsx:122-126 | after cancelling from the initial state, a press changes no cell, emits nothing beyond `requestCanvasData`, and shows the nickname notice |
| `Scenarios.BlankDraftKeepsGateClosed` | src/components/NicknameModal.tsx:44-47 | confirming a whitespace-only draft leaves the nickname empty, emits no `setNickname`, and the canvas still refuses presses |
| `Scenarios.EchoOfOwnEdit` | src/components/Canvas.tsx:105-112 | after confirm, pick, snapshot and press, the cell shows the picked colour, the echoed `pixelChange` leaves the grid unchanged, and the log is `requestCanvasData`, `setNickname`, `pixelChange` in that order |
| `Scenarios.SnapshotOverridesLocalEdit` | src/components/Canvas.tsx:54-61 | after a first snapshot a press shows the selected colour; a later snapshot replaces it with that snapshot's reading of the cell, and `loading` stays off |
| `Scenarios.SameCellDeltasLastWins` | src/components/Canvas.tsx:68-75 | two relayed deltas to one cell leave the second colour, on top of the snapshot |

## Left out

- Rendering: the SVG `Rect` grid, `pixelSize = size / 100` (floating point), styles and the loading text. These are presentation.
- The socket transport and `../services/socket`, which is not part of this model. Emitting is an append to `Socket.sent`. Registering and removing listeners (`socket.on`/`socket.off` in the effects) is not modelled; an incoming event is a call to its handler.
- React plumbing: hooks, `useMemo`, `useCallback`, `React.memo`, re-rendering. A `setCanvas(prev => …)` updater is modelled as taking effect at once, in handler order. React applies queued updaters in the same order, each to the latest state, so the result is the same.
- The `loading` gate on presses. The source's press handler never checks `loading`; presses are unreachable while loading only because no `Rect` is rendered then. The model does not reject them. It treats "no press while loading" as a fact about the environment.
- Coordinates outside 0..99. The source has no bounds check: an `x` outside the grid makes the spread of `newCanvas[x]` throw, and a `y` of 100 or more lengthens row x. `OnPixelChange`, `HandlePixelPress` and `PressPixel` therefore require `InRange(x, y)`.
- Snapshot payload shapes other than `null`/`undefined` or an indexable object of rows of strings. The source would store a truthy non-string entry (a number, an object) as-is, and would index into a string row character by character. The model's cells are strings.
- `Session.GameScreen.OnUserCount`: JavaScript accepts any value here; the model takes an `int`. There is no validation, as in the source.
- `Session.GameScreen.OnColorChange`: the colour picker (src/components/ColorPicker.tsx) is not modelled. Its only calls pass one of its ten constants (`PALETTE`), so the palette half of `Consistent` is stated as preserved for palette colours.
- Modal visibility: the `visible` prop decides only whether the modal is drawn. The draft is kept while the modal is hidden, as in the source.
- `Session.GameScreen.PressConfirm`: not gated on `showNicknameModal`. In the source a hidden modal's buttons cannot be pressed, and nothing sets `showNicknameModal` back to true (src/screens/GameScreen.tsx:30, 82, 125), so a session that cancels never gets a nickname and never paints. The model allows the press and does not state that consequence.
- `CanvasEngine.Canvas.OnCanvasData`: on a `null` or `undefined` event the source throws a `TypeError`. The model does not signal it; it only states that the state is unchanged.
- Navigation and app registration (src/App.tsx, index.ts) and the unused `Pixel` component.
