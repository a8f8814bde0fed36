/** Whole-session runs built only from the handlers' contracts: what a client of
    the screen can rely on when the modal, the canvas and the socket events are
    combined. Each starts from a freshly mounted screen on a fresh socket. */
module Scenarios {
  import opened Grid
  import opened Channel
  import opened CanvasEngine
  import opened Nickname
  import opened Session

  /** Cancelling the modal from the initial state keeps the gate closed: a
      press after the snapshot changes no cell, emits nothing and shows the
      nickname notice. */
  method CancelKeepsGateClosed(data: Payload, x: int, y: int)
    returns (cells: Matrix, sent: seq<Message>, info: string)
    requires InRange(x, y)
    ensures cells == Validate(data)
    ensures sent == [RequestCanvasData]
    ensures info == NEED_NICKNAME
  {
    var socket := new Socket();
    var screen := new GameScreen(socket);
    screen.HandleNicknameCancel();
    screen.canvas.OnCanvasData(Rows(data));
    screen.PressPixel(x, y);
    cells, sent, info := screen.canvas.Cells(), socket.sent, screen.pixelInfo;
  }

  /** A draft of blanks never reaches `onConfirm`: the nickname stays empty, no
      `setNickname` goes out, and the canvas still refuses the press. */
  method BlankDraftKeepsGateClosed(draft: string, data: Payload, x: int, y: int)
    returns (nickname: string, cells: Matrix, sent: seq<Message>, info: string)
    requires IsBlank(draft) && InRange(x, y)
    ensures nickname == ""
    ensures cells == Validate(data)
    ensures sent == [RequestCanvasData]
    ensures info == NEED_NICKNAME
  {
    var socket := new Socket();
    var screen := new GameScreen(socket);
    screen.TypeNickname(draft);
    screen.PressConfirm();
    screen.canvas.OnCanvasData(Rows(data));
    screen.PressPixel(x, y);
    nickname, cells, sent, info := screen.nickname, screen.canvas.Cells(), socket.sent, screen.pixelInfo;
  }

  /** Confirm, snapshot, press, then the authority's echo of the emitted
      `pixelChange`: the optimistic write shows the picked colour, the echo
      changes nothing, and the log holds the three messages in order. */
  method EchoOfOwnEdit(draft: string, pick: nat, data: Payload, x: int, y: int)
    returns (afterEdit: Matrix, afterEcho: Matrix, sent: seq<Message>)
    requires !IsBlank(draft) && pick < |PALETTE| && InRange(x, y)
    ensures afterEdit == SetCell(Validate(data), x, y, PALETTE[pick])
    ensures afterEcho == afterEdit
    ensures sent == [RequestCanvasData, SetNickname(draft), PixelChange(x, y, PALETTE[pick])]
  {
    var c := PALETTE[pick];
    var socket := new Socket();
    var screen := new GameScreen(socket);
    screen.TypeNickname(draft);
    screen.PressConfirm();
    assert screen.nickname == draft && socket.sent == [RequestCanvasData, SetNickname(draft)];
    screen.OnColorChange(c);
    screen.canvas.OnCanvasData(Rows(data));
    assert screen.canvas.Cells() == Validate(data);
    screen.PressPixel(x, y);
    afterEdit := screen.canvas.Cells();
    sent := socket.sent;
    assert sent == [RequestCanvasData, SetNickname(draft)] + [PixelChange(x, y, c)];
    screen.canvas.OnPixelChange(x, y, c);
    afterEcho := screen.canvas.Cells();
    SetCellEcho(afterEdit, x, y, c);
  }

  /** A later snapshot overrides a local edit: after a first snapshot the press
      shows the selected colour, and a second snapshot puts the cell back to
      what that snapshot says, with loading off throughout. */
  method SnapshotOverridesLocalEdit(draft: string, first: Payload, second: Payload, x: int, y: int)
    returns (edited: string, cell: string, loading: bool)
    requires !IsBlank(draft) && InRange(x, y)
    ensures edited == INITIAL_COLOR
    ensures cell == EntryOr(second, x, y)
    ensures !loading
  {
    var socket := new Socket();
    var screen := new GameScreen(socket);
    screen.TypeNickname(draft);
    screen.PressConfirm();
    screen.canvas.OnCanvasData(Rows(first));
    screen.PressPixel(x, y);
    edited := screen.canvas.grid[x][y];
    screen.canvas.OnCanvasData(Rows(second));
    cell, loading := screen.canvas.grid[x][y], screen.canvas.loading;
  }

  /** Two relayed deltas for one cell: the later colour is the one shown,
      whatever the earlier one was. */
  method SameCellDeltasLastWins(data: Payload, x: int, y: int, first: string, second: string)
    returns (cells: Matrix)
    requires InRange(x, y)
    ensures cells == SetCell(Validate(data), x, y, second)
    ensures cells[x][y] == second
  {
    var socket := new Socket();
    var screen := new GameScreen(socket);
    screen.canvas.OnCanvasData(Rows(data));
    screen.canvas.OnPixelChange(x, y, first);
    screen.canvas.OnPixelChange(x, y, second);
    cells := screen.canvas.Cells();
    SetCellLastWins(Validate(data), x, y, first, second);
  }
}
