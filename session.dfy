/** The game screen: the session fields that gate the canvas (nickname and
    selected colour), the notice line and the user count, and the handlers
    wired to the nickname modal, the colour picker, the canvas and the socket. */
module Session {
  import opened Grid
  import opened Channel
  import opened CanvasEngine
  import opened Nickname

  /** The colour picker's ten options; the only colours it ever reports. */
  const PALETTE: seq<string> := [
    "#000000", "#FFFFFF", "#FF0000", "#00FF00", "#0000FF",
    "#FFFF00", "#FF00FF", "#00FFFF", "#FFA500", "#A52A2A"
  ]

  /** The selected colour before the user picks one. */
  const INITIAL_COLOR: string := "#000000"

  /** What the canvas gate may see: no nickname at all, or one with a non-whitespace
      character. */
  predicate GateSound(nick: string) {
    nick == "" || !IsBlank(nick)
  }

  class GameScreen {
    var nickname: string
    var showNicknameModal: bool
    var selectedColor: string
    var pixelInfo: string
    var userCount: int
    const socket: Socket
    const canvas: Canvas
    const modal: NicknameModal

    /** The canvas emits on this screen's socket and keeps its shape. */
    ghost predicate Valid()
      reads this, canvas, canvas.grid
    {
      canvas.socket == socket && canvas.Valid()
    }

    /** The invariant the wiring keeps: the nickname came from the modal's guard
        (or is still empty) and the colour came from the picker. */
    ghost predicate Consistent()
      reads this
    {
      GateSound(nickname) && selectedColor in PALETTE
    }

    /** Mounting the screen: the initial session fields, a fresh canvas (blank,
        loading) whose mount effect requests the snapshot, and an empty draft. */
    constructor (socket: Socket)
      modifies socket
      ensures Valid() && Consistent()
      ensures nickname == "" && showNicknameModal && selectedColor == INITIAL_COLOR
      ensures pixelInfo == "" && userCount == 0
      ensures this.socket == socket && fresh(canvas) && fresh(canvas.grid) && fresh(modal)
      ensures canvas.Cells() == BlankGrid() && canvas.loading && modal.draft == ""
      ensures socket.sent == old(socket.sent) + [RequestCanvasData]
    {
      nickname := "";
      showNicknameModal := true;
      selectedColor := INITIAL_COLOR;
      pixelInfo := "";
      userCount := 0;
      this.socket := socket;
      var c := new Canvas(socket);
      canvas := c;
      var m := new NicknameModal();
      modal := m;
      new;
      canvas.RequestSnapshot();
    }

    /** `handleNicknameConfirm`: the nickname becomes `nick` as given, the modal is
        hidden and exactly one `setNickname` carrying `nick` is emitted. */
    method HandleNicknameConfirm(nick: string)
      requires Valid()
      modifies this, socket
      ensures Valid()
      ensures nickname == nick && !showNicknameModal
      ensures selectedColor == old(selectedColor) && pixelInfo == old(pixelInfo) && userCount == old(userCount)
      ensures socket.sent == old(socket.sent) + [SetNickname(nick)]
      ensures old(Consistent()) && GateSound(nick) ==> Consistent()
    {
      nickname := nick;
      showNicknameModal := false;
      socket.Emit(SetNickname(nick));
    }

    /** The modal's cancel button: the modal is hidden and nothing else changes;
        in particular the nickname is kept and nothing is emitted. */
    method HandleNicknameCancel()
      modifies this
      ensures !showNicknameModal
      ensures nickname == old(nickname) && selectedColor == old(selectedColor)
      ensures pixelInfo == old(pixelInfo) && userCount == old(userCount)
      ensures old(Consistent()) ==> Consistent()
    {
      showNicknameModal := false;
    }

    /** Typing in the modal's input. */
    method TypeNickname(text: string)
      modifies modal
      ensures modal.draft == text
    {
      modal.OnChangeText(text);
    }

    /** The modal's confirm button: a blank draft changes nothing and emits
        nothing; otherwise the screen confirms the untrimmed draft. Either way the
        nickname the canvas sees stays empty or non-blank. */
    method PressConfirm()
      requires Valid()
      modifies this, socket
      ensures Valid()
      ensures selectedColor == old(selectedColor) && pixelInfo == old(pixelInfo) && userCount == old(userCount)
      ensures IsBlank(modal.draft) ==>
        nickname == old(nickname) && showNicknameModal == old(showNicknameModal) &&
        socket.sent == old(socket.sent)
      ensures !IsBlank(modal.draft) ==>
        nickname == modal.draft && !showNicknameModal &&
        socket.sent == old(socket.sent) + [SetNickname(modal.draft)]
      ensures old(Consistent()) ==> Consistent()
    {
      var confirmed := modal.PressConfirm();
      if confirmed.Some? {
        HandleNicknameConfirm(confirmed.value);
      }
    }

    /** `userCount` event: the count is stored as received, unvalidated. */
    method OnUserCount(count: int)
      modifies this
      ensures userCount == count
      ensures nickname == old(nickname) && showNicknameModal == old(showNicknameModal)
      ensures selectedColor == old(selectedColor) && pixelInfo == old(pixelInfo)
      ensures Consistent() == old(Consistent())
    {
      userCount := count;
    }

    /** The colour picker's `onColorChange`: the selected colour is replaced. */
    method OnColorChange(color: string)
      modifies this
      ensures selectedColor == color
      ensures nickname == old(nickname) && showNicknameModal == old(showNicknameModal)
      ensures pixelInfo == old(pixelInfo) && userCount == old(userCount)
      ensures old(Consistent()) && color in PALETTE ==> Consistent()
    {
      selectedColor := color;
    }

    /** A press on canvas cell (x, y) with the current nickname and colour; the
        canvas's notice becomes the screen's `pixelInfo`. */
    method PressPixel(x: int, y: int)
      requires Valid() && InRange(x, y)
      modifies this, canvas, socket
      ensures Valid() && canvas.loading == old(canvas.loading)
      ensures nickname == old(nickname) && showNicknameModal == old(showNicknameModal)
      ensures selectedColor == old(selectedColor) && userCount == old(userCount)
      ensures Consistent() == old(Consistent())
      ensures nickname == "" ==>
        canvas.Cells() == old(canvas.Cells()) && socket.sent == old(socket.sent) &&
        pixelInfo == NEED_NICKNAME
      ensures nickname != "" ==>
        canvas.Cells() == SetCell(old(canvas.Cells()), x, y, selectedColor) &&
        socket.sent == old(socket.sent) + [PixelChange(x, y, selectedColor)] &&
        pixelInfo == PaintedMessage(x, y, selectedColor)
    {
      var info := canvas.HandlePixelPress(x, y, nickname, selectedColor);
      pixelInfo := info;
    }
  }
}
