/** The socket the client shares with the authority, seen from this side: the
    messages it emits, in order. Incoming events are delivered by calling the
    matching handler of the component that listens for them. */
module Channel {

  /** Outgoing messages: `requestCanvasData`, `pixelChange` and `setNickname`. */
  datatype Message =
    | RequestCanvasData
    | PixelChange(x: int, y: int, color: string)
    | SetNickname(nick: string)

  /** The emitting end of the connection; `sent` is everything emitted so far. */
  class Socket {
    var sent: seq<Message>

    constructor ()
      ensures sent == []
    {
      sent := [];
    }

    /** `socket.emit(topic, payload)`: fire-and-forget, appended to the log. */
    method Emit(m: Message)
      modifies this
      ensures sent == old(sent) + [m]
    {
      sent := sent + [m];
    }
  }
}
