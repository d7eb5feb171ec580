/**
 * What the socket layer does for the handlers: rooms keyed by poll id, and
 * the two kinds of emit. An emit is returned as a value (who it goes to and
 * what it carries); delivery itself is not modelled.
 */
module Transport {
  import opened PollModel

  /** A connection handle. */
  type SocketId = nat

  /** The events a client can receive. */
  datatype ServerEvent =
    | PollUpdate(snapshot: Poll)   // "poll_update", the whole poll
    | VoteError(message: string)   // "vote_error"

  /** `io.to(room).emit(...)` or `socket.emit(...)` to the originating socket. */
  datatype Emission =
    | ToRoom(room: string, event: ServerEvent)
    | ToSender(event: ServerEvent)

  /** Room membership: which sockets have joined which poll's room. */
  class Rooms {
    var members: map<string, set<SocketId>>

    constructor()
      ensures members == map[]
    {
      members := map[];
    }

    function Members(room: string): set<SocketId>
      reads this
    {
      if room in members then members[room] else {}
    }

    /** `socket.join(pollId)`, the whole of the `join_poll` handler. */
    method Join(socket: SocketId, room: string)
      modifies this
      ensures Members(room) == old(Members(room)) + {socket}
      ensures forall r :: r != room ==> Members(r) == old(Members(r))
    {
      members := members[room := Members(room) + {socket}];
    }

    /** The sockets an emission reaches when `sender` triggered it. */
    function Recipients(e: Emission, sender: SocketId): (s: set<SocketId>)
      reads this
      ensures e.ToSender? ==> s == {sender}
      ensures e.ToRoom? ==> s == Members(e.room)
    {
      match e
      case ToRoom(room, _) => Members(room)
      case ToSender(_) => {sender}
    }
  }
}
