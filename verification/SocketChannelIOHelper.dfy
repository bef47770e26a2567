/** Writing the output queue of a connection to its channel. */
module SocketChannelIOHelper {
  import opened Options
  import opened Connection
  import opened WebSocketImpl

  lemma FlushStep(c: Conn, room: seq<nat>)
    requires c.outQueue != []
    ensures var buffer := c.outQueue[0];
      var n := Taken(if room == [] then 0 else room[0], buffer);
      Flush(c, room) ==
        if n < |buffer| then c.(written := c.written + buffer[..n], outQueue := [buffer[n..]] + c.outQueue[1..])
        else Flush(c.(written := c.written + buffer[..n], outQueue := c.outQueue[1..]), if room == [] then [] else room[1..])
  {
    var buffer := c.outQueue[0];
    assert buffer[..|buffer|] == buffer;
  }

  /** Writes as much as the channel takes; closes the connection of a server that has been
      told to close when everything is written.  Returns whether the queue is empty. */
  method Batch(ws: WebSocketImpl) returns (r: bool)
    requires ws.Valid() && (ws.flushandclosestate ==> ws.closedremotely.Some?)
    modifies ws, ws.wsl, ws.channel
    ensures ws.Valid() && ws.State() == Connection.Batch(old(ws.State()), old(ws.channel.room))
    ensures r == (ws.outQueue == [])
  {
    ghost var s, room := ws.State(), ws.channel.room;
    FlushKeeps(s, room);
    while ws.outQueue != []
      invariant ws.Valid() && Flush(ws.State(), ws.channel.room) == Flush(s, room)
      decreases |ws.outQueue|
    {
      FlushStep(ws.State(), ws.channel.room);
      hide Flush;
      var buffer := ws.outQueue[0];
      var n := ws.channel.Write(buffer);
      if n < |buffer| {
        ws.outQueue := [buffer[n..]] + ws.outQueue[1..];
        return false;
      }
      ws.outQueue := ws.outQueue[1..];
    }
    if ws.outQueue == [] && ws.flushandclosestate && ws.draft.Some? && ws.draft.value.role == Some(SERVER) {
      var thrown := ws.CloseFlushed();
    }
    return true;
  }
}
