/** The server's packet handler (src/server/Server.cpp). */
module Serving {
  import opened Common
  import opened EnterpriseDiode
  import opened Sessions

  class Server {
    const sessionManager: SessionManager

    constructor (config: ServerConfig)
      ensures sessionManager.config == config && fresh(sessionManager)
      ensures sessionManager.Valid() && sessionManager.State == EMPTY && sessionManager.Repr == {}
    {
      sessionManager := new SessionManager(config);
    }

    /** Returns whether an exception escaped to the caller. */
    method ReceivePacket(header: BytesBuffer, payload: BytesBuffer, now: int) returns (escaped: bool)
      requires sessionManager.Valid()
      modifies sessionManager, sessionManager.Repr
      ensures sessionManager.Valid() && fresh(sessionManager.Repr - old(sessionManager.Repr))
      ensures Receives(sessionManager.config, old(sessionManager.State), Datagram(header, payload), now,
                       sessionManager.State, escaped)
    {
      var packet := ParsePacket(Datagram(header, payload));
      if packet.Failure? {
        return packet.error.OtherError?;
      }
      var thrown := sessionManager.WriteToStream(packet.value, now);
      escaped := thrown == Some(OtherError);
    }
  }
}
