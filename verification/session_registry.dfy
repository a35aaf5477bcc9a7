/** The session registry and the admission of a session (serverf/session_registry.cpp,
    server.cpp `authenticate` and `cleanupSession`), changed in place. */
module SessionRegistries {
  import opened Prelude

  datatype Line = SuccessLine | FailureLine

  class ClientSession {
    var username: Bytes
    var ready: bool
    var stopping: bool
    /** Whether the socket still takes writes. */
    var writable: bool
    /** The admission lines written so far. */
    var written: seq<Line>

    constructor (writable: bool)
      ensures !ready && !stopping && written == [] && this.writable == writable && username == []
    {
      username, ready, stopping, this.writable, written := [], false, false, writable, [];
    }

    /** `sendJson`: a failed write stops the session. */
    method SendLine(line: Line) returns (sent: bool)
      modifies this`written, this`stopping
      ensures sent <==> !old(stopping) && writable
      ensures written == if sent then old(written) + [line] else old(written)
      ensures stopping == !sent
    {
      if stopping {
        return false;
      }
      if !writable {
        stopping := true;
        return false;
      }
      written := written + [line];
      return true;
    }
  }

  class SessionRegistry {
    var sessions: map<Bytes, ClientSession>

    constructor ()
      ensures sessions == map[]
    {
      sessions := map[];
    }

    /** A name is reserved once. */
    method Reserve(username: Bytes, session: ClientSession) returns (reserved: bool)
      modifies this
      ensures reserved <==> username !in old(sessions)
      ensures sessions == if reserved then old(sessions)[username := session] else old(sessions)
    {
      if username in sessions {
        return false;
      }
      sessions := sessions[username := session];
      return true;
    }

    /** The session that holds the name becomes findable, unless it is stopping. */
    method PublishReady(username: Bytes, session: ClientSession) returns (published: bool)
      modifies session`ready
      ensures published <==> username in sessions && sessions[username] == session && !session.stopping
      ensures session.ready == (old(session.ready) || published)
    {
      if username !in sessions || sessions[username] != session || session.stopping {
        return false;
      }
      session.ready := true;
      return true;
    }

    /** A live route: a session that is ready and not stopping; a stopping one is dropped. */
    method FindReady(username: Bytes) returns (found: Option<ClientSession>)
      modifies this
      ensures found.Some? <==> username in old(sessions) && old(sessions)[username].ready && !old(sessions)[username].stopping
      ensures found.Some? ==> found.value == old(sessions)[username]
      ensures sessions == (if username in old(sessions) && old(sessions)[username].ready && old(sessions)[username].stopping
                           then old(sessions) - {username} else old(sessions))
    {
      if username !in sessions || !sessions[username].ready {
        return None;
      }
      if sessions[username].stopping {
        sessions := sessions - {username};
        return None;
      }
      return Some(sessions[username]);
    }

    /** A name is given up by the session that holds it only. */
    method RemoveIfSame(username: Bytes, session: ClientSession) returns (removed: bool)
      modifies this
      ensures removed <==> username in old(sessions) && old(sessions)[username] == session
      ensures sessions == if removed then old(sessions) - {username} else old(sessions)
    {
      if username !in sessions || sessions[username] != session {
        return false;
      }
      sessions := sessions - {username};
      return true;
    }
  }

  /** Admission after the credentials are verified: the name is reserved, the success line is
      written, and only then is the session published. `interrupted` is whether another thread
      stops the session after its success line. A session that is not admitted leaves the
      registry as it was and has never been findable. */
  method Admit(registry: SessionRegistry, session: ClientSession, username: Bytes, interrupted: bool) returns (admitted: bool)
    requires !session.ready
    modifies registry, session
    ensures admitted <==> username !in old(registry.sessions) && !old(session.stopping) && old(session.writable) && !interrupted
    ensures session.ready == admitted && session.username == username
    ensures registry.sessions == if admitted then old(registry.sessions)[username := session] else old(registry.sessions)
    ensures admitted ==> session.written == old(session.written) + [SuccessLine] && !session.stopping
    ensures username in old(registry.sessions) ==>
      session.written == old(session.written) || session.written == old(session.written) + [FailureLine]
  {
    session.username := username;
    var reserved := registry.Reserve(username, session);
    if !reserved {
      var _ := session.SendLine(FailureLine);
      return false;
    }
    var sent := session.SendLine(SuccessLine);
    if !sent {
      var _ := registry.RemoveIfSame(username, session);
      assert registry.sessions == old(registry.sessions);
      return false;
    }
    if interrupted {
      session.stopping := true;
    }
    var published := registry.PublishReady(username, session);
    if !published {
      var _ := registry.RemoveIfSame(username, session);
      assert registry.sessions == old(registry.sessions);
      return false;
    }
    return true;
  }

  /** The end of a handler: the session stops, and its name is free again unless another
      session has taken it meanwhile. */
  method Cleanup(registry: SessionRegistry, session: ClientSession)
    modifies registry, session`stopping
    ensures session.stopping
    ensures registry.sessions ==
      if session.username in old(registry.sessions) && old(registry.sessions)[session.username] == session
      then old(registry.sessions) - {session.username} else old(registry.sessions)
  {
    session.stopping := true;
    var _ := registry.RemoveIfSame(session.username, session);
  }
}
