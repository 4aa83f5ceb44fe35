/**
 The session lifecycle as objects: the reference-counted registry, the sessions, the dispatcher with
 its handles, and the multi-step construction with its rollback.
 */
module SessionLibrary {
  import opened CdmBackend
  import opened SessionModel

  // ----- the dispatcher -----

  class MessageDispatcher {
    var clients: set<OpenCDMSession>

    constructor ()
      ensures clients == {}
    {
      clients := {};
    }

    method AddClient(client: OpenCDMSession)
      modifies this
      ensures clients == old(clients) + {client}
    {
      clients := clients + {client};
    }

    method RemoveClient(client: OpenCDMSession)
      modifies this
      ensures clients == old(clients) - {client}
    {
      clients := clients - {client};
    }

    method CreateClient(client: OpenCDMSession) returns (handle: MessageDispatcherClient)
      modifies this
      ensures fresh(handle) && handle.dispatcher == this && handle.client == client
      ensures clients == old(clients) + {client}
    {
      handle := new MessageDispatcherClient(this, client);
    }

    /** The broadcast loop: every client gets the message, in no particular order. */
    method Broadcast(m: Message)
      modifies clients`challengeData, clients`keyStatuses
      ensures clients == old(clients)
      ensures forall c | c in clients :: c.View() == Deliver(old(c.View()), m)
    {
      var todo := clients;
      while todo != {}
        invariant todo <= clients
        invariant forall c | c in clients ::
                    c.View() == if c in todo then old(c.View()) else Deliver(old(c.View()), m)
        decreases todo
      {
        var client :| client in todo;
        match m {
          case License(id, data) => client.OnLicenseMessage(id, data);
          case KeyStatuses(id, changes) => client.OnKeyStatusesChanged(id, changes);
        }
        todo := todo - {client};
      }
    }
  }

  /** The handle that keeps a client registered for as long as it lives. */
  class MessageDispatcherClient {
    const dispatcher: MessageDispatcher
    const client: OpenCDMSession

    constructor (dispatcher: MessageDispatcher, client: OpenCDMSession)
      modifies dispatcher
      ensures this.dispatcher == dispatcher && this.client == client
      ensures dispatcher.clients == old(dispatcher.clients) + {client}
    {
      this.dispatcher, this.client := dispatcher, client;
      new;
      dispatcher.AddClient(client);
    }

    method Destroy()
      modifies dispatcher
      ensures dispatcher.clients == old(dispatcher.clients) - {client}
    {
      dispatcher.RemoveClient(client);
    }
  }

  // ----- a session -----

  /** A request that is refused, a call that does not return yet, or the challenge it returns. */
  datatype Challenge = Refused | StillWaiting | Got(data: Bytes)

  class OpenCDMSession {
    const cdm: CdmBackend?
    const messageDispatcher: MessageDispatcher?
    const hasKeyUpdateCallback: bool
    const initDataKnown: bool
    var client: MessageDispatcherClient?
    var rialtoSessionId: int
    var isInitialized: bool
    var challengeData: Bytes
    var keyStatuses: map<Bytes, RialtoStatus>

    constructor (cdm: CdmBackend?, messageDispatcher: MessageDispatcher?, hasKeyUpdateCallback: bool, initDataKnown: bool)
      ensures this.cdm == cdm && this.messageDispatcher == messageDispatcher
      ensures Valid() && View() == NewSession(hasKeyUpdateCallback, initDataKnown)
    {
      this.cdm, this.messageDispatcher := cdm, messageDispatcher;
      this.hasKeyUpdateCallback, this.initDataKnown := hasKeyUpdateCallback, initDataKnown;
      client, rialtoSessionId, isInitialized := null, INVALID_SESSION_ID, false;
      challengeData, keyStatuses := [], map[];
    }

    function View(): Session
      reads this
    {
      Session(rialtoSessionId, isInitialized, client != null, challengeData, keyStatuses, hasKeyUpdateCallback, initDataKnown)
    }

    /** The handle, if there is one, is this session's own; only an initialized session has one. */
    ghost predicate Valid()
      reads this
    {
      client != null ==> isInitialized && client.client == this && client.dispatcher == messageDispatcher
    }

    ghost function Clients(): set<OpenCDMSession>
      reads Dispatchers()
    {
      if messageDispatcher == null then {} else messageDispatcher.clients
    }

    /** What the session may write besides itself. */
    ghost function Dispatchers(): set<object> {
      if messageDispatcher == null then {} else {messageDispatcher}
    }

    ghost function Backends(): set<object> {
      if cdm == null then {} else {cdm}
    }

    /**
     during and answer are what happens while the backend waits, and what the media keys say.  A
     failing backend may have written the session id all the same.
     */
    method Initialize(during: seq<Event>, answer: Answer) returns (ok: bool)
      requires Valid()
      modifies this, Dispatchers(), Backends()
      ensures Valid()
      ensures cdm == null || messageDispatcher == null || old(isInitialized) ==>
                View() == old(View()) && (ok <==> cdm != null && messageDispatcher != null)
      ensures old(isInitialized) && messageDispatcher != null ==> messageDispatcher.clients == old(messageDispatcher.clients)
      ensures cdm != null && messageDispatcher != null && !old(isInitialized) ==>
                && (ok <==> cdm.mediaKeys && answer.ok)
                && View() == old(View()).(id := if cdm.mediaKeys then answer.id else old(rialtoSessionId),
                                          initialized := ok, registered := ok)
                && messageDispatcher.clients == old(messageDispatcher.clients) + if ok then {this} else {}
    {
      if cdm == null || messageDispatcher == null {
        return false;
      }
      if !isInitialized {
        var created;
        created, rialtoSessionId := cdm.CreateKeySession(during, answer, rialtoSessionId);
        if !created {
          return false;
        }
        var handle := messageDispatcher.CreateClient(this);
        assert client == null;  // so taking the new handle destroys no older one
        client := handle;
        isInitialized := true;
      }
      return true;
    }

    method GenerateRequest(dataTypeKnown: bool, answer: bool) returns (ok: bool)
      ensures ok <==> cdm != null && dataTypeKnown && rialtoSessionId != -1 && cdm.mediaKeys && answer
    {
      if cdm == null {
        return false;
      }
      if dataTypeKnown && rialtoSessionId != -1 {
        ok := cdm.Forward(answer);
        return ok;
      }
      return false;
    }

    /** arriving are the messages that the dispatcher broadcasts while the call waits for a challenge. */
    method GetChallengeData(answer: bool, arriving: seq<Message>) returns (r: Challenge)
      modifies Clients()
      ensures r == Refused <==> !(initDataKnown && cdm != null && cdm.mediaKeys && answer && old(rialtoSessionId) != -1)
      ensures r == Refused ==> View() == old(View())
      ensures r != Refused ==> View() == DeliverAll(old(View()), if this in old(Clients()) then arriving else [])
      ensures r != Refused ==> r == if challengeData == [] then StillWaiting else Got(challengeData)
    {
      var requested := GenerateRequest(initDataKnown, answer);
      if !requested {
        return Refused;
      }
      if messageDispatcher != null {
        for i := 0 to |arriving|
          invariant Clients() == old(Clients())
          invariant if this in Clients() then DeliverAll(View(), arriving[i..]) == DeliverAll(old(View()), arriving)
                    else View() == old(View())
        {
          assert arriving[i..][0] == arriving[i] && arriving[i..][1..] == arriving[i + 1..];
          messageDispatcher.Broadcast(arriving[i]);
        }
        assert arriving[|arriving|..] == [];
      }
      if challengeData == [] {
        return StillWaiting;
      }
      return Got(challengeData);
    }

    method CloseSession(answer: bool) returns (ok: bool)
      requires Valid()
      modifies this, Dispatchers()
      ensures Valid()
      ensures ok <==> cdm != null && old(rialtoSessionId) != -1 && cdm.mediaKeys && answer
      ensures View() == if ok then old(View()).(registered := false, challenge := [], statuses := map[]) else old(View())
      ensures messageDispatcher != null ==>
                messageDispatcher.clients ==
                old(messageDispatcher.clients) - if ok && old(client) != null then {this} else {}
    {
      if cdm == null {
        return false;
      }
      if rialtoSessionId != -1 {
        ok := cdm.Forward(answer);
        if ok {
          if client != null {
            client.Destroy();
            client := null;
          }
          challengeData := [];
          keyStatuses := map[];
          return true;
        }
      }
      return false;
    }

    /** Requests and renewals alike replace the challenge. */
    method OnLicenseMessage(keySessionId: int, message: Bytes)
      modifies this`challengeData
      ensures View() == Deliver(old(View()), License(keySessionId, message))
    {
      if keySessionId == rialtoSessionId {
        challengeData := message;
      }
    }

    method OnKeyStatusesChanged(keySessionId: int, changes: seq<KeyChange>)
      modifies this`keyStatuses
      ensures View() == Deliver(old(View()), KeyStatuses(keySessionId, changes))
    {
      if keySessionId == rialtoSessionId && hasKeyUpdateCallback {
        for i := 0 to |changes|
          invariant keyStatuses == Apply(old(keyStatuses), changes[..i])
        {
          keyStatuses := keyStatuses[changes[i].key := changes[i].status];
          assert changes[..i + 1][..i] == changes[..i];
        }
        assert changes[..|changes|] == changes;
      }
    }

    function StatusOf(key: Bytes): KeyStatus
      reads this
    {
      Status(View(), key)
    }

    /** The destructor: the members go in reverse order, so the data goes before the handle is released. */
    method Destroy()
      requires Valid()
      modifies this, Dispatchers()
      ensures Valid() && View() == old(View()).(registered := false, challenge := [], statuses := map[])
      ensures messageDispatcher != null ==>
                messageDispatcher.clients == old(messageDispatcher.clients) - if old(client) != null then {this} else {}
    {
      keyStatuses := map[];
      challengeData := [];
      if client != null {
        client.Destroy();
        client := null;
      }
    }
  }

  function DeliverAll(s: Session, messages: seq<Message>): Session
    decreases |messages|
  {
    if messages == [] then s else DeliverAll(Deliver(s, messages[0]), messages[1..])
  }

  // ----- the registry -----

  class ActiveSessions {
    var activeSessions: map<OpenCDMSession, int>

    constructor ()
      ensures activeSessions == map[]
    {
      activeSessions := map[];
    }

    method Create(cdm: CdmBackend?, messageDispatcher: MessageDispatcher?, hasKeyUpdateCallback: bool, initDataKnown: bool)
      returns (session: OpenCDMSession)
      modifies this
      ensures fresh(session) && session.cdm == cdm && session.messageDispatcher == messageDispatcher
      ensures session.Valid() && session.View() == NewSession(hasKeyUpdateCallback, initDataKnown)
      ensures activeSessions == old(activeSessions)[session := 1]
    {
      session := new OpenCDMSession(cdm, messageDispatcher, hasKeyUpdateCallback, initDataKnown);
      activeSessions := activeSessions[session := 1];
    }

    /** Some session that knows the key, with its count raised; null exactly if no session does. */
    method Get(keyId: Bytes) returns (session: OpenCDMSession?)
      modifies this
      ensures session == null <==> forall s | s in old(activeSessions) :: s.StatusOf(keyId) == InternalError
      ensures session == null ==> activeSessions == old(activeSessions)
      ensures session != null ==>
                && session in old(activeSessions)
                && session.StatusOf(keyId) != InternalError
                && activeSessions == old(activeSessions)[session := old(activeSessions)[session] + 1]
    {
      var todo := activeSessions.Keys;
      while todo != {}
        invariant todo <= activeSessions.Keys && activeSessions == old(activeSessions)
        invariant forall s | s in activeSessions && s !in todo :: s.StatusOf(keyId) == InternalError
        decreases todo
      {
        var s :| s in todo;
        if s.StatusOf(keyId) != InternalError {
          activeSessions := activeSessions[s := activeSessions[s] + 1];
          return s;
        }
        todo := todo - {s};
      }
      return null;
    }

    /** Gives one handle back; the last one deletes the session.  Unknown sessions are ignored. */
    method Remove(session: OpenCDMSession?)
      requires session != null ==> session.Valid()
      modifies this
      modifies if session == null then {} else {session} + session.Dispatchers()
      ensures session == null || session !in old(activeSessions) ==> activeSessions == old(activeSessions)
      ensures session != null && session in old(activeSessions) ==>
                activeSessions == if old(activeSessions)[session] == 1 then old(activeSessions) - {session}
                                  else old(activeSessions)[session := old(activeSessions)[session] - 1]
      ensures session != null ==>
                session.Clients() == old(session.Clients()) -
                if session in old(activeSessions) && old(activeSessions)[session] == 1 && old(session.client) != null
                then {session} else {}
    {
      if session != null && session in activeSessions {
        activeSessions := activeSessions[session := activeSessions[session] - 1];
        if 0 == activeSessions[session] {
          session.Destroy();
          activeSessions := activeSessions - {session};
        }
      }
    }
  }

  // ----- construction with rollback -----

  datatype OpenCDMError = ERROR_NONE | ERROR_INVALID_SESSION | ERROR_FAIL

  class OpenCDMSystem {
    const isPlayready: bool
    const cdm: CdmBackend
    const messageDispatcher: MessageDispatcher

    constructor (isPlayready: bool, cdm: CdmBackend, messageDispatcher: MessageDispatcher)
      ensures this.isPlayready == isPlayready && this.cdm == cdm && this.messageDispatcher == messageDispatcher
    {
      this.isPlayready, this.cdm, this.messageDispatcher := isPlayready, cdm, messageDispatcher;
    }
  }

  /** What the outside world does during one construction. */
  datatype World = World(during: seq<Event>, create: Answer, request: bool, close: bool)

  /** `opencdm_session_close` */
  method SessionClose(session: OpenCDMSession?, answer: bool) returns (result: OpenCDMError)
    requires session != null ==> session.Valid()
    modifies if session == null then {} else {session} + session.Dispatchers()
    ensures session == null ==> result == ERROR_INVALID_SESSION
    ensures session != null ==>
              && session.Valid()
              && (result == ERROR_NONE <==>
                    session.cdm != null && old(session.rialtoSessionId) != -1 && session.cdm.mediaKeys && answer)
              && (result != ERROR_NONE ==> result == ERROR_FAIL && session.View() == old(session.View()))
              && (result == ERROR_NONE ==>
                    session.View() == old(session.View()).(registered := false, challenge := [], statuses := map[]))
              && session.Clients() ==
                 old(session.Clients()) - if result == ERROR_NONE && old(session.client) != null then {session} else {}
  {
    result := ERROR_INVALID_SESSION;
    if session != null {
      var closed := session.CloseSession(answer);
      result := if closed then ERROR_NONE else ERROR_FAIL;
    }
  }

  /** Initializes the new session and requests its license; if either fails, it is rolled back. */
  method StartOrRollBack(registry: ActiveSessions, session: OpenCDMSession, cdm: CdmBackend,
                         dispatcher: MessageDispatcher, world: World)
    returns (ok: bool)
    requires session.cdm == cdm && session.messageDispatcher == dispatcher && session !in dispatcher.clients
    requires session.Valid() && session.View() == NewSession(session.hasKeyUpdateCallback, session.initDataKnown)
    requires session in registry.activeSessions && registry.activeSessions[session] == 1
    modifies registry, session, cdm, dispatcher
    ensures ok <==> cdm.mediaKeys && world.create.ok && session.initDataKnown && world.create.id != -1 && world.request
    ensures ok ==>
              && session.Valid() && registry.activeSessions == old(registry.activeSessions)
              && dispatcher.clients == old(dispatcher.clients) + {session}
              && session.View() == old(session.View()).(id := world.create.id, initialized := true, registered := true)
    ensures !ok ==>
              && registry.activeSessions == old(registry.activeSessions) - {session}
              && dispatcher.clients == old(dispatcher.clients)
  {
    var initialized := session.Initialize(world.during, world.create);
    if !initialized {
      registry.Remove(session);
      return false;
    }
    var requested := session.GenerateRequest(session.initDataKnown, world.request);
    if !requested {
      var closed := SessionClose(session, world.close);
      registry.Remove(session);
      return false;
    }
    return true;
  }

  /**
   `opencdm_construct_session`: all or nothing.  On success there is one new session with one handle,
   registered unless the key system is PlayReady; on any failure the registry and the dispatcher's
   clients are as before, even if closing the session fails during the rollback.
   */
  method ConstructSession(registry: ActiveSessions, system: OpenCDMSystem?, hasKeyUpdateCallback: bool,
                          initDataKnown: bool, world: World)
    returns (error: OpenCDMError, session: OpenCDMSession?)
    modifies registry
    modifies if system == null then {} else {system.cdm, system.messageDispatcher}
    ensures error == ERROR_NONE <==>
              system != null && (system.isPlayready ||
                                 (system.cdm.mediaKeys && world.create.ok && initDataKnown && world.create.id != -1 && world.request))
    ensures error == ERROR_NONE ==>
              && session != null && fresh(session) && session.Valid()
              && session.cdm == system.cdm && session.messageDispatcher == system.messageDispatcher
              && registry.activeSessions == old(registry.activeSessions)[session := 1]
              && system.messageDispatcher.clients ==
                 old(system.messageDispatcher.clients) + (if system.isPlayready then {} else {session})
              && session.View() ==
                 (if system.isPlayready then NewSession(hasKeyUpdateCallback, initDataKnown)
                  else NewSession(hasKeyUpdateCallback, initDataKnown).(id := world.create.id, initialized := true, registered := true))
    ensures error != ERROR_NONE ==>
              && error == ERROR_FAIL && session == null
              && registry.activeSessions == old(registry.activeSessions)
              && (system != null ==> system.messageDispatcher.clients == old(system.messageDispatcher.clients))
  {
    if system == null {
      return ERROR_FAIL, null;
    }
    var newSession := registry.Create(system.cdm, system.messageDispatcher, hasKeyUpdateCallback, initDataKnown);
    if !system.isPlayready {
      var started := StartOrRollBack(registry, newSession, system.cdm, system.messageDispatcher, world);
      if !started {
        assert registry.activeSessions == old(registry.activeSessions);
        return ERROR_FAIL, null;
      }
    }
    return ERROR_NONE, newSession;
  }

  /** `opencdm_destruct_session` */
  method DestructSession(registry: ActiveSessions, session: OpenCDMSession?) returns (error: OpenCDMError)
    requires session != null ==> session.Valid()
    modifies registry
    modifies if session == null then {} else {session} + session.Dispatchers()
    ensures error == ERROR_NONE
    ensures session == null || session !in old(registry.activeSessions) ==> registry.activeSessions == old(registry.activeSessions)
    ensures session != null && session in old(registry.activeSessions) ==>
              registry.activeSessions == if old(registry.activeSessions)[session] == 1 then old(registry.activeSessions) - {session}
                                         else old(registry.activeSessions)[session := old(registry.activeSessions)[session] - 1]
    ensures session != null ==>
              session.Clients() == old(session.Clients()) -
              if session in old(registry.activeSessions) && old(registry.activeSessions)[session] == 1 && old(session.client) != null
              then {session} else {}
  {
    registry.Remove(session);
    return ERROR_NONE;
  }
}
