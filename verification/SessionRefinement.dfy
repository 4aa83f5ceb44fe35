/**
 The calls of the library take the steps of the state machine.

 A system shows a session if it holds the same data, the same count and the same registration.  Then
 every call on the object leads to what the system shows after the steps of that call.
 */
module SessionRefinement {
  import opened Wrappers
  import opened SessionModel
  import opened SessionLibrary
  import opened SessionRuns
  import opened SessionTheorems
  import opened SessionConstruction
  import CdmBackend

  /** Session s of sys is the object session, with no call running on it. */
  ghost predicate Shows(sys: System, s: Sid, d: Did, registry: ActiveSessions, session: OpenCDMSession)
    reads registry, session, session.Dispatchers()
  {
    && session.Valid() && session.messageDispatcher != null
    && session in registry.activeSessions
    && ShowsData(sys, s, d, session.View(), registry.activeSessions[session], session in session.Clients())
  }

  /** The same, in values. */
  predicate ShowsData(sys: System, s: Sid, d: Did, data: Session, count: int, isClient: bool) {
    && sys.dying == None
    && s in sys.live && sys.live[s] == Live(data, d, Idle)
    && s in sys.counts && sys.counts[s] == count
    && (s in Clients(sys, d) <==> isClient)
  }

  // ----- the steps, in values -----

  function Closed(data: Session): Session {
    data.(registered := false, challenge := [], statuses := map[])
  }

  lemma ClosingShows(sys: System, s: Sid, d: Did, data: Session, count: int, isClient: bool, closed: bool)
    requires ShowsData(sys, s, d, data, count, isClient) && (closed ==> data.id != INVALID_SESSION_ID)
    ensures var steps := ClosingSteps(s, data.id, closed);
            && Executes(sys, steps)
            && ShowsData(Execute(sys, steps), s, d, if closed then Closed(data) else data, count,
                         isClient && !(closed && data.registered))
  {
    if data.id != INVALID_SESSION_ID {
      var asked := Next(sys, CloseKeySession(s, closed));
      if closed {
        var released := Next(asked, Release(s));
        Prepend(released, Clear(s), []);
        Prepend(asked, Release(s), [Clear(s)]);
        assert [Release(s)] + [Clear(s)] == [Release(s), Clear(s)];
        Prepend(sys, CloseKeySession(s, true), [Release(s), Clear(s)]);
        assert [CloseKeySession(s, true)] + [Release(s), Clear(s)] == ClosingSteps(s, data.id, closed);
      } else {
        Prepend(sys, CloseKeySession(s, false), []);
      }
    }
  }

  /** The steps of `initialize` on a session that is not initialized. */
  function StartingSteps(s: Sid, outcome: Outcome): seq<Label> {
    [CreateKeySession(s, outcome)] + if outcome.Created? then [Register(s)] else []
  }

  function Started(data: Session, outcome: Outcome): Session {
    match outcome
    case NoKeys => data
    case Failed(id) => data.(id := id)
    case Created(id) => data.(id := id, initialized := true, registered := true)
  }

  lemma StartingShows(sys: System, s: Sid, d: Did, data: Session, count: int, isClient: bool, outcome: Outcome)
    requires ShowsData(sys, s, d, data, count, isClient) && !data.initialized && !data.registered
    ensures var steps := StartingSteps(s, outcome);
            && Executes(sys, steps)
            && ShowsData(Execute(sys, steps), s, d, Started(data, outcome), count, isClient || outcome.Created?)
  {
    var l := CreateKeySession(s, outcome);
    var created := Next(sys, l);
    if outcome.Created? {
      Prepend(created, Register(s), []);
      Prepend(sys, l, [Register(s)]);
    } else {
      Prepend(sys, l, []);
    }
  }

  /** The steps of `remove` on a session with this count. */
  function RemovingSteps(s: Sid, count: int): seq<Label> {
    if count == 1 then Leave(s) else [Remove(s)]
  }

  lemma RemovingShows(sys: System, s: Sid, d: Did, data: Session, count: int, isClient: bool)
    requires ShowsData(sys, s, d, data, count, isClient)
    ensures var steps := RemovingSteps(s, count);
            && Executes(sys, steps)
            && var sys' := Execute(sys, steps);
               if count != 1 then ShowsData(sys', s, d, data, count - 1, isClient)
               else
                 && s !in sys'.live && s !in sys'.counts && s in sys'.deleted && sys'.dying == None
                 && (s in Clients(sys', d) <==> isClient && !data.registered)
  {
    var removed := Next(sys, Remove(s));
    if count == 1 {
      Prepend(removed, Destroyed(s), []);
      Prepend(sys, Remove(s), [Destroyed(s)]);
      assert [Remove(s)] + [Destroyed(s)] == Leave(s);
    } else {
      Prepend(sys, Remove(s), []);
    }
  }

  // ----- the calls -----

  method Close(session: OpenCDMSession, answer: bool, ghost registry: ActiveSessions, ghost sys: System, ghost s: Sid, ghost d: Did)
    returns (ok: bool)
    requires Shows(sys, s, d, registry, session)
    modifies session, session.Dispatchers()
    ensures var steps := ClosingSteps(s, old(session.rialtoSessionId), ok);
            Executes(sys, steps) && Shows(Execute(sys, steps), s, d, registry, session)
  {
    ghost var data, count, isClient := session.View(), registry.activeSessions[session], session in session.Clients();
    ok := session.CloseSession(answer);
    ClosingShows(sys, s, d, data, count, isClient, ok);
  }

  /** What the backend came to, from the answer of the media keys. */
  function OutcomeOf(mediaKeys: bool, answer: CdmBackend.Answer): Outcome {
    if !mediaKeys then NoKeys else if answer.ok then Created(answer.id) else Failed(answer.id)
  }

  method Start(session: OpenCDMSession, during: seq<CdmBackend.Event>, answer: CdmBackend.Answer,
               ghost registry: ActiveSessions, ghost sys: System, ghost s: Sid, ghost d: Did)
    returns (ok: bool)
    requires Shows(sys, s, d, registry, session) && session.cdm != null
    modifies session, session.Dispatchers(), session.Backends()
    ensures var steps := if old(session.isInitialized) then []
                         else StartingSteps(s, OutcomeOf(session.cdm.mediaKeys, answer));
            && Executes(sys, steps)
            && Shows(Execute(sys, steps), s, d, registry, session)
  {
    ghost var data, count, isClient := session.View(), registry.activeSessions[session], session in session.Clients();
    ok := session.Initialize(during, answer);
    if !data.initialized {
      StartingShows(sys, s, d, data, count, isClient, OutcomeOf(session.cdm.mediaKeys, answer));
    }
  }

  method GiveBack(registry: ActiveSessions, session: OpenCDMSession, ghost sys: System, ghost s: Sid, ghost d: Did)
    requires Shows(sys, s, d, registry, session)
    modifies registry, session, session.Dispatchers()
    ensures var steps, last := RemovingSteps(s, sys.counts[s]), sys.counts[s] == 1;
            && Executes(sys, steps)
            && var sys' := Execute(sys, steps);
               && (s in sys'.live <==> session in registry.activeSessions)
               && (s in sys'.counts <==> session in registry.activeSessions)
               && (session in registry.activeSessions ==> sys'.counts[s] == registry.activeSessions[session])
               && (s in Clients(sys', d) <==> session in session.Clients())
  {
    RemovingShows(sys, s, d, session.View(), registry.activeSessions[session], session in session.Clients());
    registry.Remove(session);
  }

  method Dispatch(session: OpenCDMSession, m: Message, ghost registry: ActiveSessions, ghost sys: System, ghost s: Sid, ghost d: Did)
    requires Shows(sys, s, d, registry, session)
    modifies session.Clients()`challengeData, session.Clients()`keyStatuses
    ensures Shows(Next(sys, Broadcast(d, m)), s, d, registry, session)
  {
    session.messageDispatcher.Broadcast(m);
  }

  method Construct(registry: ActiveSessions, system: OpenCDMSystem, hasKeyUpdateCallback: bool, initDataKnown: bool,
                   world: World, ghost sys: System, ghost s: Sid, ghost d: Did)
    returns (error: OpenCDMError, session: OpenCDMSession?, ghost c: Call)
    requires Inv(sys) && Unborn(sys, s) && sys.dying == None
    modifies registry, system.cdm, system.messageDispatcher
    ensures c == Call(system.isPlayready, hasKeyUpdateCallback, initDataKnown,
                      OutcomeOf(system.cdm.mediaKeys, world.create), world.request, world.close)
    ensures (error == ERROR_NONE <==> Succeeds(c)) && (session != null <==> Succeeds(c))
    ensures Executes(sys, Steps(c, s, d)) && Constructed(sys, Execute(sys, Steps(c, s, d)), s, d, c)
    ensures session != null ==>
              && session.messageDispatcher == system.messageDispatcher
              && Shows(Execute(sys, Steps(c, s, d)), s, d, registry, session)
              && registry.activeSessions - {session} == old(registry.activeSessions) - {session}
    ensures session == null ==>
              && registry.activeSessions == old(registry.activeSessions)
              && system.messageDispatcher.clients == old(system.messageDispatcher.clients)
  {
    error, session := ConstructSession(registry, system, hasKeyUpdateCallback, initDataKnown, world);
    c := Call(system.isPlayready, hasKeyUpdateCallback, initDataKnown,
              OutcomeOf(system.cdm.mediaKeys, world.create), world.request, world.close);
    ConstructionExecutes(sys, s, d, c);
    UnbornIsNoClient(sys, s, d);
  }

  lemma UnbornIsNoClient(sys: System, s: Sid, d: Did)
    requires Inv(sys) && Unborn(sys, s)
    ensures s !in Clients(sys, d)
  {
    assert s in Clients(sys, d) ==> HoldsHandle(sys, s, d);
  }
}
