/**
 Whole runs of the session lifecycle, with every interleaving of the API threads, the dispatcher
 threads and the registry.

 A step is one section under a mutex, or what a call does between two such sections.  Calls on one
 session follow one another; everything else may come in between.  Session names are never reused.
 */
module SessionRuns {
  import opened Wrappers
  import opened SessionModel

  type Sid = nat

  type Did = nat

  /** How far the call that is running on a session has come. */
  datatype Phase = Idle | Registering | Closing | Clearing | Fetching

  datatype Live = Live(session: Session, dispatcher: Did, phase: Phase)

  /** A session whose delete has begun: its data is gone, but it may still hold its handle. */
  datatype Dying = Dying(s: Sid, dispatcher: Did, registered: bool)

  /** deleted are the sessions whose delete has begun; the one under destruction, if any, is dying. */
  datatype System = System(live: map<Sid, Live>, counts: map<Sid, int>, clients: map<Did, set<Sid>>,
                           deleted: set<Sid>, dying: Option<Dying>)

  /** What createKeySession does; a failing one may have written the session id. */
  datatype Outcome = NoKeys | Failed(id: int) | Created(id: int)

  datatype Label =
    | Create(s: Sid, d: Did, keyUpdates: bool, initDataKnown: bool)
    | Get(key: Bytes, found: Option<Sid>)
    | Remove(s: Sid)                              // the last remove of a session begins its destruction,
    | Destroyed(s: Sid)                           // which ends with the release of its handle
    | CreateKeySession(s: Sid, outcome: Outcome)  // the first half of initialize
    | Register(s: Sid)                            // and the second
    | CloseKeySession(s: Sid, ok: bool)           // closeSession: the backend call,
    | Release(s: Sid)                             // the handle,
    | Clear(s: Sid)                               // the data
    | Request(s: Sid, ok: bool)                   // getChallengeData: the backend call,
    | Fetch(s: Sid, data: Bytes)                  // and the end of the wait
    | Broadcast(d: Did, m: Message)

  const START := System(map[], map[], map[], {}, None)

  function Clients(sys: System, d: Did): set<Sid> {
    if d in sys.clients then sys.clients[d] else {}
  }

  predicate InPhase(sys: System, s: Sid, phase: Phase) {
    s in sys.live && sys.live[s].phase == phase
  }

  predicate Enabled(sys: System, l: Label) {
    match l
    case Create(s, _, _, _) => sys.dying == None && s !in sys.live && s !in sys.deleted
    case Get(key, Some(s)) => sys.dying == None && s in sys.counts && s in sys.live && Status(sys.live[s].session, key) != InternalError
    case Get(key, None) => sys.dying == None && forall s | s in sys.live :: Status(sys.live[s].session, key) == InternalError
    case Remove(s) =>
      sys.dying == None && (s in sys.live ==> s in sys.counts && (sys.counts[s] == 1 ==> sys.live[s].phase == Idle))
    case Destroyed(s) => sys.dying.Some? && sys.dying.value.s == s
    case CreateKeySession(s, _) => InPhase(sys, s, Idle) && !sys.live[s].session.initialized
    case Register(s) => InPhase(sys, s, Registering)
    case CloseKeySession(s, _) => InPhase(sys, s, Idle) && sys.live[s].session.id != INVALID_SESSION_ID
    case Release(s) => InPhase(sys, s, Closing)
    case Clear(s) => InPhase(sys, s, Clearing)
    case Request(s, _) => InPhase(sys, s, Idle) && sys.live[s].session.initDataKnown && sys.live[s].session.id != INVALID_SESSION_ID
    case Fetch(s, data) => InPhase(sys, s, Fetching) && sys.live[s].session.challenge == data != []
    case Broadcast(_, _) => true
  }

  function SetLive(sys: System, s: Sid, session: Session, phase: Phase): System
    requires s in sys.live
  {
    sys.(live := sys.live[s := Live(session, sys.live[s].dispatcher, phase)])
  }

  /** A handle of s to d is destroyed. */
  function DropClient(sys: System, s: Sid, d: Did): System {
    sys.(clients := sys.clients[d := Clients(sys, d) - {s}])
  }

  /** The same for a session that may hold none. */
  function DropHandle(sys: System, s: Sid): System
    requires s in sys.live
  {
    if sys.live[s].session.registered then DropClient(sys, s, sys.live[s].dispatcher) else sys
  }

  function AddClient(sys: System, s: Sid): System
    requires s in sys.live
  {
    var d := sys.live[s].dispatcher;
    sys.(clients := sys.clients[d := Clients(sys, d) + {s}])
  }

  function Next(sys: System, l: Label): System
    requires Enabled(sys, l)
  {
    match l
    case Create(s, d, keyUpdates, initDataKnown) =>
      sys.(live := sys.live[s := Live(NewSession(keyUpdates, initDataKnown), d, Idle)], counts := sys.counts[s := 1])
    case Get(_, Some(s)) => sys.(counts := sys.counts[s := sys.counts[s] + 1])
    case Get(_, None) => sys
    case Remove(s) =>
      if s !in sys.live then sys
      else if sys.counts[s] != 1 then sys.(counts := sys.counts[s := sys.counts[s] - 1])
      else
        sys.(live := sys.live - {s}, counts := sys.counts - {s}, deleted := sys.deleted + {s},
             dying := Some(Dying(s, sys.live[s].dispatcher, sys.live[s].session.registered)))
    case Destroyed(s) =>
      var sys' := if sys.dying.value.registered then DropClient(sys, s, sys.dying.value.dispatcher) else sys;
      sys'.(dying := None)
    case CreateKeySession(s, outcome) =>
      (match outcome
       case NoKeys => sys
       case Failed(id) => SetLive(sys, s, sys.live[s].session.(id := id), Idle)
       case Created(id) => SetLive(sys, s, sys.live[s].session.(id := id), Registering))
    case Register(s) =>
      // the new handle is made first; then it takes the place of an older one, which is destroyed
      var sys' := AddClient(sys, s);
      var sys'' := DropHandle(sys', s);
      SetLive(sys'', s, sys.live[s].session.(initialized := true, registered := true), Idle)
    case CloseKeySession(s, ok) => SetLive(sys, s, sys.live[s].session, if ok then Closing else Idle)
    case Release(s) =>
      SetLive(DropHandle(sys, s), s, sys.live[s].session.(registered := false), Clearing)
    case Clear(s) => SetLive(sys, s, sys.live[s].session.(challenge := [], statuses := map[]), Idle)
    case Request(s, ok) => SetLive(sys, s, sys.live[s].session, if ok then Fetching else Idle)
    case Fetch(s, _) => SetLive(sys, s, sys.live[s].session, Idle)
    case Broadcast(d, m) => sys.(live := DeliverTo(sys.live, Clients(sys, d), m))
  }

  function DeliverTo(live: map<Sid, Live>, clients: set<Sid>, m: Message): map<Sid, Live> {
    map s | s in live :: if s in clients then live[s].(session := Deliver(live[s].session, m)) else live[s]
  }

  // ----- runs -----

  predicate Possible(run: seq<Label>)
    decreases |run|, 0
  {
    run == [] ||
    (Possible(run[..|run| - 1]) && Enabled(After(run[..|run| - 1]), run[|run| - 1]))
  }

  function After(run: seq<Label>): System
    requires Possible(run)
    decreases |run|, 1
  {
    if run == [] then START else Next(After(run[..|run| - 1]), run[|run| - 1])
  }

  lemma {:induction false} PrefixIsPossible(run: seq<Label>, n: nat)
    requires Possible(run) && n <= |run|
    ensures Possible(run[..n])
  {
    if n == |run| {
      assert run[..n] == run;
    } else {
      PrefixIsPossible(run[..|run| - 1], n);
      assert run[..|run| - 1][..n] == run[..n];
    }
  }

  // ----- what every step keeps -----

  /** The handle, the client set and the data of one session fit together. */
  predicate Fits(sys: System, s: Sid)
    requires s in sys.live
  {
    var l := sys.live[s];
    && (l.session.registered ==> l.session.initialized && s in Clients(sys, l.dispatcher))
    && (l.phase == Registering ==> !l.session.initialized)
    && (!l.session.registered && l.phase != Clearing ==> l.session.challenge == [] && l.session.statuses == map[])
    && (l.phase == Clearing ==> !l.session.registered)
  }

  predicate IsClientOf(sys: System, s: Sid, d: Did) {
    s in sys.live && sys.live[s].dispatcher == d && sys.live[s].session.registered
  }

  predicate IsDyingClientOf(sys: System, s: Sid, d: Did) {
    sys.dying == Some(Dying(s, d, true))
  }

  predicate HoldsHandle(sys: System, s: Sid, d: Did) {
    IsClientOf(sys, s, d) || IsDyingClientOf(sys, s, d)
  }

  ghost predicate Inv(sys: System) {
    && sys.counts.Keys == sys.live.Keys
    && sys.live.Keys !! sys.deleted
    && (sys.dying.Some? ==> sys.dying.value.s in sys.deleted)
    && (sys.dying.Some? && sys.dying.value.registered ==> sys.dying.value.s in Clients(sys, sys.dying.value.dispatcher))
    && (forall s | s in sys.counts :: sys.counts[s] >= 1)
    && (forall s | s in sys.live :: Fits(sys, s))
    && (forall d, s | s in Clients(sys, d) :: HoldsHandle(sys, s, d))
  }

  /** A step that leaves the client sets alone and writes one session. */
  lemma WriteKeepsInv(sys: System, s: Sid, session: Session, phase: Phase)
    requires Inv(sys) && s in sys.live && Fits(SetLive(sys, s, session, phase), s)
    requires sys.live[s].session.registered == session.registered
    ensures Inv(SetLive(sys, s, session, phase))
  {
    var sys' := SetLive(sys, s, session, phase);
    assert forall t | t in sys.live :: Fits(sys, t);
    assert forall t | t in sys'.live && t != s :: Fits(sys, t) ==> Fits(sys', t);
    forall d, t | t in Clients(sys', d) ensures HoldsHandle(sys', t, d) {
      assert t in Clients(sys, d) && HoldsHandle(sys, t, d);
    }
  }

  lemma CreateKeepsInv(sys: System, l: Label)
    requires Inv(sys) && Enabled(sys, l) && l.Create?
    ensures Inv(Next(sys, l))
  {
    var sys' := Next(sys, l);
    assert forall t | t in sys.live :: Fits(sys, t);
    assert forall t | t in sys'.live && t in sys.live :: Fits(sys, t) ==> Fits(sys', t);
    forall d, t | t in Clients(sys', d) ensures HoldsHandle(sys', t, d) {
      assert t in Clients(sys, d) && HoldsHandle(sys, t, d);
    }
  }

  /** A step of the registry that only counts. */
  lemma CountKeepsInv(sys: System, counts: map<Sid, int>)
    requires Inv(sys) && counts.Keys == sys.counts.Keys && forall s | s in counts :: counts[s] >= 1
    ensures Inv(sys.(counts := counts))
  {
    var sys' := sys.(counts := counts);
    assert forall t | t in sys.live :: Fits(sys, t) ==> Fits(sys', t);
    forall d, t | t in Clients(sys', d) ensures HoldsHandle(sys', t, d) {
      assert t in Clients(sys, d) && HoldsHandle(sys, t, d);
    }
  }

  lemma LastRemoveKeepsInv(sys: System, s: Sid)
    requires Inv(sys) && Enabled(sys, Remove(s)) && s in sys.live && sys.counts[s] == 1
    ensures Inv(Next(sys, Remove(s)))
  {
    var sys' := Next(sys, Remove(s));
    assert Fits(sys, s);
    assert forall t | t in sys'.live :: Fits(sys, t) ==> Fits(sys', t);
    forall d, t | t in Clients(sys', d) ensures HoldsHandle(sys', t, d) {
      assert t in Clients(sys, d) && HoldsHandle(sys, t, d);
    }
  }

  lemma DestroyedKeepsInv(sys: System, s: Sid)
    requires Inv(sys) && Enabled(sys, Destroyed(s))
    ensures Inv(Next(sys, Destroyed(s)))
  {
    var sys' := Next(sys, Destroyed(s));
    assert s !in sys.live;
    assert forall t | t in sys'.live :: Fits(sys, t) ==> Fits(sys', t);
    forall d, t | t in Clients(sys', d) ensures HoldsHandle(sys', t, d) {
      assert t in Clients(sys, d) && HoldsHandle(sys, t, d);
    }
  }

  lemma ReleaseKeepsInv(sys: System, s: Sid)
    requires Inv(sys) && Enabled(sys, Release(s))
    ensures Inv(Next(sys, Release(s)))
  {
    var sys' := Next(sys, Release(s));
    assert Fits(sys, s);
    forall t | t in sys'.live ensures Fits(sys', t) {
      assert Fits(sys, t);
    }
    forall d, t | t in Clients(sys', d) ensures HoldsHandle(sys', t, d) {
      assert t in Clients(sys, d) && HoldsHandle(sys, t, d);
    }
  }

  /** Only a session that was never initialized registers, so its new handle replaces no older one. */
  lemma RegisterKeepsInv(sys: System, s: Sid)
    requires Inv(sys) && Enabled(sys, Register(s))
    ensures Inv(Next(sys, Register(s)))
  {
    assert Fits(sys, s) && !sys.live[s].session.registered;
    var sys' := Next(sys, Register(s));
    assert forall t | t in sys.live :: Fits(sys, t);
    assert forall t | t in sys'.live && t != s :: Fits(sys, t) ==> Fits(sys', t);
    forall d, t | t in Clients(sys', d) ensures HoldsHandle(sys', t, d) {
      if t in Clients(sys, d) {
        assert HoldsHandle(sys, t, d);
      }
    }
  }

  lemma BroadcastKeepsInv(sys: System, d: Did, m: Message)
    requires Inv(sys)
    ensures Inv(Next(sys, Broadcast(d, m)))
  {
    var sys' := Next(sys, Broadcast(d, m));
    forall t | t in sys'.live ensures Fits(sys', t) {
      assert Fits(sys, t);
      if t in Clients(sys, d) {
        assert HoldsHandle(sys, t, d);
      }
    }
    forall d', t | t in Clients(sys', d') ensures HoldsHandle(sys', t, d') {
      assert t in Clients(sys, d') && HoldsHandle(sys, t, d');
    }
  }

  lemma StepKeepsInv(sys: System, l: Label)
    requires Inv(sys) && Enabled(sys, l)
    ensures Inv(Next(sys, l))
  {
    match l
    case Create(_, _, _, _) => CreateKeepsInv(sys, l);
    case Get(_, _) => CountKeepsInv(sys, Next(sys, l).counts);
    case Remove(s) =>
      if s in sys.live && sys.counts[s] == 1 {
        LastRemoveKeepsInv(sys, s);
      } else {
        CountKeepsInv(sys, Next(sys, l).counts);
      }
    case Destroyed(s) => DestroyedKeepsInv(sys, s);
    case Register(s) => RegisterKeepsInv(sys, s);
    case Release(s) => ReleaseKeepsInv(sys, s);
    case Broadcast(d, m) => BroadcastKeepsInv(sys, d, m);
    case _ => CallKeepsInv(sys, l);
  }

  predicate IsCall(l: Label) {
    l.CreateKeySession? || l.CloseKeySession? || l.Clear? || l.Request? || l.Fetch?
  }

  lemma CallKeepsInv(sys: System, l: Label)
    requires Inv(sys) && Enabled(sys, l) && IsCall(l)
    ensures Inv(Next(sys, l))
  {
    var sys' := Next(sys, l);
    assert Fits(sys, l.s);
    WriteKeepsInv(sys, l.s, sys'.live[l.s].session, sys'.live[l.s].phase);
  }

  lemma {:induction false} RunKeepsInv(run: seq<Label>)
    requires Possible(run)
    ensures Inv(After(run))
  {
    if run != [] {
      RunKeepsInv(run[..|run| - 1]);
      StepKeepsInv(After(run[..|run| - 1]), run[|run| - 1]);
    }
  }

  /**
   Ownership: in every reachable state the clients of a dispatcher are exactly the live sessions that
   hold a handle to it, and the one under destruction if it still holds its own.  So no broadcast
   reaches a session whose destruction is complete.
   */
  lemma ClientsAreTheHolders(run: seq<Label>, d: Did)
    requires Possible(run)
    ensures forall s :: s in Clients(After(run), d) <==> HoldsHandle(After(run), s, d)
    ensures forall s | s in Clients(After(run), d) && s in After(run).deleted :: IsDyingClientOf(After(run), s, d)
  {
    RunKeepsInv(run);
    var sys := After(run);
    forall s ensures s in Clients(sys, d) <==> HoldsHandle(sys, s, d) {
      if IsClientOf(sys, s, d) {
        assert Fits(sys, s);
      }
    }
  }

  /** For a live session, the handle is all there is to it. */
  lemma LiveClients(run: seq<Label>, d: Did, s: Sid)
    requires Possible(run) && s in After(run).live
    ensures s in Clients(After(run), d) <==> IsClientOf(After(run), s, d)
  {
    RunKeepsInv(run);
    ClientsAreTheHolders(run, d);
    assert s in Clients(After(run), d) <==> HoldsHandle(After(run), s, d);
  }
}
