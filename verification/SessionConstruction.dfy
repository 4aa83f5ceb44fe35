/** The construction of a session, with its rollback, as steps of whole runs. */
module SessionConstruction {
  import opened Wrappers
  import opened SessionModel
  import opened SessionRuns
  import opened SessionTheorems

  /** requested and closed are what generateRequest and closeKeySession of the backend return. */
  datatype Call = Call(isPlayready: bool, keyUpdates: bool, initDataKnown: bool,
                       outcome: Outcome, requested: bool, closed: bool)

  predicate Succeeds(c: Call) {
    c.isPlayready || (c.outcome.Created? && c.initDataKnown && c.outcome.id != INVALID_SESSION_ID && c.requested)
  }

  /** The steps of `closeSession`; without a session id the backend is not asked. */
  function ClosingSteps(s: Sid, id: int, closed: bool): seq<Label> {
    if id == INVALID_SESSION_ID then []
    else if !closed then [CloseKeySession(s, false)]
    else [CloseKeySession(s, true), Release(s), Clear(s)]
  }

  function CloseSteps(c: Call, s: Sid): seq<Label>
    requires c.outcome.Created?
  {
    ClosingSteps(s, c.outcome.id, c.closed)
  }

  /** The only handle is given back: the session is destroyed. */
  function Leave(s: Sid): seq<Label> {
    [Remove(s), Destroyed(s)]
  }

  /** The steps of `opencdm_construct_session`. */
  function Steps(c: Call, s: Sid, d: Did): seq<Label> {
    [Create(s, d, c.keyUpdates, c.initDataKnown)] +
    if c.isPlayready then []
    else
      [CreateKeySession(s, c.outcome)] +
      if !c.outcome.Created? then Leave(s)
      else
        [Register(s)] +
        if Succeeds(c) then [] else CloseSteps(c, s) + Leave(s)
  }

  predicate Executes(sys: System, steps: seq<Label>)
    decreases |steps|
  {
    steps == [] || (Enabled(sys, steps[0]) && Executes(Next(sys, steps[0]), steps[1..]))
  }

  function Execute(sys: System, steps: seq<Label>): System
    requires Executes(sys, steps)
    decreases |steps|
  {
    if steps == [] then sys else Execute(Next(sys, steps[0]), steps[1..])
  }

  lemma MoveFirst(run: seq<Label>, steps: seq<Label>)
    requires steps != []
    ensures run + [steps[0]] + steps[1..] == run + steps
  {
  }

  lemma {:induction false} ExecuteExtendsRun(run: seq<Label>, sys: System, steps: seq<Label>)
    requires Possible(run) && After(run) == sys && Executes(sys, steps)
    ensures Possible(run + steps) && After(run + steps) == Execute(sys, steps)
    decreases |steps|
  {
    if steps == [] {
      assert run + steps == run;
    } else {
      RunPlus(run, steps[0]);
      MoveFirst(run, steps);
      ExecuteExtendsRun(run + [steps[0]], Next(sys, steps[0]), steps[1..]);
    }
  }

  lemma {:induction false} ExecuteConcat(sys: System, a: seq<Label>, b: seq<Label>)
    requires Executes(sys, a) && Executes(Execute(sys, a), b)
    ensures Executes(sys, a + b) && Execute(sys, a + b) == Execute(Execute(sys, a), b)
    decreases |a|
  {
    if a == [] {
      assert a + b == b;
    } else {
      assert (a + b)[1..] == a[1..] + b;
      ExecuteConcat(Next(sys, a[0]), a[1..], b);
    }
  }

  lemma Prepend(sys: System, l: Label, steps: seq<Label>)
    requires Enabled(sys, l) && Executes(Next(sys, l), steps)
    ensures Executes(sys, [l] + steps) && Execute(sys, [l] + steps) == Execute(Next(sys, l), steps)
  {
    assert ([l] + steps)[1..] == steps;
  }

  /** sys is before with s added: one handle, no step of a call pending. */
  ghost predicate Added(before: System, sys: System, s: Sid, d: Did, session: Session) {
    && s !in before.live
    && sys.live == before.live[s := Live(session, d, Idle)]
    && sys.counts == before.counts[s := 1]
    && sys.deleted == before.deleted
    && sys.dying == before.dying == None
    && (forall e :: Clients(sys, e) == Clients(before, e) + if e == d && session.registered then {s} else {})
  }

  /** sys is before again, but for the name of the session that came and went. */
  ghost predicate Undone(before: System, sys: System, s: Sid) {
    && sys.live == before.live
    && sys.counts == before.counts
    && sys.deleted == before.deleted + {s}
    && sys.dying == before.dying
    && forall e :: Clients(sys, e) == Clients(before, e)
  }

  lemma RemoveUndoes(before: System, sys: System, s: Sid, d: Did, session: Session)
    requires Inv(before) && Unborn(before, s) && Added(before, sys, s, d, session)
    ensures Executes(sys, Leave(s)) && Undone(before, Execute(sys, Leave(s)), s)
  {
    var removed := Next(sys, Remove(s));
    DestructionUndoes(before, removed, s, d, session);
    Prepend(removed, Destroyed(s), []);
    Prepend(sys, Remove(s), [Destroyed(s)]);
    assert [Remove(s)] + [Destroyed(s)] == Leave(s);
  }

  lemma DestructionUndoes(before: System, sys: System, s: Sid, d: Did, session: Session)
    requires Inv(before) && Unborn(before, s) && before.dying == None
    requires sys.live == before.live && sys.counts == before.counts && sys.deleted == before.deleted + {s}
    requires sys.dying == Some(Dying(s, d, session.registered))
    requires forall e :: Clients(sys, e) == Clients(before, e) + if e == d && session.registered then {s} else {}
    ensures Enabled(sys, Destroyed(s)) && Undone(before, Next(sys, Destroyed(s)), s)
  {
    assert forall e :: s in Clients(before, e) ==> HoldsHandle(before, s, e);
  }

  lemma CreateAdds(before: System, s: Sid, d: Did, c: Call)
    requires Inv(before) && Unborn(before, s) && before.dying == None
    ensures var l := Create(s, d, c.keyUpdates, c.initDataKnown);
            && Enabled(before, l)
            && Added(before, Next(before, l), s, d, NewSession(c.keyUpdates, c.initDataKnown))
  {
  }

  lemma FailedInitializeUndoes(before: System, sys: System, s: Sid, d: Did, session: Session, c: Call)
    requires Inv(before) && Unborn(before, s) && Added(before, sys, s, d, session)
    requires !session.initialized && !c.outcome.Created?
    ensures var steps := [CreateKeySession(s, c.outcome)] + Leave(s);
            Executes(sys, steps) && Undone(before, Execute(sys, steps), s)
  {
    var l := CreateKeySession(s, c.outcome);
    var session' := if c.outcome.Failed? then session.(id := c.outcome.id) else session;
    assert Added(before, Next(sys, l), s, d, session');
    RemoveUndoes(before, Next(sys, l), s, d, session');
    Prepend(sys, l, Leave(s));
  }

  lemma InitializeRegisters(before: System, sys: System, s: Sid, d: Did, session: Session, id: int)
    requires Inv(before) && Unborn(before, s) && Added(before, sys, s, d, session)
    requires !session.initialized && !session.registered
    ensures var steps := [CreateKeySession(s, Created(id))] + [Register(s)];
            && Executes(sys, steps)
            && Added(before, Execute(sys, steps), s, d, session.(id := id, initialized := true, registered := true))
  {
    var created := Next(sys, CreateKeySession(s, Created(id)));
    assert Enabled(created, Register(s));
    Prepend(created, Register(s), []);
    Prepend(sys, CreateKeySession(s, Created(id)), [Register(s)]);
  }

  lemma ReleaseDrops(before: System, idle: System, sys: System, s: Sid, d: Did, session: Session)
    requires Inv(before) && Unborn(before, s) && Added(before, idle, s, d, session)
    requires sys == SetLive(idle, s, session, Closing)
    ensures Enabled(sys, Release(s))
    ensures var released := Next(sys, Release(s));
            && released.live == before.live[s := Live(session.(registered := false), d, Clearing)]
            && released.counts == before.counts[s := 1] && released.deleted == before.deleted
            && released.dying == before.dying == None
            && forall e :: Clients(released, e) == Clients(before, e)
  {
    assert sys.live == before.live[s := Live(session, d, Closing)];
    assert forall e :: s in Clients(before, e) ==> HoldsHandle(before, s, e);
  }

  lemma ClearSettles(before: System, sys: System, s: Sid, d: Did, session: Session)
    requires s !in before.live && !session.registered
    requires sys.live == before.live[s := Live(session, d, Clearing)]
    requires sys.counts == before.counts[s := 1] && sys.deleted == before.deleted && sys.dying == before.dying == None
    requires forall e :: Clients(sys, e) == Clients(before, e)
    ensures Enabled(sys, Clear(s)) && Added(before, Next(sys, Clear(s)), s, d, session.(challenge := [], statuses := map[]))
  {
    var sys' := Next(sys, Clear(s));
    assert forall e :: Clients(sys', e) == Clients(sys, e);
  }

  lemma ReleaseThenClear(before: System, idle: System, sys: System, s: Sid, d: Did, session: Session)
    requires Inv(before) && Unborn(before, s) && Added(before, idle, s, d, session)
    requires sys == SetLive(idle, s, session, Closing)
    ensures var steps := [Release(s), Clear(s)];
            && Executes(sys, steps)
            && Added(before, Execute(sys, steps), s, d, session.(registered := false, challenge := [], statuses := map[]))
  {
    ReleaseDrops(before, idle, sys, s, d, session);
    var released := Next(sys, Release(s));
    ClearSettles(before, released, s, d, session.(registered := false));
    Prepend(released, Clear(s), []);
    Prepend(sys, Release(s), [Clear(s)]);
    assert [Release(s)] + [Clear(s)] == [Release(s), Clear(s)];
  }

  /** Whether or not the rollback close succeeds, it leaves a session that the remove takes away. */
  lemma RollbackUndoes(before: System, sys: System, s: Sid, d: Did, session: Session, c: Call)
    requires Inv(before) && Unborn(before, s) && Added(before, sys, s, d, session)
    requires c.outcome.Created? && session.id == c.outcome.id
    ensures var steps := CloseSteps(c, s) + Leave(s);
            Executes(sys, steps) && Undone(before, Execute(sys, steps), s)
  {
    if c.outcome.id == INVALID_SESSION_ID {
      RemoveUndoes(before, sys, s, d, session);
      assert CloseSteps(c, s) + Leave(s) == Leave(s);
    } else if !c.closed {
      var l := CloseKeySession(s, false);
      assert Added(before, Next(sys, l), s, d, session);
      RemoveUndoes(before, Next(sys, l), s, d, session);
      Prepend(sys, l, Leave(s));
    } else {
      var l := CloseKeySession(s, true);
      var session' := session.(registered := false, challenge := [], statuses := map[]);
      ReleaseThenClear(before, sys, Next(sys, l), s, d, session);
      Prepend(sys, l, [Release(s), Clear(s)]);
      assert [l] + [Release(s), Clear(s)] == CloseSteps(c, s);
      RemoveUndoes(before, Execute(sys, CloseSteps(c, s)), s, d, session');
      ExecuteConcat(sys, CloseSteps(c, s), Leave(s));
    }
  }

  lemma AfterCreate(before: System, sys: System, s: Sid, d: Did, session: Session, c: Call)
    requires Inv(before) && Unborn(before, s) && Added(before, sys, s, d, session)
    requires session == NewSession(c.keyUpdates, c.initDataKnown) && !c.isPlayready
    ensures var steps := Steps(c, s, d)[1..];
            && Executes(sys, steps)
            && if Succeeds(c)
               then Added(before, Execute(sys, steps), s, d, session.(id := c.outcome.id, initialized := true, registered := true))
               else Undone(before, Execute(sys, steps), s)
  {
    var steps := Steps(c, s, d)[1..];
    if !c.outcome.Created? {
      FailedInitializeUndoes(before, sys, s, d, session, c);
      assert steps == [CreateKeySession(s, c.outcome)] + Leave(s);
    } else {
      var first := [CreateKeySession(s, c.outcome)] + [Register(s)];
      var session' := session.(id := c.outcome.id, initialized := true, registered := true);
      InitializeRegisters(before, sys, s, d, session, c.outcome.id);
      if Succeeds(c) {
        assert steps == first;
      } else {
        RollbackUndoes(before, Execute(sys, first), s, d, session', c);
        ExecuteConcat(sys, first, CloseSteps(c, s) + Leave(s));
        assert steps == first + (CloseSteps(c, s) + Leave(s));
      }
    }
  }

  /** What a construction comes to: one session more, with one handle, or everything as it was. */
  ghost predicate Constructed(before: System, sys: System, s: Sid, d: Did, c: Call) {
    var created := NewSession(c.keyUpdates, c.initDataKnown);
    if !Succeeds(c) then Undone(before, sys, s)
    else if c.isPlayready then Added(before, sys, s, d, created)
    else Added(before, sys, s, d, created.(id := c.outcome.id, initialized := true, registered := true))
  }

  lemma ConstructionExecutes(before: System, s: Sid, d: Did, c: Call)
    requires Inv(before) && Unborn(before, s) && before.dying == None
    ensures Executes(before, Steps(c, s, d)) && Constructed(before, Execute(before, Steps(c, s, d)), s, d, c)
  {
    CreateAdds(before, s, d, c);
    var steps := Steps(c, s, d);
    var sys := Next(before, steps[0]);
    if c.isPlayready {
      assert steps[1..] == [];
    } else {
      AfterCreate(before, sys, s, d, NewSession(c.keyUpdates, c.initDataKnown), c);
    }
    assert steps == [steps[0]] + steps[1..];
    Prepend(before, steps[0], steps[1..]);
  }

  /**
   After any run a construction can go through in one go.  Then it adds exactly one session with one
   handle, or leaves every session, count and client set as it was.
   */
  lemma ConstructionGoesThrough(run: seq<Label>, s: Sid, d: Did, c: Call)
    requires Possible(run) && Unborn(After(run), s) && After(run).dying == None
    ensures Possible(run + Steps(c, s, d)) && Constructed(After(run), After(run + Steps(c, s, d)), s, d, c)
  {
    RunKeepsInv(run);
    ConstructionExecutes(After(run), s, d, c);
    ExecuteExtendsRun(run, After(run), Steps(c, s, d));
  }
}
