/**
 Sessions do not notice each other, and a construction is all or nothing under every interleaving.

 Taking the steps of one session out of a run leaves a possible run, in which everything else is as
 it was.
 */
module SessionErasure {
  import opened Wrappers
  import opened SessionModel
  import opened SessionRuns
  import opened SessionTheorems
  import opened SessionMessages
  import opened SessionConstruction

  /** l is a step of a call on s, or a get that returns s. */
  predicate Names(l: Label, s: Sid) {
    match l
    case Get(_, found) => found == Some(s)
    case Broadcast(_, _) => false
    case _ => l.s == s
  }

  function Others(run: seq<Label>, s: Sid): seq<Label> {
    if run == [] then []
    else if Names(Last(run), s) then Others(Front(run), s)
    else Others(Front(run), s) + [Last(run)]
  }

  function OnlyOf(run: seq<Label>, s: Sid): seq<Label> {
    if run == [] then []
    else if Names(Last(run), s) then OnlyOf(Front(run), s) + [Last(run)]
    else OnlyOf(Front(run), s)
  }

  // ----- taking a session out -----

  /** What is under destruction besides s. */
  function OtherDying(sys: System, s: Sid): Option<Dying> {
    if sys.dying.Some? && sys.dying.value.s == s then None else sys.dying
  }

  /** rest is sys without s. */
  ghost predicate Without(sys: System, rest: System, s: Sid) {
    && rest.live == sys.live - {s}
    && rest.counts == sys.counts - {s}
    && (forall d :: Clients(rest, d) == Clients(sys, d) - {s})
    && rest.deleted == sys.deleted - {s}
    && rest.dying == OtherDying(sys, s)
  }

  /** Two systems that differ in nothing but s. */
  ghost predicate SameBut(sys: System, sys': System, s: Sid) {
    && sys'.live - {s} == sys.live - {s}
    && sys'.counts - {s} == sys.counts - {s}
    && (forall d :: Clients(sys', d) - {s} == Clients(sys, d) - {s})
    && sys'.deleted - {s} == sys.deleted - {s}
    && OtherDying(sys', s) == OtherDying(sys, s)
  }

  lemma SetLiveIsOwn(sys: System, s: Sid, session: Session, phase: Phase)
    requires s in sys.live
    ensures SameBut(sys, SetLive(sys, s, session, phase), s)
  {
    assert SetLive(sys, s, session, phase).live - {s} == sys.live - {s};
  }

  lemma HandleIsOwn(sys: System, s: Sid, d: Did)
    ensures SameBut(sys, DropClient(sys, s, d), s)
  {
    forall e ensures Clients(DropClient(sys, s, d), e) - {s} == Clients(sys, e) - {s} {
    }
  }

  lemma RegisterIsOwn(sys: System, s: Sid)
    requires Enabled(sys, Register(s))
    ensures SameBut(sys, Next(sys, Register(s)), s)
  {
    var sys' := AddClient(sys, s);
    assert SameBut(sys, sys', s);
    var sys'' := DropHandle(sys', s);
    HandleIsOwn(sys', s, sys'.live[s].dispatcher);
    SetLiveIsOwn(sys'', s, sys.live[s].session.(initialized := true, registered := true), Idle);
  }

  lemma ReleaseIsOwn(sys: System, s: Sid)
    requires Enabled(sys, Release(s))
    ensures SameBut(sys, Next(sys, Release(s)), s)
  {
    HandleIsOwn(sys, s, sys.live[s].dispatcher);
    SetLiveIsOwn(DropHandle(sys, s), s, sys.live[s].session.(registered := false), Clearing);
  }

  lemma RegistryIsOwn(sys: System, l: Label, s: Sid)
    requires Inv(sys) && Enabled(sys, l) && Names(l, s) && (l.Create? || l.Get? || l.Remove?)
    ensures SameBut(sys, Next(sys, l), s)
  {
    var sys' := Next(sys, l);
    assert sys'.live - {s} == sys.live - {s};
    assert sys'.counts - {s} == sys.counts - {s};
    assert sys'.deleted - {s} == sys.deleted - {s};
  }

  /** A step of s changes nothing but s. */
  lemma OwnStep(sys: System, l: Label, s: Sid)
    requires Inv(sys) && Enabled(sys, l) && Names(l, s)
    ensures SameBut(sys, Next(sys, l), s)
  {
    match l
    case Create(_, _, _, _) => RegistryIsOwn(sys, l, s);
    case Get(_, _) => RegistryIsOwn(sys, l, s);
    case Remove(_) => RegistryIsOwn(sys, l, s);
    case Destroyed(_) => HandleIsOwn(sys, s, sys.dying.value.dispatcher);
    case Register(_) => RegisterIsOwn(sys, s);
    case Release(_) => ReleaseIsOwn(sys, s);
    case _ => SetLiveIsOwn(sys, s, Next(sys, l).live[s].session, Next(sys, l).live[s].phase);
  }

  lemma OwnStepIsErased(sys: System, rest: System, l: Label, s: Sid)
    requires Inv(sys) && Enabled(sys, l) && Without(sys, rest, s) && Names(l, s)
    ensures Without(Next(sys, l), rest, s)
  {
    OwnStep(sys, l, s);
    assert forall d :: Clients(Next(sys, l), d) - {s} == Clients(sys, d) - {s};
  }

  lemma OtherStepIsEnabled(sys: System, rest: System, l: Label, s: Sid)
    requires Enabled(sys, l) && Without(sys, rest, s) && !Names(l, s)
    ensures Enabled(rest, l)
  {
  }

  lemma CreateIsKept(sys: System, rest: System, l: Label, s: Sid)
    requires Enabled(sys, l) && Without(sys, rest, s) && !Names(l, s) && Enabled(rest, l) && l.Create?
    ensures Without(Next(sys, l), Next(rest, l), s)
  {
    NewLiveIsKept(sys, rest, l.s, Next(sys, l).live[l.s], s);
  }

  lemma NewLiveIsKept(sys: System, rest: System, t: Sid, live: Live, s: Sid)
    requires Without(sys, rest, s) && t != s
    ensures Without(sys.(live := sys.live[t := live], counts := sys.counts[t := 1]),
                    rest.(live := rest.live[t := live], counts := rest.counts[t := 1]), s)
  {
    assert rest.live[t := live] == sys.live[t := live] - {s};
    assert rest.counts[t := 1] == sys.counts[t := 1] - {s};
    var sys' := sys.(live := sys.live[t := live], counts := sys.counts[t := 1]);
    var rest' := rest.(live := rest.live[t := live], counts := rest.counts[t := 1]);
    assert forall d :: Clients(rest', d) == Clients(rest, d) && Clients(sys', d) == Clients(sys, d);
  }

  /** A step that only counts. */
  lemma CountIsKept(sys: System, rest: System, t: Sid, n: int, s: Sid)
    requires Without(sys, rest, s) && t != s
    ensures Without(sys.(counts := sys.counts[t := n]), rest.(counts := rest.counts[t := n]), s)
  {
    var sys', rest' := sys.(counts := sys.counts[t := n]), rest.(counts := rest.counts[t := n]);
    assert rest'.counts == sys'.counts - {s};
    assert forall d :: Clients(rest', d) == Clients(rest, d) && Clients(sys', d) == Clients(sys, d);
  }

  lemma LastRemoveIsKept(sys: System, rest: System, t: Sid, s: Sid)
    requires Enabled(sys, Remove(t)) && Without(sys, rest, s) && t != s && Enabled(rest, Remove(t))
    requires t in sys.live && sys.counts[t] == 1
    ensures Without(Next(sys, Remove(t)), Next(rest, Remove(t)), s)
  {
    var sys', rest' := Next(sys, Remove(t)), Next(rest, Remove(t));
    assert rest.live[t] == sys.live[t] && rest.counts[t] == sys.counts[t];
    assert rest'.live == sys'.live - {s};
    assert rest'.counts == sys'.counts - {s};
    assert rest'.deleted == sys'.deleted - {s};
    assert forall d :: Clients(rest', d) == Clients(rest, d) && Clients(sys', d) == Clients(sys, d);
  }

  lemma RegistryStepIsKept(sys: System, rest: System, l: Label, s: Sid)
    requires Enabled(sys, l) && Without(sys, rest, s) && !Names(l, s) && Enabled(rest, l)
    requires l.Create? || l.Get? || l.Remove?
    ensures Without(Next(sys, l), Next(rest, l), s)
  {
    match l
    case Create(_, _, _, _) => CreateIsKept(sys, rest, l, s);
    case Get(_, Some(t)) => CountIsKept(sys, rest, t, sys.counts[t] + 1, s);
    case Get(_, None) =>
    case Remove(t) =>
      if t in sys.live {
        if sys.counts[t] == 1 {
          LastRemoveIsKept(sys, rest, t, s);
        } else {
          CountIsKept(sys, rest, t, sys.counts[t] - 1, s);
        }
      }
  }

  lemma DropIsKept(sys: System, rest: System, t: Sid, d: Did, s: Sid)
    requires Without(sys, rest, s)
    ensures Without(DropClient(sys, t, d), DropClient(rest, t, d), s)
  {
    forall e ensures Clients(DropClient(rest, t, d), e) == Clients(DropClient(sys, t, d), e) - {s} {
      assert Clients(rest, e) == Clients(sys, e) - {s};
    }
  }

  lemma AddIsKept(sys: System, rest: System, t: Sid, s: Sid)
    requires Without(sys, rest, s) && t in sys.live && t != s
    ensures t in rest.live && Without(AddClient(sys, t), AddClient(rest, t), s)
  {
    assert rest.live[t] == sys.live[t];
    forall e ensures Clients(AddClient(rest, t), e) == Clients(AddClient(sys, t), e) - {s} {
      assert Clients(rest, e) == Clients(sys, e) - {s};
    }
  }

  lemma SetLiveIsKept(sys: System, rest: System, t: Sid, session: Session, phase: Phase, s: Sid)
    requires Without(sys, rest, s) && t in sys.live && t != s
    ensures t in rest.live && Without(SetLive(sys, t, session, phase), SetLive(rest, t, session, phase), s)
  {
    var sys', rest' := SetLive(sys, t, session, phase), SetLive(rest, t, session, phase);
    assert rest.live[t] == sys.live[t];
    assert rest'.live == sys'.live - {s};
    assert forall d :: Clients(rest', d) == Clients(rest, d) && Clients(sys', d) == Clients(sys, d);
  }

  lemma CallStepIsKept(sys: System, rest: System, l: Label, s: Sid)
    requires Enabled(sys, l) && Without(sys, rest, s) && !Names(l, s) && Enabled(rest, l)
    requires IsCall(l) || l.Register? || l.Release?
    ensures Without(Next(sys, l), Next(rest, l), s)
  {
    var t := l.s;
    assert rest.live[t] == sys.live[t];
    var x := sys.live[t].session;
    if l.Register? {
      AddIsKept(sys, rest, t, s);
      var sys', rest' := AddClient(sys, t), AddClient(rest, t);
      DropIsKept(sys', rest', t, sys.live[t].dispatcher, s);
      SetLiveIsKept(DropHandle(sys', t), DropHandle(rest', t), t, x.(initialized := true, registered := true), Idle, s);
    } else if l.Release? {
      DropIsKept(sys, rest, t, sys.live[t].dispatcher, s);
      SetLiveIsKept(DropHandle(sys, t), DropHandle(rest, t), t, x.(registered := false), Clearing, s);
    } else {
      SetLiveIsKept(sys, rest, t, Next(sys, l).live[t].session, Next(sys, l).live[t].phase, s);
    }
  }

  lemma DestroyedIsKept(sys: System, rest: System, t: Sid, s: Sid)
    requires Enabled(sys, Destroyed(t)) && Without(sys, rest, s) && t != s
    ensures Enabled(rest, Destroyed(t)) && Without(Next(sys, Destroyed(t)), Next(rest, Destroyed(t)), s)
  {
    DropIsKept(sys, rest, t, sys.dying.value.dispatcher, s);
    var sys', rest' := Next(sys, Destroyed(t)), Next(rest, Destroyed(t));
    if sys.dying.value.registered {
      var d := sys.dying.value.dispatcher;
      assert sys' == DropClient(sys, t, d).(dying := None) && rest' == DropClient(rest, t, d).(dying := None);
      assert forall e :: Clients(sys', e) == Clients(DropClient(sys, t, d), e) && Clients(rest', e) == Clients(DropClient(rest, t, d), e);
    } else {
      assert forall e :: Clients(sys', e) == Clients(sys, e) && Clients(rest', e) == Clients(rest, e);
    }
  }

  lemma BroadcastIsKept(sys: System, rest: System, d: Did, m: Message, s: Sid)
    requires Without(sys, rest, s)
    ensures Without(Next(sys, Broadcast(d, m)), Next(rest, Broadcast(d, m)), s)
  {
    var sys', rest' := Next(sys, Broadcast(d, m)), Next(rest, Broadcast(d, m));
    assert rest'.live == sys'.live - {s};
    assert forall e :: Clients(rest', e) == Clients(rest, e) && Clients(sys', e) == Clients(sys, e);
  }

  /** The other steps of a possible run are a possible run, and lead to the same state without s. */
  lemma {:induction false} OthersAreARun(run: seq<Label>, s: Sid)
    requires Possible(run)
    ensures Possible(Others(run, s)) && Without(After(run), After(Others(run, s)), s)
  {
    if run != [] {
      var sys, l := After(Front(run)), Last(run);
      OthersAreARun(Front(run), s);
      var rest := After(Others(Front(run), s));
      RunKeepsInv(Front(run));
      if Names(l, s) {
        OwnStepIsErased(sys, rest, l, s);
      } else {
        OtherStepIsEnabled(sys, rest, l, s);
        RunPlus(Others(Front(run), s), l);
        if l.Broadcast? {
          BroadcastIsKept(sys, rest, l.d, l.m, s);
        } else if l.Destroyed? {
          DestroyedIsKept(sys, rest, l.s, s);
        } else if l.Create? || l.Get? || l.Remove? {
          RegistryStepIsKept(sys, rest, l, s);
        } else {
          CallStepIsKept(sys, rest, l, s);
        }
      }
    }
  }

  // ----- what a run says about s is said by its own steps -----

  lemma {:induction false} OwnStepsTell(run: seq<Label>, s: Sid)
    ensures Gets(run, s) == Gets(OnlyOf(run, s), s)
    ensures Removes(run, s) == Removes(OnlyOf(run, s), s)
    ensures Registrations(run, s) == Registrations(OnlyOf(run, s), s)
    ensures CreationOf(run, s) == CreationOf(OnlyOf(run, s), s)
    ensures IdOf(run, s) == IdOf(OnlyOf(run, s), s)
    ensures Holding(run, s) == Holding(OnlyOf(run, s), s)
  {
    if run != [] {
      OwnStepsTell(Front(run), s);
      if Names(Last(run), s) {
        assert Front(OnlyOf(run, s)) == OnlyOf(Front(run), s) && Last(OnlyOf(run, s)) == Last(run);
      }
    }
  }

  /** When the last step of s is the end of its destruction, s is not under destruction any more. */
  lemma {:induction false} DestructionEnds(run: seq<Label>, s: Sid)
    requires Possible(run) && OnlyOf(run, s) != [] && Last(OnlyOf(run, s)) == Destroyed(s)
    ensures OtherDying(After(run), s) == After(run).dying
  {
    if Names(Last(run), s) {
      assert Last(OnlyOf(run, s)) == Last(run);
    } else {
      DestructionEnds(Front(run), s);
      DyingOfOther(After(Front(run)), Last(run), s);
    }
  }

  lemma DyingOfOther(sys: System, l: Label, s: Sid)
    requires Enabled(sys, l) && !Names(l, s) && OtherDying(sys, s) == sys.dying
    ensures OtherDying(Next(sys, l), s) == Next(sys, l).dying
  {
  }

  lemma {:induction false} BornByCreation(run: seq<Label>, s: Sid)
    requires Possible(run) && Unborn(After(run), s)
    ensures CreationOf(run, s) == None
  {
    if run != [] {
      RunKeepsInv(Front(run));
      StepOfOne(After(Front(run)), Last(run), s);
      BornByCreation(Front(run), s);
    }
  }

  // ----- the steps of one construction -----

  /** No label of the series gets, gives back or creates s. */
  predicate Neutral(steps: seq<Label>, s: Sid) {
    forall l | l in steps :: !l.Create? && !l.Get? && !l.Remove?
  }

  lemma {:induction false} NeutralCounts(first: Label, steps: seq<Label>, s: Sid)
    requires first.Create? && first.s == s && Neutral(steps, s)
    ensures Gets([first] + steps, s) == 0 && Removes([first] + steps, s) == 0
    ensures CreationOf([first] + steps, s) == Some(first)
  {
    var run := [first] + steps;
    if steps == [] {
      assert run == [first] && Front(run) == [];
    } else {
      assert Front(run) == [first] + Front(steps) && Last(run) == Last(steps);
      NeutralCounts(first, Front(steps), s);
    }
  }

  /** The steps before the session is given back, if it is. */
  function Inner(c: Call, s: Sid): seq<Label> {
    if c.isPlayready then []
    else
      [CreateKeySession(s, c.outcome)] +
      if !c.outcome.Created? then []
      else [Register(s)] + if Succeeds(c) then [] else CloseSteps(c, s)
  }

  lemma StepsSplit(c: Call, s: Sid, d: Did)
    ensures Neutral(Inner(c, s), s)
    ensures Steps(c, s, d) ==
            [Create(s, d, c.keyUpdates, c.initDataKnown)] + Inner(c, s) + if Succeeds(c) then [] else Leave(s)
  {
  }

  lemma StepsCount(c: Call, s: Sid, d: Did)
    ensures Gets(Steps(c, s, d), s) == 0
    ensures Removes(Steps(c, s, d), s) == if Succeeds(c) then 0 else 1
    ensures CreationOf(Steps(c, s, d), s) == Some(Create(s, d, c.keyUpdates, c.initDataKnown))
    ensures !Succeeds(c) ==> Last(Steps(c, s, d)) == Destroyed(s)
  {
    var first := Create(s, d, c.keyUpdates, c.initDataKnown);
    var before := [first] + Inner(c, s);
    StepsSplit(c, s, d);
    NeutralCounts(first, Inner(c, s), s);
    if Succeeds(c) {
      assert Steps(c, s, d) == before;
    } else {
      var removed := before + [Remove(s)];
      assert Front(removed) == before && Last(removed) == Remove(s);
      assert Steps(c, s, d) == removed + [Destroyed(s)];
      assert Front(Steps(c, s, d)) == removed && Last(Steps(c, s, d)) == Destroyed(s);
    }
  }

  lemma StepsOfSuccess(c: Call, s: Sid, d: Did)
    requires Succeeds(c)
    ensures var steps := Steps(c, s, d);
            && IdOf(steps, s) == (if c.isPlayready then INVALID_SESSION_ID else c.outcome.id)
            && (Holding(steps, s) <==> !c.isPlayready)
            && Registrations(steps, s) == if c.isPlayready then 0 else 1
  {
    var first := Create(s, d, c.keyUpdates, c.initDataKnown);
    var one := [first];
    assert Front(one) == [];
    if c.isPlayready {
      assert Steps(c, s, d) == one;
    } else {
      var two := [first, CreateKeySession(s, c.outcome)];
      var three := [first, CreateKeySession(s, c.outcome), Register(s)];
      assert Front(two) == one && Front(three) == two;
      assert Steps(c, s, d) == three;
    }
  }

  // ----- the theorem -----

  /** The session that a successful construction adds. */
  ghost predicate IsConstructed(sys: System, s: Sid, d: Did, c: Call)
    requires Succeeds(c)
  {
    && s in sys.live && s in sys.counts && sys.counts[s] == 1
    && sys.live[s].dispatcher == d
    && sys.live[s].session.id == (if c.isPlayready then INVALID_SESSION_ID else c.outcome.id)
    && (sys.live[s].session.registered <==> !c.isPlayready)
    && (sys.live[s].session.initialized <==> !c.isPlayready)
  }

  lemma SuccessConstructs(run: seq<Label>, s: Sid, d: Did, c: Call)
    requires Possible(run) && OnlyOf(run, s) == Steps(c, s, d) && Succeeds(c)
    ensures IsConstructed(After(run), s, d, c)
  {
    OwnStepsTell(run, s);
    StepsCount(c, s, d);
    StepsOfSuccess(c, s, d);
    NotGivenBack(run, s);
    CountLaw(run, s);
    KnowsItsMessages(run, s);
    RegistersAtMostOnce(run, s);
  }

  lemma NotGivenBack(run: seq<Label>, s: Sid)
    requires Possible(run) && Removes(run, s) == 0 && CreationOf(run, s).Some?
    ensures s in After(run).live
  {
    if Unborn(After(run), s) {
      BornByCreation(run, s);
    } else if s !in After(run).live {
      var n := DeletionHappened(run, s);
      DeletedByBalancingRemove(run, s, n);
      NothingAfterDeletion(run, s, n + 1);
    }
  }

  /**
   All or nothing under every interleaving.  If the steps of s in a run are those of a construction,
   whatever stands between them, then the run without them is possible and leads to the same state
   but for s.  Of a successful construction s is left, with one handle; of a failed one nothing is,
   in the registry, with the dispatchers or under destruction.
   */
  lemma ConstructionIsAllOrNothing(run: seq<Label>, s: Sid, d: Did, c: Call)
    requires Possible(run) && OnlyOf(run, s) == Steps(c, s, d)
    ensures Possible(Others(run, s))
    ensures var sys, rest := After(run), After(Others(run, s));
            if Succeeds(c) then IsConstructed(sys, s, d, c) && Without(sys, rest, s) else Undone(rest, sys, s)
  {
    OthersAreARun(run, s);
    var sys := After(run);
    if Succeeds(c) {
      SuccessConstructs(run, s, d, c);
    } else {
      FailureUndoes(run, s, d, c);
    }
  }

  /** A failed construction leaves s neither live nor under destruction, nor with any dispatcher. */
  lemma FailureLeavesNothing(run: seq<Label>, s: Sid, d: Did, c: Call)
    requires Possible(run) && OnlyOf(run, s) == Steps(c, s, d) && !Succeeds(c)
    ensures var sys := After(run);
            && s !in sys.live && s !in sys.counts && s in sys.deleted
            && OtherDying(sys, s) == sys.dying
            && forall e :: s !in Clients(sys, e)
  {
    OwnStepsTell(run, s);
    StepsCount(c, s, d);
    if Unborn(After(run), s) {
      BornByCreation(run, s);
    }
    RollbackLeavesNothing(run, s);
    DestructionEnds(run, s);
  }

  lemma FailureUndoes(run: seq<Label>, s: Sid, d: Did, c: Call)
    requires Possible(run) && OnlyOf(run, s) == Steps(c, s, d) && !Succeeds(c)
    requires Possible(Others(run, s)) && Without(After(run), After(Others(run, s)), s)
    ensures Undone(After(Others(run, s)), After(run), s)
  {
    FailureLeavesNothing(run, s, d, c);
    WithoutNothing(After(run), After(Others(run, s)), s);
  }

  lemma WithoutNothing(sys: System, rest: System, s: Sid)
    requires Without(sys, rest, s) && s !in sys.live && s !in sys.counts && s in sys.deleted
    requires OtherDying(sys, s) == sys.dying && forall e :: s !in Clients(sys, e)
    ensures Undone(rest, sys, s)
  {
    assert sys.live - {s} == sys.live && sys.counts - {s} == sys.counts;
    assert sys.deleted - {s} + {s} == sys.deleted;
    assert forall e :: Clients(sys, e) - {s} == Clients(sys, e);
  }
}
