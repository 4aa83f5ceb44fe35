/** What holds over whole runs of the session lifecycle. */
module SessionTheorems {
  import opened Wrappers
  import opened SessionModel
  import opened SessionRuns

  function Front(run: seq<Label>): seq<Label>
    requires run != []
  {
    run[..|run| - 1]
  }

  function Last(run: seq<Label>): Label
    requires run != []
  {
    run[|run| - 1]
  }

  predicate Unborn(sys: System, s: Sid) {
    s !in sys.live && s !in sys.deleted
  }

  /** What a step that is not a broadcast does to the data of s. */
  function Touch(x: Session, l: Label, s: Sid): Session {
    if l.CreateKeySession? && l.s == s && !l.outcome.NoKeys? then x.(id := l.outcome.id)
    else if l == Register(s) then x.(initialized := true, registered := true)
    else if l == Release(s) then x.(registered := false)
    else if l == Clear(s) then x.(challenge := [], statuses := map[])
    else x
  }

  lemma TouchesOnlyItsSession(sys: System, l: Label, s: Sid)
    requires Enabled(sys, l) && !l.Broadcast? && s in sys.live && s in Next(sys, l).live
    ensures !(l.Create? && l.s == s)
    ensures Next(sys, l).live[s].dispatcher == sys.live[s].dispatcher
    ensures Next(sys, l).live[s].session == Touch(sys.live[s].session, l, s)
  {
  }

  lemma StepCounts(sys: System, l: Label, s: Sid)
    requires Enabled(sys, l) && s in sys.counts && s in Next(sys, l).counts && !(l.Create? && l.s == s)
    ensures Next(sys, l).counts[s] == sys.counts[s] + (if l.Get? && l.found == Some(s) then 1 else 0)
                                                    - (if l == Remove(s) && s in sys.live then 1 else 0)
  {
  }

  lemma BroadcastLeavesFlags(sys: System, d: Did, m: Message, s: Sid)
    requires s in sys.live
    ensures Next(sys, Broadcast(d, m)).live[s].session.initialized == sys.live[s].session.initialized
  {
    assert Next(sys, Broadcast(d, m)).live == DeliverTo(sys.live, Clients(sys, d), m);
  }

  lemma StepInitializes(sys: System, l: Label, s: Sid)
    requires Enabled(sys, l) && s in sys.live && s in Next(sys, l).live
    ensures !(l.Create? && l.s == s)
    ensures Next(sys, l).live[s].session.initialized <==> sys.live[s].session.initialized || l == Register(s)
  {
    if l.Broadcast? {
      BroadcastLeavesFlags(sys, l.d, l.m, s);
    } else {
      TouchesOnlyItsSession(sys, l, s);
    }
  }

  /** What one step can do to the count and the initialization of a session that stays. */
  lemma StepOfLiving(sys: System, l: Label, s: Sid)
    requires Inv(sys) && Enabled(sys, l) && s in sys.live && s in Next(sys, l).live
    ensures s in sys.counts && s in Next(sys, l).counts
    ensures Next(sys, l).counts[s] == sys.counts[s] + (if l.Get? && l.found == Some(s) then 1 else 0)
                                                    - (if l == Remove(s) then 1 else 0)
    ensures Next(sys, l).live[s].session.initialized <==> sys.live[s].session.initialized || l == Register(s)
  {
    StepKeepsInv(sys, l);
    StepInitializes(sys, l, s);
    StepCounts(sys, l, s);
  }

  /** How a session comes into being and goes. */
  lemma BirthAndDeath(sys: System, l: Label, s: Sid)
    requires Inv(sys) && Enabled(sys, l)
    ensures var sys' := Next(sys, l);
            && (s in sys.live && s !in sys'.live ==> l == Remove(s) && sys.counts[s] == 1 && s in sys'.deleted)
            && (s !in sys.live && s in sys'.live ==>
                  l.Create? && l.s == s && sys'.counts[s] == 1 && !sys'.live[s].session.initialized && Unborn(sys, s))
            && (Unborn(sys', s) ==> Unborn(sys, s))
  {
  }

  /** What one step can do to the life, the count and the initialization of s. */
  lemma StepOfOne(sys: System, l: Label, s: Sid)
    requires Inv(sys) && Enabled(sys, l)
    ensures var sys' := Next(sys, l);
            && (s in sys.live && s in sys'.live ==>
                  && sys'.counts[s] == sys.counts[s] + (if l.Get? && l.found == Some(s) then 1 else 0)
                                                     - (if l == Remove(s) then 1 else 0)
                  && (sys'.live[s].session.initialized <==> sys.live[s].session.initialized || l == Register(s)))
            && (s in sys.live && s !in sys'.live ==> l == Remove(s) && sys.counts[s] == 1 && s in sys'.deleted)
            && (s !in sys.live && s in sys'.live ==>
                  l.Create? && l.s == s && sys'.counts[s] == 1 && !sys'.live[s].session.initialized && Unborn(sys, s))
            && (Unborn(sys', s) ==> Unborn(sys, s))
            && (l == Register(s) ==> s in sys.live && !sys.live[s].session.initialized)
            && (l.Get? && l.found == Some(s) ==> s in sys.live)
            && (l.Create? && l.s == s ==> Unborn(sys, s))
  {
    BirthAndDeath(sys, l, s);
    if s in sys.live {
      assert Fits(sys, s);
      if s in Next(sys, l).live {
        StepOfLiving(sys, l, s);
      }
    }
  }

  // ----- each session registers at most once -----

  function Registrations(run: seq<Label>, s: Sid): nat {
    if run == [] then 0 else Registrations(Front(run), s) + if Last(run) == Register(s) then 1 else 0
  }

  lemma {:induction false} RegistersAtMostOnce(run: seq<Label>, s: Sid)
    requires Possible(run)
    ensures Registrations(run, s) <= 1
    ensures s in After(run).live ==> (Registrations(run, s) == 1 <==> After(run).live[s].session.initialized)
    ensures Unborn(After(run), s) ==> Registrations(run, s) == 0
  {
    if run != [] {
      RegistersAtMostOnce(Front(run), s);
      RunKeepsInv(Front(run));
      StepOfOne(After(Front(run)), Last(run), s);
    }
  }

  // ----- the reference count -----

  /** How often get has returned s. */
  function Gets(run: seq<Label>, s: Sid): nat {
    if run == [] then 0 else Gets(Front(run), s) + if Last(run).Get? && Last(run).found == Some(s) then 1 else 0
  }

  /** How often s has been given back since it was created. */
  function Removes(run: seq<Label>, s: Sid): nat {
    if run == [] then 0
    else if Last(run).Create? && Last(run).s == s then 0
    else Removes(Front(run), s) + if Last(run) == Remove(s) then 1 else 0
  }

  /** Step n of the run deletes s. */
  predicate DeletesAt(run: seq<Label>, s: Sid, n: nat)
    requires Possible(run)
  {
    n < |run| &&
    Possible(run[..n]) && Possible(run[..n + 1]) && s in After(run[..n]).live && s !in After(run[..n + 1]).live
  }

  /** A registered session's count is one, plus the gets that returned it, minus the removes. */
  lemma {:induction false} CountLaw(run: seq<Label>, s: Sid)
    requires Possible(run)
    ensures s in After(run).counts <==> s in After(run).live
    ensures s in After(run).counts ==>
              After(run).counts[s] == 1 + Gets(run, s) - Removes(run, s) >= 1
    ensures Unborn(After(run), s) ==> Gets(run, s) == 0
  {
    RunKeepsInv(run);
    if run != [] {
      CountLaw(Front(run), s);
      RunKeepsInv(Front(run));
      StepOfOne(After(Front(run)), Last(run), s);
    }
  }

  lemma StepAt(run: seq<Label>, n: nat)
    requires n < |run| && Possible(run[..n + 1])
    ensures Front(run[..n + 1]) == run[..n] && Last(run[..n + 1]) == run[n]
    ensures Possible(run[..n]) && Enabled(After(run[..n]), run[n]) && After(run[..n + 1]) == Next(After(run[..n]), run[n])
  {
    assert run[..n + 1][..n] == run[..n];
  }

  /** A session is deleted by a remove, and by the one that balances its handles. */
  lemma DeletedByBalancingRemove(run: seq<Label>, s: Sid, n: nat)
    requires Possible(run) && DeletesAt(run, s, n)
    ensures run[n] == Remove(s) && Removes(run[..n + 1], s) == 1 + Gets(run[..n + 1], s)
    ensures s in After(run[..n + 1]).deleted
  {
    StepAt(run, n);
    RunKeepsInv(run[..n]);
    BirthAndDeath(After(run[..n]), run[n], s);
    CountLaw(run[..n], s);
  }

  lemma StepKeepsDeleted(sys: System, l: Label, s: Sid)
    requires Enabled(sys, l) && s in sys.deleted
    ensures s in Next(sys, l).deleted
  {
  }

  lemma {:induction false} DeletedStaysDeleted(run: seq<Label>, s: Sid, n: nat)
    requires Possible(run) && n <= |run| && Possible(run[..n]) && s in After(run[..n]).deleted
    ensures s in After(run).deleted
  {
    if n < |run| {
      assert Front(run)[..n] == run[..n];
      DeletedStaysDeleted(Front(run), s, n);
      StepKeepsDeleted(After(Front(run)), Last(run), s);
    } else {
      assert run[..n] == run;
    }
  }

  /** No session is deleted twice, and none comes back. */
  lemma DeletedOnce(run: seq<Label>, s: Sid, n: nat, m: nat)
    requires Possible(run) && DeletesAt(run, s, n) && DeletesAt(run, s, m)
    ensures n == m
  {
    if n != m {
      var i, j := if n < m then n else m, if n < m then m else n;
      DeletedByBalancingRemove(run, s, i);
      assert run[..j][..i + 1] == run[..i + 1];
      DeletedStaysDeleted(run[..j], s, i + 1);
      RunKeepsInv(run[..j]);
    }
  }

  lemma DeletedFromLiving(sys: System, l: Label, s: Sid)
    requires Enabled(sys, l) && s !in sys.deleted && s in Next(sys, l).deleted
    ensures s in sys.live && s !in Next(sys, l).live
  {
  }

  /** A deleted session has been deleted at some step. */
  lemma {:induction false} DeletionHappened(run: seq<Label>, s: Sid) returns (n: nat)
    requires Possible(run) && s in After(run).deleted
    ensures DeletesAt(run, s, n)
  {
    if s in After(Front(run)).deleted {
      n := DeletionHappened(Front(run), s);
      assert Front(run)[..n] == run[..n] && Front(run)[..n + 1] == run[..n + 1];
    } else {
      n := |run| - 1;
      assert run[..n + 1] == run && run[..n] == Front(run);
      DeletedFromLiving(After(Front(run)), Last(run), s);
    }
  }

  /**
   The rollback of a failed construction gives its one handle back.  Then the session is gone, unless
   some get has handed it out in the meantime; if it is gone, the registry does not know it, and no
   dispatcher does once its destruction is complete.
   */
  lemma RollbackLeavesNothing(run: seq<Label>, s: Sid)
    requires Possible(run) && !Unborn(After(run), s) && Removes(run, s) == 1
    ensures s in After(run).live <==> Gets(run, s) > 0
    ensures s !in After(run).live ==>
              s !in After(run).counts && forall d | s in Clients(After(run), d) :: IsDyingClientOf(After(run), s, d)
  {
    CountLaw(run, s);
    RunKeepsInv(run);
    if s !in After(run).live {
      var n := DeletionHappened(run, s);
      DeletedByBalancingRemove(run, s, n);
      NothingAfterDeletion(run, s, n + 1);
      forall d | s in Clients(After(run), d) ensures IsDyingClientOf(After(run), s, d) {
        ClientsAreTheHolders(run, d);
      }
    }
  }

  /** Once deleted, a session is never handed out again. */
  lemma {:induction false} NothingAfterDeletion(run: seq<Label>, s: Sid, n: nat)
    requires Possible(run) && n <= |run| && Possible(run[..n]) && s in After(run[..n]).deleted
    ensures Gets(run, s) == Gets(run[..n], s) && Removes(run, s) >= Removes(run[..n], s)
  {
    if n < |run| {
      assert Front(run)[..n] == run[..n];
      NothingAfterDeletion(Front(run), s, n);
      DeletedStaysDeleted(Front(run), s, n);
      RunKeepsInv(Front(run));
    } else {
      assert run[..n] == run;
    }
  }

  // ----- after closing -----

  /** Nothing reaches the session any more, and it knows no challenge and no key. */
  predicate Quiescent(sys: System, s: Sid) {
    && (s in sys.live ==>
          && sys.live[s].session.initialized
          && !sys.live[s].session.registered
          && sys.live[s].session.challenge == []
          && sys.live[s].session.statuses == map[])
    && (sys.dying.Some? && sys.dying.value.s == s ==> !sys.dying.value.registered)
  }

  predicate HandsOut(l: Label, s: Sid) {
    l == Register(s) || (l.Get? && l.found == Some(s))
  }

  /** What the invariant says of such a session: no dispatcher knows it, and no call is about to register it. */
  predicate Unreached(sys: System, s: Sid) {
    && (s in sys.live ==> s !in sys.deleted && sys.live[s].phase != Registering)
    && forall d | d in sys.clients :: s !in sys.clients[d]
  }

  lemma QuiescentIsUnreached(sys: System, s: Sid)
    requires Inv(sys) && Quiescent(sys, s)
    ensures Unreached(sys, s)
  {
    if s in sys.live {
      assert Fits(sys, s);
    }
    forall d | d in sys.clients ensures s !in sys.clients[d] {
      assert s in Clients(sys, d) ==> HoldsHandle(sys, s, d);
    }
  }

  lemma BroadcastKeepsQuiescent(sys: System, d: Did, m: Message, s: Sid)
    requires Quiescent(sys, s) && Unreached(sys, s)
    ensures Quiescent(Next(sys, Broadcast(d, m)), s)
  {
  }

  lemma CallKeepsQuiescent(sys: System, l: Label, s: Sid)
    requires IsCall(l) && Enabled(sys, l) && Quiescent(sys, s) && !Unborn(sys, s)
    ensures Quiescent(Next(sys, l), s) && !Unborn(Next(sys, l), s)
  {
  }

  lemma RegistryKeepsQuiescent(sys: System, l: Label, s: Sid)
    requires l.Create? || l.Get? || l.Remove? || l.Destroyed?
    requires Enabled(sys, l) && Quiescent(sys, s) && !Unborn(sys, s)
    ensures Quiescent(Next(sys, l), s) && !Unborn(Next(sys, l), s) && !HandsOut(l, s)
  {
  }

  lemma HandleKeepsQuiescent(sys: System, l: Label, s: Sid)
    requires l.Register? || l.Release?
    requires Enabled(sys, l) && Quiescent(sys, s) && Unreached(sys, s) && !Unborn(sys, s)
    ensures Quiescent(Next(sys, l), s) && !Unborn(Next(sys, l), s) && !HandsOut(l, s)
  {
  }

  lemma StepKeepsQuiescent(sys: System, l: Label, s: Sid)
    requires Inv(sys) && Enabled(sys, l) && Quiescent(sys, s) && !Unborn(sys, s)
    ensures Quiescent(Next(sys, l), s) && !Unborn(Next(sys, l), s) && !HandsOut(l, s)
  {
    QuiescentIsUnreached(sys, s);
    if l.Broadcast? {
      BroadcastKeepsQuiescent(sys, l.d, l.m, s);
    } else if IsCall(l) {
      CallKeepsQuiescent(sys, l, s);
    } else if l.Register? || l.Release? {
      HandleKeepsQuiescent(sys, l, s);
    } else {
      RegistryKeepsQuiescent(sys, l, s);
    }
  }

  /** A quiescent session stays so: no broadcast reaches it, no get returns it, it never registers again. */
  lemma {:induction false} QuiescentForever(run: seq<Label>, more: seq<Label>, s: Sid)
    requires Possible(run) && Possible(run + more) && Quiescent(After(run), s) && !Unborn(After(run), s)
    ensures Quiescent(After(run + more), s) && !Unborn(After(run + more), s)
    ensures forall l | l in more :: !HandsOut(l, s)
    ensures forall d :: s !in Clients(After(run + more), d)
  {
    if more == [] {
      assert run + more == run;
    } else {
      assert Front(run + more) == run + Front(more) && Last(run + more) == Last(more);
      assert more == Front(more) + [Last(more)];
      QuiescentForever(run, Front(more), s);
      RunKeepsInv(Front(run + more));
      StepKeepsQuiescent(After(Front(run + more)), Last(more), s);
    }
    RunKeepsInv(run + more);
    forall d ensures s !in Clients(After(run + more), d) {
      ClientsAreTheHolders(run + more, d);
    }
  }

  lemma RunPlus(run: seq<Label>, l: Label)
    requires Possible(run) && Enabled(After(run), l)
    ensures Possible(run + [l]) && After(run + [l]) == Next(After(run), l)
  {
    assert (run + [l])[..|run|] == run;
  }

  /** At the end of run, a call of closeSession on s has just been completed. */
  predicate JustClosed(run: seq<Label>, s: Sid) {
    run != [] && Possible(run) && Last(run) == Clear(s)
  }

  /** No broadcast reaches the session, not even under its destruction, and it knows no challenge and no key. */
  predicate Silent(sys: System, s: Sid) {
    && (forall d | d in sys.clients :: s !in sys.clients[d])
    && (s in sys.live ==> sys.live[s].session.challenge == [] && sys.live[s].session.statuses == map[])
  }

  ghost predicate StaysSilent(run: seq<Label>, s: Sid) {
    Possible(run) && forall more: seq<Label> | Possible(run + more) :: Silent(After(run + more), s)
  }

  /**
   After a successful close the session is silent for ever, under every interleaving, exactly when it
   had been initialized.  If creating the backend session failed but left an id behind, closing
   succeeds and a later initialize still registers the session.
   */
  lemma ClosedIsSilentIff(run: seq<Label>, s: Sid)
    requires JustClosed(run, s)
    ensures StaysSilent(run, s) <==> After(run).live[s].session.initialized
  {
    RunKeepsInv(Front(run));
    RunKeepsInv(run);
    var sys := After(run);
    assert Fits(After(Front(run)), s);
    if sys.live[s].session.initialized {
      forall more: seq<Label> | Possible(run + more) ensures Silent(After(run + more), s) {
        QuiescentForever(run, more, s);
        forall d | d in After(run + more).clients ensures s !in After(run + more).clients[d] {
          assert s !in Clients(After(run + more), d);
        }
      }
    } else {
      UninitializedCloseReopens(run, s, 0);
      var more := [CreateKeySession(s, Created(0)), Register(s)];
      ClientsAreTheHolders(run + more, sys.live[s].dispatcher);
      assert s in Clients(After(run + more), sys.live[s].dispatcher);
      assert !Silent(After(run + more), s);
    }
  }

  /** That run: a session closed without having been initialized, and registered afterwards. */
  lemma UninitializedCloseReopens(run: seq<Label>, s: Sid, id: int)
    requires JustClosed(run, s) && !After(run).live[s].session.initialized
    ensures var more := [CreateKeySession(s, Created(id)), Register(s)];
            Possible(run + more) && IsClientOf(After(run + more), s, After(run).live[s].dispatcher)
  {
    var first := run + [CreateKeySession(s, Created(id))];
    RunPlus(run, CreateKeySession(s, Created(id)));
    RunPlus(first, Register(s));
    assert first + [Register(s)] == run + [CreateKeySession(s, Created(id)), Register(s)];
  }

  /** Such runs exist: any run can go on to one, for any session that is not born yet. */
  lemma UninitializedCloseIsPossible(run: seq<Label>, s: Sid, d: Did, id: int)
    requires Possible(run) && Unborn(After(run), s) && After(run).dying == None && id != INVALID_SESSION_ID
    ensures var run' := run + [Create(s, d, true, true)] + [CreateKeySession(s, Failed(id))] +
                        [CloseKeySession(s, true)] + [Release(s)] + [Clear(s)];
            JustClosed(run', s) && !After(run').live[s].session.initialized
  {
    var first := run + [Create(s, d, true, true)];
    RunPlus(run, Create(s, d, true, true));
    FailedStartCloses(first, s, id);
  }

  lemma FailedStartCloses(run: seq<Label>, s: Sid, id: int)
    requires Possible(run) && InPhase(After(run), s, Idle) && !After(run).live[s].session.initialized && id != INVALID_SESSION_ID
    ensures var run' := run + [CreateKeySession(s, Failed(id))] + [CloseKeySession(s, true)] + [Release(s)] + [Clear(s)];
            JustClosed(run', s) && !After(run').live[s].session.initialized
  {
    var failed := run + [CreateKeySession(s, Failed(id))];
    RunPlus(run, CreateKeySession(s, Failed(id)));
    var closing := failed + [CloseKeySession(s, true)];
    RunPlus(failed, CloseKeySession(s, true));
    RunPlus(closing, Release(s));
    RunPlus(closing + [Release(s)], Clear(s));
  }

  // ----- under destruction -----

  /** A broadcast at d would reach s while s is under destruction. */
  predicate MeetsDestruction(sys: System, d: Did, s: Sid) {
    sys.dying.Some? && sys.dying.value.s == s && s in Clients(sys, d)
  }

  /** What is under destruction is as its last remove found it. */
  lemma {:induction false} DyingAsRemoved(run: seq<Label>, more: seq<Label>, s: Sid)
    requires Possible(run) && Enabled(After(run), Remove(s)) && s in After(run).live && After(run).counts[s] == 1
    requires Possible(run + [Remove(s)] + more)
    ensures var sys := After(run + [Remove(s)] + more);
            && s !in sys.live && s in sys.deleted
            && (sys.dying.Some? && sys.dying.value.s == s ==>
                  sys.dying.value.registered == After(run).live[s].session.registered)
  {
    var start := run + [Remove(s)];
    if more == [] {
      RunPlus(run, Remove(s));
      assert start + more == start;
    } else {
      assert Front(start + more) == start + Front(more) && Last(start + more) == Last(more);
      DyingAsRemoved(run, Front(more), s);
      StepLeavesDeleted(After(start + Front(more)), Last(more), s);
    }
  }

  lemma StepLeavesDeleted(sys: System, l: Label, s: Sid)
    requires Enabled(sys, l) && s !in sys.live && s in sys.deleted
    ensures var sys' := Next(sys, l);
            && s !in sys'.live && s in sys'.deleted
            && (sys'.dying.Some? && sys'.dying.value.s == s ==> sys'.dying == sys.dying)
  {
  }

  /**
   A broadcast can reach a session under destruction, its data being gone, exactly when the session
   is still registered at its last remove; that is, if it has not been closed since it registered.
   */
  lemma DestructionIsMetIff(run: seq<Label>, s: Sid)
    requires Possible(run) && Enabled(After(run), Remove(s)) && s in After(run).live && After(run).counts[s] == 1
    ensures (exists more: seq<Label>, d: Did ::
               Possible(run + [Remove(s)] + more) && MeetsDestruction(After(run + [Remove(s)] + more), d, s)) <==>
            After(run).live[s].session.registered
  {
    RunPlus(run, Remove(s));
    var removed := run + [Remove(s)];
    if After(run).live[s].session.registered {
      RunKeepsInv(removed);
      assert removed + [] == removed;
      assert MeetsDestruction(After(removed + []), After(run).live[s].dispatcher, s);
    }
    if more: seq<Label>, d: Did :|
       Possible(removed + more) && MeetsDestruction(After(removed + more), d, s) {
      DyingAsRemoved(run, more, s);
      ClientsAreTheHolders(removed + more, d);
      assert HoldsHandle(After(removed + more), s, d);
    }
  }

  /** Giving a registered session back after a close that failed, as a rollback does, leads there. */
  lemma FailedCloseIsMet(run: seq<Label>, s: Sid)
    requires Possible(run) && After(run).dying == None && InPhase(After(run), s, Idle)
    requires s in After(run).counts && After(run).counts[s] == 1
    requires After(run).live[s].session.registered && After(run).live[s].session.id != INVALID_SESSION_ID
    ensures var removed := run + [CloseKeySession(s, false)] + [Remove(s)];
            Possible(removed) && MeetsDestruction(After(removed), After(run).live[s].dispatcher, s)
  {
    RunKeepsInv(run);
    assert Fits(After(run), s);
    RunPlus(run, CloseKeySession(s, false));
    RunPlus(run + [CloseKeySession(s, false)], Remove(s));
  }
}
