/**
 What a session knows from its messages, over whole runs: the last writer wins.

 The functions on runs look at the labels alone, never at the state.
 */
module SessionMessages {
  import opened Wrappers
  import opened SessionModel
  import opened SessionRuns
  import opened SessionTheorems

  function CreationOf(run: seq<Label>, s: Sid): Option<Label> {
    if run == [] then None
    else if Last(run).Create? && Last(run).s == s then Some(Last(run))
    else CreationOf(Front(run), s)
  }

  /** The id that the last createKeySession wrote. */
  function IdOf(run: seq<Label>, s: Sid): int {
    if run == [] then INVALID_SESSION_ID
    else
      var l := Last(run);
      if l.CreateKeySession? && l.s == s && !l.outcome.NoKeys? then l.outcome.id else IdOf(Front(run), s)
  }

  predicate Holding(run: seq<Label>, s: Sid) {
    run != [] && (Last(run) == Register(s) || (Holding(Front(run), s) && Last(run) != Release(s)))
  }

  /** After run, a broadcast of m at d is for s: s is registered there and the id is its own. */
  predicate IsFor(run: seq<Label>, s: Sid, d: Did, m: Message) {
    var c := CreationOf(run, s);
    c.Some? && c.value.Create? && c.value.d == d && Holding(run, s) && m.id == IdOf(run, s)
  }

  /** The last step of run broadcasts a message for s. */
  predicate Delivers(run: seq<Label>, s: Sid) {
    run != [] && Last(run).Broadcast? && IsFor(Front(run), s, Last(run).d, Last(run).m)
  }

  /** The changes delivered to s since the last close, in order. */
  function ChangesFor(run: seq<Label>, s: Sid): seq<KeyChange> {
    if run == [] || Last(run) == Clear(s) then []
    else if Delivers(run, s) && Last(run).m.KeyStatuses? then ChangesFor(Front(run), s) + Last(run).m.changes
    else ChangesFor(Front(run), s)
  }

  /** Step n of the run delivers a license message to s, and no later step does, or closes s. */
  predicate LatestLicenseAt(run: seq<Label>, s: Sid, n: nat) {
    && n < |run|
    && Delivers(run[..n + 1], s) && run[n].m.License?
    && forall j | n < j < |run| :: run[j] != Clear(s) && !(Delivers(run[..j + 1], s) && run[j].m.License?)
  }

  predicate Matches(live: Live, run: seq<Label>, s: Sid) {
    var c := CreationOf(run, s);
    && c.Some? && c.value.Create?
    && live.dispatcher == c.value.d
    && live.session.keyUpdates == c.value.keyUpdates
    && live.session.id == IdOf(run, s)
    && (live.session.registered <==> Holding(run, s))
    && live.session.statuses == if live.session.keyUpdates then Apply(map[], ChangesFor(run, s)) else map[]
  }

  lemma BroadcastMatches(run: seq<Label>, s: Sid)
    requires Possible(run) && run != [] && Last(run).Broadcast?
    requires s in After(Front(run)).live && Matches(After(Front(run)).live[s], Front(run), s)
    ensures Matches(After(run).live[s], run, s)
  {
    var sys, d, m := After(Front(run)), Last(run).d, Last(run).m;
    LiveClients(Front(run), d, s);
    var session := sys.live[s].session;
    if Delivers(run, s) {
      assert After(run).live[s].session == Deliver(session, m);
      if m.KeyStatuses? {
        ApplyConcat(map[], ChangesFor(Front(run), s), m.changes);
      }
    } else {
      assert s in Clients(sys, d) ==> Deliver(session, m) == session;
    }
  }

  lemma OtherStepMatches(before: Live, after: Live, run: seq<Label>, s: Sid)
    requires run != [] && !Last(run).Broadcast? && !(Last(run).Create? && Last(run).s == s)
    requires Matches(before, Front(run), s) && after.dispatcher == before.dispatcher
    requires after.session == Touch(before.session, Last(run), s)
    ensures Matches(after, run, s)
  {
  }

  /** The labels alone tell what every live session knows. */
  lemma {:induction false} KnowsItsMessages(run: seq<Label>, s: Sid)
    requires Possible(run)
    ensures s in After(run).live ==> Matches(After(run).live[s], run, s)
    ensures Unborn(After(run), s) ==> !Holding(run, s) && IdOf(run, s) == INVALID_SESSION_ID && ChangesFor(run, s) == []
  {
    if run != [] {
      var before, l := After(Front(run)), Last(run);
      KnowsItsMessages(Front(run), s);
      RunKeepsInv(Front(run));
      StepOfOne(before, l, s);
      if s in before.live {
        if l.Broadcast? {
          BroadcastMatches(run, s);
        } else if s in After(run).live {
          TouchesOnlyItsSession(before, l, s);
          OtherStepMatches(before.live[s], After(run).live[s], run, s);
        }
      }
    }
  }

  /**
   Last writer wins: with a key-update callback, the status of a key is the conversion of the last
   status delivered for it under the session's id; without one, or before any, it is unknown.
   */
  lemma LastStatusWins(run: seq<Label>, s: Sid, key: Bytes)
    requires Possible(run) && s in After(run).live
    ensures var session := After(run).live[s].session;
            forall i: nat | session.keyUpdates && LastChange(ChangesFor(run, s), key, i) ::
              Status(session, key) == ConvertKeyStatus(ChangesFor(run, s)[i].status)
    ensures var session := After(run).live[s].session;
            (session.keyUpdates ==> forall i: nat :: !LastChange(ChangesFor(run, s), key, i)) ==>
            Status(session, key) == InternalError
  {
    KnowsItsMessages(run, s);
    ApplyKeepsLast(map[], ChangesFor(run, s), key);
  }

  /** The last status delivered to s for key since it was last closed. */
  ghost predicate LastIs(run: seq<Label>, s: Sid, key: Bytes, status: RialtoStatus) {
    exists i: nat :: LastChange(ChangesFor(run, s), key, i) && ChangesFor(run, s)[i].status == status
  }

  ghost predicate NoneDelivered(run: seq<Label>, s: Sid, key: Bytes) {
    forall i: nat :: !LastChange(ChangesFor(run, s), key, i)
  }

  lemma LastIsOne(run: seq<Label>, s: Sid, key: Bytes, status: RialtoStatus, other: RialtoStatus)
    requires LastIs(run, s, key, status)
    ensures !NoneDelivered(run, s, key) && (LastIs(run, s, key, other) ==> other == status)
  {
    var changes := ChangesFor(run, s);
    var i: nat :| LastChange(changes, key, i) && changes[i].status == status;
    if LastIs(run, s, key, other) {
      var j: nat :| LastChange(changes, key, j) && changes[j].status == other;
      assert i == j;
    }
  }

  /** What a caller reads, status by status. */
  lemma StatusTells(run: seq<Label>, s: Sid, key: Bytes)
    requires Possible(run) && s in After(run).live
    ensures var session := After(run).live[s].session;
            var told, status := session.keyUpdates, Status(session, key);
            && (status == Usable <==> told && LastIs(run, s, key, USABLE))
            && (status == Expired <==> told && LastIs(run, s, key, EXPIRED))
            && (status == Released <==> told && LastIs(run, s, key, RELEASED))
            && (status == OutputRestricted <==> told && LastIs(run, s, key, OUTPUT_RESTRICTED))
            && (status == StatusPending <==> told && LastIs(run, s, key, PENDING))
            && (status == InternalError <==>
                  !told || LastIs(run, s, key, INTERNAL_ERROR) || NoneDelivered(run, s, key))
  {
    LastStatusWins(run, s, key);
    var changes := ChangesFor(run, s);
    if i: nat :| LastChange(changes, key, i) {
      var status := changes[i].status;
      assert LastIs(run, s, key, status);
      forall other ensures LastIs(run, s, key, other) <==> other == status {
        LastIsOne(run, s, key, status, other);
      }
      assert !NoneDelivered(run, s, key);
    }
  }

  /** The last status delivered for key, if there is one, is known and good. */
  ghost predicate KnowsKey(run: seq<Label>, s: Sid, key: Bytes) {
    exists i: nat :: LastChange(ChangesFor(run, s), key, i) && ChangesFor(run, s)[i].status != INTERNAL_ERROR
  }

  /** A get may return s for key exactly when s has been told so and has not been closed since. */
  lemma FoundIff(run: seq<Label>, s: Sid, key: Bytes)
    requires Possible(run)
    ensures Enabled(After(run), Get(key, Some(s))) <==>
            && After(run).dying == None  // no destruction holds the registry's mutex
            && s in After(run).live && After(run).live[s].session.keyUpdates && KnowsKey(run, s, key)
  {
    RunKeepsInv(run);
    if s in After(run).live {
      LastStatusWins(run, s, key);
      if KnowsKey(run, s, key) {
        var i: nat :| LastChange(ChangesFor(run, s), key, i) && ChangesFor(run, s)[i].status != INTERNAL_ERROR;
        assert After(run).live[s].session.keyUpdates ==> Status(After(run).live[s].session, key) != InternalError;
      }
    }
  }

  /** A broadcast that is not for s leaves s as it is, whatever other sessions take from it. */
  lemma OthersAreUntouched(run: seq<Label>, d: Did, m: Message, s: Sid)
    requires Possible(run) && s in After(run).live && !IsFor(run, s, d, m)
    ensures Next(After(run), Broadcast(d, m)).live[s] == After(run).live[s]
  {
    KnowsItsMessages(run, s);
    LiveClients(run, d, s);
  }

  lemma LicenseStep(run: seq<Label>, s: Sid)
    requires Possible(run) && run != [] && s in After(run).live && s in After(Front(run)).live
    ensures After(run).live[s].session.challenge ==
            if Last(run) == Clear(s) then []
            else if Delivers(run, s) && Last(run).m.License? then Last(run).m.data
            else After(Front(run)).live[s].session.challenge
  {
    var before, l := After(Front(run)), Last(run);
    if l.Broadcast? {
      KnowsItsMessages(Front(run), s);
      LiveClients(Front(run), l.d, s);
    } else {
      TouchesOnlyItsSession(before, l, s);
    }
  }

  lemma NewSessionHasNoChallenge(sys: System, l: Label, s: Sid)
    requires Enabled(sys, l) && s !in sys.live && s in Next(sys, l).live
    ensures Next(sys, l).live[s].session.challenge == []
  {
  }

  lemma LatestSurvives(run: seq<Label>, s: Sid, n: nat)
    requires run != [] && LatestLicenseAt(Front(run), s, n)
    requires Last(run) != Clear(s) && !(Delivers(run, s) && Last(run).m.License?)
    ensures LatestLicenseAt(run, s, n)
  {
    assert Front(run)[..n + 1] == run[..n + 1];
    forall j | n < j < |run|
      ensures run[j] != Clear(s) && !(Delivers(run[..j + 1], s) && run[j].m.License?)
    {
      assert if j < |run| - 1 then Front(run)[..j + 1] == run[..j + 1] else run[..j + 1] == run;
    }
  }

  /** A challenge is the license message that was delivered last since the session was last closed. */
  lemma {:induction false} ChallengeIsLatest(run: seq<Label>, s: Sid) returns (n: nat)
    requires Possible(run) && s in After(run).live && After(run).live[s].session.challenge != []
    ensures LatestLicenseAt(run, s, n) && run[n].m.data == After(run).live[s].session.challenge
  {
    if s !in After(Front(run)).live {
      NewSessionHasNoChallenge(After(Front(run)), Last(run), s);
    }
    LicenseStep(run, s);
    if Delivers(run, s) && Last(run).m.License? {
      n := |run| - 1;
      assert run[..n + 1] == run;
    } else {
      n := ChallengeIsLatest(Front(run), s);
      LatestSurvives(run, s, n);
    }
  }

  /**
   Whatever getChallengeData returns is not empty, and it is the license message that was delivered
   last: there is one such step, and only one.
   */
  lemma FetchedIsLatest(run: seq<Label>, s: Sid, data: Bytes) returns (n: nat)
    requires Possible(run) && Enabled(After(run), Fetch(s, data))
    ensures data != [] && LatestLicenseAt(run, s, n) && run[n].m.data == data
    ensures forall k: nat :: LatestLicenseAt(run, s, k) <==> k == n
  {
    n := ChallengeIsLatest(run, s);
    forall k: nat | LatestLicenseAt(run, s, k) ensures k == n {
      LatestIsUnique(run, s, n, k);
    }
  }

  lemma LatestIsUnique(run: seq<Label>, s: Sid, n: nat, k: nat)
    requires LatestLicenseAt(run, s, n) && LatestLicenseAt(run, s, k)
    ensures n == k
  {
  }
}
