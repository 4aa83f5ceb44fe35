/**
 The application state of a CDM backend and the media keys that go with it.

 Two threads race at startup: the control thread delivers notifications, and the constructing thread
 calls initialize once with the state it was given.  Every section under the mutex is one event.
 What the media-keys factory does is an input.
 */
module CdmBackend {
  datatype AppState = UNKNOWN | INACTIVE | RUNNING

  /** There may be no factory, and it may give nothing. */
  datatype Factory = NoFactory | GivesNothing | GivesKeys

  datatype Backend = Backend(appState: AppState, hasKeys: bool)

  datatype Event = Notify(state: AppState, factory: Factory) | Initialize(state: AppState, factory: Factory)

  /** What the media keys answer to createKeySession; the id may have been written in either case. */
  datatype Answer = Answer(ok: bool, id: int)

  // ----- as values -----

  function CreateKeys(b: Backend, factory: Factory): Backend {
    if factory == NoFactory then b else b.(hasKeys := factory == GivesKeys)
  }

  function AfterNotify(b: Backend, state: AppState, factory: Factory): Backend {
    if state == b.appState then b
    else if state == RUNNING then
      var b' := CreateKeys(b, factory);
      if factory == GivesKeys then b'.(appState := RUNNING) else b'
    else Backend(state, false)
  }

  function AfterInitialize(b: Backend, state: AppState, factory: Factory): Backend {
    if b.appState != UNKNOWN then b
    else if state == RUNNING then
      var b' := CreateKeys(b, factory);
      if factory == GivesKeys then b'.(appState := RUNNING) else b'
    else b.(appState := state)
  }

  function After(b: Backend, e: Event): Backend {
    match e
    case Notify(state, factory) => AfterNotify(b, state, factory)
    case Initialize(state, factory) => AfterInitialize(b, state, factory)
  }

  function AfterAll(b: Backend, events: seq<Event>): Backend
    decreases |events|
  {
    if events == [] then b else AfterAll(After(b, events[0]), events[1..])
  }

  const START := Backend(UNKNOWN, false)

  // ----- as the object -----

  class CdmBackend {
    var appState: AppState
    var mediaKeys: bool

    constructor ()
      ensures View() == START
    {
      appState, mediaKeys := UNKNOWN, false;
    }

    function View(): Backend
      reads this
    {
      Backend(appState, mediaKeys)
    }

    method CreateMediaKeys(factory: Factory) returns (ok: bool)
      modifies this`mediaKeys
      ensures View() == CreateKeys(old(View()), factory) && ok == (factory == GivesKeys)
    {
      if factory == NoFactory {
        return false;
      }
      mediaKeys := factory == GivesKeys;
      if !mediaKeys {
        return false;
      }
      return true;
    }

    method NotifyApplicationState(state: AppState, factory: Factory)
      modifies this
      ensures View() == AfterNotify(old(View()), state, factory)
    {
      if state == appState {
        return;
      }
      if RUNNING == state {
        var ok := CreateMediaKeys(factory);
        if ok {
          appState := state;
        }
      } else {
        mediaKeys := false;
        appState := state;
      }
    }

    method Init(initialState: AppState, factory: Factory) returns (ok: bool)
      modifies this
      ensures View() == AfterInitialize(old(View()), initialState, factory)
      ensures ok <==> old(appState) != UNKNOWN || initialState != RUNNING || factory == GivesKeys
    {
      if UNKNOWN != appState {
        return true;
      }
      if RUNNING == initialState {
        var made := CreateMediaKeys(factory);
        if !made {
          return false;
        }
      }
      appState := initialState;
      return true;
    }

    /** The wait lets other threads run; it ends in RUNNING or by timeout, whatever the state is then. */
    method CreateKeySession(during: seq<Event>, answer: Answer, id0: int) returns (ok: bool, id: int)
      modifies this
      ensures View() == AfterAll(old(View()), during)
      ensures (ok, id) == if mediaKeys then (answer.ok, answer.id) else (false, id0)
    {
      for i := 0 to |during|
        invariant AfterAll(View(), during[i..]) == AfterAll(old(View()), during)
      {
        assert during[i..][0] == during[i] && during[i..][1..] == during[i + 1..];
        match during[i]
        case Notify(state, factory) =>
          NotifyApplicationState(state, factory);
        case Initialize(state, factory) =>
          var done := Init(state, factory);
      }
      assert during[|during|..] == [];
      if !mediaKeys {
        return false, id0;
      }
      return answer.ok, answer.id;
    }

    /** Every other operation on a session fails without media keys, and is theirs otherwise. */
    method Forward(answer: bool) returns (ok: bool)
      ensures ok == (mediaKeys && answer)
    {
      if !mediaKeys {
        return false;
      }
      return answer;
    }
  }

  // ----- properties of every run -----

  predicate KeysMatchState(b: Backend) {
    b.hasKeys <==> b.appState == RUNNING
  }

  /** Media keys exist exactly when the state is RUNNING, even if the factory is missing or fails. */
  lemma {:induction false} KeysExactlyWhenRunning(b: Backend, events: seq<Event>)
    requires KeysMatchState(b)
    ensures KeysMatchState(AfterAll(b, events))
    decreases |events|
  {
    if events != [] {
      KeysExactlyWhenRunning(After(b, events[0]), events[1..]);
    }
  }

  /** A notification of RUNNING or INACTIVE that is sure to leave its own state behind. */
  predicate Takes(e: Event) {
    e.Notify? && (e.state == INACTIVE || (e.state == RUNNING && e.factory == GivesKeys))
  }

  predicate IsNotification(e: Event) {
    e.Notify? && e.state != UNKNOWN
  }

  lemma {:induction false} AfterConcat(b: Backend, xs: seq<Event>, ys: seq<Event>)
    ensures AfterAll(b, xs + ys) == AfterAll(AfterAll(b, xs), ys)
    decreases |xs|
  {
    if xs == [] {
      assert xs + ys == ys;
    } else {
      assert (xs + ys)[1..] == xs[1..] + ys;
      AfterConcat(After(b, xs[0]), xs[1..], ys);
    }
  }

  /** Two backends in different states come together exactly when a notification takes. */
  lemma {:induction false} JoinExactlyWhenTaken(a: Backend, b: Backend, events: seq<Event>)
    requires KeysMatchState(a) && KeysMatchState(b) && a != b && (a.appState == UNKNOWN || b.appState == UNKNOWN)
    requires forall e | e in events :: IsNotification(e)
    ensures AfterAll(a, events) == AfterAll(b, events) <==> exists e | e in events :: Takes(e)
    decreases |events|
  {
    if events != [] {
      var e, rest := events[0], events[1..];
      assert e in events && events == [e] + rest;
      if !Takes(e) {
        assert After(a, e) == a && After(b, e) == b;
        JoinExactlyWhenTaken(a, b, rest);
      }
    }
  }

  /**
   The startup race.  An initialize inserted anywhere in a sequence of notifications is noticed at the
   end exactly when it came while the state was still UNKNOWN, moved it, and no later one takes.
   */
  lemma InitializeIsNoticedIff(before: seq<Event>, state: AppState, factory: Factory, after: seq<Event>)
    requires forall e | e in before + after :: IsNotification(e)
    ensures AfterAll(START, before + [Initialize(state, factory)] + after) != AfterAll(START, before + after) <==>
            && AfterAll(START, before).appState == UNKNOWN
            && (state == INACTIVE || (state == RUNNING && factory == GivesKeys))
            && !exists e | e in after :: Takes(e)
  {
    var init := Initialize(state, factory);
    var b := AfterAll(START, before);
    AfterConcat(START, before, after);
    AfterConcat(START, before + [init], after);
    AfterConcat(START, before, [init]);
    assert [init][1..] == [];
    var b' := After(b, init);
    assert AfterAll(b, [init]) == b';
    KeysExactlyWhenRunning(START, before);
    assert forall e | e in after :: e in before + after;
    if b != b' {
      JoinExactlyWhenTaken(b, b', after);
    }
  }

  /** With a factory that succeeds, initialize is never noticed once there is a notification. */
  lemma StartupRaceIsBenign(before: seq<Event>, state: AppState, factory: Factory, after: seq<Event>)
    requires before + after != [] && forall e | e in before + after :: IsNotification(e) && e.factory == GivesKeys
    ensures AfterAll(START, before + [Initialize(state, factory)] + after) == AfterAll(START, before + after)
  {
    InitializeIsNoticedIff(before, state, factory, after);
    if before != [] {
      LastNotificationWins(START, before);
      assert before[|before| - 1] in before + after;
    } else {
      assert after[0] in before + after && Takes(after[0]);
    }
  }

  lemma {:induction false} LastNotificationWins(b: Backend, events: seq<Event>)
    requires events != [] && Takes(events[|events| - 1])
    ensures AfterAll(b, events).appState == events[|events| - 1].state
  {
    var front, last := events[..|events| - 1], events[|events| - 1];
    assert events == front + [last] && [last][1..] == [];
    AfterConcat(b, front, [last]);
  }

  /** Event i takes, and none behind it does. */
  predicate TakesLast(events: seq<Event>, i: nat) {
    i < |events| && Takes(events[i]) && forall j | i < j < |events| :: !Takes(events[j])
  }

  /** The state is that of the last notification that takes; without one nothing has changed. */
  lemma {:induction false} StateIsLastTaken(b: Backend, events: seq<Event>)
    requires KeysMatchState(b) && forall e | e in events :: IsNotification(e)
    ensures forall i: nat | TakesLast(events, i) :: AfterAll(b, events) == Backend(events[i].state, events[i].state == RUNNING)
    ensures (forall e | e in events :: !Takes(e)) ==> AfterAll(b, events) == b
  {
    if events != [] {
      var n := |events| - 1;
      var front, last := events[..n], events[n];
      assert events == front + [last] && [last][1..] == [] && last in events;
      AfterConcat(b, front, [last]);
      StateIsLastTaken(b, front);
      KeysExactlyWhenRunning(b, front);
      if !Takes(last) {
        assert AfterAll(b, events) == AfterAll(b, front);
        assert forall i: nat :: TakesLast(events, i) ==> TakesLast(front, i);
      }
    }
  }

  /** A request for a key session reaches the media keys exactly when it finds the state RUNNING. */
  lemma SessionReachesKeysWhenRunning(before: seq<Event>, during: seq<Event>)
    ensures AfterAll(AfterAll(START, before), during).hasKeys <==>
            AfterAll(START, before + during).appState == RUNNING
  {
    AfterConcat(START, before, during);
    KeysExactlyWhenRunning(START, before + during);
  }
}
