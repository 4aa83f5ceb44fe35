/** One CDM session as a value, and what each operation and each broadcast does to it. */
module SessionModel {
  newtype Byte = x | 0 <= x < 256

  type Bytes = seq<Byte>

  datatype RialtoStatus = USABLE | EXPIRED | OUTPUT_RESTRICTED | PENDING | INTERNAL_ERROR | RELEASED

  datatype KeyStatus = Usable | Expired | Released | OutputRestricted | StatusPending | InternalError

  function ConvertKeyStatus(s: RialtoStatus): KeyStatus {
    match s
    case USABLE => Usable
    case EXPIRED => Expired
    case RELEASED => Released
    case OUTPUT_RESTRICTED => OutputRestricted
    case PENDING => StatusPending
    case INTERNAL_ERROR => InternalError
  }

  const INVALID_SESSION_ID := -1

  datatype KeyChange = KeyChange(key: Bytes, status: RialtoStatus)

  /** A message that the dispatcher hands to its clients; a request and a renewal differ only to user callbacks. */
  datatype Message = License(id: int, data: Bytes) | KeyStatuses(id: int, changes: seq<KeyChange>)

  /** keyUpdates: there is a key-update callback.  registered: the session holds its dispatcher handle. */
  datatype Session = Session(id: int, initialized: bool, registered: bool, challenge: Bytes,
                             statuses: map<Bytes, RialtoStatus>, keyUpdates: bool, initDataKnown: bool)

  function NewSession(keyUpdates: bool, initDataKnown: bool): Session {
    Session(INVALID_SESSION_ID, false, false, [], map[], keyUpdates, initDataKnown)
  }

  function StatusIn(statuses: map<Bytes, RialtoStatus>, key: Bytes): KeyStatus {
    if key in statuses then ConvertKeyStatus(statuses[key]) else InternalError
  }

  function Status(s: Session, key: Bytes): KeyStatus {
    StatusIn(s.statuses, key)
  }

  function Apply(statuses: map<Bytes, RialtoStatus>, changes: seq<KeyChange>): map<Bytes, RialtoStatus> {
    if changes == [] then statuses
    else
      var last := changes[|changes| - 1];
      Apply(statuses, changes[..|changes| - 1])[last.key := last.status]
  }

  function Deliver(s: Session, m: Message): Session {
    if m.id != s.id then s
    else
      match m
      case License(_, data) => s.(challenge := data)
      case KeyStatuses(_, changes) => if s.keyUpdates then s.(statuses := Apply(s.statuses, changes)) else s
  }

  lemma {:induction false} ApplyConcat(statuses: map<Bytes, RialtoStatus>, a: seq<KeyChange>, b: seq<KeyChange>)
    ensures Apply(statuses, a + b) == Apply(Apply(statuses, a), b)
  {
    if b == [] {
      assert a + b == a;
    } else {
      assert (a + b)[..|a + b| - 1] == a + b[..|b| - 1];
      ApplyConcat(statuses, a, b[..|b| - 1]);
    }
  }

  /** Position i holds the last change of key. */
  predicate LastChange(changes: seq<KeyChange>, key: Bytes, i: nat) {
    i < |changes| && changes[i].key == key && forall j | i < j < |changes| :: changes[j].key != key
  }

  /** What remains of a series of changes is the last one for each key. */
  lemma {:induction false} ApplyKeepsLast(statuses: map<Bytes, RialtoStatus>, changes: seq<KeyChange>, key: Bytes)
    ensures var r := Apply(statuses, changes);
            if exists i: nat :: LastChange(changes, key, i)
            then key in r && forall i: nat | LastChange(changes, key, i) :: r[key] == changes[i].status
            else (key in r <==> key in statuses) && (key in r ==> r[key] == statuses[key])
  {
    if changes != [] {
      var n := |changes| - 1;
      var front := changes[..n];
      ApplyKeepsLast(statuses, front, key);
      if changes[n].key == key {
        assert LastChange(changes, key, n);
      } else {
        forall i: nat ensures LastChange(changes, key, i) <==> LastChange(front, key, i) {
        }
      }
    }
  }
}
