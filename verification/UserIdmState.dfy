/**
 * The credential-editing session: the module's challenge and schedule id, the controller
 * operations on them, and the handlers that commit credentials when a schedule finishes.
 */
module UserIdmState {
  import opened Common

  /** Zero stands for no challenge and for no active schedule. */
  datatype Module = Module(challenge: uint64, scheduleId: uint64)

  datatype Kind = Add | Modify

  /** A schedule callback; the client is its inner callback, none when that is null. */
  datatype Handler = Handler(kind: Kind, scheduleId: uint64, client: Option<nat>)

  /** A commit records what the module held at that moment. */
  datatype Event =
    | Inserted(scheduleId: uint64, challenge: uint64)
    | Committed(handler: nat, scheduleId: uint64, held: Module)
    | Begun(handler: nat)
    | Cancelled(scheduleId: uint64)
    | Answered(client: nat, code: int)

  datatype State = State(data: Module, handlers: seq<Handler>, trace: seq<Event>)

  const INITIAL: State := State(Module(0, 0), [], [])

  function Emit(st: State, e: Event): State {
    st.(trace := st.trace + [e])
  }

  // ------------------------------------------------------------ the module

  function Insert(st: State, scheduleId: uint64): State {
    Emit(st, Inserted(scheduleId, st.data.challenge)).(data := st.data.(scheduleId := scheduleId))
  }

  function DeleteSession(st: State): State {
    st.(data := st.data.(scheduleId := 0))
  }

  // ---------------------------------------------------------- the handlers

  /** What reaches a handler from outside, with the driver's answer to a commit. */
  datatype Notice =
    | FinishNotice(handler: nat, code: int, commit: int, prop: Option<int>)
    | PropNotice(client: Option<nat>, code: int)
    | ResetNotice(handler: nat)

  function Tell(st: State, client: Option<nat>, code: int): State {
    if client.None? then st else Emit(st, Answered(client.value, code))
  }

  /** The end of a property update: it ends the session without looking at it. */
  function PropResult(st: State, client: Option<nat>, code: int): State {
    DeleteSession(Tell(st, client, code))
  }

  predicate Holds(st: State, scheduleId: uint64) {
    st.data.scheduleId != 0 && st.data.scheduleId == scheduleId
  }

  function Commit(st: State, h: nat, scheduleId: uint64): State {
    Emit(st, Committed(h, scheduleId, st.data))
  }

  function FinishModify(st: State, h: nat, handler: Handler, prop: Option<int>): (State, int) {
    if st.data.challenge == 0 || !Holds(st, handler.scheduleId) then (st, FAIL)
    else
      var st := Commit(st, h, handler.scheduleId);
      (if prop.Some? then PropResult(st, handler.client, prop.value) else st, SUCCESS)
  }

  function OnFinish(st: State, h: nat, code: int, commit: int, prop: Option<int>): State
    requires h < |st.handlers|
  {
    var handler := st.handlers[h];
    if handler.client.None? then st
    else if code != SUCCESS then Tell(DeleteSession(st), handler.client, FAIL)
    else
      match handler.kind
      case Add =>
        var holds := Holds(st, handler.scheduleId);
        var st := if holds then Commit(st, h, handler.scheduleId) else st;
        Tell(DeleteSession(st), handler.client, if holds then commit else FAIL)
      case Modify =>
        var (st, result) := FinishModify(st, h, handler, prop);
        DeleteSession(Tell(st, handler.client, result))
  }

  function Receive(st: State, n: Notice): State {
    match n
    case FinishNotice(h, code, commit, prop) => if h < |st.handlers| then OnFinish(st, h, code, commit, prop) else st
    case PropNotice(client, code) => PropResult(st, client, code)
    case ResetNotice(h) =>
      if h < |st.handlers| then st.(handlers := st.handlers[h := st.handlers[h].(client := None)]) else st
  }

  function Deliver(st: State, ns: seq<Notice>): State
    decreases |ns|
  {
    if ns == [] then st else Deliver(Receive(st, ns[0]), ns[1..])
  }

  // -------------------------------------------------------- the controller

  /** Cancels a schedule; what the cancellation makes arrive is delivered before it returns. */
  function CancelSchedule(st: State, during: seq<Notice>): State {
    Deliver(Emit(st, Cancelled(st.data.scheduleId)), during)
  }

  function Shut(st: State, during: seq<Notice>): State {
    var st := if st.data.scheduleId != 0 && st.data.challenge != 0 then CancelSchedule(st, during) else st;
    st.(data := Module(0, 0))
  }

  /** challenge is the driver's, or zero when it gave none. */
  function Open(st: State, challenge: uint64, during: seq<Notice>): State {
    Shut(st, during).(data := Module(challenge, 0))
  }

  function CloseUser(st: State, driver: int, during: seq<Notice>): State {
    if driver != SUCCESS then st else Shut(st, during)
  }

  /** The driver's answer to a request for a schedule, and what arrives while it starts. */
  datatype Schedule = Schedule(code: int, scheduleId: uint64, during: seq<Notice>)

  /** Adding or updating a credential. */
  function Enroll(st: State, kind: Kind, client: Option<nat>, s: Schedule): (State, int) {
    if client.None? then (st, INVALID_PARAMETERS)
    else if st.data.challenge == 0 then (Tell(st, client, FAIL), FAIL)
    else if st.data.scheduleId != 0 then (Tell(st, client, BUSY), BUSY)
    else if s.code != SUCCESS then (Tell(st, client, FAIL), s.code)
    else
      var h := |st.handlers|;
      var st := Insert(st, s.scheduleId);
      var st := st.(handlers := st.handlers + [Handler(kind, s.scheduleId, client)]);
      (Deliver(Emit(st, Begun(h)), s.during), SUCCESS)
  }

  function DeleteByChallenge(st: State, challenge: uint64, cancel: int, during: seq<Notice>): (State, int) {
    if st.data.challenge != challenge || st.data.scheduleId == 0 then (st, FAIL)
    else
      var st := CancelSchedule(st, during);
      (if cancel != SUCCESS then st else DeleteSession(st), cancel)
  }

  function DeleteByUser(st: State, driver: int, during: seq<Notice>): (State, int) {
    if driver != SUCCESS || st.data.challenge == 0 || st.data.scheduleId == 0 then (st, driver)
    else (DeleteSession(CancelSchedule(st, during)), driver)
  }

  datatype Op =
    | OpenOp(challenge: uint64, during: seq<Notice>)
    | CloseOp(during: seq<Notice>)
    | CloseUserOp(driver: int, during: seq<Notice>)
    | EnrollOp(kind: Kind, client: Option<nat>, s: Schedule)
    | DeleteOp(challenge: uint64, cancel: int, during: seq<Notice>)
    | DeleteUserOp(driver: int, during: seq<Notice>)
    | NoticeOp(n: Notice)

  function Step(st: State, op: Op): State {
    match op
    case OpenOp(challenge, during) => Open(st, challenge, during)
    case CloseOp(during) => Shut(st, during)
    case CloseUserOp(driver, during) => CloseUser(st, driver, during)
    case EnrollOp(kind, client, s) => Enroll(st, kind, client, s).0
    case DeleteOp(challenge, cancel, during) => DeleteByChallenge(st, challenge, cancel, during).0
    case DeleteUserOp(driver, during) => DeleteByUser(st, driver, during).0
    case NoticeOp(n) => Receive(st, n)
  }

  function Run(st: State, ops: seq<Op>): State
    decreases |ops|
  {
    if ops == [] then st else Run(Step(st, ops[0]), ops[1..])
  }
}
