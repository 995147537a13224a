/**
 * Cooperative scheduling: the executor and schedule tables, the pending timers, and the
 * calls that reach executors and schedule callbacks.
 */
module CoAuthState {
  import opened Common
  import opened OrderedKeys
  import opened AttributeState
  import Tlv
  import LittleEndian

  /** A registered executor; either part may be a null pointer. */
  datatype Registration = Registration(authType: Option<uint32>, callback: Option<nat>)

  datatype ScheduleInfo = ScheduleInfo(scheduleId: uint64, executors: seq<uint32>)

  datatype Schedule = Schedule(executorNum: nat, info: ScheduleInfo, callback: nat)

  datatype Event =
    | Submitted(id: uint64, callback: nat)
    | Stored(id: uint64, callback: nat)
    | Absorbed(id: uint64)
    | Finished(id: uint64, callback: nat, code: int, token: seq<byte>)
    | Acquired(id: uint64, callback: nat, acquire: uint32)
    | Began(id: uint64, executor: nat)
    | Ended(id: uint64, executor: nat)

  datatype State = State(
    ready: bool,
    executors: map<uint64, Registration>,
    table: map<uint64, Schedule>,
    timers: multiset<uint64>,
    trace: seq<Event>)

  /** A call of an executor on its messenger. */
  datatype Message =
    | FinishMsg(id: uint64, code: int, result: Option<Attrs>, unset: uint64)
    | SendMsg(id: uint64, data: Option<seq<byte>>)

  /** What an executor does inside one call: the messages it sends meanwhile, and its result. */
  datatype Reply = Reply(during: seq<Message>, code: int)

  function ReplyAt(replies: seq<Reply>, i: nat): Reply {
    if i < |replies| then replies[i] else Reply([], SUCCESS)
  }

  function Emit(st: State, e: Event): State {
    st.(trace := st.trace + [e])
  }

  // ---------------------------------------------------------- the tables

  /** The callback of the first registered executor of the type, if it is not null. */
  ghost function FindExecutor(executors: map<uint64, Registration>, authType: uint32): Option<nat> {
    var matching := set k <- executors | executors[k].authType == Some(authType);
    if matching == {} then None else executors[Least(matching)].callback
  }

  function Register(st: State, executorId: uint64, reg: Registration): State {
    if executorId in st.executors then st else st.(executors := st.executors[executorId := reg])
  }

  function Unregister(st: State, executorId: uint64): State {
    st.(executors := st.executors - {executorId})
  }

  /** map::insert leaves an existing entry as it is. */
  function Insert(st: State, info: ScheduleInfo, callback: nat): State {
    var id := info.scheduleId;
    if id in st.table then st
    else Emit(st, Event.Stored(id, callback)).(table := st.table[id := Schedule(|info.executors|, info, callback)])
  }

  function Delete(st: State, id: uint64): State {
    st.(table := st.table - {id})
  }

  function RemoveTimers(st: State, id: uint64): State {
    st.(timers := st.timers[id := 0])
  }

  // ------------------------------------------------------ the messenger

  function Token(code: int, result: Attrs): seq<byte> {
    if code == SUCCESS && Tlv.AUTH_RESULT in result.u8Arrays then result.u8Arrays[Tlv.AUTH_RESULT] else []
  }

  /** unset is the content of the local counter when the lookup fails. */
  function Finish(st: State, id: uint64, code: int, result: Option<Attrs>, unset: uint64): (State, int) {
    var count := if id in st.table then st.table[id].executorNum else unset;
    if count > 1 then
      if id in st.table
      then (Emit(st, Absorbed(id)).(table := st.table[id := st.table[id].(executorNum := count - 1)]), SUCCESS)
      else (st, SUCCESS)
    else
      var st := RemoveTimers(st, id);
      if id !in st.table then (st, FAIL)
      else
        var callback := st.table[id].callback;
        match result
        case None => (Delete(Emit(st, Finished(id, callback, FAIL, [])), id), FAIL)
        case Some(attrs) => (Delete(Emit(st, Finished(id, callback, code, Token(code, attrs))), id), SUCCESS)
  }

  function SendData(st: State, id: uint64, data: Option<seq<byte>>): (State, int) {
    if data.None? || id !in st.table || |data.value| != 4 then (st, FAIL)
    else (Emit(st, Acquired(id, st.table[id].callback, LittleEndian.U32(data.value))), SUCCESS)
  }

  function Receive(st: State, m: Message): State {
    match m
    case FinishMsg(id, code, result, unset) => Finish(st, id, code, result, unset).0
    case SendMsg(id, data) => SendData(st, id, data).0
  }

  function Deliver(st: State, ms: seq<Message>): State
    decreases |ms|
  {
    if ms == [] then st else Deliver(Receive(st, ms[0]), ms[1..])
  }

  // -------------------------------------------------------- the manager

  /** Starts executors from index i on; the result is the last failure so far. */
  ghost function BeginFrom(st: State, info: ScheduleInfo, replies: seq<Reply>, i: nat, ret: int): (State, int)
    requires i <= |info.executors|
    decreases |info.executors| - i
  {
    if i == |info.executors| then (st, ret)
    else
      var found := FindExecutor(st.executors, info.executors[i]);
      if found.None? then BeginFrom(st, info, replies, i + 1, ret)
      else
        var reply := ReplyAt(replies, i);
        var st := Deliver(Emit(st, Began(info.scheduleId, found.value)), reply.during);
        BeginFrom(st, info, replies, i + 1, if reply.code != SUCCESS then reply.code else ret)
  }

  /** State and result after storing the schedule, arming its timer and starting its executors. */
  ghost function Launch(st: State, info: ScheduleInfo, callback: nat, replies: seq<Reply>): (State, int) {
    var st := Insert(Emit(st, Submitted(info.scheduleId, callback)), info, callback);
    BeginFrom(st.(timers := st.timers + multiset{info.scheduleId}), info, replies, 0, SUCCESS)
  }

  ghost function BeginSchedule(st: State, info: ScheduleInfo, callback: Option<nat>, replies: seq<Reply>): State {
    if callback.None? then st
    else
      var id, cb := info.scheduleId, callback.value;
      if |info.executors| == 0 || !st.ready then Emit(Emit(st, Submitted(id, cb)), Finished(id, cb, FAIL, []))
      else
        var (st, ret) := Launch(st, info, cb, replies);
        if ret == SUCCESS then st else RemoveTimers(Delete(Emit(st, Finished(id, cb, ret, [])), id), id)
  }

  ghost function EndFrom(st: State, info: ScheduleInfo, id: uint64, replies: seq<Reply>, i: nat, ret: int): (State, int)
    requires i <= |info.executors|
    decreases |info.executors| - i
  {
    if i == |info.executors| then (st, ret)
    else
      var found := FindExecutor(st.executors, info.executors[i]);
      if found.None? then EndFrom(st, info, id, replies, i + 1, ret)
      else
        var reply := ReplyAt(replies, i);
        var st := Deliver(Emit(st, Ended(id, found.value)), reply.during);
        EndFrom(st, info, id, replies, i + 1, if reply.code != SUCCESS then reply.code else ret)
  }

  ghost function Cancel(st: State, id: uint64, replies: seq<Reply>): (State, int) {
    if !st.ready || id !in st.table then (st, FAIL)
    else
      var info := st.table[id].info;
      if |info.executors| == 0 then (st, FAIL) else EndFrom(st, info, id, replies, 0, SUCCESS)
  }

  ghost function TimeOut(st: State, id: uint64, replies: seq<Reply>): State {
    if !st.ready || id !in st.table then st
    else
      var st := Emit(st, Finished(id, st.table[id].callback, Common.TIMEOUT, []));
      Delete(Cancel(st, id, replies).0, id)
  }

  /** A pending timer is taken and its task runs. */
  ghost function Fire(st: State, id: uint64, replies: seq<Reply>): State {
    if id !in st.timers then st else TimeOut(st.(timers := st.timers - multiset{id}), id, replies)
  }

  datatype Op =
    | ScheduleOp(info: ScheduleInfo, callback: Option<nat>, replies: seq<Reply>)
    | ReceiveOp(m: Message)
    | CancelOp(id: uint64, replies: seq<Reply>)
    | FireOp(id: uint64, replies: seq<Reply>)
    | RegisterOp(executorId: uint64, reg: Registration)
    | UnregisterOp(executorId: uint64)

  ghost function Step(st: State, op: Op): State {
    match op
    case ScheduleOp(info, callback, replies) => BeginSchedule(st, info, callback, replies)
    case ReceiveOp(m) => Receive(st, m)
    case CancelOp(id, replies) => Cancel(st, id, replies).0
    case FireOp(id, replies) => Fire(st, id, replies)
    case RegisterOp(executorId, reg) => Register(st, executorId, reg)
    case UnregisterOp(executorId) => Unregister(st, executorId)
  }

  ghost function Run(st: State, ops: seq<Op>): State
    decreases |ops|
  {
    if ops == [] then st else Run(Step(st, ops[0]), ops[1..])
  }

  /** Before any schedule, with the manager connected to its pool or not. */
  function Initial(ready: bool): State {
    State(ready, map[], map[], multiset{}, [])
  }
}
