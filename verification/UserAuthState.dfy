/**
 * The life of an authentication context: the context table, the saved callbacks, the
 * worker thread retained for each context, and the callback objects.
 */
module UserAuthState {
  import opened Common
  import T = ThreadGroupState
  import S = CoAuthState

  const GROUP_AUTH: string := "GROUP_AUTH"
  const THREAD_MAX_TASK_NUM: int := 128
  const PUBLIC_KEY_LEN: nat := 32
  const ATL1: int := 10000
  const ATL4: int := 40000
  const PIN: int := 1

  datatype Event =
    | Refused(code: int)                                 // an answer given by the service itself
    | Begun(id: nat, scheduleId: uint64)                 // a schedule handed to the scheduler
    | Answered(id: nat, code: int, token: seq<byte>, remainTimes: int, freezingTime: int)
    | Busy(id: nat)                                      // the answer when no task can be posted
    | Acquire(id: nat, info: uint32)
    | Freeze(id: nat)
    | Thaw(id: nat)
    | CancelSchedule(scheduleId: uint64)
    | CancelContext(contextId: uint64)

  /** A callback object; count is the number of sessions it was constructed with. */
  datatype Callback = Callback(id: nat, contextId: uint64, count: uint32, now: uint32, done: bool, authType: int)

  /** What all callback objects share. */
  datatype Shared = Shared(
    contexts: map<uint64, seq<uint64>>,
    saved: map<uint64, nat>,
    threads: T.State,
    trace: seq<Event>)

  function Emit(st: Shared, e: Event): Shared {
    st.(trace := st.trace + [e])
  }

  // --------------------------------------------------- saved callbacks

  function Save(st: Shared, contextId: uint64, id: nat): (Shared, int) {
    var (threads, retained) := T.Retain(st.threads, GROUP_AUTH, contextId, THREAD_MAX_TASK_NUM);
    var st := st.(threads := threads);
    if !retained || contextId in st.saved then (st, FAIL)
    else (st.(saved := st.saved[contextId := id]), SUCCESS)
  }

  function Forget(st: Shared, contextId: uint64): (Shared, int) {
    (st.(threads := T.Release(st.threads, GROUP_AUTH, contextId).0, saved := st.saved - {contextId}),
     if contextId in st.saved then SUCCESS else FAIL)
  }

  function DeleteContext(st: Shared, contextId: uint64): Shared {
    st.(contexts := st.contexts - {contextId})
  }

  // ------------------------------------------------- callback handlers

  /** The outcome of the driver calls made by one handler. */
  datatype Oracle = Oracle(ret: int, token: seq<byte>, remainTimes: int, freezingTime: int)

  function CancelAll(st: Shared, ids: seq<uint64>): (r: Shared)
    ensures r == st.(trace := r.trace)
    decreases |ids|
  {
    if ids == [] then st else CancelAll(Emit(st, CancelSchedule(ids[0])), ids[1..])
  }

  /** Cancels the context's schedules, then drops context, callback and thread. */
  function DealFinish(st: Shared, contextId: uint64): Shared {
    var st := if contextId in st.contexts then CancelAll(st, st.contexts[contextId]) else st;
    Forget(DeleteContext(st, contextId), contextId).0
  }

  function FinishHandle(st: Shared, cb: Callback, code: int, oracle: Oracle): (Shared, Callback) {
    var cb := cb.(now := (cb.now + 1) % TWO_32);
    if cb.done then (st, cb)
    else
      var ret := if code != CANCELED then oracle.ret else GENERAL_ERROR;
      if ret == E_RET_UNDONE then
        if cb.now == cb.count
        then (Emit(Forget(DeleteContext(st, cb.contextId), cb.contextId).0,
                   Answered(cb.id, GENERAL_ERROR, [], 0, 0)), cb.(done := true))
        else (st, cb)
      else
        var st := if code == LOCKED && cb.authType == PIN then Emit(st, Freeze(cb.id)) else st;
        var st := if ret == SUCCESS && cb.authType == PIN then Emit(st, Thaw(cb.id)) else st;
        var token := if ret == SUCCESS then oracle.token else [];
        var st := Emit(st, Answered(cb.id, code, token, oracle.remainTimes, oracle.freezingTime));
        (DealFinish(st, cb.contextId), cb.(done := true))
  }

  function AcquireHandle(st: Shared, cb: Callback, acquire: uint32): Shared {
    if cb.done then st else Emit(st, Acquire(cb.id, acquire))
  }

  // ----------------------------------------------------------- service

  datatype HdiExecutor = HdiExecutor(authType: uint32, publicKey: seq<byte>)
  datatype HdiSchedule = HdiSchedule(scheduleId: uint64, templateIds: seq<uint64>, executors: seq<HdiExecutor>)

  ghost predicate Copyable(h: HdiSchedule) {
    && h.executors != [] && h.templateIds != []
    && forall e <- h.executors :: |e.publicKey| == PUBLIC_KEY_LEN
  }

  function CopyInfo(h: HdiSchedule): S.ScheduleInfo {
    S.ScheduleInfo(h.scheduleId, seq(|h.executors|, i requires 0 <= i < |h.executors| => h.executors[i].authType))
  }

  function CopyInfos(hs: seq<HdiSchedule>): (infos: seq<S.ScheduleInfo>)
    ensures |infos| == |hs|
  {
    seq(|hs|, i requires 0 <= i < |hs| => CopyInfo(hs[i]))
  }

  function Ids(hs: seq<HdiSchedule>): (ids: seq<uint64>)
    ensures |ids| == |hs|
  {
    seq(|hs|, i requires 0 <= i < |hs| => hs[i].scheduleId)
  }

  /** One AuthUser call: what the caller passes and what the driver and random source give. */
  datatype Request = Request(
    hasCallback: bool,
    permitted: bool,
    trustLevel: int,
    authType: int,
    contextId: uint64,           // the generated identifier
    driver: Option<int>,         // the driver's result, or none when it is unreachable
    schedules: seq<HdiSchedule>)

  ghost function GenerateSolution(st: Shared, contextId: uint64, r: Request): (Shared, int) {
    if r.driver.None? then (st, GENERAL_ERROR)
    else if r.driver.value != SUCCESS then (st, r.driver.value)
    else if exists h <- r.schedules :: !Copyable(h) then (st, GENERAL_ERROR)
    else if contextId !in st.contexts then (st, GENERAL_ERROR)
    else (st.(contexts := st.contexts[contextId := Ids(r.schedules)]), SUCCESS)
  }

  function BeginAll(st: Shared, id: nat, infos: seq<S.ScheduleInfo>): (r: Shared)
    ensures r == st.(trace := r.trace)
    decreases |infos|
  {
    if infos == [] then st else BeginAll(Emit(st, Begun(id, infos[0].scheduleId)), id, infos[1..])
  }

  /** The new state, the returned context (zero on failure), and whether a callback object was saved. */
  ghost function AuthUser(st: Shared, r: Request, id: nat): (Shared, uint64) {
    if !r.hasCallback then (st, 0)
    else if !r.permitted then (Emit(st, Refused(E_CHECK_PERMISSION_FAILED)), 0)
    else if r.trustLevel < ATL1 || r.trustLevel > ATL4 then (Emit(st, Refused(TRUST_LEVEL_NOT_SUPPORT)), 0)
    else if r.contextId in st.contexts then (Emit(st, Refused(GENERAL_ERROR)), 0)
    else
      var added := st.(contexts := st.contexts[r.contextId := []]);
      var (solved, ret) := GenerateSolution(added, r.contextId, r);
      if ret != SUCCESS then (Emit(DeleteContext(solved, r.contextId), Refused(ret)), 0)
      else
        var (kept, ret) := Save(solved, r.contextId, id);
        if ret != SUCCESS then (Emit(DeleteContext(kept, r.contextId), Refused(ret)), 0)
        else (BeginAll(kept, id, CopyInfos(r.schedules)), r.contextId)
  }

  /** Cancelling by context: the driver's answer decides whether anything is touched. */
  function CancelAuth(st: Shared, contextId: uint64, permitted: bool, driver: int): (Shared, int) {
    if !permitted then (st, E_CHECK_PERMISSION_FAILED)
    else if contextId !in st.contexts then (st, INVALID_PARAMETERS)
    else
      var st := Emit(st, CancelContext(contextId));
      if driver != SUCCESS then (st, driver)
      else (DeleteContext(CancelAll(st, st.contexts[contextId]), contextId), SUCCESS)
  }

  // -------------------------------------------------------------- runs

  /** The closures that callbacks post; a task body is an index into the list of calls. */
  datatype Call = FinishCall(id: nat, code: int) | AcquireCall(id: nat, acquire: uint32)

  datatype State = State(shared: Shared, callbacks: seq<Callback>, calls: seq<Call>, clean: bool)

  function NewCallback(id: nat, contextId: uint64, count: uint32, authType: int): Callback {
    Callback(id, contextId, count, 0, false, authType)
  }

  datatype Op =
    | StartOp
    | StopOp
    | AuthUserOp(r: Request)
    | CancelAuthOp(contextId: uint64, permitted: bool, driver: int)
    | CreateOp(contextId: uint64, count: uint32, authType: int)  // any other callback object
    | NotifyOp(call: Call)                                       // OnFinish or OnAcquireInfo of a callback
    | WorkOp(p: T.Ptr, oracle: Oracle)
    | OtherOp(op: T.Op)                                          // a call on another thread group

  predicate Elsewhere(op: T.Op) {
    match op
    case WorkOp(_) => false
    case DropOp(_) => true
    case _ => op.name != GROUP_AUTH
  }

  /** Posts the call to the callback's context thread; a failed post ends the callback. */
  function Notify(st: State, call: Call): State
    requires call.id < |st.callbacks|
  {
    var cb := st.callbacks[call.id];
    var (threads, posted) := T.Post(st.shared.threads, GROUP_AUTH, cb.contextId, |st.calls|);
    var shared := st.shared.(threads := threads);
    if posted then st.(shared := shared, calls := st.calls + [call])
    else
      st.(shared := if call.FinishCall? then Emit(shared, Busy(call.id)) else shared,
          callbacks := st.callbacks[call.id := cb.(done := true)])
  }

  function Handle(st: State, call: Call, oracle: Oracle): State
    requires call.id < |st.callbacks|
  {
    var cb := st.callbacks[call.id];
    match call
    case FinishCall(id, code) =>
      var (shared, after) := FinishHandle(st.shared, cb, code, oracle);
      st.(shared := shared, callbacks := st.callbacks[id := after])
    case AcquireCall(id, acquire) => st.(shared := AcquireHandle(st.shared, cb, acquire))
  }

  /** The call run by the next worker step of p, if it is one of this service. */
  function NextCall(st: State, p: T.Ptr): Option<Call> {
    if p in st.shared.threads.heap && st.shared.threads.heap[p].queue != [] then
      var task := st.shared.threads.heap[p].queue[0];
      if task.User? && task.owner.Serving? && task.owner.name == GROUP_AUTH && task.body < |st.calls|
      then Some(st.calls[task.body]) else None
    else None
  }

  ghost function Step(st: State, op: Op): State {
    var shared := st.shared;
    match op
    case StartOp =>
      var (threads, created) := T.CreateGroup(shared.threads, GROUP_AUTH, T.GROUP_MAX_THREAD_NUM);
      st.(shared := shared.(threads := threads), clean := if created then shared.saved == map[] else st.clean)
    case StopOp => st.(shared := shared.(threads := T.DestroyGroup(shared.threads, GROUP_AUTH).0))
    case AuthUserOp(r) =>
      var id := |st.callbacks|;
      st.(shared := AuthUser(shared, r, id).0,
          callbacks := st.callbacks + [NewCallback(id, r.contextId, 0, r.authType)])
    case CancelAuthOp(contextId, permitted, driver) =>
      st.(shared := CancelAuth(shared, contextId, permitted, driver).0)
    case CreateOp(contextId, count, authType) =>
      st.(callbacks := st.callbacks + [NewCallback(|st.callbacks|, contextId, count, authType)])
    case NotifyOp(call) => if call.id < |st.callbacks| then Notify(st, call) else st
    case WorkOp(p, oracle) =>
      var next := NextCall(st, p);
      var worked := st.(shared := shared.(threads := T.Work(shared.threads, p)));
      if next.Some? && next.value.id < |st.callbacks| then Handle(worked, next.value, oracle) else worked
    case OtherOp(op) =>
      if Elsewhere(op) then st.(shared := shared.(threads := T.Step(shared.threads, op))) else st
  }

  ghost function Run(st: State, ops: seq<Op>): State
    decreases |ops|
  {
    if ops == [] then st else Run(Step(st, ops[0]), ops[1..])
  }

  const INITIAL: State := State(Shared(map[], map[], T.INITIAL, []), [], [], false)
}
