/** Who is called for a schedule: the executors asked, and the callback that hears of it. */
module CoAuthDelivery {
  import opened Common
  import opened CoAuthState
  import LittleEndian

  // ------------------------------------------------- the right callback

  /** What is said about a schedule goes to a callback it was submitted with before. */
  ghost predicate AddressedAt(trace: seq<Event>, k: nat)
    requires k < |trace|
  {
    trace[k].Finished? || trace[k].Acquired? ==> Submitted(trace[k].id, trace[k].callback) in trace[..k]
  }

  ghost predicate Addressed(st: State) {
    && (forall id <- st.table :: Submitted(id, st.table[id].callback) in st.trace)
    && (forall k | 0 <= k < |st.trace| :: AddressedAt(st.trace, k))
  }

  lemma EmitAddressed(st: State, e: Event)
    requires Addressed(st)
    requires e.Finished? || e.Acquired? ==> Submitted(e.id, e.callback) in st.trace
    ensures Addressed(Emit(st, e))
  {
    var after := st.trace + [e];
    assert after[..|st.trace|] == st.trace;
    forall k | 0 <= k < |after| ensures AddressedAt(after, k) {
      if k < |st.trace| {
        assert AddressedAt(st.trace, k) && after[..k] == st.trace[..k] && after[k] == st.trace[k];
      }
    }
  }

  /** A message adds at most one event, to the callback that is stored. */
  lemma ReceiveTells(st: State, m: Message)
    ensures var after := Receive(st, m);
            && (forall id <- after.table :: id in st.table && after.table[id].callback == st.table[id].callback)
            && (after.trace == st.trace
                || exists e: Event :: after.trace == st.trace + [e]
                     && (e.Finished? || e.Acquired? ==> e.id in st.table && e.callback == st.table[e.id].callback))
  {
    hide Token, LittleEndian.U32;
    var after := Receive(st, m);
    if after.trace != st.trace {
      assert after.trace == st.trace + [after.trace[|st.trace|]];
    }
  }

  lemma ReceiveAddressed(st: State, m: Message)
    requires Addressed(st)
    ensures Addressed(Receive(st, m))
  {
    hide AddressedAt, Receive;
    ReceiveTells(st, m);
    var after := Receive(st, m);
    if after.trace != st.trace {
      var e: Event :| after.trace == st.trace + [e]
                      && (e.Finished? || e.Acquired? ==> e.id in st.table && e.callback == st.table[e.id].callback);
      EmitAddressed(st, e);
    }
  }

  lemma {:induction false} DeliverAddressed(st: State, ms: seq<Message>)
    requires Addressed(st)
    ensures Addressed(Deliver(st, ms))
    decreases |ms|
  {
    hide Addressed, Receive;
    if ms != [] {
      ReceiveAddressed(st, ms[0]);
      DeliverAddressed(Receive(st, ms[0]), ms[1..]);
    }
  }

  lemma {:induction false} BeginAddressed(st: State, info: ScheduleInfo, replies: seq<Reply>, i: nat, ret: int)
    requires Addressed(st) && i <= |info.executors|
    ensures Addressed(BeginFrom(st, info, replies, i, ret).0)
    decreases |info.executors| - i
  {
    hide Addressed, FindExecutor, Emit, Deliver;
    if i < |info.executors| {
      var found := FindExecutor(st.executors, info.executors[i]);
      if found.None? {
        BeginAddressed(st, info, replies, i + 1, ret);
      } else {
        var reply := ReplyAt(replies, i);
        EmitAddressed(st, Began(info.scheduleId, found.value));
        DeliverAddressed(Emit(st, Began(info.scheduleId, found.value)), reply.during);
        BeginAddressed(Deliver(Emit(st, Began(info.scheduleId, found.value)), reply.during), info, replies, i + 1,
                       if reply.code != SUCCESS then reply.code else ret);
      }
    }
  }

  lemma {:induction false} EndAddressed(st: State, info: ScheduleInfo, id: uint64, replies: seq<Reply>, i: nat,
      ret: int)
    requires Addressed(st) && i <= |info.executors|
    ensures Addressed(EndFrom(st, info, id, replies, i, ret).0)
    decreases |info.executors| - i
  {
    hide Addressed, FindExecutor, Emit, Deliver;
    if i < |info.executors| {
      var found := FindExecutor(st.executors, info.executors[i]);
      if found.None? {
        EndAddressed(st, info, id, replies, i + 1, ret);
      } else {
        var reply := ReplyAt(replies, i);
        EmitAddressed(st, Ended(id, found.value));
        DeliverAddressed(Emit(st, Ended(id, found.value)), reply.during);
        EndAddressed(Deliver(Emit(st, Ended(id, found.value)), reply.during), info, id, replies, i + 1,
                     if reply.code != SUCCESS then reply.code else ret);
      }
    }
  }

  lemma CancelAddressed(st: State, id: uint64, replies: seq<Reply>)
    requires Addressed(st)
    ensures Addressed(Cancel(st, id, replies).0)
  {
    hide Addressed, EndFrom;
    if id in st.table {
      EndAddressed(st, st.table[id].info, id, replies, 0, SUCCESS);
    }
  }

  /** What was submitted stays submitted. */
  ghost predicate Remembers(st: State, after: State) {
    st.trace <= after.trace
  }

  lemma {:induction false} DeliverRemembers(st: State, ms: seq<Message>)
    ensures Remembers(st, Deliver(st, ms))
    decreases |ms|
  {
    if ms != [] {
      DeliverRemembers(Receive(st, ms[0]), ms[1..]);
    }
  }

  lemma {:induction false} BeginRemembers(st: State, info: ScheduleInfo, replies: seq<Reply>, i: nat, ret: int)
    requires i <= |info.executors|
    ensures Remembers(st, BeginFrom(st, info, replies, i, ret).0)
    decreases |info.executors| - i
  {
    hide FindExecutor, Deliver;
    if i < |info.executors| {
      var found := FindExecutor(st.executors, info.executors[i]);
      if found.None? {
        BeginRemembers(st, info, replies, i + 1, ret);
      } else {
        var reply := ReplyAt(replies, i);
        var called := Emit(st, Began(info.scheduleId, found.value));
        DeliverRemembers(called, reply.during);
        BeginRemembers(Deliver(called, reply.during), info, replies, i + 1,
                       if reply.code != SUCCESS then reply.code else ret);
      }
    }
  }

  lemma ScheduleAddressed(st: State, info: ScheduleInfo, callback: Option<nat>, replies: seq<Reply>)
    requires Addressed(st)
    ensures Addressed(BeginSchedule(st, info, callback, replies))
  {
    hide AddressedAt, BeginFrom;
    if callback.Some? {
      var id, cb := info.scheduleId, callback.value;
      EmitAddressed(st, Submitted(id, cb));
      var told := Emit(st, Submitted(id, cb));
      assert told.trace[|st.trace|] == Submitted(id, cb);
      EmitAddressed(told, Finished(id, cb, FAIL, []));
      EmitAddressed(told, Event.Stored(id, cb));
      var armed := Insert(told, info, cb).(timers := told.timers + multiset{id});
      assert Submitted(id, cb) in armed.trace;
      BeginAddressed(armed, info, replies, 0, SUCCESS);
      BeginRemembers(armed, info, replies, 0, SUCCESS);
      var (mid, ret) := BeginFrom(armed, info, replies, 0, SUCCESS);
      assert Submitted(id, cb) in mid.trace;
      EmitAddressed(mid, Finished(id, cb, ret, []));
    }
  }

  lemma StepAddressed(st: State, op: Op)
    requires Addressed(st)
    ensures Addressed(Step(st, op))
  {
    hide AddressedAt, BeginSchedule, Cancel, Receive;
    match op
    case ScheduleOp(info, callback, replies) => ScheduleAddressed(st, info, callback, replies);
    case ReceiveOp(m) => ReceiveAddressed(st, m);
    case CancelOp(id, replies) => CancelAddressed(st, id, replies);
    case FireOp(id, replies) =>
      var taken := st.(timers := st.timers - multiset{id});
      if id in st.timers && st.ready && id in st.table {
        var e := Finished(id, st.table[id].callback, Common.TIMEOUT, []);
        EmitAddressed(taken, e);
        CancelAddressed(Emit(taken, e), id, replies);
      }
    case RegisterOp(executorId, reg) =>
    case UnregisterOp(executorId) =>
  }

  lemma {:induction false} AddressedOfRuns(st: State, ops: seq<Op>)
    requires Addressed(st)
    ensures Addressed(Run(st, ops))
    decreases |ops|
  {
    hide Addressed, Step;
    if ops != [] {
      StepAddressed(st, ops[0]);
      AddressedOfRuns(Step(st, ops[0]), ops[1..]);
    }
  }

  /**
   * In every run, whatever executors do, a result or an acquired value of a schedule goes to a
   * callback with which that schedule was submitted earlier.
   */
  lemma ResultsReachTheSubmitter(ready: bool, ops: seq<Op>, k: nat) returns (j: nat)
    requires k < |Run(Initial(ready), ops).trace|
    requires var e := Run(Initial(ready), ops).trace[k]; e.Finished? || e.Acquired?
    ensures var trace := Run(Initial(ready), ops).trace;
            j < k && trace[j] == Submitted(trace[k].id, trace[k].callback)
  {
    hide Step;
    AddressedOfRuns(Initial(ready), ops);
    var trace := Run(Initial(ready), ops).trace;
    assert AddressedAt(trace, k);
    j :| 0 <= j < k && trace[..k][j] == Submitted(trace[k].id, trace[k].callback);
  }

  // ------------------------------------------------ the executors asked

  predicate IsCall(e: Event) {
    e.Began? || e.Ended?
  }

  /** The calls made to executors, in order. */
  function Calls(trace: seq<Event>): seq<Event>
    decreases |trace|
  {
    if trace == [] then []
    else
      var last := trace[|trace| - 1];
      Calls(trace[..|trace| - 1]) + if IsCall(last) then [last] else []
  }

  lemma CallsOfEmit(st: State, e: Event)
    ensures Calls(Emit(st, e).trace) == Calls(st.trace) + if IsCall(e) then [e] else []
  {
    assert (st.trace + [e])[..|st.trace|] == st.trace;
  }

  lemma {:induction false} DeliverCallsNobody(st: State, ms: seq<Message>)
    ensures Calls(Deliver(st, ms).trace) == Calls(st.trace) && Deliver(st, ms).executors == st.executors
    decreases |ms|
  {
    hide Token, Calls;
    if ms != [] {
      var next := Receive(st, ms[0]);
      if next.trace != st.trace {
        CallsOfEmit(st, next.trace[|st.trace|]);
        assert Calls(st.trace) + [] == Calls(st.trace);
      }
      DeliverCallsNobody(next, ms[1..]);
    }
  }

  /** The registered executors of a schedule from index i on, in order; others are passed over. */
  ghost function Roster(executors: map<uint64, Registration>, info: ScheduleInfo, i: nat): seq<nat>
    requires i <= |info.executors|
    decreases |info.executors| - i
  {
    if i == |info.executors| then []
    else
      var found := FindExecutor(executors, info.executors[i]);
      (if found.Some? then [found.value] else []) + Roster(executors, info, i + 1)
  }

  function Begins(id: uint64, roster: seq<nat>): (events: seq<Event>)
    ensures |events| == |roster| && forall k | 0 <= k < |roster| :: events[k] == Began(id, roster[k])
  {
    seq(|roster|, k requires 0 <= k < |roster| => Began(id, roster[k]))
  }

  function Ends(id: uint64, roster: seq<nat>): (events: seq<Event>)
    ensures |events| == |roster| && forall k | 0 <= k < |roster| :: events[k] == Ended(id, roster[k])
  {
    seq(|roster|, k requires 0 <= k < |roster| => Ended(id, roster[k]))
  }

  /** Every registered executor from index i on answered with success. */
  ghost predicate AllAgree(executors: map<uint64, Registration>, info: ScheduleInfo, replies: seq<Reply>, i: nat) {
    forall k | i <= k < |info.executors| ::
      FindExecutor(executors, info.executors[k]).Some? ==> ReplyAt(replies, k).code == SUCCESS
  }

  lemma RosterStep(executors: map<uint64, Registration>, info: ScheduleInfo, id: uint64, i: nat)
    requires i < |info.executors|
    ensures var found := FindExecutor(executors, info.executors[i]);
            && Begins(id, Roster(executors, info, i)) ==
               (if found.Some? then [Began(id, found.value)] else []) + Begins(id, Roster(executors, info, i + 1))
            && Ends(id, Roster(executors, info, i)) ==
               (if found.Some? then [Ended(id, found.value)] else []) + Ends(id, Roster(executors, info, i + 1))
  {
    hide FindExecutor;
  }

  lemma RosterEnd(executors: map<uint64, Registration>, info: ScheduleInfo, id: uint64, replies: seq<Reply>)
    ensures var roster := Roster(executors, info, |info.executors|);
            Begins(id, roster) == [] && Ends(id, roster) == [] && AllAgree(executors, info, replies, |info.executors|)
  {
  }

  lemma AgreeStep(executors: map<uint64, Registration>, info: ScheduleInfo, replies: seq<Reply>, i: nat)
    requires i < |info.executors|
    ensures AllAgree(executors, info, replies, i) <==>
            && (FindExecutor(executors, info.executors[i]).Some? ==> ReplyAt(replies, i).code == SUCCESS)
            && AllAgree(executors, info, replies, i + 1)
  {
    hide FindExecutor, ReplyAt;
  }

  /** The call to one executor, with everything that arrives meanwhile. */
  lemma OneCall(st: State, e: Event, during: seq<Message>)
    requires IsCall(e)
    ensures var after := Deliver(Emit(st, e), during);
            Calls(after.trace) == Calls(st.trace) + [e] && after.executors == st.executors
  {
    hide Calls, Deliver;
    CallsOfEmit(st, e);
    DeliverCallsNobody(Emit(st, e), during);
  }

  /** Each registered executor is started once, in order, even after a failure. */
  lemma {:induction false} BeginAsksEveryone(st: State, info: ScheduleInfo, replies: seq<Reply>, i: nat, ret: int)
    requires i <= |info.executors|
    ensures var (after, code) := BeginFrom(st, info, replies, i, ret);
            && Calls(after.trace) == Calls(st.trace) + Begins(info.scheduleId, Roster(st.executors, info, i))
            && (code == SUCCESS <==> ret == SUCCESS && AllAgree(st.executors, info, replies, i))
    decreases |info.executors| - i
  {
    hide FindExecutor, Calls, Deliver, Emit, Begins, Roster, AllAgree;
    if i == |info.executors| {
      RosterEnd(st.executors, info, info.scheduleId, replies);
      assert Calls(st.trace) + [] == Calls(st.trace);
    } else {
      var found := FindExecutor(st.executors, info.executors[i]);
      RosterStep(st.executors, info, info.scheduleId, i);
      AgreeStep(st.executors, info, replies, i);
      if found.None? {
        BeginAsksEveryone(st, info, replies, i + 1, ret);
      } else {
        var reply := ReplyAt(replies, i);
        var e := Began(info.scheduleId, found.value);
        OneCall(st, e, reply.during);
        BeginAsksEveryone(Deliver(Emit(st, e), reply.during), info, replies, i + 1,
                          if reply.code != SUCCESS then reply.code else ret);
      }
    }
  }

  /** And likewise each is told of the end when the schedule is cancelled. */
  lemma {:induction false} EndTellsEveryone(st: State, info: ScheduleInfo, id: uint64, replies: seq<Reply>, i: nat,
      ret: int)
    requires i <= |info.executors|
    ensures var (after, code) := EndFrom(st, info, id, replies, i, ret);
            && Calls(after.trace) == Calls(st.trace) + Ends(id, Roster(st.executors, info, i))
            && (code == SUCCESS <==> ret == SUCCESS && AllAgree(st.executors, info, replies, i))
    decreases |info.executors| - i
  {
    hide FindExecutor, Calls, Deliver, Emit, Ends, Roster, AllAgree;
    if i == |info.executors| {
      RosterEnd(st.executors, info, id, replies);
      assert Calls(st.trace) + [] == Calls(st.trace);
    } else {
      var found := FindExecutor(st.executors, info.executors[i]);
      RosterStep(st.executors, info, id, i);
      AgreeStep(st.executors, info, replies, i);
      if found.None? {
        EndTellsEveryone(st, info, id, replies, i + 1, ret);
      } else {
        var reply := ReplyAt(replies, i);
        var e := Ended(id, found.value);
        OneCall(st, e, reply.during);
        EndTellsEveryone(Deliver(Emit(st, e), reply.during), info, id, replies, i + 1,
                         if reply.code != SUCCESS then reply.code else ret);
      }
    }
  }

  /** The last event tells the callback of id of a failure. */
  predicate EndsInFailure(trace: seq<Event>, id: uint64, callback: nat) {
    trace != [] &&
    var e := trace[|trace| - 1];
    e.Finished? && e.id == id && e.callback == callback && e.code != SUCCESS
  }

  /**
   * A submitted schedule starts all of its registered executors, each once and in order. When
   * there is no executor, no pool, or one of them refuses, its callback hears of the failure
   * at once, and it is neither stored nor timed.
   */
  lemma RefusedStartFails(st: State, info: ScheduleInfo, callback: nat, replies: seq<Reply>)
    ensures var after := BeginSchedule(st, info, Some(callback), replies);
            var id := info.scheduleId;
            var started := |info.executors| > 0 && st.ready;
            && Calls(after.trace) ==
               Calls(st.trace) + (if started then Begins(id, Roster(st.executors, info, 0)) else [])
            && (started && !AllAgree(st.executors, info, replies, 0) ==>
                  id !in after.table && after.timers[id] == 0 && EndsInFailure(after.trace, id, callback))
            && (!started ==>
                  && after == st.(trace := st.trace + [Submitted(id, callback), Finished(id, callback, FAIL, [])])
                  && EndsInFailure(after.trace, id, callback))
  {
    hide Calls, BeginFrom, AllAgree, Roster, Begins;
    var id := info.scheduleId;
    var told := Emit(st, Submitted(id, callback));
    CallsOfEmit(st, Submitted(id, callback));
    CallsOfEmit(told, Finished(id, callback, FAIL, []));
    assert Calls(st.trace) + [] + [] == Calls(st.trace) + [] == Calls(st.trace);
    if |info.executors| > 0 && st.ready {
      var stored := Insert(told, info, callback);
      CallsOfEmit(told, Event.Stored(id, callback));
      var armed := stored.(timers := stored.timers + multiset{id});
      BeginAsksEveryone(armed, info, replies, 0, SUCCESS);
      var (mid, ret) := BeginFrom(armed, info, replies, 0, SUCCESS);
      CallsOfEmit(mid, Finished(id, callback, ret, []));
      assert Calls(mid.trace) + [] == Calls(mid.trace);
    }
  }

  /** A schedule that times out tells its callback so, and all of its executors. */
  lemma TimeoutTellsEveryone(st: State, id: uint64, replies: seq<Reply>)
    requires st.ready && id in st.table && id in st.timers && |st.table[id].info.executors| > 0
    ensures var after := Fire(st, id, replies);
            var s := st.table[id];
            && |after.trace| > |st.trace| && after.trace[|st.trace|] == Finished(id, s.callback, Common.TIMEOUT, [])
            && id !in after.table
            && Calls(after.trace) == Calls(st.trace) + Ends(id, Roster(st.executors, s.info, 0))
  {
    hide Calls, EndFrom, Roster, Ends;
    var told := Emit(st.(timers := st.timers - multiset{id}), Finished(id, st.table[id].callback, Common.TIMEOUT, []));
    CallsOfEmit(st.(timers := st.timers - multiset{id}), Finished(id, st.table[id].callback, Common.TIMEOUT, []));
    assert Calls(st.trace) + [] == Calls(st.trace);
    EndTellsEveryone(told, st.table[id].info, id, replies, 0, SUCCESS);
    EndRemembers(told, st.table[id].info, id, replies, 0, SUCCESS);
  }

  lemma {:induction false} EndRemembers(st: State, info: ScheduleInfo, id: uint64, replies: seq<Reply>, i: nat,
      ret: int)
    requires i <= |info.executors|
    ensures Remembers(st, EndFrom(st, info, id, replies, i, ret).0)
    decreases |info.executors| - i
  {
    hide FindExecutor, Deliver;
    if i < |info.executors| {
      var found := FindExecutor(st.executors, info.executors[i]);
      if found.None? {
        EndRemembers(st, info, id, replies, i + 1, ret);
      } else {
        var reply := ReplyAt(replies, i);
        var called := Emit(st, Ended(id, found.value));
        DeliverRemembers(called, reply.during);
        EndRemembers(Deliver(called, reply.during), info, id, replies, i + 1,
                     if reply.code != SUCCESS then reply.code else ret);
      }
    }
  }
}
