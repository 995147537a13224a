/** Conservation, counting and timers of schedules, over every run. */
module CoAuthLaws {
  import opened Common
  import opened AttributeState
  import opened CoAuthState
  import Tlv

  function Submissions(trace: seq<Event>, id: uint64): nat {
    if trace == [] then 0
    else
      var e := trace[|trace| - 1];
      Submissions(trace[..|trace| - 1], id) + if e.Submitted? && e.id == id then 1 else 0
  }

  function Finishes(trace: seq<Event>, id: uint64): nat {
    if trace == [] then 0
    else
      var e := trace[|trace| - 1];
      Finishes(trace[..|trace| - 1], id) + if e.Finished? && e.id == id then 1 else 0
  }

  /** Finish calls absorbed since the schedule was last stored. */
  function AbsorbedSince(trace: seq<Event>, id: uint64): nat {
    if trace == [] then 0
    else
      var e := trace[|trace| - 1];
      if e.Stored? && e.id == id then 0
      else AbsorbedSince(trace[..|trace| - 1], id) + if e.Absorbed? && e.id == id then 1 else 0
  }

  /** Submissions neither finished nor still stored; zero means nothing lost or doubled. */
  function Balance(st: State, id: uint64): int {
    Submissions(st.trace, id) - Finishes(st.trace, id) - if id in st.table then 1 else 0
  }

  lemma EmitCounts(st: State, e: Event, id: uint64)
    ensures Submissions(Emit(st, e).trace, id) ==
            Submissions(st.trace, id) + if e.Submitted? && e.id == id then 1 else 0
    ensures Finishes(Emit(st, e).trace, id) == Finishes(st.trace, id) + if e.Finished? && e.id == id then 1 else 0
    ensures AbsorbedSince(Emit(st, e).trace, id) ==
            if e.Stored? && e.id == id then 0
            else AbsorbedSince(st.trace, id) + if e.Absorbed? && e.id == id then 1 else 0
  {
    assert (st.trace + [e])[..|st.trace|] == st.trace;
  }

  /** Of the stored schedule's Finish calls, some were absorbed and at least one is awaited. */
  ghost predicate Counted(st: State, id: uint64)
    requires id in st.table
  {
    var s := st.table[id];
    s.executorNum >= 1 && AbsorbedSince(st.trace, id) + s.executorNum == |s.info.executors|
  }

  ghost predicate Counts(st: State) {
    forall id <- st.table :: Counted(st, id)
  }

  ghost predicate TimersPending(st: State) {
    forall id <- st.table :: id in st.timers
  }

  /**
   * What any number of executor messages may do: finish schedules, delivering each once,
   * and count down others; nothing is added, and a schedule that stays keeps its timers.
   */
  ghost predicate Evolves(st: State, after: State) {
    && after.ready == st.ready && after.executors == st.executors
    && (forall id <- after.table ::
          && id in st.table && after.table[id].info == st.table[id].info
          && after.table[id].callback == st.table[id].callback && after.timers[id] == st.timers[id])
    && (forall id :: Balance(after, id) == Balance(st, id))
    && (forall id <- after.table :: Counted(st, id) ==> Counted(after, id))
  }

  lemma EvolvesTransitive(a: State, b: State, c: State)
    requires Evolves(a, b) && Evolves(b, c)
    ensures Evolves(a, c)
  {
    hide Balance, Counted;
  }

  lemma NeutralEvolves(st: State, e: Event)
    requires e.Began? || e.Ended? || e.Acquired?
    ensures Evolves(st, Emit(st, e))
  {
    hide Submissions, Finishes, AbsorbedSince;
    var after := Emit(st, e);
    forall id ensures Balance(after, id) == Balance(st, id)
                      && AbsorbedSince(after.trace, id) == AbsorbedSince(st.trace, id) {
      EmitCounts(st, e, id);
    }
  }

  lemma FinishEvolves(st: State, id: uint64, code: int, result: Option<Attrs>, unset: uint64)
    ensures Evolves(st, Finish(st, id, code, result, unset).0)
  {
    hide Submissions, Finishes, AbsorbedSince;
    var after := Finish(st, id, code, result, unset).0;
    if id in st.table {
      if st.table[id].executorNum > 1 {
        forall x ensures Balance(after, x) == Balance(st, x)
                         && AbsorbedSince(after.trace, x) == AbsorbedSince(st.trace, x) + if x == id then 1 else 0 {
          EmitCounts(st, Absorbed(id), x);
        }
      } else {
        var e := after.trace[|st.trace|];
        assert after == Delete(Emit(RemoveTimers(st, id), e), id);
        forall x ensures Balance(after, x) == Balance(st, x)
                         && AbsorbedSince(after.trace, x) == AbsorbedSince(st.trace, x) {
          EmitCounts(st, e, x);
        }
      }
    }
  }

  lemma ReceiveEvolves(st: State, m: Message)
    ensures Evolves(st, Receive(st, m))
  {
    hide Evolves, Finish, Emit;
    match m
    case FinishMsg(id, code, result, unset) => FinishEvolves(st, id, code, result, unset);
    case SendMsg(id, data) =>
      if SendData(st, id, data).1 == SUCCESS {
        NeutralEvolves(st, Acquired(id, st.table[id].callback, LittleEndian.U32(data.value)));
      } else {
        SelfEvolves(st);
      }
  }

  lemma SelfEvolves(st: State)
    ensures Evolves(st, st)
  {
  }

  lemma {:induction false} DeliverEvolves(st: State, ms: seq<Message>)
    ensures Evolves(st, Deliver(st, ms))
    decreases |ms|
  {
    hide Evolves, Receive;
    if ms == [] {
      SelfEvolves(st);
    } else {
      var next := Receive(st, ms[0]);
      ReceiveEvolves(st, ms[0]);
      DeliverEvolves(next, ms[1..]);
      EvolvesTransitive(st, next, Deliver(next, ms[1..]));
    }
  }

  lemma {:induction false} BeginEvolves(st: State, info: ScheduleInfo, replies: seq<Reply>, i: nat, ret: int)
    requires i <= |info.executors|
    ensures Evolves(st, BeginFrom(st, info, replies, i, ret).0)
    decreases |info.executors| - i
  {
    hide Evolves, Emit, Deliver, ReplyAt;
    if i == |info.executors| {
      SelfEvolves(st);
    } else {
      var found := FindExecutor(st.executors, info.executors[i]);
      if found.None? {
        BeginEvolves(st, info, replies, i + 1, ret);
      } else {
        var reply := ReplyAt(replies, i);
        var called := Emit(st, Began(info.scheduleId, found.value));
        var next := Deliver(called, reply.during);
        NeutralEvolves(st, Began(info.scheduleId, found.value));
        DeliverEvolves(called, reply.during);
        EvolvesTransitive(st, called, next);
        var ret' := if reply.code != SUCCESS then reply.code else ret;
        BeginEvolves(next, info, replies, i + 1, ret');
        EvolvesTransitive(st, next, BeginFrom(next, info, replies, i + 1, ret').0);
      }
    }
  }

  lemma {:induction false} EndEvolves(st: State, info: ScheduleInfo, id: uint64, replies: seq<Reply>, i: nat, ret: int)
    requires i <= |info.executors|
    ensures Evolves(st, EndFrom(st, info, id, replies, i, ret).0)
    decreases |info.executors| - i
  {
    hide Evolves, Emit, Deliver, ReplyAt;
    if i == |info.executors| {
      SelfEvolves(st);
    } else {
      var found := FindExecutor(st.executors, info.executors[i]);
      if found.None? {
        EndEvolves(st, info, id, replies, i + 1, ret);
      } else {
        var reply := ReplyAt(replies, i);
        var called := Emit(st, Ended(id, found.value));
        var next := Deliver(called, reply.during);
        NeutralEvolves(st, Ended(id, found.value));
        DeliverEvolves(called, reply.during);
        EvolvesTransitive(st, called, next);
        var ret' := if reply.code != SUCCESS then reply.code else ret;
        EndEvolves(next, info, id, replies, i + 1, ret');
        EvolvesTransitive(st, next, EndFrom(next, info, id, replies, i + 1, ret').0);
      }
    }
  }

  lemma CancelEvolves(st: State, id: uint64, replies: seq<Reply>)
    ensures Evolves(st, Cancel(st, id, replies).0)
  {
    hide Evolves, EndFrom;
    SelfEvolves(st);
    if st.ready && id in st.table {
      EndEvolves(st, st.table[id].info, id, replies, 0, SUCCESS);
    }
  }

  // ------------------------------------------------- invariants of all runs

  ghost predicate Inv(st: State) {
    TimersPending(st) && Counts(st) && (st.table != map[] ==> st.ready)
  }

  lemma EvolvesKeepsInv(st: State, after: State)
    requires Inv(st) && Evolves(st, after)
    ensures Inv(after)
  {
    hide Counted, Balance;
    if id :| id in after.table {
      assert id in st.table;
    }
  }

  /** Storing a schedule and arming its timer. */
  function Armed(st: State, info: ScheduleInfo, callback: nat): State {
    var stored := Insert(Emit(st, Submitted(info.scheduleId, callback)), info, callback);
    stored.(timers := stored.timers + multiset{info.scheduleId})
  }

  lemma ArmedKeepsInv(st: State, info: ScheduleInfo, callback: nat)
    requires Inv(st) && st.ready && |info.executors| > 0
    ensures Inv(Armed(st, info, callback))
  {
    hide Submissions, Finishes, AbsorbedSince;
    var id := info.scheduleId;
    var submitted := Emit(st, Submitted(id, callback));
    var armed := Armed(st, info, callback);
    forall x <- armed.table ensures x in armed.timers && Counted(armed, x) {
      EmitCounts(st, Submitted(id, callback), x);
      EmitCounts(submitted, Event.Stored(id, callback), x);
      if x in st.table {
        assert Counted(st, x);
      }
    }
  }

  lemma ArmedBalance(st: State, info: ScheduleInfo, callback: nat, x: uint64)
    ensures Balance(Armed(st, info, callback), x) ==
            Balance(st, x) + if x == info.scheduleId && x in st.table then 1 else 0
  {
    hide Submissions, Finishes, AbsorbedSince;
    var submitted := Emit(st, Submitted(info.scheduleId, callback));
    EmitCounts(st, Submitted(info.scheduleId, callback), x);
    EmitCounts(submitted, Event.Stored(info.scheduleId, callback), x);
  }

  /** Delivering to id and deleting it, whether or not it is still stored. */
  lemma DropKeepsInv(st: State, id: uint64, after: State)
    requires st.table != map[] ==> st.ready
    requires forall x <- st.table :: x != id ==> x in st.timers && Counted(st, x)
    requires after.table == st.table - {id} && after.ready == st.ready
    requires forall x <- after.table :: x in after.timers && AbsorbedSince(after.trace, x) == AbsorbedSince(st.trace, x)
    ensures Inv(after)
  {
    hide AbsorbedSince;
    if x :| x in after.table {
      assert x in st.table;
    }
  }

  lemma BeginScheduleKeeps(st: State, info: ScheduleInfo, callback: Option<nat>, replies: seq<Reply>)
    requires Inv(st)
    ensures Inv(BeginSchedule(st, info, callback, replies))
  {
    hide Submissions, Finishes, AbsorbedSince, BeginFrom, Insert, Evolves;
    if callback.Some? {
      var id, cb := info.scheduleId, callback.value;
      if |info.executors| == 0 || !st.ready {
        var submitted := Emit(st, Submitted(id, cb));
        var after := Emit(submitted, Finished(id, cb, FAIL, []));
        forall x <- st.table ensures Counted(after, x) {
          EmitCounts(st, Submitted(id, cb), x);
          EmitCounts(submitted, Finished(id, cb, FAIL, []), x);
          assert Counted(st, x);
        }
      } else {
        var armed := Armed(st, info, cb);
        ArmedKeepsInv(st, info, cb);
        var (mid, ret) := BeginFrom(armed, info, replies, 0, SUCCESS);
        BeginEvolves(armed, info, replies, 0, SUCCESS);
        EvolvesKeepsInv(armed, mid);
        if ret != SUCCESS {
          forall x ensures AbsorbedSince(Emit(mid, Finished(id, cb, ret, [])).trace, x) == AbsorbedSince(mid.trace, x) {
            EmitCounts(mid, Finished(id, cb, ret, []), x);
          }
          DropKeepsInv(mid, id, RemoveTimers(Delete(Emit(mid, Finished(id, cb, ret, [])), id), id));
        }
      }
    }
  }

  lemma FireKeeps(st: State, id: uint64, replies: seq<Reply>)
    requires Inv(st)
    ensures Inv(Fire(st, id, replies))
    ensures Fire(st, id, replies).table.Keys <= st.table.Keys - {id}
  {
    hide Submissions, Finishes, AbsorbedSince, Cancel;
    if id in st.timers && id in st.table {
      var taken := st.(timers := st.timers - multiset{id});
      var e := Finished(id, st.table[id].callback, Common.TIMEOUT, []);
      var told := Emit(taken, e);
      forall x <- st.table ensures Counted(told, x) {
        EmitCounts(taken, e, x);
        assert Counted(st, x);
      }
      var ended := Cancel(told, id, replies).0;
      CancelEvolves(told, id, replies);
      DropKeepsInv(ended, id, Delete(ended, id));
    }
  }

  lemma StepKeeps(st: State, op: Op)
    requires Inv(st)
    ensures Inv(Step(st, op))
  {
    hide Inv, BeginSchedule, Fire, Cancel, Receive, Evolves;
    match op
    case ScheduleOp(info, callback, replies) => BeginScheduleKeeps(st, info, callback, replies);
    case ReceiveOp(m) =>
      ReceiveEvolves(st, m);
      EvolvesKeepsInv(st, Receive(st, m));
    case CancelOp(id, replies) =>
      CancelEvolves(st, id, replies);
      EvolvesKeepsInv(st, Cancel(st, id, replies).0);
    case FireOp(id, replies) => FireKeeps(st, id, replies);
    case RegisterOp(executorId, reg) => SameSchedules(st, Register(st, executorId, reg));
    case UnregisterOp(executorId) => SameSchedules(st, Unregister(st, executorId));
  }

  lemma SameSchedules(st: State, after: State)
    requires Inv(st) && after == st.(executors := after.executors)
    ensures Inv(after)
  {
    forall id <- after.table ensures Counted(after, id) {
      assert Counted(st, id);
    }
  }

  lemma {:induction false} InvOfRuns(st: State, ops: seq<Op>)
    requires Inv(st)
    ensures Inv(Run(st, ops))
    decreases |ops|
  {
    hide Inv, Step;
    if ops != [] {
      StepKeeps(st, ops[0]);
      InvOfRuns(Step(st, ops[0]), ops[1..]);
    }
  }

  /**
   * Whatever executors do, also while they are being called: between handlers every stored
   * schedule has a pending timer, awaits at least one Finish, and has absorbed the others.
   */
  lemma NoScheduleIsLost(ready: bool, ops: seq<Op>, id: uint64)
    requires id in Run(Initial(ready), ops).table
    ensures var st := Run(Initial(ready), ops);
            && id in st.timers && st.table[id].executorNum >= 1
            && AbsorbedSince(st.trace, id) + st.table[id].executorNum == |st.table[id].info.executors|
  {
    hide Run;
    InvOfRuns(Initial(ready), ops);
    assert Counted(Run(Initial(ready), ops), id);
  }

  ghost function FireAll(st: State, order: seq<uint64>, replies: seq<Reply>): State
    decreases |order|
  {
    if order == [] then st else FireAll(Fire(st, order[0], replies), order[1..], replies)
  }

  /** Firing the timers of all stored schedules, in any order, empties the table. */
  lemma {:induction false} FiringEmptiesTable(st: State, order: seq<uint64>, replies: seq<Reply>)
    requires Inv(st) && forall id <- st.table :: id in order
    ensures FireAll(st, order, replies).table == map[]
    decreases |order|
  {
    hide Inv, Fire;
    if order == [] {
      assert forall id :: id !in st.table;
    } else {
      FireKeeps(st, order[0], replies);
      var next := Fire(st, order[0], replies);
      forall id <- next.table ensures id in order[1..] {
        assert id in order && id != order[0];
      }
      FiringEmptiesTable(next, order[1..], replies);
    }
  }

  // ------------------------------------------------- counting Finish calls

  function FinishCalls(ms: seq<Message>, id: uint64): nat
    decreases |ms|
  {
    if ms == [] then 0
    else (if ms[0].FinishMsg? && ms[0].id == id then 1 else 0) + FinishCalls(ms[1..], id)
  }

  /** Fewer Finish calls than executors are all absorbed; nothing is delivered for id. */
  lemma {:induction false} EarlyFinishesAreAbsorbed(st: State, ms: seq<Message>, id: uint64)
    requires id in st.table && FinishCalls(ms, id) < st.table[id].executorNum
    ensures id in Deliver(st, ms).table
    ensures Deliver(st, ms).table[id] ==
            st.table[id].(executorNum := st.table[id].executorNum - FinishCalls(ms, id))
    ensures Finishes(Deliver(st, ms).trace, id) == Finishes(st.trace, id)
    decreases |ms|
  {
    hide Token, Finishes;
    if ms != [] {
      var next := Receive(st, ms[0]);
      OneReceive(st, ms[0], id);
      EarlyFinishesAreAbsorbed(next, ms[1..], id);
    }
  }

  lemma OneReceive(st: State, m: Message, id: uint64)
    requires id in st.table && (m.FinishMsg? && m.id == id ==> st.table[id].executorNum > 1)
    ensures var next := Receive(st, m);
            && id in next.table && Finishes(next.trace, id) == Finishes(st.trace, id)
            && next.table[id] == if m.FinishMsg? && m.id == id
                                 then st.table[id].(executorNum := st.table[id].executorNum - 1)
                                 else st.table[id]
  {
    hide Token, Finishes;
    var next := Receive(st, m);
    if next.trace != st.trace {
      var e := next.trace[|st.trace|];
      assert next.trace == Emit(st, e).trace;
      EmitCounts(st, e, id);
    }
  }

  /**
   * Exactly the last of the awaited Finish calls delivers: its own code, and on success the
   * bytes that its result holds as AUTH_RESULT. Without a result it is a failure.
   */
  lemma LastFinishDelivers(st: State, ms: seq<Message>, id: uint64, code: int, result: Option<Attrs>, unset: uint64)
    requires id in st.table && FinishCalls(ms, id) + 1 == st.table[id].executorNum
    ensures var before := Deliver(st, ms);
            var (after, returned) := Finish(before, id, code, result, unset);
            && Receive(before, FinishMsg(id, code, result, unset)) == after
            && id !in after.table && after.timers[id] == 0
            && Finishes(after.trace, id) == Finishes(st.trace, id) + 1
            && (result.None? ==>
                  returned == FAIL && after.trace == before.trace + [Finished(id, st.table[id].callback, FAIL, [])])
            && (result.Some? ==> returned == SUCCESS && exists token ::
                  && after.trace == before.trace + [Finished(id, st.table[id].callback, code, token)]
                  && token == if code == SUCCESS then BytesUnder(result.value, Tlv.AUTH_RESULT) else [])
  {
    hide Finishes;
    EarlyFinishesAreAbsorbed(st, ms, id);
    var before := Deliver(st, ms);
    hide Deliver;
    var token := if result.Some? && code == SUCCESS then BytesUnder(result.value, Tlv.AUTH_RESULT) else [];
    assert Finish(before, id, code, result, unset).0.trace ==
           before.trace + [Finished(id, st.table[id].callback, if result.None? then FAIL else code, token)];
    EmitCounts(before, Finished(id, st.table[id].callback, if result.None? then FAIL else code, token), id);
  }

  /** A Finish on an absent id delivers nothing and changes no entry, whatever unset holds. */
  lemma AbsentFinishIsIgnored(st: State, id: uint64, code: int, result: Option<Attrs>, unset: uint64)
    requires id !in st.table
    ensures Finish(st, id, code, result, unset).0 == st.(timers := Finish(st, id, code, result, unset).0.timers)
    ensures forall x :: x != id ==> Finish(st, id, code, result, unset).0.timers[x] == st.timers[x]
  {
  }
}
