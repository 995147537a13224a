/** Exactly when every submission is answered exactly once. */
module CoAuthConservation {
  import opened Common
  import opened OrderedKeys
  import opened CoAuthState
  import opened CoAuthLaws
  import opened CoAuthDelivery

  // ------------------------------------- Finish calls from inside a call

  /** The Finish calls for id that registered executors make while they are being called. */
  ghost function OwnFinishes(executors: map<uint64, Registration>, info: ScheduleInfo, replies: seq<Reply>, i: nat,
      id: uint64): nat
    requires i <= |info.executors|
    decreases |info.executors| - i
  {
    if i == |info.executors| then 0
    else
      (if FindExecutor(executors, info.executors[i]).Some? then FinishCalls(ReplyAt(replies, i).during, id) else 0)
      + OwnFinishes(executors, info, replies, i + 1, id)
  }

  /** How many Finish calls deliver a schedule with this counter. */
  function Awaited(executorNum: nat): nat {
    if executorNum == 0 then 1 else executorNum
  }

  lemma GoneStays(st: State, ms: seq<Message>, id: uint64)
    requires id !in st.table
    ensures id !in Deliver(st, ms).table
  {
    hide Deliver;
    DeliverEvolves(st, ms);
  }

  /** A message either counts the schedule down or delivers and removes it. */
  lemma ReceiveExact(st: State, m: Message, id: uint64)
    requires id in st.table
    ensures var next := Receive(st, m);
            if !(m.FinishMsg? && m.id == id) then id in next.table && next.table[id] == st.table[id]
            else if st.table[id].executorNum > 1 then
              id in next.table && next.table[id] == st.table[id].(executorNum := st.table[id].executorNum - 1)
            else id !in next.table
  {
    hide Token;
  }

  /** Messages remove a schedule exactly when they finish it as often as it awaits. */
  lemma {:induction false} DeliverExact(st: State, ms: seq<Message>, id: uint64)
    requires id in st.table
    ensures var n := st.table[id].executorNum;
            if FinishCalls(ms, id) >= Awaited(n) then id !in Deliver(st, ms).table
            else
              && id in Deliver(st, ms).table
              && Awaited(Deliver(st, ms).table[id].executorNum) == Awaited(n) - FinishCalls(ms, id)
    decreases |ms|
  {
    hide Receive;
    if ms != [] {
      var next := Receive(st, ms[0]);
      ReceiveExact(st, ms[0], id);
      if id in next.table {
        DeliverExact(next, ms[1..], id);
      } else {
        GoneStays(next, ms[1..], id);
      }
    }
  }

  lemma CallExact(st: State, e: Event, during: seq<Message>, id: uint64)
    requires id in st.table && (e.Began? || e.Ended?)
    ensures var after := Deliver(Emit(st, e), during);
            && after.executors == st.executors
            && if FinishCalls(during, id) >= Awaited(st.table[id].executorNum) then id !in after.table
               else
                 && id in after.table
                 && Awaited(after.table[id].executorNum) == Awaited(st.table[id].executorNum) - FinishCalls(during, id)
  {
    hide Deliver, FinishCalls, Awaited, Calls;
    OneCall(st, e, during);
    DeliverExact(Emit(st, e), during, id);
  }

  /** Starting leaves the schedule stored unless its executors finish it meanwhile. */
  lemma {:induction false} BeginStored(st: State, info: ScheduleInfo, replies: seq<Reply>, i: nat, ret: int, id: uint64)
    requires i <= |info.executors| && id in st.table
    ensures id in BeginFrom(st, info, replies, i, ret).0.table <==>
            OwnFinishes(st.executors, info, replies, i, id) < Awaited(st.table[id].executorNum)
    decreases |info.executors| - i
  {
    hide FindExecutor, Deliver, Emit, ReplyAt, FinishCalls;
    if i < |info.executors| {
      var found := FindExecutor(st.executors, info.executors[i]);
      if found.None? {
        BeginStored(st, info, replies, i + 1, ret, id);
      } else {
        var reply := ReplyAt(replies, i);
        var e := Began(info.scheduleId, found.value);
        CallExact(st, e, reply.during, id);
        var next := Deliver(Emit(st, e), reply.during);
        var ret' := if reply.code != SUCCESS then reply.code else ret;
        if id in next.table {
          BeginStored(next, info, replies, i + 1, ret', id);
        } else {
          BeginEvolves(next, info, replies, i + 1, ret');
        }
      }
    }
  }

  lemma {:induction false} EndStored(st: State, info: ScheduleInfo, replies: seq<Reply>, i: nat, ret: int, id: uint64)
    requires i <= |info.executors| && id in st.table
    ensures id in EndFrom(st, info, id, replies, i, ret).0.table <==>
            OwnFinishes(st.executors, info, replies, i, id) < Awaited(st.table[id].executorNum)
    decreases |info.executors| - i
  {
    hide FindExecutor, Deliver, Emit, ReplyAt, FinishCalls;
    if i < |info.executors| {
      var found := FindExecutor(st.executors, info.executors[i]);
      if found.None? {
        EndStored(st, info, replies, i + 1, ret, id);
      } else {
        var reply := ReplyAt(replies, i);
        var e := Ended(id, found.value);
        CallExact(st, e, reply.during, id);
        var next := Deliver(Emit(st, e), reply.during);
        var ret' := if reply.code != SUCCESS then reply.code else ret;
        if id in next.table {
          EndStored(next, info, replies, i + 1, ret', id);
        } else {
          EndEvolves(next, info, id, replies, i + 1, ret');
        }
      }
    }
  }

  // -------------------------------------------------- balanced handlers

  /**
   * A condition on what a handler is given: the tables and the executors' replies. A submitted
   * id must be stored already exactly when some executor refuses and the executors themselves
   * finish the schedule as often as it awaits; and a timeout must not find executors that do so
   * while they are told of the end.
   */
  ghost predicate Orderly(st: State, op: Op) {
    match op
    case ScheduleOp(info, callback, replies) =>
      callback.Some? && |info.executors| > 0 && st.ready ==>
        var id := info.scheduleId;
        (id in st.table <==>
          && !AllAgree(st.executors, info, replies, 0)
          && OwnFinishes(st.executors, info, replies, 0, id) >=
             Awaited(if id in st.table then st.table[id].executorNum else |info.executors|))
    case FireOp(id, replies) =>
      id in st.timers && id in st.table && st.ready ==>
        OwnFinishes(st.executors, st.table[id].info, replies, 0, id) < Awaited(st.table[id].executorNum)
    case _ => true
  }

  lemma BeginScheduleBalance(st: State, info: ScheduleInfo, callback: Option<nat>, replies: seq<Reply>, x: uint64)
    ensures Balance(BeginSchedule(st, info, callback, replies), x) ==
            Balance(st, x) +
              if callback.None? || |info.executors| == 0 || !st.ready || x != info.scheduleId then 0
              else
                (if x in st.table then 1 else 0)
                - (if !AllAgree(st.executors, info, replies, 0)
                      && OwnFinishes(st.executors, info, replies, 0, x) >=
                         Awaited(if x in st.table then st.table[x].executorNum else |info.executors|) then 1 else 0)
  {
    hide Submissions, Finishes, BeginFrom, Insert, Counted, AllAgree, OwnFinishes, Calls;
    if callback.Some? {
      var id, cb := info.scheduleId, callback.value;
      if |info.executors| == 0 || !st.ready {
        EmitCounts(st, Submitted(id, cb), x);
        EmitCounts(Emit(st, Submitted(id, cb)), Finished(id, cb, FAIL, []), x);
      } else {
        ArmedBalance(st, info, cb, x);
        var armed := Armed(st, info, cb);
        ArmedEntry(st, info, cb);
        var (mid, ret) := BeginFrom(armed, info, replies, 0, SUCCESS);
        BeginEvolves(armed, info, replies, 0, SUCCESS);
        BeginAsksEveryone(armed, info, replies, 0, SUCCESS);
        BeginStored(armed, info, replies, 0, SUCCESS, id);
        EmitCounts(mid, Finished(id, cb, ret, []), x);
      }
    }
  }

  lemma ArmedEntry(st: State, info: ScheduleInfo, callback: nat)
    ensures var id := info.scheduleId;
            var armed := Armed(st, info, callback);
            && id in armed.table && armed.executors == st.executors
            && armed.table[id].executorNum == if id in st.table then st.table[id].executorNum else |info.executors|
  {
  }

  lemma FireBalance(st: State, id: uint64, replies: seq<Reply>, x: uint64)
    ensures Balance(Fire(st, id, replies), x) ==
            Balance(st, x) - if x == id && !Orderly(st, FireOp(id, replies)) then 1 else 0
  {
    hide Submissions, Finishes, Cancel, Counted, OwnFinishes, Awaited;
    if id in st.timers && id in st.table && st.ready {
      var taken := st.(timers := st.timers - multiset{id});
      var e := Finished(id, st.table[id].callback, Common.TIMEOUT, []);
      var told := Emit(taken, e);
      var ended := Cancel(told, id, replies).0;
      EmitCounts(taken, e, x);
      CancelEvolves(told, id, replies);
      CancelStored(told, id, replies);
      assert Balance(told, x) == Balance(st, x) - if x == id then 1 else 0;
      assert Balance(Delete(ended, id), x) == Balance(ended, x) + if x == id && id in ended.table then 1 else 0;
      assert Fire(st, id, replies) == Delete(ended, id);
    }
  }

  lemma CancelStored(st: State, id: uint64, replies: seq<Reply>)
    requires st.ready && id in st.table
    ensures id in Cancel(st, id, replies).0.table <==>
            OwnFinishes(st.executors, st.table[id].info, replies, 0, id) < Awaited(st.table[id].executorNum)
  {
    hide EndFrom;
    EndStored(st, st.table[id].info, replies, 0, SUCCESS, id);
  }

  /** A step leaves every schedule's balance as it is if and only if it is orderly. */
  lemma StepBalance(st: State, op: Op)
    ensures (forall x :: Balance(Step(st, op), x) == Balance(st, x)) <==> Orderly(st, op)
  {
    hide Balance, BeginSchedule, Fire, Cancel, Receive, Counted, AllAgree, OwnFinishes, Awaited;
    match op
    case ScheduleOp(info, callback, replies) =>
      forall x { BeginScheduleBalance(st, info, callback, replies, x); }
      BeginScheduleBalance(st, info, callback, replies, info.scheduleId);
    case ReceiveOp(m) => ReceiveEvolves(st, m);
    case CancelOp(id, replies) => CancelEvolves(st, id, replies);
    case FireOp(id, replies) =>
      hide Orderly;
      forall x ensures Balance(Fire(st, id, replies), x) ==
                       Balance(st, x) - if x == id && !Orderly(st, FireOp(id, replies)) then 1 else 0 {
        FireBalance(st, id, replies, x);
      }
      assert Balance(Fire(st, id, replies), id) ==
             Balance(st, id) - if !Orderly(st, FireOp(id, replies)) then 1 else 0;
    case RegisterOp(executorId, reg) => SameBalance(st, Register(st, executorId, reg));
    case UnregisterOp(executorId) => SameBalance(st, Unregister(st, executorId));
  }

  lemma SameBalance(st: State, after: State)
    requires after.trace == st.trace && after.table == st.table
    ensures forall x :: Balance(after, x) == Balance(st, x)
  {
  }

  ghost predicate OrderlyRun(st: State, ops: seq<Op>)
    decreases |ops|
  {
    ops == [] || (Orderly(st, ops[0]) && OrderlyRun(Step(st, ops[0]), ops[1..]))
  }

  lemma {:induction false} OrderlyRunBalance(st: State, ops: seq<Op>, x: uint64)
    requires OrderlyRun(st, ops)
    ensures Balance(Run(st, ops), x) == Balance(st, x)
    decreases |ops|
  {
    hide Balance, Orderly, Step;
    if ops != [] {
      StepBalance(st, ops[0]);
      assert Balance(Step(st, ops[0]), x) == Balance(st, x);
      OrderlyRunBalance(Step(st, ops[0]), ops[1..], x);
    }
  }

  /** In an orderly run each submission is finished exactly once or is still stored. */
  lemma SubmissionsAreConserved(ready: bool, ops: seq<Op>, x: uint64)
    requires OrderlyRun(Initial(ready), ops)
    ensures var st := Run(Initial(ready), ops);
            Submissions(st.trace, x) == Finishes(st.trace, x) + if x in st.table then 1 else 0
  {
    OrderlyRunBalance(Initial(ready), ops, x);
  }

  // ------------------------------------------- executors that stay silent

  ghost predicate FinishesNot(ms: seq<Message>, id: uint64) {
    forall m <- ms :: m.FinishMsg? ==> m.id != id
  }

  ghost predicate Silent(replies: seq<Reply>, id: uint64) {
    forall r <- replies :: FinishesNot(r.during, id)
  }

  /** No executor finishes the handler's own schedule from inside its call. */
  ghost predicate Calm(op: Op) {
    match op
    case ScheduleOp(info, _, replies) => Silent(replies, info.scheduleId)
    case FireOp(id, replies) => Silent(replies, id)
    case _ => true
  }

  lemma {:induction false} NoFinishCalls(ms: seq<Message>, id: uint64)
    requires FinishesNot(ms, id)
    ensures FinishCalls(ms, id) == 0
    decreases |ms|
  {
    if ms != [] {
      NoFinishCalls(ms[1..], id);
    }
  }

  lemma {:induction false} NoOwnFinishes(executors: map<uint64, Registration>, info: ScheduleInfo, replies: seq<Reply>,
      i: nat, id: uint64)
    requires i <= |info.executors| && Silent(replies, id)
    ensures OwnFinishes(executors, info, replies, i, id) == 0
    decreases |info.executors| - i
  {
    hide FindExecutor;
    if i < |info.executors| {
      NoFinishCalls(ReplyAt(replies, i).during, id);
      NoOwnFinishes(executors, info, replies, i + 1, id);
    }
  }

  /** A calm handler is orderly unless it submits an id that is still stored. */
  lemma CalmIsOrderly(st: State, op: Op)
    requires Calm(op) && (op.ScheduleOp? ==> op.info.scheduleId !in st.table)
    ensures Orderly(st, op)
  {
    hide FindExecutor, Silent, AllAgree;
    match op
    case ScheduleOp(info, callback, replies) => NoOwnFinishes(st.executors, info, replies, 0, info.scheduleId);
    case FireOp(id, replies) =>
      if id in st.table {
        NoOwnFinishes(st.executors, st.table[id].info, replies, 0, id);
      }
    case _ =>
  }

  ghost predicate CalmRun(st: State, ops: seq<Op>)
    decreases |ops|
  {
    ops == [] || (&& Calm(ops[0]) && (ops[0].ScheduleOp? ==> ops[0].info.scheduleId !in st.table)
                  && CalmRun(Step(st, ops[0]), ops[1..]))
  }

  /**
   * With executors that do not finish the schedule they are being called for, and ids that
   * are not submitted while stored, each submission is delivered exactly once.
   */
  lemma {:induction false} CalmRunsConserve(st: State, ops: seq<Op>, x: uint64)
    requires CalmRun(st, ops)
    ensures Balance(Run(st, ops), x) == Balance(st, x)
    decreases |ops|
  {
    hide Balance, Orderly, Step, Calm;
    if ops != [] {
      CalmIsOrderly(st, ops[0]);
      StepBalance(st, ops[0]);
      assert Balance(Step(st, ops[0]), x) == Balance(st, x);
      CalmRunsConserve(Step(st, ops[0]), ops[1..], x);
    }
  }

  // -------------------------------------------------------- settlement

  lemma {:induction false} FireAllBalance(st: State, order: seq<uint64>, replies: seq<Reply>, x: uint64)
    requires forall id <- order :: Silent(replies, id)
    ensures Balance(FireAll(st, order, replies), x) == Balance(st, x)
    decreases |order|
  {
    hide Balance, Orderly, Fire, Silent;
    if order != [] {
      assert Calm(FireOp(order[0], replies));
      CalmIsOrderly(st, FireOp(order[0], replies));
      FireBalance(st, order[0], replies, x);
      FireAllBalance(Fire(st, order[0], replies), order[1..], replies, x);
    }
  }

  /**
   * After an orderly run, once the timers of the schedules that are left have fired, every
   * submission of every schedule has been answered exactly once.
   */
  lemma TimersSettleEverything(ready: bool, ops: seq<Op>, order: seq<uint64>, replies: seq<Reply>, x: uint64)
    requires OrderlyRun(Initial(ready), ops)
    requires forall id <- Run(Initial(ready), ops).table :: id in order
    requires forall id <- order :: Silent(replies, id)
    ensures var settled := FireAll(Run(Initial(ready), ops), order, replies);
            settled.table == map[] && Submissions(settled.trace, x) == Finishes(settled.trace, x)
  {
    hide Run, OrderlyRun, FireAll, Silent, Submissions, Finishes;
    SubmissionsAreConserved(ready, ops, x);
    InitialInv(ready);
    InvOfRuns(Initial(ready), ops);
    var st := Run(Initial(ready), ops);
    FiringEmptiesTable(st, order, replies);
    FireAllBalance(st, order, replies, x);
  }

  lemma InitialInv(ready: bool)
    ensures Inv(Initial(ready))
  {
  }

  // ---------------------------------------------------------- examples

  const ONE_EXECUTOR: State := State(true, map[1 := Registration(Some(1), Some(7))], map[], multiset{}, [])
  const FINISH_AND_FAIL: seq<Reply> := [Reply([FinishMsg(5, SUCCESS, None, 0)], FAIL)]

  /**
   * A concrete unbalanced start: the only executor finishes schedule 5 from inside its call
   * and then reports failure, so the callback hears twice of one submission.
   */
  lemma ReentrantFinishDeliversTwice()
    ensures !Orderly(ONE_EXECUTOR, ScheduleOp(ScheduleInfo(5, [1]), Some(9), FINISH_AND_FAIL))
    ensures Balance(BeginSchedule(ONE_EXECUTOR, ScheduleInfo(5, [1]), Some(9), FINISH_AND_FAIL), 5) == -1
  {
    hide BeginSchedule, FindExecutor, Submissions, Finishes;
    OnlyExecutor();
    var executors, info := ONE_EXECUTOR.executors, ScheduleInfo(5, [1]);
    assert FindExecutor(executors, info.executors[0]).Some? && ReplyAt(FINISH_AND_FAIL, 0).code != SUCCESS;
    OneFinish(FINISH_AND_FAIL[0].during[0]);
    assert OwnFinishes(executors, info, FINISH_AND_FAIL, 1, 5) == 0;
    assert OwnFinishes(executors, info, FINISH_AND_FAIL, 0, 5) == 1;
    BeginScheduleBalance(ONE_EXECUTOR, info, Some(9), FINISH_AND_FAIL, 5);
    assert Balance(ONE_EXECUTOR, 5) == 0 by {
      NothingYet(5);
    }
  }

  lemma OnlyExecutor()
    ensures FindExecutor(ONE_EXECUTOR.executors, 1) == Some(7)
  {
    var matching := set k <- ONE_EXECUTOR.executors | ONE_EXECUTOR.executors[k].authType == Some(1);
    assert matching == {1} && Least(matching) in matching;
  }

  lemma OneFinish(m: Message)
    requires m.FinishMsg?
    ensures FinishCalls([m], m.id) == 1
  {
    assert [m][1..] == [];
  }

  lemma NothingYet(id: uint64)
    ensures Submissions([], id) == 0 && Finishes([], id) == 0
  {
  }

  /** Submitting a stored id again drops the new callback: with agreeing executors, one answer stays owed. */
  lemma ResubmissionIsLost(st: State, info: ScheduleInfo, callback: nat, replies: seq<Reply>)
    requires st.ready && |info.executors| > 0 && info.scheduleId in st.table
    requires AllAgree(st.executors, info, replies, 0)
    ensures Balance(BeginSchedule(st, info, Some(callback), replies), info.scheduleId) ==
            Balance(st, info.scheduleId) + 1
  {
    hide Balance, BeginSchedule, AllAgree, OwnFinishes;
    BeginScheduleBalance(st, info, Some(callback), replies, info.scheduleId);
  }
}
