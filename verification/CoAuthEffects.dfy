/** What each handler does to the tables, the timers and the executors, and what it answers. */
module CoAuthEffects {
  import opened Common
  import opened OrderedKeys
  import opened AttributeState
  import opened CoAuthState
  import opened CoAuthDelivery
  import CoAuthLaws
  import AttributeLayout
  import LittleEndian

  // ------------------------------------------------- the executor of a type

  /** callback is that of the first registration, in key order, of the type. */
  ghost predicate FirstOfType(executors: map<uint64, Registration>, authType: uint32, callback: nat) {
    exists k <- executors ::
      && executors[k] == Registration(Some(authType), Some(callback))
      && forall j <- executors :: j < k ==> executors[j].authType != Some(authType)
  }

  lemma FoundIsFirst(executors: map<uint64, Registration>, authType: uint32, callback: nat)
    ensures FindExecutor(executors, authType) == Some(callback) <==> FirstOfType(executors, authType, callback)
  {
    var matching := set k <- executors | executors[k].authType == Some(authType);
    if FindExecutor(executors, authType) == Some(callback) {
      var k := Least(matching);
      assert k in executors && executors[k] == Registration(Some(authType), Some(callback));
      forall j <- executors | j < k ensures executors[j].authType != Some(authType) {
        assert j !in matching;
      }
    }
    if FirstOfType(executors, authType, callback) {
      var k :| k in executors && executors[k] == Registration(Some(authType), Some(callback))
               && forall j <- executors :: j < k ==> executors[j].authType != Some(authType);
      assert k in matching;
      var least := Least(matching);
      assert least in matching;
    }
  }

  ghost predicate Increasing(a: seq<nat>) {
    forall j, k | 0 <= j < k < |a| :: a[j] < a[k]
  }

  /** es are the executors of the types at the places at, in order; no other type has one. */
  ghost predicate Chosen(executors: map<uint64, Registration>, types: seq<uint32>, at: seq<nat>, es: seq<nat>) {
    && |at| == |es|
    && (forall k | 0 <= k < |at| :: at[k] < |types| && FirstOfType(executors, types[at[k]], es[k]))
    && Increasing(at)
    && (forall i: nat | i < |types| && i !in at :: forall e :: !FirstOfType(executors, types[i], e))
  }

  /** The last of an increasing sequence is its greatest; the others are below it. */
  lemma LastIsGreatest(a: seq<nat>)
    requires Increasing(a) && a != []
    ensures Increasing(a[..|a| - 1])
    ensures forall x: nat :: x in a[..|a| - 1] <==> x in a && x != a[|a| - 1]
    ensures forall x <- a :: x <= a[|a| - 1]
  {
    assert a == a[..|a| - 1] + [a[|a| - 1]];
  }

  lemma {:induction false} SameAscending(a: seq<nat>, b: seq<nat>)
    requires Increasing(a) && Increasing(b) && forall x: nat :: x in a <==> x in b
    ensures a == b
  {
    hide Increasing;
    assert (a != [] ==> a[|a| - 1] in a) && (b != [] ==> b[|b| - 1] in b);
    if a != [] && b != [] {
      LastIsGreatest(a);
      LastIsGreatest(b);
      assert a[|a| - 1] == b[|b| - 1];
      var a', b' := a[..|a| - 1], b[..|b| - 1];
      forall x: nat ensures x in a' <==> x in b' {
        assert x in a <==> x in b;
      }
      SameAscending(a', b');
      assert a == a[..|a| - 1] + [a[|a| - 1]] && b == b[..|b| - 1] + [b[|b| - 1]];
    }
  }

  /** Registrations and types leave no choice. */
  lemma ChosenIsUnique(executors: map<uint64, Registration>, types: seq<uint32>, at: seq<nat>, es: seq<nat>,
                       at': seq<nat>, es': seq<nat>)
    requires Chosen(executors, types, at, es) && Chosen(executors, types, at', es')
    ensures at == at' && es == es'
  {
    hide FirstOfType, FindExecutor;
    forall ty, e: nat ensures FindExecutor(executors, ty) == Some(e) <==> FirstOfType(executors, ty, e) {
      FoundIsFirst(executors, ty, e);
    }
    forall x: nat ensures x in at <==> x in at' {
      if x in at {
        var k :| 0 <= k < |at| && at[k] == x;
        assert FirstOfType(executors, types[x], es[k]);
      }
      if x in at' {
        var k :| 0 <= k < |at'| && at'[k] == x;
        assert FirstOfType(executors, types[x], es'[k]);
      }
    }
    SameAscending(at, at');
  }

  /** The places from index i on whose type has an executor. */
  ghost function Places(executors: map<uint64, Registration>, info: ScheduleInfo, i: nat): seq<nat>
    requires i <= |info.executors|
    decreases |info.executors| - i
  {
    if i == |info.executors| then []
    else (if FindExecutor(executors, info.executors[i]).Some? then [i] else []) + Places(executors, info, i + 1)
  }

  /** es are the executors found at the places at, all from i on; nothing is found elsewhere. */
  ghost predicate Found(executors: map<uint64, Registration>, info: ScheduleInfo, i: nat, at: seq<nat>, es: seq<nat>) {
    && |at| == |es| && Increasing(at)
    && (forall k | 0 <= k < |at| ::
          i <= at[k] < |info.executors| && FindExecutor(executors, info.executors[at[k]]) == Some(es[k]))
    && (forall x: nat | i <= x < |info.executors| && x !in at :: FindExecutor(executors, info.executors[x]) == None)
  }

  lemma FoundOneMore(executors: map<uint64, Registration>, info: ScheduleInfo, i: nat, at: seq<nat>, es: seq<nat>)
    requires i < |info.executors| && Found(executors, info, i + 1, at, es)
    ensures match FindExecutor(executors, info.executors[i])
            case Some(e) => Found(executors, info, i, [i] + at, [e] + es)
            case None => Found(executors, info, i, at, es)
  {
    hide FindExecutor, Increasing;
    var found := FindExecutor(executors, info.executors[i]);
    if found.Some? {
      var all, es' := [i] + at, [found.value] + es;
      ConsIncreasing(i, at);
      forall k | 0 <= k < |all|
        ensures i <= all[k] < |info.executors| && FindExecutor(executors, info.executors[all[k]]) == Some(es'[k])
      {
        if k > 0 {
          assert all[k] == at[k - 1] && es'[k] == es[k - 1];
        }
      }
      forall x: nat | i <= x < |info.executors| && x !in all
        ensures FindExecutor(executors, info.executors[x]) == None
      {
        assert x !in at && x != i;
      }
    }
  }

  lemma ConsIncreasing(i: nat, at: seq<nat>)
    requires Increasing(at) && forall k | 0 <= k < |at| :: i < at[k]
    ensures Increasing([i] + at)
  {
  }

  lemma OnePlace(executors: map<uint64, Registration>, info: ScheduleInfo, i: nat)
    requires i < |info.executors|
    ensures match FindExecutor(executors, info.executors[i])
            case Some(e) =>
              && Places(executors, info, i) == [i] + Places(executors, info, i + 1)
              && Roster(executors, info, i) == [e] + Roster(executors, info, i + 1)
            case None =>
              && Places(executors, info, i) == Places(executors, info, i + 1)
              && Roster(executors, info, i) == Roster(executors, info, i + 1)
  {
    hide FindExecutor;
    assert [] + Places(executors, info, i + 1) == Places(executors, info, i + 1);
    assert [] + Roster(executors, info, i + 1) == Roster(executors, info, i + 1);
  }

  lemma NoPlaces(executors: map<uint64, Registration>, info: ScheduleInfo)
    ensures var n := |info.executors|; Found(executors, info, n, Places(executors, info, n), Roster(executors, info, n))
  {
    hide FindExecutor;
  }

  lemma {:induction false} PlacesMatchRoster(executors: map<uint64, Registration>, info: ScheduleInfo, i: nat)
    requires i <= |info.executors|
    ensures Found(executors, info, i, Places(executors, info, i), Roster(executors, info, i))
    decreases |info.executors| - i
  {
    hide FindExecutor, Found, Places, Roster;
    if i == |info.executors| {
      NoPlaces(executors, info);
    } else {
      PlacesMatchRoster(executors, info, i + 1);
      FoundOneMore(executors, info, i, Places(executors, info, i + 1), Roster(executors, info, i + 1));
      OnePlace(executors, info, i);
    }
  }

  lemma RosterIsChosen(executors: map<uint64, Registration>, info: ScheduleInfo)
    ensures Chosen(executors, info.executors, Places(executors, info, 0), Roster(executors, info, 0))
  {
    hide FindExecutor, FirstOfType, Places, Roster;
    PlacesMatchRoster(executors, info, 0);
    forall ty, e: nat ensures FindExecutor(executors, ty) == Some(e) <==> FirstOfType(executors, ty, e) {
      FoundIsFirst(executors, ty, e);
    }
  }

  // ------------------------------------------------------ what they answer

  ghost predicate Agreed(replies: seq<Reply>, at: seq<nat>) {
    forall k | 0 <= k < |at| :: ReplyAt(replies, at[k]).code == SUCCESS
  }

  /** Success if all executors at the places at agree, otherwise the last refusal. */
  ghost predicate LastRefusal(replies: seq<Reply>, at: seq<nat>, code: int) {
    if Agreed(replies, at) then code == SUCCESS
    else
      code != SUCCESS && exists k | 0 <= k < |at| ::
        ReplyAt(replies, at[k]).code == code && Agreed(replies, at[k + 1..])
  }

  lemma OneMoreReply(replies: seq<Reply>, i: nat, at: seq<nat>, ret: int, code: int)
    requires var own := ReplyAt(replies, i).code;
             if Agreed(replies, at) then code == (if own != SUCCESS then own else ret)
             else LastRefusal(replies, at, code)
    ensures if Agreed(replies, [i] + at) then code == ret else LastRefusal(replies, [i] + at, code)
  {
    hide ReplyAt;
    var all := [i] + at;
    assert all[0 + 1..] == at;
    forall k | 0 <= k < |at| ensures all[k + 1] == at[k] && all[k + 1 + 1..] == at[k + 1..] { }
    if Agreed(replies, at) {
      assert Agreed(replies, all) <==> ReplyAt(replies, all[0]).code == SUCCESS;
    } else {
      var k :| 0 <= k < |at| && ReplyAt(replies, at[k]).code == code && Agreed(replies, at[k + 1..]);
      assert ReplyAt(replies, all[k + 1]).code == code && Agreed(replies, all[k + 1 + 1..]);
    }
  }

  lemma {:induction false} BeginCode(st: State, info: ScheduleInfo, replies: seq<Reply>, i: nat, ret: int)
    requires i <= |info.executors|
    ensures var at, code := Places(st.executors, info, i), BeginFrom(st, info, replies, i, ret).1;
            if Agreed(replies, at) then code == ret else LastRefusal(replies, at, code)
    decreases |info.executors| - i
  {
    hide FindExecutor, Agreed, LastRefusal, Emit, Deliver, ReplyAt;
    if i == |info.executors| {
      NobodyRefuses(replies);
    } else {
      var found := FindExecutor(st.executors, info.executors[i]);
      if found.None? {
        BeginCode(st, info, replies, i + 1, ret);
        assert [] + Places(st.executors, info, i + 1) == Places(st.executors, info, i + 1);
      } else {
        var reply := ReplyAt(replies, i);
        var e := Began(info.scheduleId, found.value);
        var ret' := if reply.code != SUCCESS then reply.code else ret;
        OneCall(st, e, reply.during);
        BeginCode(Deliver(Emit(st, e), reply.during), info, replies, i + 1, ret');
        OneMoreReply(replies, i, Places(st.executors, info, i + 1), ret, BeginFrom(st, info, replies, i, ret).1);
      }
    }
  }

  lemma NobodyRefuses(replies: seq<Reply>)
    ensures Agreed(replies, [])
  {
  }

  lemma {:induction false} EndCode(st: State, info: ScheduleInfo, id: uint64, replies: seq<Reply>, i: nat, ret: int)
    requires i <= |info.executors|
    ensures var at, code := Places(st.executors, info, i), EndFrom(st, info, id, replies, i, ret).1;
            if Agreed(replies, at) then code == ret else LastRefusal(replies, at, code)
    decreases |info.executors| - i
  {
    hide FindExecutor, Agreed, LastRefusal, Emit, Deliver, ReplyAt;
    if i == |info.executors| {
      NobodyRefuses(replies);
    } else {
      var found := FindExecutor(st.executors, info.executors[i]);
      if found.None? {
        EndCode(st, info, id, replies, i + 1, ret);
        assert [] + Places(st.executors, info, i + 1) == Places(st.executors, info, i + 1);
      } else {
        var reply := ReplyAt(replies, i);
        var e := Ended(id, found.value);
        var ret' := if reply.code != SUCCESS then reply.code else ret;
        OneCall(st, e, reply.during);
        EndCode(Deliver(Emit(st, e), reply.during), info, id, replies, i + 1, ret');
        OneMoreReply(replies, i, Places(st.executors, info, i + 1), ret, EndFrom(st, info, id, replies, i, ret).1);
      }
    }
  }

  /** An executor is called before anything arrives from it. */
  lemma {:induction false} CallComesFirst(st: State, info: ScheduleInfo, id: uint64, replies: seq<Reply>, i: nat,
      ret: int)
    requires i <= |info.executors| && Roster(st.executors, info, i) != []
    ensures var after := BeginFrom(st, info, replies, i, ret).0;
            st.trace + [Began(info.scheduleId, Roster(st.executors, info, i)[0])] <= after.trace
    ensures var after := EndFrom(st, info, id, replies, i, ret).0;
            st.trace + [Ended(id, Roster(st.executors, info, i)[0])] <= after.trace
    decreases |info.executors| - i
  {
    hide FindExecutor, Deliver, ReplyAt;
    var found := FindExecutor(st.executors, info.executors[i]);
    if found.None? {
      CallComesFirst(st, info, id, replies, i + 1, ret);
    } else {
      var reply := ReplyAt(replies, i);
      var ret' := if reply.code != SUCCESS then reply.code else ret;
      var began, ended := Emit(st, Began(info.scheduleId, found.value)), Emit(st, Ended(id, found.value));
      DeliverRemembers(began, reply.during);
      DeliverRemembers(ended, reply.during);
      BeginRemembers(Deliver(began, reply.during), info, replies, i + 1, ret');
      EndRemembers(Deliver(ended, reply.during), info, id, replies, i + 1, ret');
    }
  }

  // --------------------------------------------------------- the handlers

  /**
   * Starting a schedule asks, in order and once each, exactly the executors that are first
   * registered for its types, and nobody else; the last of them to refuse decides the failure
   * that its callback hears.
   */
  lemma StartEffect(st: State, info: ScheduleInfo, callback: nat, replies: seq<Reply>)
    returns (at: seq<nat>, es: seq<nat>, code: int)
    requires st.ready && info.executors != []
    ensures Chosen(st.executors, info.executors, at, es) && LastRefusal(replies, at, code)
    ensures var after := BeginSchedule(st, info, Some(callback), replies);
            && Calls(after.trace) == Calls(st.trace) + Begins(info.scheduleId, es)
            && st.trace + [Submitted(info.scheduleId, callback)] <= after.trace
            && (code != SUCCESS ==>
                  && info.scheduleId !in after.table && after.timers[info.scheduleId] == 0
                  && after.trace[|after.trace| - 1] == Finished(info.scheduleId, callback, code, []))
  {
    hide Chosen, LastRefusal, Calls, BeginFrom, AllAgree, Roster, Places, Begins, Agreed;
    RosterIsChosen(st.executors, info);
    RefusedStartFails(st, info, callback, replies);
    at, es := Places(st.executors, info, 0), Roster(st.executors, info, 0);
    var told := Emit(st, Submitted(info.scheduleId, callback));
    var armed := Insert(told, info, callback).(timers := st.timers + multiset{info.scheduleId});
    code := BeginFrom(armed, info, replies, 0, SUCCESS).1;
    BeginCode(armed, info, replies, 0, SUCCESS);
    BeginRemembers(armed, info, replies, 0, SUCCESS);
    AgreedIsSuccess(replies, at);
  }

  lemma AgreedIsSuccess(replies: seq<Reply>, at: seq<nat>)
    ensures Agreed(replies, at) ==> LastRefusal(replies, at, SUCCESS)
  {
  }

  /** No timer without an entry, for one id. */
  ghost predicate NoStrayTimer(st: State, id: uint64) {
    id !in st.table ==> st.timers[id] == 0
  }

  lemma {:induction false} DeliverTimers(st: State, ms: seq<Message>, id: uint64)
    requires NoStrayTimer(st, id)
    ensures NoStrayTimer(Deliver(st, ms), id)
    decreases |ms|
  {
    hide Token;
    if ms != [] {
      DeliverTimers(Receive(st, ms[0]), ms[1..], id);
    }
  }

  lemma {:induction false} BeginTimers(st: State, info: ScheduleInfo, replies: seq<Reply>, i: nat, ret: int, id: uint64)
    requires i <= |info.executors| && NoStrayTimer(st, id)
    ensures NoStrayTimer(BeginFrom(st, info, replies, i, ret).0, id)
    decreases |info.executors| - i
  {
    hide FindExecutor, Deliver, ReplyAt;
    if i < |info.executors| {
      var found := FindExecutor(st.executors, info.executors[i]);
      if found.None? {
        BeginTimers(st, info, replies, i + 1, ret, id);
      } else {
        var reply := ReplyAt(replies, i);
        var called := Emit(st, Began(info.scheduleId, found.value));
        DeliverTimers(called, reply.during, id);
        BeginTimers(Deliver(called, reply.during), info, replies, i + 1,
                    if reply.code != SUCCESS then reply.code else ret, id);
      }
    }
  }

  /**
   * However executors answer, and whatever they finish while being asked, starting leaves a
   * stored schedule with one timer more than it had, and one that is not stored with none.
   */
  lemma StartTimer(st: State, info: ScheduleInfo, callback: nat, replies: seq<Reply>)
    requires st.ready && info.executors != []
    ensures var after, id := BeginSchedule(st, info, Some(callback), replies), info.scheduleId;
            after.timers[id] == if id in after.table then st.timers[id] + 1 else 0
  {
    hide BeginFrom;
    var id := info.scheduleId;
    var armed := Insert(Emit(st, Submitted(id, callback)), info, callback).(timers := st.timers + multiset{id});
    BeginTimers(armed, info, replies, 0, SUCCESS, id);
    CoAuthLaws.BeginEvolves(armed, info, replies, 0, SUCCESS);
  }

  /**
   * Cancelling a stored schedule tells exactly the executors first registered for its types,
   * and answers with the last refusal; any other cancellation fails and does nothing.
   */
  lemma CancelEffect(st: State, id: uint64, replies: seq<Reply>) returns (at: seq<nat>, es: seq<nat>)
    ensures var (after, code) := Cancel(st, id, replies);
            if st.ready && id in st.table && st.table[id].info.executors != [] then
              && Chosen(st.executors, st.table[id].info.executors, at, es) && LastRefusal(replies, at, code)
              && Calls(after.trace) == Calls(st.trace) + Ends(id, es) && st.trace <= after.trace
            else after == st && code == FAIL
  {
    hide Chosen, LastRefusal, Calls, EndFrom, AllAgree, Roster, Places, Ends, Agreed;
    at, es := [], [];
    if st.ready && id in st.table && st.table[id].info.executors != [] {
      var info := st.table[id].info;
      at, es := Places(st.executors, info, 0), Roster(st.executors, info, 0);
      RosterIsChosen(st.executors, info);
      EndTellsEveryone(st, info, id, replies, 0, SUCCESS);
      EndRemembers(st, info, id, replies, 0, SUCCESS);
      EndCode(st, info, id, replies, 0, SUCCESS);
      AgreedIsSuccess(replies, at);
    }
  }

  /**
   * A timer that fires is used up. If its schedule is stored, the callback first hears of the
   * timeout, then the schedule's executors are told of the end, and the entry is gone.
   */
  lemma FireEffect(st: State, id: uint64, replies: seq<Reply>) returns (at: seq<nat>, es: seq<nat>)
    ensures var after := Fire(st, id, replies);
            if id !in st.timers then after == st
            else if !st.ready || id !in st.table then after == st.(timers := st.timers - multiset{id})
            else
              && Chosen(st.executors, st.table[id].info.executors, at, es)
              && st.trace + [Finished(id, st.table[id].callback, Common.TIMEOUT, [])] <= after.trace
              && Calls(after.trace) == Calls(st.trace) + Ends(id, es) && id !in after.table
  {
    hide Chosen, LastRefusal, Calls, Cancel, Ends;
    at, es := [], [];
    if id in st.timers && st.ready && id in st.table {
      var taken := st.(timers := st.timers - multiset{id});
      var e := Finished(id, st.table[id].callback, Common.TIMEOUT, []);
      CallsOfEmit(taken, e);
      at, es := CancelEffect(Emit(taken, e), id, replies);
      if st.table[id].info.executors == [] {
        NobodyChosen(st.executors);
        at, es := [], [];
        assert Ends(id, []) == [];
      }
      assert Calls(st.trace) + [] == Calls(st.trace);
    }
  }

  lemma NobodyChosen(executors: map<uint64, Registration>)
    ensures Chosen(executors, [], [], [])
  {
  }

  /** The event is a call for id to the first executor of one of the types. */
  ghost predicate RightCall(executors: map<uint64, Registration>, types: seq<uint32>, id: uint64, e: Event) {
    (e.Began? || e.Ended?) && e.id == id && exists ty <- types :: FirstOfType(executors, ty, e.executor)
  }

  lemma ChosenAreRight(executors: map<uint64, Registration>, types: seq<uint32>, at: seq<nat>, es: seq<nat>,
                       id: uint64)
    requires Chosen(executors, types, at, es)
    ensures forall k | 0 <= k < |es| ::
              RightCall(executors, types, id, Began(id, es[k])) && RightCall(executors, types, id, Ended(id, es[k]))
  {
    hide FirstOfType;
    forall k | 0 <= k < |es| ensures types[at[k]] in types && FirstOfType(executors, types[at[k]], es[k]) { }
  }

  /** The types of the schedule that a handler starts or ends. */
  function TypesOf(st: State, op: Op): seq<uint32> {
    match op
    case ScheduleOp(info, _, _) => info.executors
    case CancelOp(id, _) => if id in st.table then st.table[id].info.executors else []
    case FireOp(id, _) => if id in st.table then st.table[id].info.executors else []
    case _ => []
  }

  function IdOf(op: Op): uint64 {
    match op
    case ScheduleOp(info, _, _) => info.scheduleId
    case CancelOp(id, _) => id
    case FireOp(id, _) => id
    case _ => 0
  }

  /** Every call that any handler makes goes to the first executor of one of its schedule's types. */
  lemma CallsAreRight(st: State, op: Op, k: nat)
    requires |Calls(st.trace)| <= k < |Calls(Step(st, op).trace)|
    ensures var e := Calls(Step(st, op).trace)[k];
            && RightCall(st.executors, TypesOf(st, op), IdOf(op), e)
            && (e.Began? <==> op.ScheduleOp?)
  {
    hide Calls, Chosen, BeginSchedule, Cancel, Fire, RightCall, LastRefusal, Receive;
    match op
    case ScheduleOp(info, callback, replies) =>
      if callback.Some? {
        RefusedStartFails(st, info, callback.value, replies);
        var at, es, code := StartEffect(st, info, callback.value, replies);
        ChosenAreRight(st.executors, info.executors, at, es, info.scheduleId);
      } else {
        NothingToStart(st, info, replies);
      }
    case CancelOp(id, replies) =>
      var at, es := CancelEffect(st, id, replies);
      ChosenAreRight(st.executors, st.table[id].info.executors, at, es, id);
    case FireOp(id, replies) =>
      var at, es := FireEffect(st, id, replies);
      ChosenAreRight(st.executors, st.table[id].info.executors, at, es, id);
    case ReceiveOp(m) =>
      ReceiveCallsNobody(st, m);
    case RegisterOp(_, _) =>
    case UnregisterOp(_) =>
  }

  lemma NothingToStart(st: State, info: ScheduleInfo, replies: seq<Reply>)
    ensures BeginSchedule(st, info, None, replies) == st
  {
  }

  lemma ReceiveCallsNobody(st: State, m: Message)
    ensures Calls(Receive(st, m).trace) == Calls(st.trace)
  {
    hide Calls, Receive;
    assert [m][1..] == [];
    DeliverCallsNobody(st, [m]);
    assert Deliver(st, [m]) == Deliver(Receive(st, m), [m][1..]);
  }

  // ------------------------------------------------------ silent executors

  ghost predicate Silent(replies: seq<Reply>) {
    forall r <- replies :: r.during == []
  }

  lemma SilentReply(st: State, e: Event, replies: seq<Reply>, i: nat, rest: seq<Event>)
    requires Silent(replies)
    ensures Deliver(Emit(st, e), ReplyAt(replies, i).during) == Emit(st, e)
    ensures Emit(st, e).trace + rest == st.trace + ([e] + rest)
  {
    assert ReplyAt(replies, i).during == [];
  }

  lemma {:induction false} SilentBegin(st: State, info: ScheduleInfo, replies: seq<Reply>, i: nat, ret: int)
    requires i <= |info.executors| && Silent(replies)
    ensures BeginFrom(st, info, replies, i, ret).0 ==
            st.(trace := st.trace + Begins(info.scheduleId, Roster(st.executors, info, i)))
    decreases |info.executors| - i
  {
    hide FindExecutor, Roster, Begins, ReplyAt, Deliver, Silent;
    if i == |info.executors| {
      RosterEnd(st.executors, info, info.scheduleId, replies);
      assert st.trace + [] == st.trace;
    } else {
      var found := FindExecutor(st.executors, info.executors[i]);
      RosterStep(st.executors, info, info.scheduleId, i);
      if found.None? {
        SilentBegin(st, info, replies, i + 1, ret);
      } else {
        var reply, e := ReplyAt(replies, i), Began(info.scheduleId, found.value);
        SilentReply(st, e, replies, i, Begins(info.scheduleId, Roster(st.executors, info, i + 1)));
        SilentBegin(Emit(st, e), info, replies, i + 1,
                    if reply.code != SUCCESS then reply.code else ret);
      }
    }
  }

  lemma {:induction false} SilentEnd(st: State, info: ScheduleInfo, id: uint64, replies: seq<Reply>, i: nat, ret: int)
    requires i <= |info.executors| && Silent(replies)
    ensures EndFrom(st, info, id, replies, i, ret).0 ==
            st.(trace := st.trace + Ends(id, Roster(st.executors, info, i)))
    decreases |info.executors| - i
  {
    hide FindExecutor, Roster, Ends, ReplyAt, Deliver, Silent;
    if i == |info.executors| {
      RosterEnd(st.executors, info, id, replies);
      assert st.trace + [] == st.trace;
    } else {
      var found := FindExecutor(st.executors, info.executors[i]);
      RosterStep(st.executors, info, id, i);
      if found.None? {
        SilentEnd(st, info, id, replies, i + 1, ret);
      } else {
        var reply, e := ReplyAt(replies, i), Ended(id, found.value);
        SilentReply(st, e, replies, i, Ends(id, Roster(st.executors, info, i + 1)));
        SilentEnd(Emit(st, e), info, id, replies, i + 1,
                  if reply.code != SUCCESS then reply.code else ret);
      }
    }
  }

  /**
   * With executors that send nothing while being called, starting changes exactly this: a new
   * id is stored with its callback and as many awaited results as it names types, and a timer
   * is armed; after a refusal neither is left.
   */
  lemma SilentStart(st: State, info: ScheduleInfo, callback: nat, replies: seq<Reply>)
    returns (at: seq<nat>, es: seq<nat>, code: int)
    requires st.ready && info.executors != [] && Silent(replies)
    ensures Chosen(st.executors, info.executors, at, es) && LastRefusal(replies, at, code)
    ensures var after, id := BeginSchedule(st, info, Some(callback), replies), info.scheduleId;
            && after.executors == st.executors && after.ready == st.ready
            && after.table == (if code != SUCCESS then st.table - {id}
                               else if id in st.table then st.table
                               else st.table[id := Schedule(|info.executors|, info, callback)])
            && after.timers == (if code != SUCCESS then st.timers[id := 0] else st.timers + multiset{id})
            && after.trace == st.trace + [Submitted(id, callback)]
                 + (if id in st.table then [] else [Event.Stored(id, callback)]) + Begins(id, es)
                 + (if code == SUCCESS then [] else [Finished(id, callback, code, [])])
  {
    hide Chosen, LastRefusal, BeginFrom, Roster, Places, Begins, Agreed;
    RosterIsChosen(st.executors, info);
    at, es := Places(st.executors, info, 0), Roster(st.executors, info, 0);
    var id := info.scheduleId;
    var told := Emit(st, Submitted(id, callback));
    var armed := Insert(told, info, callback).(timers := st.timers + multiset{id});
    code := BeginFrom(armed, info, replies, 0, SUCCESS).1;
    BeginCode(armed, info, replies, 0, SUCCESS);
    SilentBegin(armed, info, replies, 0, SUCCESS);
    AgreedIsSuccess(replies, at);
    assert (st.timers + multiset{id})[id := 0] == st.timers[id := 0];
    assert armed.table - {id} == st.table - {id};
    assert armed.trace == st.trace + [Submitted(id, callback)]
                          + (if id in st.table then [] else [Event.Stored(id, callback)]);
    assert armed.trace + Begins(id, es) + [] == armed.trace + Begins(id, es);
  }

  /** Likewise cancelling changes nothing but what the executors are told. */
  lemma SilentCancel(st: State, id: uint64, replies: seq<Reply>) returns (at: seq<nat>, es: seq<nat>)
    requires Silent(replies) && st.ready && id in st.table && st.table[id].info.executors != []
    ensures Chosen(st.executors, st.table[id].info.executors, at, es)
    ensures Cancel(st, id, replies).0 == st.(trace := st.trace + Ends(id, es))
  {
    hide Chosen, EndFrom, Roster, Places, Ends;
    RosterIsChosen(st.executors, st.table[id].info);
    at, es := Places(st.executors, st.table[id].info, 0), Roster(st.executors, st.table[id].info, 0);
    SilentEnd(st, st.table[id].info, id, replies, 0, SUCCESS);
  }

  /** And a timeout uses up the timer and removes the entry. */
  lemma SilentFire(st: State, id: uint64, replies: seq<Reply>) returns (at: seq<nat>, es: seq<nat>)
    requires Silent(replies) && id in st.timers
    requires st.ready && id in st.table && st.table[id].info.executors != []
    ensures Chosen(st.executors, st.table[id].info.executors, at, es)
    ensures var after := Fire(st, id, replies);
            && after.executors == st.executors && after.ready == st.ready
            && after.table == st.table - {id} && after.timers == st.timers - multiset{id}
            && after.trace == st.trace + [Finished(id, st.table[id].callback, Common.TIMEOUT, [])] + Ends(id, es)
  {
    hide Chosen, Cancel, Ends;
    var taken := st.(timers := st.timers - multiset{id});
    at, es := SilentCancel(Emit(taken, Finished(id, st.table[id].callback, Common.TIMEOUT, [])), id, replies);
  }

  // ------------------------------------------------------- single messages

  /** Messages that arrive are dealt with one by one, in order. */
  lemma {:induction false} ArrivalOrder(st: State, first: seq<Message>, m: Message)
    ensures Deliver(st, first + [m]) == Receive(Deliver(st, first), m)
    decreases |first|
  {
    hide Receive;
    if first == [] {
      assert first + [m] == [m] && [m][1..] == [];
    } else {
      assert (first + [m])[1..] == first[1..] + [m];
      ArrivalOrder(Receive(st, first[0]), first[1..], m);
    }
  }

  /**
   * What a Finish returns: a failure exactly for an absent id whose unset counter is at most
   * one, and for the last awaited call when it has no result.
   */
  lemma FinishCode(st: State, id: uint64, code: int, result: Option<Attrs>, unset: uint64)
    ensures var (after, returned) := Finish(st, id, code, result, unset);
            && returned == (if id in st.table
                            then if st.table[id].executorNum <= 1 && result.None? then FAIL else SUCCESS
                            else if unset <= 1 then FAIL else SUCCESS)
            && after.executors == st.executors && after.ready == st.ready
            && (forall x: uint64 | x != id ::
                  (x in after.table <==> x in st.table) && (x in st.table ==> after.table[x] == st.table[x])
                  && after.timers[x] == st.timers[x])
  {
  }

  /**
   * Data reaches the schedule's callback exactly when the id is stored and there are four
   * bytes: as the number they are, least significant byte first.
   */
  lemma SendDataEffect(st: State, id: uint64, data: Option<seq<byte>>)
    ensures var (after, code) := SendData(st, id, data);
            if data.Some? && id in st.table && |data.value| == 4 then
              code == SUCCESS && exists n: uint32 ::
                && AttributeLayout.Word32At(data.value, 0, n)
                && after == st.(trace := st.trace + [Acquired(id, st.table[id].callback, n)])
            else after == st && code == FAIL
  {
    hide AttributeLayout.Word32At, LittleEndian.U32;
    if data.Some? && |data.value| == 4 {
      AttributeLayout.ReadsWord32(data.value, LittleEndian.U32(data.value));
    }
  }

  /** The first registration under an id stays until it is taken back; others are not affected. */
  lemma RegistrationEffect(st: State, executorId: uint64, reg: Registration)
    ensures var added, gone := Register(st, executorId, reg), Unregister(st, executorId);
            && added == st.(executors := added.executors) && gone == st.(executors := gone.executors)
            && executorId in added.executors && executorId !in gone.executors
            && added.executors[executorId] == (if executorId in st.executors then st.executors[executorId] else reg)
            && forall k: uint64 | k != executorId ::
                 && (k in added.executors <==> k in st.executors) && (k in gone.executors <==> k in st.executors)
                 && (k in st.executors ==> added.executors[k] == gone.executors[k] == st.executors[k])
  {
  }

  /** Of two executors of different types, a schedule for the second starts only the second. */
  lemma OtherTypeIsNotAsked(st: State, callback: nat, replies: seq<Reply>)
    requires st.ready
    requires st.executors == map[1 := Registration(Some(1), Some(7)), 2 := Registration(Some(2), Some(8))]
    ensures Calls(BeginSchedule(st, ScheduleInfo(5, [2]), Some(callback), replies).trace) ==
            Calls(st.trace) + [Began(5, 8)]
  {
    hide Calls, BeginSchedule, LastRefusal;
    var at, es, code := StartEffect(st, ScheduleInfo(5, [2]), callback, replies);
    assert st.executors[2] == Registration(Some(2), Some(8)) && st.executors[1].authType != Some(2);
    assert FirstOfType(st.executors, 2, 8);
    assert Chosen(st.executors, [2], [0], [8]);
    ChosenIsUnique(st.executors, [2], at, es, [0], [8]);
  }
}
