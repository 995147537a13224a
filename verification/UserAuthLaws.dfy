/** Agreement of contexts, callbacks and threads, and what a callback's client hears. */
module UserAuthLaws {
  import opened Common
  import opened UserAuthState
  import T = ThreadGroupState
  import L = ThreadGroupLaws
  import S = CoAuthState

  // ---------------------------------------- saved callbacks and threads

  function Retained(st: Shared): set<uint64> {
    L.Retained(st.threads, GROUP_AUTH)
  }

  ghost predicate Agreement(st: Shared, clean: bool) {
    && L.Inv(st.threads)
    && (GROUP_AUTH in st.threads.groups ==>
          && st.threads.groups[GROUP_AUTH].threadNum == T.GROUP_MAX_THREAD_NUM
          && Retained(st) <= st.saved.Keys
          && (clean ==> Retained(st) == st.saved.Keys))
  }

  lemma SaveKeeps(st: Shared, contextId: uint64, id: nat, clean: bool)
    requires Agreement(st, clean)
    ensures Agreement(Save(st, contextId, id).0, clean)
  {
    hide L.Inv, T.Retain;
    L.RetainKeeps(st.threads, GROUP_AUTH, contextId, THREAD_MAX_TASK_NUM);
    L.RetainEffect(st.threads, GROUP_AUTH, contextId, THREAD_MAX_TASK_NUM);
  }

  lemma ForgetKeeps(st: Shared, contextId: uint64, clean: bool)
    requires Agreement(st, clean)
    ensures Agreement(Forget(st, contextId).0, clean)
    ensures contextId !in Retained(Forget(st, contextId).0) && contextId !in Forget(st, contextId).0.saved
  {
    L.ReleaseKeeps(st.threads, GROUP_AUTH, contextId);
    L.ReleaseEffect(st.threads, GROUP_AUTH, contextId);
  }

  lemma AuthUserKeeps(st: Shared, r: Request, id: nat, clean: bool)
    requires Agreement(st, clean)
    ensures Agreement(AuthUser(st, r, id).0, clean)
  {
    hide L.Inv, Save;
    if r.contextId !in st.contexts {
      var added := st.(contexts := st.contexts[r.contextId := []]);
      SaveKeeps(GenerateSolution(added, r.contextId, r).0, r.contextId, id, clean);
    }
  }

  lemma FinishHandleKeeps(st: Shared, cb: Callback, code: int, oracle: Oracle, clean: bool)
    requires Agreement(st, clean)
    ensures Agreement(FinishHandle(st, cb, code, oracle).0, clean)
  {
    hide L.Inv, Forget;
    ForgetAnywhere(st, cb.contextId, clean);
  }

  /** Forgetting keeps agreement from any state with the same threads and saved callbacks. */
  lemma ForgetAnywhere(st: Shared, contextId: uint64, clean: bool)
    requires Agreement(st, clean)
    ensures forall other: Shared {:trigger Forget(other, contextId)} ::
              other.threads == st.threads && other.saved == st.saved ==>
                Agreement(Forget(other, contextId).0, clean)
  {
    hide L.Inv, Forget;
    forall other: Shared | other.threads == st.threads && other.saved == st.saved
      ensures Agreement(Forget(other, contextId).0, clean)
    {
      ForgetKeeps(other, contextId, clean);
    }
  }

  lemma HandleKeeps(st: State, call: Call, oracle: Oracle)
    requires call.id < |st.callbacks| && Agreement(st.shared, st.clean)
    ensures Agreement(Handle(st, call, oracle).shared, Handle(st, call, oracle).clean)
  {
    hide L.Inv, FinishHandle;
    if call.FinishCall? {
      FinishHandleKeeps(st.shared, st.callbacks[call.id], call.code, oracle, st.clean);
    }
  }

  lemma ThreadStepKeeps(st: Shared, op: T.Op, clean: bool)
    requires Agreement(st, clean) && (op.WorkOp? || op.DropOp? || op.name != GROUP_AUTH)
    ensures Agreement(st.(threads := T.Step(st.threads, op)), clean)
  {
    hide L.Inv, T.Step;
    L.StepKeeps(st.threads, op);
    L.OtherGroupUntouched(st.threads, op, GROUP_AUTH);
  }

  lemma NotifyKeeps(st: State, call: Call)
    requires call.id < |st.callbacks| && Agreement(st.shared, st.clean)
    ensures Agreement(Notify(st, call).shared, st.clean)
  {
    var contextId := st.callbacks[call.id].contextId;
    L.PostKeeps(st.shared.threads, GROUP_AUTH, contextId, |st.calls|);
  }

  lemma StepKeeps(st: State, op: Op)
    requires Agreement(st.shared, st.clean)
    ensures Agreement(Step(st, op).shared, Step(st, op).clean)
  {
    hide L.Inv, AuthUser, Handle, Notify, T.Work, T.CreateGroup, T.DestroyGroup;
    var shared := st.shared;
    match op
    case StartOp => StartKeeps(shared, st.clean);
    case StopOp =>
      L.DestroyKeeps(shared.threads, GROUP_AUTH);
      L.DestroyEffect(shared.threads, GROUP_AUTH);
    case AuthUserOp(r) => AuthUserKeeps(shared, r, |st.callbacks|, st.clean);
    case CancelAuthOp(contextId, permitted, driver) =>
    case CreateOp(contextId, count, authType) =>
    case NotifyOp(call) => if call.id < |st.callbacks| { NotifyKeeps(st, call); NotifyClean(st, call); }
    case WorkOp(p, oracle) =>
      ThreadStepKeeps(shared, T.WorkOp(p), st.clean);
      var worked := st.(shared := shared.(threads := T.Work(shared.threads, p)));
      var next := NextCall(st, p);
      if next.Some? && next.value.id < |st.callbacks| {
        HandleKeeps(worked, next.value, oracle);
      }
    case OtherOp(op) => if Elsewhere(op) { ThreadStepKeeps(shared, op, st.clean); }
  }

  lemma NotifyClean(st: State, call: Call)
    requires call.id < |st.callbacks|
    ensures Notify(st, call).clean == st.clean
  {
  }

  lemma StartKeeps(st: Shared, clean: bool)
    requires Agreement(st, clean)
    ensures var (threads, created) := T.CreateGroup(st.threads, GROUP_AUTH, T.GROUP_MAX_THREAD_NUM);
            Agreement(st.(threads := threads), if created then st.saved == map[] else clean)
  {
    hide L.Inv;
    L.CreateKeeps(st.threads, GROUP_AUTH, T.GROUP_MAX_THREAD_NUM);
  }

  lemma {:induction false} AgreementOfRuns(st: State, ops: seq<Op>)
    requires Agreement(st.shared, st.clean)
    ensures Agreement(Run(st, ops).shared, Run(st, ops).clean)
    decreases |ops|
  {
    hide Agreement, Step;
    if ops != [] {
      StepKeeps(st, ops[0]);
      AgreementOfRuns(Step(st, ops[0]), ops[1..]);
    }
  }

  /**
   * While the service runs, a thread is retained exactly for the contexts with a saved
   * callback, and there are at most four, provided no callback was left over when it started.
   */
  lemma SavedMatchesThreads(ops: seq<Op>)
    ensures var st := Run(INITIAL, ops);
            GROUP_AUTH in st.shared.threads.groups ==>
              && Retained(st.shared) <= st.shared.saved.Keys
              && |Retained(st.shared)| <= T.GROUP_MAX_THREAD_NUM
              && (st.clean ==> Retained(st.shared) == st.shared.saved.Keys
                               && |st.shared.saved| <= T.GROUP_MAX_THREAD_NUM)
  {
    hide Step;
    AgreementOfRuns(INITIAL, ops);
    var st := Run(INITIAL, ops).shared;
    if GROUP_AUTH in st.threads.groups {
      assert |Retained(st)| == |st.threads.groups[GROUP_AUTH].retains|;
      assert |st.saved| == |st.saved.Keys|;
    }
  }

  /**
   * Stopping drops every thread but no saved callback, so after a restart threads and
   * callbacks agree exactly when none was saved.
   */
  lemma RestartAgreesIffNothingSaved(st: State)
    requires GROUP_AUTH in st.shared.threads.groups
    ensures var after := Step(Step(st, StopOp), StartOp);
            && Retained(after.shared) == {} && after.shared.saved == st.shared.saved
            && (Retained(after.shared) == after.shared.saved.Keys <==> st.shared.saved == map[])
            && after.clean == (st.shared.saved == map[])
  {
    hide T.DestroyGroup;
    L.DestroyEffect(st.shared.threads, GROUP_AUTH);
    assert st.shared.saved.Keys == {} <==> st.shared.saved == map[];
  }

  /** In such a session a retained thread is always followed by a saved callback. */
  lemma SaveFailsOnlyForThreads(st: Shared, contextId: uint64, id: nat)
    requires Agreement(st, true) && GROUP_AUTH in st.threads.groups
    ensures Save(st, contextId, id).1 == SUCCESS <==>
            contextId != 0 && contextId !in st.saved && |st.saved| < T.GROUP_MAX_THREAD_NUM
    ensures Save(st, contextId, id).1 != SUCCESS ==> Save(st, contextId, id).0 == st
  {
    hide L.Inv, T.Retain;
    L.RetainEffect(st.threads, GROUP_AUTH, contextId, THREAD_MAX_TASK_NUM);
    assert |st.saved| == |st.saved.Keys|;
  }

  // ------------------------------------------------ one callback's client

  predicate Audible(e: Event) {
    e.Answered? || e.Acquire?
  }

  /** After an answer of a callback, the client hears nothing more from its handlers. */
  ghost predicate LastWord(trace: seq<Event>) {
    forall i, j | 0 <= i < j < |trace| ::
      trace[i].Answered? && Audible(trace[j]) ==> trace[i].id != trace[j].id
  }

  ghost predicate Heard(st: State) {
    && LastWord(st.shared.trace)
    && (forall i | 0 <= i < |st.callbacks| :: st.callbacks[i].id == i)
    && (forall e <- st.shared.trace :: e.Answered? ==> e.id < |st.callbacks| && st.callbacks[e.id].done)
  }

  /** The trace grows by inaudible events only. */
  ghost predicate Silent(before: seq<Event>, after: seq<Event>) {
    before <= after && forall k | |before| <= k < |after| :: !Audible(after[k])
  }

  /** The trace grows by one audible event of id, with silence around it. */
  ghost predicate Speaks(before: seq<Event>, after: seq<Event>, id: nat, at: nat) {
    && before <= after && |before| <= at < |after|
    && Audible(after[at]) && after[at].id == id
    && forall k | |before| <= k < |after| && k != at :: !Audible(after[k])
  }

  lemma {:induction false} CancelAllSilent(st: Shared, ids: seq<uint64>)
    ensures Silent(st.trace, CancelAll(st, ids).trace)
    decreases |ids|
  {
    if ids != [] {
      CancelAllSilent(Emit(st, CancelSchedule(ids[0])), ids[1..]);
    }
  }

  lemma {:induction false} BeginAllSilent(st: Shared, id: nat, infos: seq<S.ScheduleInfo>)
    ensures Silent(st.trace, BeginAll(st, id, infos).trace)
    decreases |infos|
  {
    if infos != [] {
      BeginAllSilent(Emit(st, Begun(id, infos[0].scheduleId)), id, infos[1..]);
    }
  }

  /**
   * A handler either leaves the callback open and says nothing, or, being the first to close
   * it, gives one answer; it never acquires.
   */
  lemma FinishSpeaks(st: Shared, cb: Callback, code: int, oracle: Oracle) returns (at: nat)
    ensures var (after, cb') := FinishHandle(st, cb, code, oracle);
            && cb'.id == cb.id && cb'.contextId == cb.contextId && (cb.done ==> cb'.done)
            && (cb'.done == cb.done ==> after == st)
            && (cb'.done != cb.done ==>
                  Speaks(st.trace, after.trace, cb.id, at) && after.trace[at].Answered?)
  {
    at := |st.trace|;
    if !cb.done {
      var ret := if code != CANCELED then oracle.ret else GENERAL_ERROR;
      if ret != E_RET_UNDONE {
        var frozen := if code == LOCKED && cb.authType == PIN then Emit(st, Freeze(cb.id)) else st;
        var thawed := if ret == SUCCESS && cb.authType == PIN then Emit(frozen, Thaw(cb.id)) else frozen;
        at := |thawed.trace|;
        var token := if ret == SUCCESS then oracle.token else [];
        var told := Emit(thawed, Answered(cb.id, code, token, oracle.remainTimes, oracle.freezingTime));
        DealFinishSilent(told, cb.contextId);
        hide DealFinish, Forget;
      }
    }
  }

  lemma DealFinishSilent(st: Shared, contextId: uint64)
    ensures Silent(st.trace, DealFinish(st, contextId).trace)
  {
    if contextId in st.contexts {
      CancelAllSilent(st, st.contexts[contextId]);
    }
  }

  lemma SilenceKeepsHeard(st: State, after: State)
    requires Heard(st) && Silent(st.shared.trace, after.shared.trace)
    requires |st.callbacks| <= |after.callbacks|
    requires forall i | 0 <= i < |after.callbacks| :: after.callbacks[i].id == i
    requires forall i | 0 <= i < |st.callbacks| :: st.callbacks[i].done ==> after.callbacks[i].done
    ensures Heard(after)
  {
    var t, u := st.shared.trace, after.shared.trace;
    forall e <- u ensures e.Answered? ==> e.id < |after.callbacks| && after.callbacks[e.id].done {
      var k :| 0 <= k < |u| && u[k] == e;
      if k < |t| {
        assert t[k] in t;
      }
    }
  }

  lemma SpeechKeepsHeard(st: State, after: State, id: nat, at: nat)
    requires Heard(st) && id < |st.callbacks| && !st.callbacks[id].done
    requires Speaks(st.shared.trace, after.shared.trace, id, at)
    requires |after.callbacks| == |st.callbacks|
    requires forall i | 0 <= i < |st.callbacks| ::
               after.callbacks[i].id == i && (st.callbacks[i].done ==> after.callbacks[i].done)
    requires after.shared.trace[at].Answered? ==> after.callbacks[id].done
    ensures Heard(after)
  {
    var t, u := st.shared.trace, after.shared.trace;
    forall k | 0 <= k < |t| ensures u[k] == t[k] && (t[k].Answered? ==> t[k].id != id) {
      assert t[k] in t;
    }
    forall e <- u ensures e.Answered? ==> e.id < |after.callbacks| && after.callbacks[e.id].done {
      var k :| 0 <= k < |u| && u[k] == e;
      if k < |t| {
        assert t[k] in t;
      }
    }
  }

  lemma HandleHeard(st: State, call: Call, oracle: Oracle)
    requires call.id < |st.callbacks| && Heard(st)
    ensures Heard(Handle(st, call, oracle))
  {
    hide FinishHandle, LastWord;
    var after, cb := Handle(st, call, oracle), st.callbacks[call.id];
    match call
    case FinishCall(id, code) =>
      var at := FinishSpeaks(st.shared, cb, code, oracle);
      if after.callbacks[id].done == cb.done {
        SilenceKeepsHeard(st, after);
      } else {
        SpeechKeepsHeard(st, after, id, at);
      }
    case AcquireCall(id, acquire) =>
      if !cb.done {
        SpeechKeepsHeard(st, after, id, |st.shared.trace|);
      }
  }

  lemma AuthUserSilent(st: Shared, r: Request, id: nat)
    ensures Silent(st.trace, AuthUser(st, r, id).0.trace)
  {
    hide Save;
    if r.contextId !in st.contexts {
      var added := st.(contexts := st.contexts[r.contextId := []]);
      var solved := GenerateSolution(added, r.contextId, r).0;
      SaveSilent(solved, r.contextId, id);
      BeginAllSilent(Save(solved, r.contextId, id).0, id, CopyInfos(r.schedules));
    }
  }

  lemma SaveSilent(st: Shared, contextId: uint64, id: nat)
    ensures Save(st, contextId, id).0.trace == st.trace && Save(st, contextId, id).0.contexts == st.contexts
  {
  }

  lemma StepHeard(st: State, op: Op)
    requires Heard(st)
    ensures Heard(Step(st, op))
  {
    hide LastWord, AuthUser, Handle, T.Work, T.CreateGroup, T.DestroyGroup, T.Post, T.Step, CancelAll;
    match op
    case AuthUserOp(r) =>
      AuthUserSilent(st.shared, r, |st.callbacks|);
      SilenceKeepsHeard(st, Step(st, op));
    case CancelAuthOp(contextId, permitted, driver) =>
      if contextId in st.shared.contexts {
        CancelAllSilent(Emit(st.shared, CancelContext(contextId)), st.shared.contexts[contextId]);
      }
      SilenceKeepsHeard(st, Step(st, op));
    case WorkOp(p, oracle) =>
      var worked := st.(shared := st.shared.(threads := T.Work(st.shared.threads, p)));
      SilenceKeepsHeard(st, worked);
      var next := NextCall(st, p);
      if next.Some? && next.value.id < |st.callbacks| {
        HandleHeard(worked, next.value, oracle);
      }
    case _ => SilenceKeepsHeard(st, Step(st, op));
  }

  lemma {:induction false} HeardOfRuns(st: State, ops: seq<Op>)
    requires Heard(st)
    ensures Heard(Run(st, ops))
    decreases |ops|
  {
    hide Heard, Step;
    if ops != [] {
      StepHeard(st, ops[0]);
      HeardOfRuns(Step(st, ops[0]), ops[1..]);
    }
  }

  /** In every run a callback's handlers answer at most once and acquire nothing afterwards. */
  lemma OneAnswerAndThenSilence(ops: seq<Op>, i: nat, j: nat)
    requires i < j < |Run(INITIAL, ops).shared.trace|
    ensures var trace := Run(INITIAL, ops).shared.trace;
            trace[i].Answered? && Audible(trace[j]) ==> trace[i].id != trace[j].id
  {
    hide Step;
    HeardOfRuns(INITIAL, ops);
  }

  /** When a handler answers, its context, saved callback and thread are gone. */
  lemma AnswerClearsContext(st: Shared, cb: Callback, code: int, oracle: Oracle, clean: bool)
    requires Agreement(st, clean) && !cb.done
    ensures var (after, cb') := FinishHandle(st, cb, code, oracle);
            if cb'.done then
              && cb.contextId !in after.contexts && cb.contextId !in after.saved
              && cb.contextId !in Retained(after)
            else after == st
  {
    hide L.Inv, Forget;
    ForgetsAnywhere(st, cb.contextId, clean);
  }

  lemma ForgetsAnywhere(st: Shared, contextId: uint64, clean: bool)
    requires Agreement(st, clean)
    ensures forall other: Shared {:trigger Forget(other, contextId)} ::
              other.threads == st.threads && other.saved == st.saved ==>
                var after := Forget(other, contextId).0;
                && contextId !in Retained(after) && contextId !in after.saved && after.contexts == other.contexts
                && after.trace == other.trace
  {
    forall other: Shared | other.threads == st.threads && other.saved == st.saved
      ensures var after := Forget(other, contextId).0;
              && contextId !in Retained(after) && contextId !in after.saved && after.contexts == other.contexts
              && after.trace == other.trace
    {
      ForgetKeeps(other, contextId, clean);
    }
  }

  /** The cancellations sent for a list of schedules. */
  function Cancellations(ids: seq<uint64>): (events: seq<Event>)
    ensures |events| == |ids| && forall i | 0 <= i < |ids| :: events[i] == CancelSchedule(ids[i])
  {
    seq(|ids|, i requires 0 <= i < |ids| => CancelSchedule(ids[i]))
  }

  lemma {:induction false} CancelAllTrace(st: Shared, ids: seq<uint64>)
    ensures CancelAll(st, ids).trace == st.trace + Cancellations(ids)
    decreases |ids|
  {
    if ids != [] {
      CancelAllTrace(Emit(st, CancelSchedule(ids[0])), ids[1..]);
      assert Cancellations(ids) == [CancelSchedule(ids[0])] + Cancellations(ids[1..]);
    }
  }

  /** The driver leaves the authentication undecided; a cancelled schedule never asks it. */
  predicate Undecided(code: int, oracle: Oracle) {
    code != CANCELED && oracle.ret == E_RET_UNDONE
  }

  function ScheduleIds(st: Shared, contextId: uint64): seq<uint64> {
    if contextId in st.contexts then st.contexts[contextId] else []
  }

  lemma DecidedFinish(st: Shared, cb: Callback, code: int, oracle: Oracle) returns (before: seq<Event>, answer: Event)
    requires !cb.done && !Undecided(code, oracle)
    ensures var (after, cb') := FinishHandle(st, cb, code, oracle);
            && cb'.done && after.trace == before + ([answer] + Cancellations(ScheduleIds(st, cb.contextId)))
            && answer.Answered? && answer.id == cb.id && answer.code == code
            && answer.token == if code != CANCELED && oracle.ret == SUCCESS then oracle.token else []
  {
    var ret := if code != CANCELED then oracle.ret else GENERAL_ERROR;
    var frozen := if code == LOCKED && cb.authType == PIN then Emit(st, Freeze(cb.id)) else st;
    var thawed := if ret == SUCCESS && cb.authType == PIN then Emit(frozen, Thaw(cb.id)) else frozen;
    var token := if ret == SUCCESS then oracle.token else [];
    before := thawed.trace;
    answer := Answered(cb.id, code, token, oracle.remainTimes, oracle.freezingTime);
    DealFinishTrace(Emit(thawed, answer), cb.contextId);
    hide DealFinish, Cancellations;
  }

  lemma UndecidedFinish(st: Shared, cb: Callback, code: int, oracle: Oracle)
    requires !cb.done && Undecided(code, oracle)
    ensures var (after, cb') := FinishHandle(st, cb, code, oracle);
            && (cb'.done <==> (cb.now + 1) % TWO_32 == cb.count)
            && after.trace == st.trace + if cb'.done then [Answered(cb.id, GENERAL_ERROR, [], 0, 0)] else []
  {
    hide Forget;
    ForgetSpeaksNot(DeleteContext(st, cb.contextId), cb.contextId);
    assert st.trace + [] == st.trace;
  }

  /**
   * A handler closes its callback unless the driver is undecided and further sessions are
   * expected. The answer carries the schedule's code, a token only if the driver granted one,
   * and it is followed by the cancellation of all the context's schedules, in order.
   */
  lemma AnswerIsTheDrivers(st: Shared, cb: Callback, code: int, oracle: Oracle) returns (answer: Event)
    requires !cb.done
    ensures var (after, cb') := FinishHandle(st, cb, code, oracle);
            && (cb'.done <==> !Undecided(code, oracle) || (cb.now + 1) % TWO_32 == cb.count)
            && (cb'.done ==> answer.Answered? && answer in after.trace && answer.id == cb.id)
            && (cb'.done && Undecided(code, oracle) ==>
                  answer.code == GENERAL_ERROR && answer.token == [] && after.trace == st.trace + [answer])
            && (!Undecided(code, oracle) ==>
                  && answer.code == code
                  && answer.token == (if code != CANCELED && oracle.ret == SUCCESS then oracle.token else [])
                  && var ids := ScheduleIds(st, cb.contextId);
                     |after.trace| > |ids| && after.trace[|after.trace| - |ids| - 1..] == [answer] + Cancellations(ids))
  {
    hide FinishHandle, Cancellations;
    if Undecided(code, oracle) {
      answer := Answered(cb.id, GENERAL_ERROR, [], 0, 0);
      UndecidedFinish(st, cb, code, oracle);
    } else {
      var before;
      before, answer := DecidedFinish(st, cb, code, oracle);
    }
  }

  lemma ForgetSpeaksNot(st: Shared, contextId: uint64)
    ensures Forget(st, contextId).0.trace == st.trace
  {
  }

  lemma DealFinishTrace(st: Shared, contextId: uint64)
    ensures DealFinish(st, contextId).trace ==
            st.trace + Cancellations(ScheduleIds(st, contextId))
  {
    hide Cancellations;
    if contextId in st.contexts {
      CancelAllTrace(st, st.contexts[contextId]);
    } else {
      CancelAllTrace(st, []);
    }
  }

  /**
   * Cancelling succeeds exactly for a known context that the driver lets go. It then cancels
   * the context's schedules in order and forgets the context, but keeps its saved callback and
   * its thread: those are given back by the callback's next answer, which cancels nothing more.
   */
  lemma CancelAuthKeepsTheThread(st: Shared, contextId: uint64, permitted: bool, driver: int)
    ensures var (after, code) := CancelAuth(st, contextId, permitted, driver);
            && (code == SUCCESS <==> permitted && contextId in st.contexts && driver == SUCCESS)
            && after.saved == st.saved && after.threads == st.threads
            && after.contexts == (if code == SUCCESS then st.contexts - {contextId} else st.contexts)
            && after.trace == st.trace +
                 (if permitted && contextId in st.contexts then [CancelContext(contextId)] else []) +
                 (if code == SUCCESS then Cancellations(st.contexts[contextId]) else [])
            && (code == SUCCESS ==> ScheduleIds(after, contextId) == [])
  {
    hide Cancellations;
    assert st.trace + [] + [] == st.trace;
    if contextId in st.contexts {
      CancelAllTrace(Emit(st, CancelContext(contextId)), st.contexts[contextId]);
    }
  }

  // ------------------------------------------------------ AuthUser

  /** When AuthUser succeeds, in terms of the state and the driver's answer. */
  ghost predicate Granted(st: Shared, r: Request) {
    && r.hasCallback && r.permitted && ATL1 <= r.trustLevel <= ATL4
    && r.contextId !in st.contexts && r.contextId != 0
    && r.driver == Some(SUCCESS) && (forall h <- r.schedules :: Copyable(h))
    && GROUP_AUTH in st.threads.groups
    && |Retained(st)| < st.threads.groups[GROUP_AUTH].threadNum
    && r.contextId !in Retained(st) && r.contextId !in st.saved
  }

  lemma SaveEffect(st: Shared, contextId: uint64, id: nat)
    ensures var (after, code) := Save(st, contextId, id);
            && (code == SUCCESS <==>
                  && GROUP_AUTH in st.threads.groups && contextId != 0 && contextId !in Retained(st)
                  && |Retained(st)| < st.threads.groups[GROUP_AUTH].threadNum && contextId !in st.saved)
            && after == st.(saved := after.saved, threads := after.threads)
            && after.saved == (if code == SUCCESS then st.saved[contextId := id] else st.saved)
            && (code == SUCCESS ==> Retained(after) == Retained(st) + {contextId})
  {
    hide T.Retain;
    L.RetainEffect(st.threads, GROUP_AUTH, contextId, THREAD_MAX_TASK_NUM);
  }

  /**
   * AuthUser returns a non-zero context exactly when granted; it then adds that context with
   * its schedule ids in order, and otherwise leaves the context table as it was.
   */
  lemma AuthUserBookkeeping(st: Shared, r: Request, id: nat)
    ensures var (after, contextId) := AuthUser(st, r, id);
            && (contextId != 0 <==> Granted(st, r))
            && (contextId != 0 ==>
                  && contextId == r.contextId && contextId !in st.contexts
                  && after.contexts == st.contexts[contextId := Ids(r.schedules)]
                  && after.saved == st.saved[contextId := id]
                  && Retained(after) == Retained(st) + {contextId})
            && (contextId == 0 ==> after.contexts == st.contexts && after.saved == st.saved)
  {
    hide Save, Retained, Ids, CopyInfos, BeginAll, Copyable;
    if r.hasCallback && r.permitted && ATL1 <= r.trustLevel <= ATL4 && r.contextId !in st.contexts {
      var added := st.(contexts := st.contexts[r.contextId := []]);
      var (solved, ret) := GenerateSolution(added, r.contextId, r);
      assert solved.contexts - {r.contextId} == st.contexts;
      SaveEffect(solved, r.contextId, id);
      SameThreads(st, solved);
      var kept := Save(solved, r.contextId, id).0;
      SameThreads(kept, BeginAll(kept, id, CopyInfos(r.schedules)));
    }
  }

  /** The schedules handed to the scheduler for a callback. */
  function Beginnings(id: nat, hs: seq<HdiSchedule>): (events: seq<Event>)
    ensures |events| == |hs| && forall i | 0 <= i < |hs| :: events[i] == Begun(id, hs[i].scheduleId)
  {
    seq(|hs|, i requires 0 <= i < |hs| => Begun(id, hs[i].scheduleId))
  }

  lemma {:induction false} BeginAllTrace(st: Shared, id: nat, hs: seq<HdiSchedule>)
    ensures BeginAll(st, id, CopyInfos(hs)).trace == st.trace + Beginnings(id, hs)
    decreases |hs|
  {
    hide CopyInfo;
    if hs != [] {
      assert CopyInfos(hs)[1..] == CopyInfos(hs[1..]);
      assert CopyInfos(hs)[0].scheduleId == hs[0].scheduleId by { CopyKeepsId(hs[0]); }
      BeginAllTrace(Emit(st, Begun(id, hs[0].scheduleId)), id, hs[1..]);
      assert Beginnings(id, hs) == [Begun(id, hs[0].scheduleId)] + Beginnings(id, hs[1..]);
    }
  }

  lemma CopyKeepsId(h: HdiSchedule)
    ensures CopyInfo(h).scheduleId == h.scheduleId
  {
  }

  /**
   * AuthUser either hands every schedule of the driver to the scheduler, in order and under the
   * new callback, or tells the client of the refusal once, if there is a client.
   */
  lemma AuthUserTellsItsClient(st: Shared, r: Request, id: nat)
    ensures var (after, contextId) := AuthUser(st, r, id);
            if contextId != 0 then after.trace == st.trace + Beginnings(id, r.schedules)
            else if !r.hasCallback then after.trace == st.trace
            else exists code :: code != SUCCESS && after.trace == st.trace + [Refused(code)]
  {
    hide Save, CopyInfos, Beginnings, Ids;
    if r.hasCallback && r.permitted && ATL1 <= r.trustLevel <= ATL4 && r.contextId !in st.contexts {
      var added := st.(contexts := st.contexts[r.contextId := []]);
      var (solved, ret) := GenerateSolution(added, r.contextId, r);
      var (kept, saving) := Save(solved, r.contextId, id);
      SaveEffect(solved, r.contextId, id);
      BeginAllTrace(kept, id, r.schedules);
    }
  }

  lemma SameThreads(a: Shared, b: Shared)
    requires a.threads == b.threads
    ensures Retained(a) == Retained(b)
  {
  }

  /** A context granted before a restart leaves a callback without a thread. */
  lemma RestartLeavesACallback()
    ensures var r := Request(true, true, ATL1, PIN, 1, Some(SUCCESS), []);
            var st := Run(INITIAL, [StartOp] + ([AuthUserOp(r)] + ([StopOp] + [StartOp])));
            Retained(st.shared) == {} && st.shared.saved.Keys == {1}
  {
    hide T.DestroyGroup, T.Retain, AuthUser;
    var r := Request(true, true, ATL1, PIN, 1, Some(SUCCESS), []);
    var started := Step(INITIAL, StartOp);
    AuthUserBookkeeping(started.shared, r, 0);
    var granted := Step(started, AuthUserOp(r));
    assert Granted(started.shared, r);
    L.RetainEffect(started.shared.threads, GROUP_AUTH, 1, THREAD_MAX_TASK_NUM);
    AuthUserGroups(started.shared, r, 0);
    RestartAgreesIffNothingSaved(granted);
    hide Step;
    OneStep(INITIAL, StartOp, [AuthUserOp(r), StopOp, StartOp]);
    OneStep(started, AuthUserOp(r), [StopOp, StartOp]);
    OneStep(granted, StopOp, [StartOp]);
    OneStep(Step(granted, StopOp), StartOp, []);
  }

  lemma OneStep(st: State, op: Op, rest: seq<Op>)
    ensures Run(st, [op] + rest) == Run(Step(st, op), rest)
  {
    hide Step;
    assert ([op] + rest)[1..] == rest;
  }

  lemma AuthUserGroups(st: Shared, r: Request, id: nat)
    requires GROUP_AUTH in st.threads.groups
    ensures GROUP_AUTH in AuthUser(st, r, id).0.threads.groups
  {
  }

  // ------------------------------------- handlers and their threads

  /** Every queued task of this service belongs to a callback of the context it serves. */
  ghost predicate Owned(st: State) {
    forall t <- L.Pending(st.shared.threads) ::
      t.User? && t.owner.Serving? && t.owner.name == GROUP_AUTH ==>
        && t.body < |st.calls| && st.calls[t.body].id < |st.callbacks|
        && st.callbacks[st.calls[t.body].id].contextId == t.owner.tx
  }

  ghost predicate SameOwners(st: State, after: State) {
    && st.calls <= after.calls && |st.callbacks| <= |after.callbacks|
    && forall i | 0 <= i < |st.callbacks| :: after.callbacks[i].contextId == st.callbacks[i].contextId
  }

  lemma OwnedShrinks(st: State, after: State)
    requires Owned(st) && SameOwners(st, after)
    requires L.Pending(after.shared.threads) <= L.Pending(st.shared.threads)
    ensures Owned(after)
  {
    hide L.Pending;
    forall t <- L.Pending(after.shared.threads) | t.User? && t.owner.Serving? && t.owner.name == GROUP_AUTH
      ensures && t.body < |after.calls| && after.calls[t.body].id < |after.callbacks|
              && after.callbacks[after.calls[t.body].id].contextId == t.owner.tx
    {
      assert t in L.Pending(st.shared.threads);
      assert after.calls[t.body] == st.calls[t.body];
    }
  }

  lemma NoNewWork(st: Shared, other: Shared, contextId: uint64)
    requires other.threads == st.threads
    ensures L.Pending(Forget(other, contextId).0.threads) <= L.Pending(st.threads)
  {
    hide L.Pending;
    L.StepPending(st.threads, T.ReleaseOp(GROUP_AUTH, contextId));
  }

  lemma FinishHandlePending(st: Shared, cb: Callback, code: int, oracle: Oracle)
    ensures L.Pending(FinishHandle(st, cb, code, oracle).0.threads) <= L.Pending(st.threads)
    ensures FinishHandle(st, cb, code, oracle).1.contextId == cb.contextId
  {
    hide L.Pending, Forget;
    forall other: Shared {:trigger Forget(other, cb.contextId)} | other.threads == st.threads
      ensures L.Pending(Forget(other, cb.contextId).0.threads) <= L.Pending(st.threads)
    {
      NoNewWork(st, other, cb.contextId);
    }
  }

  lemma AuthUserPending(st: Shared, r: Request, id: nat)
    ensures L.Pending(AuthUser(st, r, id).0.threads) <= L.Pending(st.threads)
  {
    hide L.Pending, T.Retain;
    L.RetainPending(st.threads, GROUP_AUTH, r.contextId, THREAD_MAX_TASK_NUM);
  }

  lemma NotifyOwned(st: State, call: Call)
    requires Owned(st) && call.id < |st.callbacks|
    ensures Owned(Notify(st, call))
  {
    hide L.Pending;
    var cb, after := st.callbacks[call.id], Notify(st, call);
    L.StepPending(st.shared.threads, T.PostOp(GROUP_AUTH, cb.contextId, |st.calls|));
    if !T.Post(st.shared.threads, GROUP_AUTH, cb.contextId, |st.calls|).1 {
      RefusedPost(st.shared.threads, cb.contextId, |st.calls|);
      OwnedShrinks(st, after);
    }
  }

  lemma RefusedPost(st: T.State, tx: uint64, body: nat)
    requires !T.Post(st, GROUP_AUTH, tx, body).1
    ensures L.Pending(T.Post(st, GROUP_AUTH, tx, body).0) <= L.Pending(st)
  {
  }

  lemma HandleOwned(st: State, call: Call, oracle: Oracle)
    requires Owned(st) && call.id < |st.callbacks|
    ensures Owned(Handle(st, call, oracle))
  {
    hide L.Pending, FinishHandle, Owned;
    if call.FinishCall? {
      FinishHandlePending(st.shared, st.callbacks[call.id], call.code, oracle);
    }
    OwnedShrinks(st, Handle(st, call, oracle));
  }

  lemma ThreadStepOwned(st: State, op: T.Op)
    requires Owned(st) && (op.PostOp? ==> op.name != GROUP_AUTH)
    ensures Owned(st.(shared := st.shared.(threads := T.Step(st.shared.threads, op))))
  {
    hide L.Pending, T.Step;
    L.StepPending(st.shared.threads, op);
  }

  lemma StepOwned(st: State, op: Op)
    requires Owned(st)
    ensures Owned(Step(st, op))
  {
    hide L.Pending, AuthUser, Handle, Notify, T.Work, T.CreateGroup, T.DestroyGroup, CancelAll, Owned;
    match op
    case StartOp =>
      ThreadStepOwned(st, T.CreateOp(GROUP_AUTH, T.GROUP_MAX_THREAD_NUM));
      var threads := T.CreateGroup(st.shared.threads, GROUP_AUTH, T.GROUP_MAX_THREAD_NUM).0;
      OwnedShrinks(st.(shared := st.shared.(threads := threads)), Step(st, op));
    case StopOp => ThreadStepOwned(st, T.DestroyOp(GROUP_AUTH));
    case AuthUserOp(r) =>
      AuthUserPending(st.shared, r, |st.callbacks|);
      OwnedShrinks(st, Step(st, op));
    case CancelAuthOp(contextId, permitted, driver) => OwnedShrinks(st, Step(st, op));
    case CreateOp(contextId, count, authType) => OwnedShrinks(st, Step(st, op));
    case NotifyOp(call) => if call.id < |st.callbacks| { NotifyOwned(st, call); }
    case WorkOp(p, oracle) =>
      ThreadStepOwned(st, T.WorkOp(p));
      var worked := st.(shared := st.shared.(threads := T.Work(st.shared.threads, p)));
      var next := NextCall(st, p);
      if next.Some? && next.value.id < |st.callbacks| {
        HandleOwned(worked, next.value, oracle);
      }
    case OtherOp(op) => if Elsewhere(op) { ThreadStepOwned(st, op); }
  }

  lemma {:induction false} OwnedOfRuns(st: State, ops: seq<Op>)
    requires Owned(st)
    ensures Owned(Run(st, ops))
    decreases |ops|
  {
    hide Owned, Step;
    if ops != [] {
      StepOwned(st, ops[0]);
      OwnedOfRuns(Step(st, ops[0]), ops[1..]);
    }
  }

  /**
   * In every run, a handler executes on a thread that is labelled, at that moment, with the
   * group and the context of the callback it belongs to.
   */
  lemma HandlersRunUnderTheirContext(ops: seq<Op>, p: T.Ptr)
    requires NextCall(Run(INITIAL, ops), p).Some?
    ensures var st := Run(INITIAL, ops);
            var call := NextCall(st, p).value;
            && call.id < |st.callbacks|
            && st.shared.threads.heap[p].curr == T.Serving(GROUP_AUTH, st.callbacks[call.id].contextId)
  {
    hide Step;
    AgreementOfRuns(INITIAL, ops);
    OwnedOfRuns(INITIAL, ops);
    var threads := Run(INITIAL, ops).shared.threads;
    var pool := threads.heap[p];
    assert pool.queue[0] in pool.queue && pool.queue[0] in L.Pending(threads);
    assert L.QueueOk(pool.curr, pool.queue);
  }

  // --------------------------------------------- the answer without a thread

  /** OnFinish answers BUSY exactly when the context's thread is gone, answered or not. */
  lemma BusyIffThreadGone(st: State, id: nat, code: int)
    requires Agreement(st.shared, st.clean) && id < |st.callbacks|
    ensures var after := Notify(st, FinishCall(id, code));
            after.shared.trace == if st.callbacks[id].contextId in Retained(st.shared) then st.shared.trace
                                  else st.shared.trace + [Busy(id)]
  {
    L.PostKeeps(st.shared.threads, GROUP_AUTH, st.callbacks[id].contextId, |st.calls|);
  }

  /** So a late OnFinish gives the client a second result after any answer. */
  lemma LateFinishIsBusy(st: State, id: nat, code: int, oracle: Oracle, late: int)
    requires Agreement(st.shared, st.clean) && id < |st.callbacks| && !st.callbacks[id].done
    requires FinishHandle(st.shared, st.callbacks[id], code, oracle).1.done
    ensures var answered := Handle(st, FinishCall(id, code), oracle);
            Notify(answered, FinishCall(id, late)).shared.trace == answered.shared.trace + [Busy(id)]
  {
    hide FinishHandle, Agreement, Notify, Retained;
    AnswerClearsContext(st.shared, st.callbacks[id], code, oracle, st.clean);
    HandleKeeps(st, FinishCall(id, code), oracle);
    FinishHandlePending(st.shared, st.callbacks[id], code, oracle);
    BusyIffThreadGone(Handle(st, FinishCall(id, code), oracle), id, late);
  }
}
