/** What each call and handler does: every answer, message and entry, and the codes of refusals. */
module UserAuthEffects {
  import opened Common
  import opened UserAuthState
  import opened UserAuthLaws
  import T = ThreadGroupState
  import L = ThreadGroupLaws

  // ------------------------------------------------------------- finishing

  /** The driver granted the authentication; a cancelled schedule never asks it. */
  predicate GrantedBy(code: int, oracle: Oracle) {
    code != CANCELED && oracle.ret == SUCCESS
  }

  /** Nothing but the context, the saved callback and the thread of contextId goes. */
  ghost predicate Dropped(st: Shared, after: Shared, contextId: uint64) {
    && after.contexts == st.contexts - {contextId} && after.saved == st.saved - {contextId}
    && Retained(after) == Retained(st) - {contextId}
  }

  lemma ForgetEffect(st: Shared, contextId: uint64)
    requires L.SlotsOk(st.threads)
    ensures var (after, code) := Forget(st, contextId);
            && code == (if contextId in st.saved then SUCCESS else FAIL)
            && after.contexts == st.contexts && after.trace == st.trace
            && after.saved == st.saved - {contextId} && Retained(after) == Retained(st) - {contextId}
  {
    hide L.SlotsOk;
    L.ReleaseEffect(st.threads, GROUP_AUTH, contextId);
  }

  lemma CancelAllFrame(st: Shared, ids: seq<uint64>)
    ensures CancelAll(st, ids) == st.(trace := st.trace + Cancellations(ids))
  {
    CancelAllTrace(st, ids);
  }

  lemma DealFinishEffect(st: Shared, contextId: uint64)
    requires L.SlotsOk(st.threads)
    ensures Dropped(st, DealFinish(st, contextId), contextId)
    ensures DealFinish(st, contextId).trace == st.trace + Cancellations(ScheduleIds(st, contextId))
  {
    hide Forget, Cancellations, L.SlotsOk, Retained;
    var ids := ScheduleIds(st, contextId);
    CancelAllFrame(st, ids);
    DealFinishTrace(st, contextId);
    var cancelled := if contextId in st.contexts then CancelAll(st, ids) else st;
    var gone := DeleteContext(cancelled, contextId);
    ForgetEffect(gone, contextId);
    SameThreads(st, gone);
  }

  /**
   * A decided finish: a locked PIN freezes the other templates, a granted PIN thaws them, the
   * client is told the schedule's code, the driver's token if it granted one, and the driver's
   * remaining attempts and freezing time; then the context's schedules are cancelled.
   */
  lemma DecidedEffect(st: Shared, cb: Callback, code: int, oracle: Oracle)
    requires !cb.done && !Undecided(code, oracle) && L.SlotsOk(st.threads)
    ensures var (after, cb') := FinishHandle(st, cb, code, oracle);
            && after.trace == st.trace
                 + (if code == LOCKED && cb.authType == PIN then [Freeze(cb.id)] else [])
                 + (if GrantedBy(code, oracle) && cb.authType == PIN then [Thaw(cb.id)] else [])
                 + [Answered(cb.id, code, if GrantedBy(code, oracle) then oracle.token else [],
                             oracle.remainTimes, oracle.freezingTime)]
                 + Cancellations(ScheduleIds(st, cb.contextId))
            && Dropped(st, after, cb.contextId)
            && cb' == cb.(now := (cb.now + 1) % TWO_32, done := true)
  {
    hide DealFinish, Cancellations, L.SlotsOk, Retained;
    var ret := if code != CANCELED then oracle.ret else GENERAL_ERROR;
    var frozen := if code == LOCKED && cb.authType == PIN then Emit(st, Freeze(cb.id)) else st;
    var thawed := if ret == SUCCESS && cb.authType == PIN then Emit(frozen, Thaw(cb.id)) else frozen;
    var answer := Answered(cb.id, code, if GrantedBy(code, oracle) then oracle.token else [],
                           oracle.remainTimes, oracle.freezingTime);
    assert st.trace + [] == st.trace && frozen.trace + [] == frozen.trace;
    DealFinishEffect(Emit(thawed, answer), cb.contextId);
    SameThreads(st, Emit(thawed, answer));
  }

  /** Freezing and thawing happen exactly under their conditions, once, and before the answer. */
  lemma FreezeAndThaw(st: Shared, cb: Callback, code: int, oracle: Oracle) returns (at: nat)
    requires !cb.done && !Undecided(code, oracle) && L.SlotsOk(st.threads)
    ensures var after := FinishHandle(st, cb, code, oracle).0;
            && |st.trace| <= at < |after.trace| && st.trace <= after.trace
            && after.trace[at] == Answered(cb.id, code, if GrantedBy(code, oracle) then oracle.token else [],
                                           oracle.remainTimes, oracle.freezingTime)
            && (Freeze(cb.id) in after.trace[|st.trace|..] <==> code == LOCKED && cb.authType == PIN)
            && (Thaw(cb.id) in after.trace[|st.trace|..] <==>
                  code != CANCELED && oracle.ret == SUCCESS && cb.authType == PIN)
            && (forall k | |st.trace| <= k < |after.trace| ::
                  after.trace[k].Freeze? || after.trace[k].Thaw? ==> k < at && after.trace[k].id == cb.id)
            && (forall j, k | |st.trace| <= j < k < |after.trace| ::
                  after.trace[j].Freeze? || after.trace[j].Thaw? ==> after.trace[j] != after.trace[k])
  {
    hide FinishHandle, L.SlotsOk, Dropped, Undecided, Cancellations, ScheduleIds, GrantedBy;
    DecidedEffect(st, cb, code, oracle);
    var answer := Answered(cb.id, code, if GrantedBy(code, oracle) then oracle.token else [],
                           oracle.remainTimes, oracle.freezingTime);
    var last := Cancellations(ScheduleIds(st, cb.contextId));
    CancellationsOnly(ScheduleIds(st, cb.contextId));
    var freeze, thaw := code == LOCKED && cb.authType == PIN, GrantedBy(code, oracle) && cb.authType == PIN;
    var mid := (if freeze then [Freeze(cb.id)] else []) + (if thaw then [Thaw(cb.id)] else []);
    assert mid == if freeze && thaw then [Freeze(cb.id), Thaw(cb.id)] else if freeze then [Freeze(cb.id)]
                  else if thaw then [Thaw(cb.id)] else [];
    MidOf(st.trace, if freeze then [Freeze(cb.id)] else [], if thaw then [Thaw(cb.id)] else []);
    assert FinishHandle(st, cb, code, oracle).0.trace == st.trace + mid + [answer] + last;
    at := AroundAnswer(st.trace, mid, cb.id, answer, last);
    assert Freeze(cb.id) in mid <==> freeze;
    assert Thaw(cb.id) in mid <==> thaw;
    assert thaw <==> code != CANCELED && oracle.ret == SUCCESS && cb.authType == PIN by {
      GrantedMeans(code, oracle);
    }
  }

  lemma CancellationsOnly(ids: seq<uint64>)
    ensures forall e <- Cancellations(ids) :: e.CancelSchedule?
  {
  }

  lemma GrantedMeans(code: int, oracle: Oracle)
    ensures GrantedBy(code, oracle) <==> code != CANCELED && oracle.ret == SUCCESS
  {
  }

  lemma MidOf(before: seq<Event>, first: seq<Event>, second: seq<Event>)
    ensures before + first + second == before + (first + second)
  {
  }

  lemma AroundAnswer(before: seq<Event>, mid: seq<Event>, id: nat, answer: Event, last: seq<Event>)
    returns (at: nat)
    requires answer.Answered? && forall e <- last :: e.CancelSchedule?
    requires forall k | 0 <= k < |mid| :: (mid[k].Freeze? || mid[k].Thaw?) && mid[k].id == id
    requires forall j, k | 0 <= j < k < |mid| :: mid[j] != mid[k]
    ensures var t := before + mid + [answer] + last;
            && before <= t && |before| <= at < |t| && t[at] == answer
            && (forall e: Event | e.Freeze? || e.Thaw? :: e in t[|before|..] <==> e in mid)
            && (forall k | |before| <= k < |t| :: t[k].Freeze? || t[k].Thaw? ==> k < at && t[k].id == id)
            && (forall j, k | |before| <= j < k < |t| :: t[j].Freeze? || t[j].Thaw? ==> t[j] != t[k])
  {
    var t := before + mid + [answer] + last;
    at := |before| + |mid|;
    assert t[at..] == [answer] + last;
    assert t[|before|..] == mid + ([answer] + last);
    forall k | |before| <= k < |t|
      ensures if k < at then t[k] == mid[k - |before|] else t[k].Answered? || t[k].CancelSchedule?
    {
      if k >= at {
        assert t[k] == t[at..][k - at];
      }
    }
  }

  /**
   * An undecided finish only counts, unless it is the last session expected: then the client
   * is told of an error and everything of the context goes, without cancelling its schedules.
   * A callback that is done only counts.
   */
  lemma UndecidedEffect(st: Shared, cb: Callback, code: int, oracle: Oracle)
    requires cb.done || Undecided(code, oracle)
    requires L.SlotsOk(st.threads)
    ensures var (after, cb') := FinishHandle(st, cb, code, oracle);
            var now := (cb.now + 1) % TWO_32;
            if !cb.done && now == cb.count then
              && after.trace == st.trace + [Answered(cb.id, GENERAL_ERROR, [], 0, 0)]
              && Dropped(st, after, cb.contextId) && cb' == cb.(now := now, done := true)
            else after == st && cb' == cb.(now := now)
  {
    hide Forget, L.SlotsOk, Retained;
    var gone := DeleteContext(st, cb.contextId);
    ForgetEffect(gone, cb.contextId);
    SameThreads(st, gone);
    var forgotten := Forget(gone, cb.contextId).0;
    SameThreads(forgotten, Emit(forgotten, Answered(cb.id, GENERAL_ERROR, [], 0, 0)));
  }

  // ------------------------------------------------------ posted handlers

  /** The pool that serves a context. */
  ghost predicate Serves(st: State, p: T.Ptr, contextId: uint64) {
    L.InSlot(st.shared.threads, p, GROUP_AUTH, contextId)
  }

  /**
   * OnFinish and OnAcquireInfo queue their call on the context's thread and change nothing
   * else; without a thread the callback is done, and a finish is answered BUSY.
   */
  lemma NotifyEffect(st: State, call: Call)
    requires Agreement(st.shared, st.clean) && call.id < |st.callbacks|
    ensures var after := Notify(st, call);
            var cb := st.callbacks[call.id];
            if cb.contextId in Retained(st.shared) then
              && after == st.(shared := st.shared.(threads := after.shared.threads), calls := st.calls + [call])
              && forall p :: Serves(st, p, cb.contextId) ==>
                   p in st.shared.threads.heap && p in after.shared.threads.heap
                   && after.shared.threads.heap[p].queue == st.shared.threads.heap[p].queue
                        + [T.User(T.Serving(GROUP_AUTH, cb.contextId), |st.calls|)]
            else
              && after.callbacks == st.callbacks[call.id := cb.(done := true)] && after.calls == st.calls
              && after.shared == st.shared.(trace := st.shared.trace + if call.FinishCall? then [Busy(call.id)] else [])
  {
    var cb := st.callbacks[call.id];
    L.PostKeeps(st.shared.threads, GROUP_AUTH, cb.contextId, |st.calls|);
    assert st.shared.trace + [] == st.shared.trace;
    forall p | Serves(st, p, cb.contextId) ensures p in st.shared.threads.heap && p != T.NULL {
      assert L.InSlot(st.shared.threads, p, GROUP_AUTH, cb.contextId);
    }
  }

  /** On an idle thread, the next step of its worker runs the handler of the call just posted. */
  lemma PostedCallRuns(st: State, call: Call, p: T.Ptr, oracle: Oracle)
    requires Agreement(st.shared, st.clean) && call.id < |st.callbacks|
    requires Serves(st, p, st.callbacks[call.id].contextId)
    requires p in st.shared.threads.heap && st.shared.threads.heap[p].queue == []
    ensures var posted := Step(st, NotifyOp(call));
            var after := Step(posted, WorkOp(p, oracle));
            && posted.shared.trace == st.shared.trace && posted.callbacks == st.callbacks
            && (call.AcquireCall? ==>
                  && after.callbacks == st.callbacks
                  && after.shared.trace == st.shared.trace +
                       if st.callbacks[call.id].done then []
                       else [Acquire(st.callbacks[call.id].id, call.acquire)])
            && (call.FinishCall? ==>
                  exists worked: Shared | worked == st.shared.(threads := worked.threads) ::
                    var (shared, cb) := FinishHandle(worked, st.callbacks[call.id], call.code, oracle);
                    after.shared == shared && after.callbacks == st.callbacks[call.id := cb])
  {
    hide FinishHandle, Agreement, Notify;
    NotifyEffect(st, call);
    var posted := Step(st, NotifyOp(call));
    var queue := posted.shared.threads.heap[p].queue;
    assert queue == [T.User(T.Serving(GROUP_AUTH, st.callbacks[call.id].contextId), |st.calls|)];
    assert NextCall(posted, p) == Some(call);
    var worked := posted.shared.(threads := T.Work(posted.shared.threads, p));
    assert worked == st.shared.(threads := worked.threads);
  }

  /** An acquired value goes to the client of an open callback, and nothing else happens. */
  lemma AcquireEffect(st: Shared, cb: Callback, acquire: uint32)
    ensures var after := AcquireHandle(st, cb, acquire);
            && after == st.(trace := after.trace) && st.trace <= after.trace
            && (cb.done ==> |after.trace| == |st.trace|)
            && (!cb.done ==> |after.trace| == |st.trace| + 1 && after.trace[|st.trace|] == Acquire(cb.id, acquire))
  {
  }

  // -------------------------------------------------------------- requests

  /** A schedule of the driver that the adapter refuses to copy. */
  ghost predicate Unusable(h: HdiSchedule) {
    h.executors == [] || h.templateIds == [] || exists e <- h.executors :: |e.publicKey| != 32
  }

  lemma CopyableMeansUsable(h: HdiSchedule)
    ensures Copyable(h) <==> !Unusable(h)
  {
  }

  /** The copies keep number, order, ids and the types of the executors. */
  lemma CopiesInOrder(hs: seq<HdiSchedule>, i: nat)
    requires i < |hs|
    ensures |CopyInfos(hs)| == |Ids(hs)| == |hs| && Ids(hs)[i] == hs[i].scheduleId
    ensures var info := CopyInfos(hs)[i];
            && info.scheduleId == hs[i].scheduleId && |info.executors| == |hs[i].executors|
            && forall k | 0 <= k < |info.executors| :: info.executors[k] == hs[i].executors[k].authType
  {
  }

  /** The code that the client of a refused request is told. */
  lemma RefusalCodes(st: Shared, r: Request, id: nat)
    requires r.hasCallback && AuthUser(st, r, id).1 == 0
    ensures AuthUser(st, r, id).0.trace == st.trace + [Refused(
              if !r.permitted then 18
              else if !(10000 <= r.trustLevel <= 40000) then 6
              else if r.contextId in st.contexts || r.driver.None? then 2
              else if r.driver.value != 0 then r.driver.value
              else if exists h <- r.schedules :: Unusable(h) then 2
              else 1)]
  {
    hide Save, CopyInfos, Ids, Copyable, Unusable, Retained;
    forall h ensures Copyable(h) <==> !Unusable(h) {
      CopyableMeansUsable(h);
    }
    if r.permitted && ATL1 <= r.trustLevel <= ATL4 && r.contextId !in st.contexts {
      var added := st.(contexts := st.contexts[r.contextId := []]);
      var (solved, ret) := GenerateSolution(added, r.contextId, r);
      SaveCode(solved, r.contextId, id);
    }
  }

  lemma SaveCode(st: Shared, contextId: uint64, id: nat)
    ensures var (after, code) := Save(st, contextId, id);
            && (code == SUCCESS || code == FAIL) && after.contexts == st.contexts && after.trace == st.trace
            && (code == SUCCESS ==> contextId != 0)
  {
    hide T.Retain;
    L.RetainEffect(st.threads, GROUP_AUTH, contextId, THREAD_MAX_TASK_NUM);
  }

  /**
   * Saving takes a thread whenever there is room for the context, and keeps it even when the
   * context already has a saved callback; only then does it fail with a thread taken.
   */
  lemma SaveTakesAThread(st: Shared, contextId: uint64, id: nat)
    ensures var (after, code) := Save(st, contextId, id);
            var room := GROUP_AUTH in st.threads.groups && contextId != 0 && contextId !in Retained(st)
                        && |Retained(st)| < st.threads.groups[GROUP_AUTH].threadNum;
            && code == (if room && contextId !in st.saved then SUCCESS else FAIL)
            && after.saved == (if code == SUCCESS then st.saved[contextId := id] else st.saved)
            && Retained(after) == Retained(st) + (if room then {contextId} else {})
            && (!room ==> after == st)
  {
    hide T.Retain;
    L.RetainEffect(st.threads, GROUP_AUTH, contextId, THREAD_MAX_TASK_NUM);
    assert Retained(st) + {} == Retained(st);
  }

  /** What CancelAuth answers, and when it asks the driver at all. */
  lemma CancelAuthCodes(st: Shared, contextId: uint64, permitted: bool, driver: int)
    ensures var (after, code) := CancelAuth(st, contextId, permitted, driver);
            && code == (if !permitted then 18 else if contextId !in st.contexts then 8 else driver)
            && (!permitted || contextId !in st.contexts ==> after == st)
            && (permitted && contextId in st.contexts ==> st.trace + [CancelContext(contextId)] <= after.trace)
  {
    hide Cancellations;
    if permitted && contextId in st.contexts {
      CancelAllTrace(Emit(st, CancelContext(contextId)), st.contexts[contextId]);
    }
  }

  /** A new callback object is open, has counted nothing, and is the last in the list. */
  lemma NewCallbacks(st: State, r: Request, contextId: uint64, count: uint32, authType: int)
    ensures var granted, created := Step(st, AuthUserOp(r)), Step(st, CreateOp(contextId, count, authType));
            var n := |st.callbacks|;
            && |granted.callbacks| == |created.callbacks| == n + 1
            && granted.callbacks[..n] == created.callbacks[..n] == st.callbacks
            && granted.callbacks[n] == Callback(n, r.contextId, 0, 0, false, r.authType)
            && created.callbacks[n] == Callback(n, contextId, count, 0, false, authType)
            && created.shared == st.shared
  {
    hide AuthUser;
  }

  /** Starting the service makes a group of four threads, once; stopping removes it. */
  lemma StartAndStop(st: State)
    ensures var started, stopped := Step(st, StartOp), Step(st, StopOp);
            && GROUP_AUTH in started.shared.threads.groups && GROUP_AUTH !in stopped.shared.threads.groups
            && (GROUP_AUTH in st.shared.threads.groups ==> started == st)
            && (GROUP_AUTH !in st.shared.threads.groups ==>
                  started.shared.threads.groups[GROUP_AUTH].threadNum == 4 && Retained(started.shared) == {})
            && started.shared.saved == stopped.shared.saved == st.shared.saved
            && started.shared.contexts == stopped.shared.contexts == st.shared.contexts
  {
    hide T.ReleaseAll;
  }
}
