/** The context table, the authentication service and its callbacks as objects updated in place. */
module UserAuth {
  import opened Common
  import opened UserAuthState
  import S = CoAuthState
  import T = ThreadGroupState
  import ThreadGroups

  /** The identifier held after i draws: the last that succeeded, or what was there before. */
  function Candidate(rands: seq<Option<uint64>>, before: uint64, i: nat): uint64
    requires i <= |rands|
  {
    if i == 0 then before
    else if rands[i - 1].Some? then rands[i - 1].value
    else Candidate(rands, before, i - 1)
  }

  /** n is the first draw after which the identifier is non-zero and not in the table. */
  ghost predicate FirstUsable(contexts: map<uint64, seq<uint64>>, rands: seq<Option<uint64>>, before: uint64, n: nat) {
    && 1 <= n <= |rands|
    && Candidate(rands, before, n) != 0 && Candidate(rands, before, n) !in contexts
    && forall m | 1 <= m < n :: Candidate(rands, before, m) == 0 || Candidate(rands, before, m) in contexts
  }

  /** The identifiers a context may get. */
  predicate Usable(contexts: map<uint64, seq<uint64>>, id: uint64) {
    id != 0 && id !in contexts
  }

  lemma {:induction false} NoneUsable(contexts: map<uint64, seq<uint64>>, rands: seq<Option<uint64>>, n: nat)
    requires n <= |rands| && forall m | 0 <= m < n :: rands[m].Some? ==> !Usable(contexts, rands[m].value)
    ensures !Usable(contexts, Candidate(rands, 0, n))
  {
    if n > 0 && rands[n - 1].None? {
      NoneUsable(contexts, rands, n - 1);
    }
  }

  /**
   * The first usable identifier is the first draw that succeeds with a non-zero identifier no
   * context has; draws that fail and identifiers that are taken are passed over.
   */
  lemma FirstUsableDraw(contexts: map<uint64, seq<uint64>>, rands: seq<Option<uint64>>, n: nat)
    ensures FirstUsable(contexts, rands, 0, n) <==>
            && 1 <= n <= |rands| && rands[n - 1].Some? && Usable(contexts, rands[n - 1].value)
            && forall m | 0 <= m < n - 1 :: rands[m].Some? ==> !Usable(contexts, rands[m].value)
    ensures FirstUsable(contexts, rands, 0, n) ==> rands[n - 1] == Some(Candidate(rands, 0, n))
  {
    if 1 <= n <= |rands| {
      if FirstUsable(contexts, rands, 0, n) {
        forall m | 0 <= m < n - 1 ensures rands[m].Some? ==> !Usable(contexts, rands[m].value) {
          assert rands[m].Some? ==> Candidate(rands, 0, m + 1) == rands[m].value;
        }
        if rands[n - 1].None? {
          NoneUsable(contexts, rands, n - 1);
          assert false;
        }
      } else {
        forall m | 1 <= m < n && forall k | 0 <= k < n - 1 :: rands[k].Some? ==> !Usable(contexts, rands[k].value)
          ensures !Usable(contexts, Candidate(rands, 0, m))
        {
          NoneUsable(contexts, rands, m);
        }
      }
    }
  }

  class UserAuthDataMgr {
    var contexts: map<uint64, seq<uint64>>

    constructor ()
      ensures contexts == map[]
    {
      contexts := map[];
    }

    method AddContextId(contextId: uint64) returns (code: int)
      modifies this
      ensures code == if contextId in old(contexts) then GENERAL_ERROR else SUCCESS
      ensures contexts == if code == SUCCESS then old(contexts)[contextId := []] else old(contexts)
    {
      if contextId in contexts {
        return GENERAL_ERROR;
      }
      contexts := contexts[contextId := []];
      return SUCCESS;
    }

    /**
     * Draws until the identifier is usable; a failed draw re-examines the one already held.
     * None stands for a loop still running when the given draws are used up.
     */
    method GenerateContextId(before: uint64, rands: seq<Option<uint64>>) returns (contextId: Option<uint64>)
      ensures contextId.Some? <==> exists n :: FirstUsable(contexts, rands, before, n)
      ensures forall n :: FirstUsable(contexts, rands, before, n) ==> contextId == Some(Candidate(rands, before, n))
    {
      var id, i := before, 0;
      while i < |rands|
        invariant i <= |rands| && id == Candidate(rands, before, i)
        invariant forall m | 1 <= m <= i :: Candidate(rands, before, m) == 0 || Candidate(rands, before, m) in contexts
      {
        if rands[i].Some? {
          id := rands[i].value;
        }
        i := i + 1;
        if id !in contexts && id != 0 {
          assert FirstUsable(contexts, rands, before, i);
          return Some(id);
        }
      }
      return None;
    }

    method DeleteContextId(contextId: uint64) returns (code: int)
      modifies this
      ensures contexts == old(contexts) - {contextId}
      ensures code == if contextId in old(contexts) then SUCCESS else GENERAL_ERROR
    {
      if contextId !in contexts {
        return GENERAL_ERROR;
      }
      contexts := contexts - {contextId};
      return SUCCESS;
    }

    method SetScheduleIds(contextId: uint64, ids: seq<uint64>) returns (code: int)
      modifies this
      ensures code == if contextId in old(contexts) then SUCCESS else GENERAL_ERROR
      ensures contexts == if code == SUCCESS then old(contexts)[contextId := ids] else old(contexts)
    {
      if contextId !in contexts {
        return GENERAL_ERROR;
      }
      contexts := contexts[contextId := ids];
      return SUCCESS;
    }

    method GetScheduleIds(contextId: uint64) returns (code: int, ids: seq<uint64>)
      ensures code == SUCCESS <==> contextId in contexts
      ensures code == SUCCESS ==> ids == contexts[contextId]
    {
      if contextId !in contexts {
        return GENERAL_ERROR, [];
      }
      return SUCCESS, contexts[contextId];
    }
  }

  /** Copies a schedule of the driver; refused without executors, templates or full-size keys. */
  method CopyScheduleInfo(h: HdiSchedule) returns (info: Option<S.ScheduleInfo>)
    ensures info == if Copyable(h) then Some(CopyInfo(h)) else None
  {
    if |h.executors| == 0 || |h.templateIds| == 0 {
      return None;
    }
    var executors: seq<uint32> := [];
    for i := 0 to |h.executors|
      invariant |executors| == i
      invariant forall k | 0 <= k < i ::
                  |h.executors[k].publicKey| == PUBLIC_KEY_LEN && executors[k] == h.executors[k].authType
    {
      if |h.executors[i].publicKey| != PUBLIC_KEY_LEN {
        assert h.executors[i] in h.executors;
        return None;
      }
      executors := executors + [h.executors[i].authType];
    }
    assert executors == CopyInfo(h).executors;
    return Some(S.ScheduleInfo(h.scheduleId, executors));
  }

  /** The adapter and service state shared by all callback objects. */
  class UserAuthService {
    const dataMgr: UserAuthDataMgr
    const threads: ThreadGroups.ThreadGroups
    var saved: map<uint64, nat>
    ghost var trace: seq<Event>

    ghost function Model(): Shared
      reads this, dataMgr, threads
    {
      Shared.Shared(dataMgr.contexts, saved, threads.Model(), trace)
    }

    constructor ()
      ensures fresh(dataMgr) && fresh(threads) && Model() == INITIAL.shared
    {
      dataMgr := new UserAuthDataMgr();
      threads := new ThreadGroups.ThreadGroups();
      saved, trace := map[], [];
    }

    ghost method Tell(e: Event)
      modifies this`trace
      ensures trace == old(trace) + [e]
    {
      trace := trace + [e];
    }

    method SaveCoAuthCallback(contextId: uint64, id: nat) returns (code: int)
      modifies this`saved, threads
      ensures (Model(), code) == Save(old(Model()), contextId, id)
    {
      var retained := threads.RetainTaskThread(GROUP_AUTH, contextId, THREAD_MAX_TASK_NUM);
      if !retained {
        return FAIL;
      }
      if contextId in saved {
        return FAIL;
      }
      saved := saved[contextId := id];
      return SUCCESS;
    }

    method DeleteCoAuthCallback(contextId: uint64) returns (code: int)
      modifies this`saved, threads
      ensures (Model(), code) == Forget(old(Model()), contextId)
    {
      var _ := threads.ReleaseTaskThread(GROUP_AUTH, contextId);
      if contextId in saved {
        saved := saved - {contextId};
        return SUCCESS;
      }
      assert saved - {contextId} == saved;
      return FAIL;
    }

    /** Cancels each schedule; a failing cancellation is only logged. */
    method CancelSchedules(ids: seq<uint64>)
      modifies this`trace
      ensures Model() == CancelAll(old(Model()), ids)
    {
      var rest := ids;
      while rest != []
        invariant CancelAll(Model(), rest) == CancelAll(old(Model()), ids)
      {
        Tell(CancelSchedule(rest[0]));
        rest := rest[1..];
      }
    }

    method GenerateSolution(contextId: uint64, r: Request) returns (code: int, infos: seq<S.ScheduleInfo>)
      modifies dataMgr
      ensures (Model(), code) == UserAuthState.GenerateSolution(old(Model()), contextId, r)
      ensures code == SUCCESS ==> infos == CopyInfos(r.schedules)
    {
      if r.driver.None? {
        return GENERAL_ERROR, [];
      }
      if r.driver.value != SUCCESS {
        return r.driver.value, [];
      }
      infos := [];
      var ids: seq<uint64> := [];
      for i := 0 to |r.schedules|
        invariant |infos| == |ids| == i && Model() == old(Model())
        invariant forall k | 0 <= k < i ::
                    Copyable(r.schedules[k]) && infos[k] == CopyInfo(r.schedules[k])
                    && ids[k] == r.schedules[k].scheduleId
      {
        var info := CopyScheduleInfo(r.schedules[i]);
        if info.None? {
          assert exists h <- r.schedules :: !Copyable(h);
          return GENERAL_ERROR, infos;
        }
        infos := infos + [info.value];
        ids := ids + [info.value.scheduleId];
      }
      assert infos == CopyInfos(r.schedules) && ids == Ids(r.schedules);
      code := dataMgr.SetScheduleIds(contextId, ids);
    }

    /** Saves the new callback object id, then hands every schedule to the scheduler. */
    method CoAuth(infos: seq<S.ScheduleInfo>, contextId: uint64, id: nat) returns (code: int)
      modifies this, threads
      ensures var (kept, saving) := Save(old(Model()), contextId, id);
              Model() == (if saving == SUCCESS then BeginAll(kept, id, infos) else kept)
              && code == saving
    {
      code := SaveCoAuthCallback(contextId, id);
      if code != SUCCESS {
        return;
      }
      ghost var kept := Model();
      var rest := infos;
      while rest != []
        invariant BeginAll(Model(), id, rest) == BeginAll(kept, id, infos)
      {
        Tell(Begun(id, rest[0].scheduleId));
        rest := rest[1..];
      }
    }

    /** The checks before a solution is asked for; None while no identifier has been drawn. */
    method GetControllerData(trustLevel: int, rands: seq<Option<uint64>>) returns (code: Option<int>, contextId: uint64)
      modifies dataMgr, this`trace
      ensures code.None? ==> Model() == old(Model()) && !exists n :: FirstUsable(old(dataMgr.contexts), rands, 0, n)
      ensures code == Some(FAIL) ==>
                !(ATL1 <= trustLevel <= ATL4) && Model() == Emit(old(Model()), Refused(TRUST_LEVEL_NOT_SUPPORT))
      ensures code.Some? && code != Some(FAIL) ==>
                && code == Some(SUCCESS) && ATL1 <= trustLevel <= ATL4
                && (exists n :: FirstUsable(old(dataMgr.contexts), rands, 0, n) && contextId == Candidate(rands, 0, n))
                && Model() == old(Model()).(contexts := old(dataMgr.contexts)[contextId := []])
    {
      if ATL4 < trustLevel || trustLevel < ATL1 {
        Tell(Refused(TRUST_LEVEL_NOT_SUPPORT));
        return Some(FAIL), 0;
      }
      var generated := dataMgr.GenerateContextId(0, rands);
      if generated.None? {
        return None, 0;
      }
      contextId := generated.value;
      var added := dataMgr.AddContextId(contextId);
      assert added == SUCCESS;
      code := Some(SUCCESS);
    }

    /**
     * The call with the identifier drawn; None while none has been drawn. A returned context is
     * the first usable draw.
     */
    method AuthUser(r: Request, rands: seq<Option<uint64>>, id: nat)
      returns (contextId: Option<uint64>, ghost drawn: uint64)
      modifies this, dataMgr, threads
      ensures contextId.None? ==>
                Model() == old(Model()) && !exists n :: FirstUsable(old(dataMgr.contexts), rands, 0, n)
      ensures contextId.Some? ==>
                (Model(), contextId.value) == UserAuthState.AuthUser(old(Model()), r.(contextId := drawn), id)
      ensures contextId.Some? && contextId.value != 0 ==>
                exists n :: FirstUsable(old(dataMgr.contexts), rands, 0, n) && contextId.value == Candidate(rands, 0, n)
    {
      hide T.Retain, Save, BeginAll, CopyInfos, Ids, Copyable, Candidate;
      drawn := r.contextId;
      if !r.hasCallback {
        return Some(0), drawn;
      }
      if !r.permitted {
        Tell(Refused(E_CHECK_PERMISSION_FAILED));
        return Some(0), drawn;
      }
      var checked, context := GetControllerData(r.trustLevel, rands);
      if checked.None? {
        return None, drawn;
      }
      if checked.value == FAIL {
        return Some(0), drawn;
      }
      drawn := context;
      var code, infos := GenerateSolution(context, r);
      if code != SUCCESS {
        var _ := dataMgr.DeleteContextId(context);
        Tell(Refused(code));
        return Some(0), drawn;
      }
      code := CoAuth(infos, context, id);
      if code != SUCCESS {
        var _ := dataMgr.DeleteContextId(context);
        Tell(Refused(code));
        return Some(0), drawn;
      }
      return Some(context), drawn;
    }

    method CancelAuth(contextId: uint64, permitted: bool, driver: int) returns (code: int)
      modifies this, dataMgr
      ensures (Model(), code) == UserAuthState.CancelAuth(old(Model()), contextId, permitted, driver)
    {
      if !permitted {
        return E_CHECK_PERMISSION_FAILED;
      }
      if contextId !in dataMgr.contexts {
        return INVALID_PARAMETERS;
      }
      Tell(CancelContext(contextId));
      if driver != SUCCESS {
        return driver;
      }
      var found, ids := dataMgr.GetScheduleIds(contextId);
      assert found == SUCCESS;
      CancelSchedules(ids);
      var _ := dataMgr.DeleteContextId(contextId);
      return SUCCESS;
    }
  }

  class UserAuthCallbackImplCoAuth {
    const service: UserAuthService
    const id: nat
    const contextId: uint64
    const count: uint32
    const authType: int
    var now: uint32
    var done: bool

    ghost function Model(): Callback
      reads this
    {
      Callback.Callback(id, contextId, count, now, done, authType)
    }

    constructor (service: UserAuthService, id: nat, contextId: uint64, sessions: uint32, authType: int)
      ensures this.service == service && Model() == NewCallback(id, contextId, sessions, authType)
    {
      this.service, this.id, this.contextId := service, id, contextId;
      this.count, this.authType := sessions, authType;
      now, done := 0, false;
    }

    method DealFinishData()
      modifies this`done, service, service.dataMgr, service.threads
      ensures service.Model() == DealFinish(old(service.Model()), contextId) && done
    {
      var code, ids := service.dataMgr.GetScheduleIds(contextId);
      if code == SUCCESS {
        service.CancelSchedules(ids);
      }
      var _ := service.dataMgr.DeleteContextId(contextId);
      var _ := service.DeleteCoAuthCallback(contextId);
      done := true;
    }

    method OnFinishHandle(code: int, oracle: Oracle)
      modifies this, service, service.dataMgr, service.threads
      ensures (service.Model(), Model()) == FinishHandle(old(service.Model()), old(Model()), code, oracle)
    {
      now := (now + 1) % TWO_32;
      if done {
        return;
      }
      var ret := GENERAL_ERROR;
      if code != CANCELED {
        ret := oracle.ret;
      }
      if ret == E_RET_UNDONE {
        if now == count {
          var _ := service.dataMgr.DeleteContextId(contextId);
          var _ := service.DeleteCoAuthCallback(contextId);
          service.Tell(Answered(id, GENERAL_ERROR, [], 0, 0));
          done := true;
        }
        return;
      }
      if code == LOCKED && authType == PIN {
        service.Tell(Freeze(id));
      }
      if ret == SUCCESS {
        if authType == PIN {
          service.Tell(Thaw(id));
        }
      }
      var token := if ret == SUCCESS then oracle.token else [];
      service.Tell(Answered(id, code, token, oracle.remainTimes, oracle.freezingTime));
      DealFinishData();
    }

    method OnAcquireInfoHandle(acquire: uint32)
      modifies service`trace
      ensures service.Model() == AcquireHandle(old(service.Model()), Model(), acquire)
    {
      if done {
        return;
      }
      service.Tell(Acquire(id, acquire));
    }

    /** Posts the call, known as body, to the context's thread; BUSY goes out if none is retained. */
    method OnFinish(body: nat)
      modifies this`done, service`trace, service.threads
      ensures var (threads, posted) := T.Post(old(service.Model().threads), GROUP_AUTH, contextId, body);
              && done == (old(done) || !posted)
              && service.Model() == old(service.Model()).(
                   threads := threads,
                   trace := if posted then old(service.trace) else old(service.trace) + [Busy(id)])
    {
      var posted := service.threads.PostTask(GROUP_AUTH, contextId, body);
      if !posted {
        service.Tell(Busy(id));
        done := true;
      }
    }

    method OnAcquireInfo(body: nat)
      modifies this`done, service.threads
      ensures var (threads, posted) := T.Post(old(service.Model().threads), GROUP_AUTH, contextId, body);
              && done == (old(done) || !posted)
              && service.Model() == old(service.Model()).(threads := threads)
    {
      var posted := service.threads.PostTask(GROUP_AUTH, contextId, body);
      if !posted {
        done := true;
      }
    }
  }
}
