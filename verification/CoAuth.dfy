/** The pool, call monitor, messenger and manager as objects updated in place. */
module CoAuth {
  import opened Common
  import opened OrderedKeys
  import opened AttributeState
  import opened CoAuthState
  import CoAuthEffects
  import Tlv
  import LittleEndian

  /** The registered executors and the stored schedules. */
  class AuthResPool {
    var executors: map<uint64, Registration>
    var schedules: map<uint64, Schedule>

    constructor ()
      ensures executors == map[] && schedules == map[]
    {
      executors, schedules := map[], map[];
    }

    /** Walks the registrations in key order to the first one of the type. */
    method FindExecutorCallback(authType: uint32) returns (callback: Option<nat>)
      ensures callback == FindExecutor(executors, authType)
      ensures forall c: nat :: callback == Some(c) <==> CoAuthEffects.FirstOfType(executors, authType, c)
    {
      hide CoAuthEffects.FirstOfType;
      forall c: nat ensures FindExecutor(executors, authType) == Some(c) <==>
                            CoAuthEffects.FirstOfType(executors, authType, c) {
        CoAuthEffects.FoundIsFirst(executors, authType, c);
      }
      var todo := executors.Keys;
      while todo != {}
        invariant todo <= executors.Keys
        invariant forall k <- executors :: k !in todo ==> executors[k].authType != Some(authType)
        invariant forall k <- executors, x <- todo :: k !in todo ==> k < x
        decreases |todo|
      {
        ghost var least := FindLeast(todo);
        var k :| k in todo && forall x <- todo :: k <= x;
        if executors[k].authType == Some(authType) {
          assert IsLeast(k, set k <- executors | executors[k].authType == Some(authType));
          return executors[k].callback;
        }
        todo := todo - {k};
      }
      return None;
    }

    method InsertExecutor(executorId: uint64, reg: Registration)
      modifies this`executors
      ensures executors == if executorId in old(executors) then old(executors)
                           else old(executors)[executorId := reg]
    {
      if executorId !in executors {
        executors := executors[executorId := reg];
      }
    }

    method ScheduleCountMinus(id: uint64) returns (code: int)
      modifies this`schedules
      ensures code == if id in old(schedules) && old(schedules)[id].executorNum > 0 then SUCCESS else FAIL
      ensures schedules ==
              if code != SUCCESS then old(schedules)
              else old(schedules)[id := old(schedules)[id].(executorNum := old(schedules)[id].executorNum - 1)]
    {
      if id !in schedules || schedules[id].executorNum <= 0 {
        return FAIL;
      }
      schedules := schedules[id := schedules[id].(executorNum := schedules[id].executorNum - 1)];
      return SUCCESS;
    }

    method DeleteScheduleCallback(id: uint64) returns (code: int)
      modifies this`schedules
      ensures schedules == old(schedules) - {id} && code == if id in old(schedules) then SUCCESS else FAIL
    {
      if id !in schedules {
        return FAIL;
      }
      schedules := schedules - {id};
      return SUCCESS;
    }
  }

  /** Named tasks waiting for their delay. */
  class CallMonitor {
    var pending: multiset<uint64>

    constructor ()
      ensures pending == multiset{}
    {
      pending := multiset{};
    }

    method MonitorCall(id: uint64)
      modifies this
      ensures pending == old(pending) + multiset{id}
    {
      pending := pending + multiset{id};
    }

    /** Removes every task of that name. */
    method MonitorRemoveCall(id: uint64)
      modifies this
      ensures pending == old(pending)[id := 0]
    {
      pending := pending[id := 0];
    }
  }

  /** Everything that left the service, in order. */
  class Wire {
    ghost var trace: seq<Event>

    constructor ()
      ensures trace == []
    {
      trace := [];
    }

    ghost method Emit(e: Event)
      modifies this
      ensures trace == old(trace) + [e]
    {
      trace := trace + [e];
    }
  }

  class CoAuthManager {
    const pool: AuthResPool
    const monitor: CallMonitor
    const wire: Wire
    var ready: bool

    constructor ()
      ensures fresh(pool) && fresh(monitor) && fresh(wire) && World() == Initial(false)
    {
      pool := new AuthResPool();
      monitor := new CallMonitor();
      wire := new Wire();
      ready := false;
    }

    ghost function World(): State
      reads this, pool, monitor, wire
    {
      State.State(ready, pool.executors, pool.schedules, monitor.pending, wire.trace)
    }

    /** Connects the manager to its pool. */
    method RegistResourceManager()
      modifies this
      ensures World() == old(World()).(ready := true)
    {
      ready := true;
    }

    // The messenger handed to executors.

    method Finish(id: uint64, resultCode: int, finalResult: Option<Attrs>, unset: uint64) returns (code: int)
      modifies pool, monitor, wire
      ensures (World(), code) == CoAuthState.Finish(old(World()), id, resultCode, finalResult, unset)
    {
      var scheCount: int := unset;
      if id in pool.schedules {
        scheCount := pool.schedules[id].executorNum;
      }
      if scheCount > 1 {
        var counted := pool.ScheduleCountMinus(id);
        if counted == SUCCESS {
          wire.Emit(Absorbed(id));
        }
        return SUCCESS;
      }
      monitor.MonitorRemoveCall(id);
      if id !in pool.schedules {
        return FAIL;
      }
      var callback := pool.schedules[id].callback;
      var scheduleResult: seq<byte> := [];
      if finalResult.None? {
        wire.Emit(Finished(id, callback, FAIL, scheduleResult));
        var _ := pool.DeleteScheduleCallback(id);
        return FAIL;
      }
      if resultCode == SUCCESS && Tlv.AUTH_RESULT in finalResult.value.u8Arrays {
        scheduleResult := finalResult.value.u8Arrays[Tlv.AUTH_RESULT];
      }
      wire.Emit(Finished(id, callback, resultCode, scheduleResult));
      var _ := pool.DeleteScheduleCallback(id);
      return SUCCESS;
    }

    method SendData(id: uint64, msg: Option<seq<byte>>) returns (code: int)
      modifies wire
      ensures (World(), code) == CoAuthState.SendData(old(World()), id, msg)
    {
      if msg.None? || id !in pool.schedules {
        return FAIL;
      }
      if |msg.value| != 4 {
        return FAIL;
      }
      var acquire := LittleEndian.U32(msg.value);
      wire.Emit(Acquired(id, pool.schedules[id].callback, acquire));
      return SUCCESS;
    }

    /** The messages an executor sends while it is being called. */
    method Replay(during: seq<Message>)
      modifies pool, monitor, wire
      ensures World() == Deliver(old(World()), during)
    {
      var rest := during;
      while rest != []
        invariant Deliver(World(), rest) == Deliver(old(World()), during)
      {
        match rest[0] {
          case FinishMsg(id, code, result, unset) =>
            var _ := Finish(id, code, result, unset);
          case SendMsg(id, data) =>
            var _ := SendData(id, data);
        }
        rest := rest[1..];
      }
    }

    method BeginExecute(info: ScheduleInfo, replies: seq<Reply>) returns (executeRet: int)
      modifies pool, monitor, wire
      ensures (World(), executeRet) == BeginFrom(old(World()), info, replies, 0, SUCCESS)
    {
      hide FindExecutor, CoAuthEffects.FirstOfType, Deliver, ReplyAt;
      executeRet := SUCCESS;
      for i := 0 to |info.executors|
        invariant BeginFrom(World(), info, replies, i, executeRet) == BeginFrom(old(World()), info, replies, 0, SUCCESS)
      {
        var callback := pool.FindExecutorCallback(info.executors[i]);
        if callback.None? {
          continue;
        }
        wire.Emit(Began(info.scheduleId, callback.value));
        var reply := ReplyAt(replies, i);
        Replay(reply.during);
        if reply.code != SUCCESS {
          executeRet := reply.code;
        }
      }
    }

    method CoAuthHandle(info: ScheduleInfo, callback: Option<nat>, replies: seq<Reply>)
      modifies pool, monitor, wire
      ensures World() == BeginSchedule(old(World()), info, callback, replies)
    {
      if callback.None? {
        return;
      }
      var id := info.scheduleId;
      wire.Emit(Submitted(id, callback.value));
      if |info.executors| == 0 {
        wire.Emit(Finished(id, callback.value, FAIL, []));
        return;
      }
      if !ready {
        wire.Emit(Finished(id, callback.value, FAIL, []));
        return;
      }
      if id !in pool.schedules {
        wire.Emit(Event.Stored(id, callback.value));
        pool.schedules := pool.schedules[id := Schedule(|info.executors|, info, callback.value)];
      }
      monitor.MonitorCall(id);
      var executeRet := BeginExecute(info, replies);
      if executeRet != SUCCESS {
        wire.Emit(Finished(id, callback.value, executeRet, []));
        var _ := pool.DeleteScheduleCallback(id);
        monitor.MonitorRemoveCall(id);
      }
    }

    method Cancel(id: uint64, replies: seq<Reply>) returns (executeRet: int)
      modifies pool, monitor, wire
      ensures (World(), executeRet) == CoAuthState.Cancel(old(World()), id, replies)
    {
      hide FindExecutor, CoAuthEffects.FirstOfType, Deliver, ReplyAt;
      if !ready {
        return FAIL;
      }
      if id !in pool.schedules {
        return FAIL;
      }
      var info := pool.schedules[id].info;
      if |info.executors| == 0 {
        return FAIL;
      }
      executeRet := SUCCESS;
      for i := 0 to |info.executors|
        invariant EndFrom(World(), info, id, replies, i, executeRet) ==
                  EndFrom(old(World()), info, id, replies, 0, SUCCESS)
      {
        var callback := pool.FindExecutorCallback(info.executors[i]);
        if callback.None? {
          continue;
        }
        wire.Emit(Ended(id, callback.value));
        var reply := ReplyAt(replies, i);
        Replay(reply.during);
        if reply.code != SUCCESS {
          executeRet := reply.code;
        }
      }
    }

    method TimeOut(id: uint64, replies: seq<Reply>)
      modifies pool, monitor, wire
      ensures World() == CoAuthState.TimeOut(old(World()), id, replies)
    {
      if !ready {
        return;
      }
      if id !in pool.schedules {
        return;
      }
      wire.Emit(Finished(id, pool.schedules[id].callback, Common.TIMEOUT, []));
      var _ := Cancel(id, replies);
      var _ := pool.DeleteScheduleCallback(id);
    }
  }
}
