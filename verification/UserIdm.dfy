/** The session module, its handlers and the controller as objects updated in place. */
module UserIdm {
  import opened Common
  import opened UserIdmState

  class UserIDMModule {
    var challenge: uint64
    var scheduleId: uint64

    constructor ()
      ensures challenge == 0 && scheduleId == 0
    {
      challenge, scheduleId := 0, 0;
    }

    method InsertChallenge(challenge: uint64)
      modifies this`challenge
      ensures this.challenge == challenge
    {
      this.challenge := challenge;
    }

    method InsertScheduleId(scheduleId: uint64)
      modifies this`scheduleId
      ensures this.scheduleId == scheduleId
    {
      this.scheduleId := scheduleId;
    }

    method DeleteSessionId()
      modifies this`scheduleId
      ensures scheduleId == 0
    {
      scheduleId := 0;
    }

    method CleanData()
      modifies this
      ensures challenge == 0 && scheduleId == 0
    {
      challenge := 0;
      scheduleId := 0;
    }

    /** The second result stays what the caller had when there is no challenge. */
    method CheckChallenge(before: uint64) returns (found: bool, value: uint64)
      ensures found <==> challenge != 0
      ensures value == if found then challenge else before
    {
      if challenge == 0 {
        return false, before;
      }
      return true, challenge;
    }

    method CheckScheduleIdIsActive(before: uint64) returns (active: bool, value: uint64)
      ensures active <==> scheduleId != 0
      ensures value == if active then scheduleId else before
    {
      active, value := false, before;
      if scheduleId != 0 {
        active := true;
        value := scheduleId;
      }
    }
  }

  class UserIDMCoAuthHandler {
    const index: nat
    const kind: Kind
    const lastScheduleId: uint64
    const controller: UserIDMController
    var innerCallback: Option<nat>

    constructor (index: nat, kind: Kind, scheduleId: uint64, controller: UserIDMController, client: Option<nat>)
      ensures this.index == index && this.controller == controller && Model() == Handler(kind, scheduleId, client)
    {
      this.index, this.kind, this.lastScheduleId, this.controller := index, kind, scheduleId, controller;
      innerCallback := client;
    }

    ghost function Model(): Handler
      reads this
    {
      Handler(kind, lastScheduleId, innerCallback)
    }

    ghost predicate Registered()
      reads controller, controller.handlers
    {
      controller.Valid() && index < |controller.handlers| && controller.handlers[index] == this
    }

    method OnFinishModify(prop: Option<int>) returns (result: int)
      requires Registered() && innerCallback.Some?
      modifies controller`trace, controller.data
      ensures Registered()
      ensures (controller.Model(), result) == FinishModify(old(controller.Model()), index, Model(), prop)
    {
      var open, challenge := controller.data.CheckChallenge(0);
      if !open {
        return FAIL;
      }
      var active, scheduleId := controller.data.CheckScheduleIdIsActive(0);
      if active && scheduleId == lastScheduleId {
        controller.Log(Committed(index, lastScheduleId, controller.Model().data));
        assert controller.Model().handlers == old(controller.Model()).handlers;
        if prop.Some? {
          controller.OnPropResult(innerCallback, prop.value);
        }
        assert controller.Model().handlers == old(controller.Model()).handlers;
        return SUCCESS;
      }
      return FAIL;
    }

    method OnFinish(code: int, commit: int, prop: Option<int>)
      requires Registered()
      modifies controller`trace, controller.data
      ensures Registered()
      ensures controller.Model() == UserIdmState.OnFinish(old(controller.Model()), index, code, commit, prop)
    {
      if innerCallback.None? {
        return;
      }
      var result := FAIL;
      if code != SUCCESS {
        controller.data.DeleteSessionId();
        controller.Tell(innerCallback, result);
        return;
      }
      if kind.Add? {
        var active, scheduleId := controller.data.CheckScheduleIdIsActive(0);
        if active && scheduleId == lastScheduleId {
          controller.Log(Committed(index, lastScheduleId, controller.Model().data));
          result := commit;
        }
        controller.data.DeleteSessionId();
        controller.Tell(innerCallback, result);
      } else {
        result := OnFinishModify(prop);
        controller.Tell(innerCallback, result);
        controller.data.DeleteSessionId();
      }
    }

    method ResetCallback()
      requires Registered()
      modifies this
      ensures Registered() && controller.Model() == Receive(old(controller.Model()), ResetNotice(index))
    {
      innerCallback := None;
      assert controller.Model().handlers == old(controller.Model()).handlers[index := Model()];
    }
  }

  class UserIDMController {
    const data: UserIDMModule
    var handlers: seq<UserIDMCoAuthHandler>  // every handler object there has been
    ghost var trace: seq<Event>

    ghost predicate Valid()
      reads this, handlers
    {
      forall i | 0 <= i < |handlers| :: handlers[i].index == i && handlers[i].controller == this
    }

    ghost function Model(): State
      reads this, data, handlers
    {
      State.State(Module(data.challenge, data.scheduleId),
                  seq(|handlers|, i requires 0 <= i < |handlers| reads this, handlers => handlers[i].Model()),
                  trace)
    }

    constructor ()
      ensures fresh(data) && Valid() && Model() == INITIAL
    {
      data := new UserIDMModule();
      handlers, trace := [], [];
    }

    ghost method Log(e: Event)
      modifies this`trace
      ensures trace == old(trace) + [e]
    {
      trace := trace + [e];
    }

    method Tell(client: Option<nat>, code: int)
      modifies this`trace
      ensures trace == if client.None? then old(trace) else old(trace) + [Answered(client.value, code)]
    {
      if client.Some? {
        Log(Answered(client.value, code));
      }
    }

    /** UserIDMSetPropHandler::OnResult. */
    method OnPropResult(client: Option<nat>, code: int)
      modifies this`trace, data
      ensures Model() == PropResult(old(Model()), client, code)
    {
      Tell(client, code);
      data.DeleteSessionId();
      assert Model().handlers == old(Model()).handlers;
    }

    /** Everything that arrives while the scheduler is at work. */
    method Replay(notices: seq<Notice>)
      requires Valid()
      modifies this`trace, data, handlers
      ensures Valid() && Model() == Deliver(old(Model()), notices)
    {
      var rest := notices;
      while rest != []
        invariant Valid() && Deliver(Model(), rest) == Deliver(old(Model()), notices)
      {
        match rest[0] {
          case FinishNotice(h, code, commit, prop) =>
            if h < |handlers| {
              handlers[h].OnFinish(code, commit, prop);
            }
          case PropNotice(client, code) => OnPropResult(client, code);
          case ResetNotice(h) =>
            if h < |handlers| {
              handlers[h].ResetCallback();
            }
        }
        rest := rest[1..];
      }
    }

    method Cancel(scheduleId: uint64, during: seq<Notice>)
      requires Valid() && scheduleId == data.scheduleId
      modifies this`trace, data, handlers
      ensures Valid() && Model() == CancelSchedule(old(Model()), during)
    {
      Log(Cancelled(scheduleId));
      assert Model().handlers == old(Model()).handlers;
      Replay(during);
    }

    method CloseEditSessionCtrl(during: seq<Notice>)
      requires Valid()
      modifies this`trace, data, handlers
      ensures Valid() && Model() == Shut(old(Model()), during)
    {
      var active, sessionId := data.CheckScheduleIdIsActive(0);
      if active {
        var open, _ := data.CheckChallenge(0);
        if open {
          Cancel(sessionId, during);
        }
      }
      ghost var cancelled := Model();
      data.CleanData();
      assert Model().handlers == cancelled.handlers;
    }

    /** The same before a new challenge is asked for. */
    method OpenEditSessionCtrl(challenge: uint64, during: seq<Notice>)
      requires Valid()
      modifies this`trace, data, handlers
      ensures Valid() && Model() == Open(old(Model()), challenge, during)
    {
      CloseEditSessionCtrl(during);
      ghost var shut := Model();
      data.InsertChallenge(challenge);
      assert Model().handlers == shut.handlers;
    }

    method CloseEditSessionOfUser(driver: int, during: seq<Notice>)
      requires Valid()
      modifies this`trace, data, handlers
      ensures Valid() && Model() == CloseUser(old(Model()), driver, during)
    {
      if driver != SUCCESS {
        return;
      }
      CloseEditSessionCtrl(during);
    }

    /** AddCredentialCtrl and UpdateCredentialCtrl differ in the kind of handler only. */
    method CredentialCtrl(kind: Kind, client: Option<nat>, s: Schedule) returns (code: int)
      requires Valid()
      modifies this, data, handlers
      ensures Valid() && (Model(), code) == Enroll(old(Model()), kind, client, s)
    {
      if client.None? {
        return INVALID_PARAMETERS;
      }
      var open, challenge := data.CheckChallenge(0);
      if !open {
        Tell(client, FAIL);
        assert Model().handlers == old(Model()).handlers;
        return FAIL;
      }
      var active, _ := data.CheckScheduleIdIsActive(0);
      if active {
        Tell(client, BUSY);
        assert Model().handlers == old(Model()).handlers;
        return BUSY;
      }
      if s.code != SUCCESS {
        Tell(client, FAIL);
        assert Model().handlers == old(Model()).handlers;
        return s.code;
      }
      data.InsertScheduleId(s.scheduleId);
      Log(Inserted(s.scheduleId, challenge));
      var handler := new UserIDMCoAuthHandler(|handlers|, kind, s.scheduleId, this, client);
      handlers := handlers + [handler];
      Log(Begun(handler.index));
      assert Model().handlers == old(Model()).handlers + [Handler(kind, s.scheduleId, client)];
      Replay(s.during);
      return SUCCESS;
    }

    method DelSchedleIdCtrl(challenge: uint64, cancel: int, during: seq<Notice>) returns (result: int)
      requires Valid()
      modifies this`trace, data, handlers
      ensures Valid() && (Model(), result) == DeleteByChallenge(old(Model()), challenge, cancel, during)
    {
      var _, lastChallenge := data.CheckChallenge(0);
      if lastChallenge != challenge {
        return FAIL;
      }
      var active, sessionId := data.CheckScheduleIdIsActive(0);
      if !active {
        return FAIL;
      }
      Cancel(sessionId, during);
      if cancel != SUCCESS {
        return cancel;
      }
      ghost var cancelled := Model();
      data.DeleteSessionId();
      assert Model().handlers == cancelled.handlers;
      return cancel;
    }

    method DelSchedleIdOfUser(driver: int, during: seq<Notice>) returns (result: int)
      requires Valid()
      modifies this`trace, data, handlers
      ensures Valid() && (Model(), result) == DeleteByUser(old(Model()), driver, during)
    {
      if driver != SUCCESS {
        return driver;
      }
      var open, _ := data.CheckChallenge(0);
      if !open {
        return driver;
      }
      var active, sessionId := data.CheckScheduleIdIsActive(0);
      if !active {
        return driver;
      }
      Cancel(sessionId, during);
      ghost var cancelled := Model();
      data.DeleteSessionId();
      assert Model().handlers == cancelled.handlers;
      return driver;
    }
  }
}
