/** Commands and their executor as objects updated in place. */
module Executors {
  import opened Common
  import opened ExecutorState
  import ExecutorLaws

  class AuthCommand {
    const id: nat
    const executor: Executor
    var isFinished: bool
    var messenger: bool
    var transNum: uint32

    constructor (id: nat, executor: Executor, messenger: bool)
      ensures this.executor == executor && Model() == NewCommand(id, messenger)
    {
      this.id, this.executor, this.messenger := id, executor, messenger;
      isFinished, transNum := false, 1;
    }

    ghost function Model(): Command
      reads this
    {
      Command(id, isFinished, messenger, transNum)
    }

    ghost predicate Registered()
      reads executor, executor.commands
    {
      executor.Valid() && id < |executor.commands| && executor.commands[id] == this
    }

    /** Leaves the executor's set, unless the executor object is gone. */
    method EndProcess()
      requires Registered()
      modifies executor`respond
      ensures executor.respond == if executor.alive then old(executor.respond) - {id} else old(executor.respond)
    {
      if executor.alive {
        executor.RemoveCommand(id);
      }
    }

    method OnResult(code: int)
      requires Registered()
      modifies this, executor`respond, executor`trace
      ensures Registered() && executor.Model() == ExecutorState.OnResult(old(executor.Model()), id, code)
    {
      if isFinished {
        assert executor.Model() == ExecutorState.OnResult(old(executor.Model()), id, code);
        return;
      }
      isFinished := true;
      if messenger {
        executor.Send(Finish(id, code));
        messenger := false;
      }
      EndProcess();
      assert executor.Model().commands == old(executor.Model()).commands[id := Model()];
    }

    method OnHdiDisconnect()
      requires Registered()
      modifies this, executor`respond, executor`trace
      ensures Registered() && executor.Model() == Receive(old(executor.Model()), ResultCall(id, GENERAL_ERROR))
    {
      OnResult(GENERAL_ERROR);
    }

    method OnAcquireInfo()
      requires Registered()
      modifies this, executor`trace
      ensures Registered() && executor.Model() == ExecutorState.OnAcquireInfo(old(executor.Model()), id)
    {
      if isFinished {
        assert executor.Model() == ExecutorState.OnAcquireInfo(old(executor.Model()), id);
        return;
      }
      if messenger {
        executor.Send(SendData(id, transNum));
      }
      transNum := (transNum + 1) % TWO_32;
      assert executor.Model().commands == old(executor.Model()).commands[id := Model()];
    }

    method StartProcess(attributes: bool, reply: Reply) returns (code: int)
      requires Registered()
      modifies executor, executor.commands
      ensures Registered() && (executor.Model(), code) == Start(old(executor.Model()), id, attributes, reply)
    {
      if !executor.alive {
        return GENERAL_ERROR;
      }
      executor.AddCommand(id);
      assert executor.Model().commands == old(executor.Model()).commands;
      code := GENERAL_ERROR;
      if attributes && executor.connected {
        executor.Drive(reply.during);
        code := reply.code;
      }
      if code != SUCCESS {
        ghost var refused := executor.Model();
        EndProcess();
        assert executor.Model().commands == refused.commands;
        return;
      }
      ghost var served := executor.Model();
      executor.granted := executor.granted + {id};
      assert executor.Model().commands == served.commands;
    }
  }

  class Executor {
    var commands: seq<AuthCommand>  // every command object there has been
    var respond: set<nat>           // command2Respond_, as positions in that list
    var connected: bool             // whether executorHdi_ is set
    var alive: bool                 // whether commands can still reach this object
    ghost var granted: set<nat>
    ghost var trace: seq<Message>

    ghost predicate Valid()
      reads this, commands
    {
      && (forall i | 0 <= i < |commands| :: commands[i].id == i && commands[i].executor == this)
      && (forall id <- respond :: id < |commands|)
    }

    ghost function Model(): State
      reads this, commands
    {
      State.State(seq(|commands|, i requires 0 <= i < |commands| reads this, commands => commands[i].Model()),
                  respond, connected, alive, granted, trace)
    }

    constructor ()
      ensures Valid() && Model() == INITIAL
    {
      commands, respond, connected, alive, granted, trace := [], {}, true, true, {}, [];
    }

    ghost method Send(m: Message)
      modifies this`trace
      ensures trace == old(trace) + [m]
    {
      trace := trace + [m];
    }

    method AddCommand(id: nat)
      modifies this`respond
      ensures respond == old(respond) + {id}
    {
      respond := respond + {id};
    }

    method RemoveCommand(id: nat)
      modifies this`respond
      ensures respond == old(respond) - {id}
    {
      respond := respond - {id};
    }

    /** The driver's calls while it handles a request. */
    method Drive(calls: seq<Call>)
      requires Valid()
      modifies this`respond, this`trace, commands
      ensures Valid() && Model() == Deliver(old(Model()), calls)
    {
      var rest := calls;
      while rest != []
        invariant Valid() && Deliver(Model(), rest) == Deliver(old(Model()), calls)
      {
        if rest[0].id < |commands| {
          match rest[0] {
            case ResultCall(id, code) => commands[id].OnResult(code);
            case AcquireCall(id) => commands[id].OnAcquireInfo();
          }
        }
        rest := rest[1..];
      }
    }

    method ProcessAuthCommand(messenger: bool, attributes: bool, reply: Reply) returns (code: int)
      requires Valid()
      modifies this, commands
      ensures Valid() && (Model(), code) == Process(old(Model()), messenger, attributes, reply)
    {
      var command := new AuthCommand(|commands|, this, messenger);
      ghost var before := Model();
      commands := commands + [command];
      assert Model().commands == Create(before, messenger).commands;
      code := command.StartProcess(attributes, reply);
    }

    /** Walks the set while each command removes itself from it; order is the order of the walk. */
    method RespondCallbackOnDisconnect() returns (ghost order: seq<nat>)
      requires Valid() && alive
      modifies this`respond, this`trace, commands
      ensures Valid() && Enumerates(order, old(respond))
      ensures Model() == RespondAll(old(Model()), order).(respond := {})
    {
      var todo := respond;
      order := [];
      while todo != {}
        invariant Valid() && todo <= old(respond)
        invariant Enumerates(order, old(respond) - todo)
        invariant Model() == RespondAll(old(Model()), order)
        decreases |todo|
      {
        var id :| id in todo;
        todo := todo - {id};
        commands[id].OnHdiDisconnect();
        ExecutorLaws.RespondLast(old(Model()), order, id);
        order := order + [id];
      }
      assert old(respond) - todo == old(respond);
      respond := {};
    }

    method OnHdiDisconnect() returns (ghost order: seq<nat>)
      requires Valid() && alive
      modifies this, commands
      ensures Valid() && Enumerates(order, old(respond)) && Model() == Disconnect(old(Model()), order)
    {
      connected := false;
      assert Model().commands == old(Model()).commands;
      order := RespondCallbackOnDisconnect();
    }
  }
}
