/**
 * An executor and its asynchronous commands: the set of commands to answer on disconnection
 * and the messages each command sends.
 */
module ExecutorState {
  import opened Common

  /** What a command sends through its messenger. */
  datatype Message = SendData(id: nat, transNum: uint32) | Finish(id: nat, code: int)

  datatype Command = Command(id: nat, finished: bool, messenger: bool, transNum: uint32)

  function NewCommand(id: nat, messenger: bool): Command {
    Command(id, false, messenger, 1)
  }

  // OnResult: the first one finishes the command and gives up its messenger.

  function Concluded(c: Command): Command {
    if c.finished then c else c.(finished := true, messenger := false)
  }

  function LastMessages(c: Command, code: int): seq<Message> {
    if c.finished || !c.messenger then [] else [Finish(c.id, code)]
  }

  // OnAcquireInfo: the transaction number advances whether or not anything was sent.

  function Acquired(c: Command): Command {
    if c.finished then c else c.(transNum := (c.transNum + 1) % TWO_32)
  }

  function AcquireMessages(c: Command): seq<Message> {
    if c.finished || !c.messenger then [] else [SendData(c.id, c.transNum)]
  }

  /** granted holds the commands whose start was reported as a success. */
  datatype State = State(
    commands: seq<Command>,
    respond: set<nat>,
    connected: bool,
    alive: bool,
    granted: set<nat>,
    trace: seq<Message>)

  const INITIAL: State := State([], {}, true, true, {}, [])

  /** A call of the driver on a command. */
  datatype Call = ResultCall(id: nat, code: int) | AcquireCall(id: nat)

  function OnResult(st: State, id: nat, code: int): State
    requires id < |st.commands|
  {
    var c := st.commands[id];
    st.(commands := st.commands[id := Concluded(c)],
        trace := st.trace + LastMessages(c, code),
        respond := if c.finished || !st.alive then st.respond else st.respond - {id})
  }

  function OnAcquireInfo(st: State, id: nat): State
    requires id < |st.commands|
  {
    var c := st.commands[id];
    st.(commands := st.commands[id := Acquired(c)], trace := st.trace + AcquireMessages(c))
  }

  function Receive(st: State, call: Call): State {
    if call.id >= |st.commands| then st
    else
      match call
      case ResultCall(id, code) => OnResult(st, id, code)
      case AcquireCall(id) => OnAcquireInfo(st, id)
  }

  function Deliver(st: State, calls: seq<Call>): State
    decreases |calls|
  {
    if calls == [] then st else Deliver(Receive(st, calls[0]), calls[1..])
  }

  /** What the driver does with a request: the calls made meanwhile, and its result. */
  datatype Reply = Reply(during: seq<Call>, code: int)

  /** StartProcess: registers the command and sends it to the driver; a refused one is dropped unanswered. */
  function Start(st: State, id: nat, attributes: bool, reply: Reply): (State, int) {
    if !st.alive then (st, GENERAL_ERROR)
    else
      var st := st.(respond := st.respond + {id});
      var (st, code) :=
        if attributes && st.connected then (Deliver(st, reply.during), reply.code) else (st, GENERAL_ERROR);
      if code != SUCCESS then (st.(respond := if st.alive then st.respond - {id} else st.respond), code)
      else (st.(granted := st.granted + {id}), SUCCESS)
  }

  function Create(st: State, messenger: bool): State {
    st.(commands := st.commands + [NewCommand(|st.commands|, messenger)])
  }

  function Process(st: State, messenger: bool, attributes: bool, reply: Reply): (State, int) {
    Start(Create(st, messenger), |st.commands|, attributes, reply)
  }

  predicate Enumerates(order: seq<nat>, ids: set<nat>) {
    && (forall id <- order :: id in ids) && (forall id <- ids :: id in order)
    && (forall i, j | 0 <= i < j < |order| :: order[i] != order[j])
  }

  /** Answers the listed commands with an error, each removing itself from the set. */
  function RespondAll(st: State, order: seq<nat>): State
    decreases |order|
  {
    if order == [] then st else RespondAll(Receive(st, ResultCall(order[0], GENERAL_ERROR)), order[1..])
  }

  /** The order is the one in which the set lists its commands. */
  function Disconnect(st: State, order: seq<nat>): State {
    RespondAll(st.(connected := false), order).(respond := {})
  }

  /** The executor object is destroyed while the driver may still hold commands. */
  function Release(st: State): State {
    st.(alive := false, respond := {})
  }

  datatype Op =
    | ProcessOp(messenger: bool, attributes: bool, reply: Reply)
    | CallOp(call: Call)
    | DisconnectOp(order: seq<nat>)
    | ReleaseOp

  function Step(st: State, op: Op): State {
    match op
    case ProcessOp(messenger, attributes, reply) => Process(st, messenger, attributes, reply).0
    case CallOp(call) => Receive(st, call)
    case DisconnectOp(order) => if st.alive && Enumerates(order, st.respond) then Disconnect(st, order) else st
    case ReleaseOp => Release(st)
  }

  function Run(st: State, ops: seq<Op>): State
    decreases |ops|
  {
    if ops == [] then st else Run(Step(st, ops[0]), ops[1..])
  }
}
