/** Which result a command reports, and which commands an executor must answer. */
module ExecutorResults {
  import opened Common
  import opened ExecutorState
  import opened ExecutorLaws

  /** The codes of the results among the messages of a command. */
  function FinishCodes(sent: seq<Message>): seq<int>
    decreases |sent|
  {
    if sent == [] then []
    else
      var last := sent[|sent| - 1];
      FinishCodes(sent[..|sent| - 1]) + if last.Finish? then [last.code] else []
  }

  /** The results that a list of driver calls brings to command id. */
  function ResultsIn(calls: seq<Call>, id: nat): seq<int>
    decreases |calls|
  {
    if calls == [] then []
    else (if calls[0].ResultCall? && calls[0].id == id then [calls[0].code] else []) + ResultsIn(calls[1..], id)
  }

  /** The results that an operation brings to command id: the driver's, or an error on disconnection. */
  ghost function ResultsOf(st: State, op: Op, id: nat): seq<int> {
    match op
    case ProcessOp(_, attributes, reply) =>
      if st.alive && st.connected && attributes then ResultsIn(reply.during, id) else []
    case CallOp(call) => ResultsIn([call], id)
    case DisconnectOp(order) =>
      if st.alive && Enumerates(order, st.respond) && id in st.respond then [GENERAL_ERROR] else []
    case ReleaseOp => []
  }

  ghost function ResultsOfRun(st: State, ops: seq<Op>, id: nat): seq<int>
    decreases |ops|
  {
    if ops == [] then [] else ResultsOf(st, ops[0], id) + ResultsOfRun(Step(st, ops[0]), ops[1..], id)
  }

  /** From st to after, the results rs reached command id, and the first one of all was sent. */
  ghost predicate Reported(st: State, after: State, id: nat, rs: seq<int>) {
    id < |st.commands| <= |after.commands| &&
    var c, c' := st.commands[id], after.commands[id];
    && (c.messenger ==> !c.finished)
    && c'.finished == (c.finished || rs != []) && c'.messenger == (c.messenger && rs == [])
    && FinishCodes(Of(after.trace, id)) ==
       FinishCodes(Of(st.trace, id)) + if c.messenger && rs != [] then [rs[0]] else []
  }

  lemma ReportedTransitive(a: State, b: State, c: State, id: nat, rs: seq<int>, more: seq<int>)
    requires Reported(a, b, id, rs) && Reported(b, c, id, more)
    ensures Reported(a, c, id, rs + more)
  {
    hide FinishCodes, Of;
  }

  /** A change that neither sends for the command nor touches it. */
  lemma NothingReported(st: State, after: State, id: nat)
    requires id < |st.commands| <= |after.commands| && after.commands[id] == st.commands[id]
    requires Of(after.trace, id) == Of(st.trace, id) && (st.commands[id].messenger ==> !st.commands[id].finished)
    ensures Reported(st, after, id, [])
  {
    assert FinishCodes(Of(st.trace, id)) + [] == FinishCodes(Of(st.trace, id));
  }

  lemma CodesOfOne(sent: seq<Message>, m: Message)
    ensures FinishCodes(sent + [m]) == FinishCodes(sent) + if m.Finish? then [m.code] else []
  {
    assert (sent + [m])[..|sent|] == sent;
  }

  lemma HasMessenger(st: State, id: nat)
    requires Inv(st) && id < |st.commands|
    ensures st.commands[id].id == id && (st.commands[id].messenger ==> !st.commands[id].finished)
  {
    hide Of;
    assert Told(st.commands[id], Of(st.trace, id));
  }

  /**
   * The first result of a command ends it: its code is what the messenger, if there is one, is
   * told. Later results change nothing. Other commands are not concerned.
   */
  lemma OneResult(st: State, id: nat, code: int)
    requires Inv(st) && id < |st.commands|
    ensures var c, after := st.commands[id], Receive(st, ResultCall(id, code));
            && Of(after.trace, id) ==
               Of(st.trace, id) + (if !c.finished && c.messenger then [Finish(id, code)] else [])
            && (c.finished ==> after == st)
            && (!c.finished ==> after.commands == st.commands[id := c.(finished := true, messenger := false)])
            && after.respond == (if c.finished || !st.alive then st.respond else st.respond - {id})
            && forall i | i != id :: Of(after.trace, i) == Of(st.trace, i)
  {
    hide Inv, Of;
    HasMessenger(st, id);
    var news := LastMessages(st.commands[id], code);
    assert st.trace + [] == st.trace && Of(st.trace, id) + [] == Of(st.trace, id);
    Append(st.trace, news, id, id);
    forall i | i != id ensures Of(st.trace + news, i) == Of(st.trace, i) {
      Append(st.trace, news, id, i);
      assert Of(st.trace, i) + [] == Of(st.trace, i);
    }
    assert st.commands[id := st.commands[id]] == st.commands;
  }

  /** Data is sent with the current number while the command is unfinished; the number advances. */
  lemma OneAcquire(st: State, id: nat)
    requires Inv(st) && id < |st.commands|
    ensures var c, after := st.commands[id], Receive(st, AcquireCall(id));
            && Of(after.trace, id) ==
               Of(st.trace, id) + (if !c.finished && c.messenger then [SendData(id, c.transNum)] else [])
            && (c.finished ==> after == st)
            && (!c.finished ==>
                  after.commands == st.commands[id := c.(transNum := (c.transNum + 1) % 0x1_0000_0000)])
            && after.respond == st.respond
            && forall i | i != id :: Of(after.trace, i) == Of(st.trace, i)
  {
    hide Inv, Of;
    HasMessenger(st, id);
    var news := AcquireMessages(st.commands[id]);
    assert st.trace + [] == st.trace && Of(st.trace, id) + [] == Of(st.trace, id);
    Append(st.trace, news, id, id);
    forall i | i != id ensures Of(st.trace + news, i) == Of(st.trace, i) {
      Append(st.trace, news, id, i);
      assert Of(st.trace, i) + [] == Of(st.trace, i);
    }
    assert st.commands[id := st.commands[id]] == st.commands;
  }

  lemma ReceiveReports(st: State, call: Call, id: nat)
    requires Inv(st) && id < |st.commands|
    ensures Reported(st, Receive(st, call), id, ResultsIn([call], id))
  {
    hide Inv, Of, FinishCodes, Receive;
    HasMessenger(st, id);
    assert [call][1..] == [];
    var sent := Of(st.trace, id);
    assert sent + [] == sent && FinishCodes(sent) + [] == FinishCodes(sent);
    if call.id >= |st.commands| {
      UnknownCall(st, call);
    } else {
      match call
      case ResultCall(target, code) =>
        OneResult(st, target, code);
        CodesOfOne(sent, Finish(id, code));
      case AcquireCall(target) =>
        OneAcquire(st, target);
        CodesOfOne(sent, SendData(id, st.commands[id].transNum));
    }
  }

  lemma UnknownCall(st: State, call: Call)
    requires call.id >= |st.commands|
    ensures Receive(st, call) == st
  {
  }

  lemma {:induction false} DeliverReports(st: State, calls: seq<Call>, id: nat)
    requires Inv(st) && id < |st.commands|
    ensures Reported(st, Deliver(st, calls), id, ResultsIn(calls, id))
    decreases |calls|
  {
    hide Inv, Receive, Reported, Of;
    if calls == [] {
      HasMessenger(st, id);
      NothingReported(st, st, id);
    } else {
      var next := Receive(st, calls[0]);
      ReceiveKeeps(st, calls[0]);
      ReceiveReports(st, calls[0], id);
      assert [calls[0]][1..] == [];
      assert ResultsIn([calls[0]], id) + ResultsIn(calls[1..], id) == ResultsIn(calls, id);
      DeliverReports(next, calls[1..], id);
      ReportedTransitive(st, next, Deliver(next, calls[1..]), id, ResultsIn([calls[0]], id), ResultsIn(calls[1..], id));
    }
  }

  lemma ProcessReports(st: State, messenger: bool, attributes: bool, reply: Reply, id: nat)
    requires Inv(st) && id <= |st.commands|
    ensures Reported(Create(st, messenger), Process(st, messenger, attributes, reply).0, id,
                     ResultsOf(st, ProcessOp(messenger, attributes, reply), id))
  {
    hide Inv, Of, FinishCodes, Deliver;
    var created := Create(st, messenger);
    CreateKeeps(st, messenger, false);
    CreateKeeps(st, messenger, st.alive);
    assert created == st.(commands := st.commands + [NewCommand(|st.commands|, messenger)], respond := st.respond);
    HasMessenger(created, id);
    if st.alive && st.connected && attributes {
      DeliverReports(created.(respond := st.respond + {|st.commands|}), reply.during, id);
    } else {
      NothingReported(created, Process(st, messenger, attributes, reply).0, id);
    }
  }

  lemma StepReports(st: State, op: Op, id: nat)
    requires Inv(st) && id < |st.commands|
    ensures Reported(st, Step(st, op), id, ResultsOf(st, op, id))
  {
    hide Inv, Of, FinishCodes, Receive, Enumerates, RespondAll, Process;
    HasMessenger(st, id);
    match op
    case ProcessOp(messenger, attributes, reply) => ProcessReports(st, messenger, attributes, reply, id);
    case CallOp(call) => ReceiveReports(st, call, id);
    case DisconnectOp(order) =>
      if st.alive && Enumerates(order, st.respond) {
        DisconnectedKeeps(st);
        RespondAllEffect(st.(connected := false), order);
        var sent := Of(st.trace, id);
        assert sent + [] == sent && FinishCodes(sent) + [] == FinishCodes(sent);
        CodesOfOne(sent, Finish(id, GENERAL_ERROR));
        RegisteredAreUnfinished(st, id);
      } else {
        NothingReported(st, st, id);
      }
    case ReleaseOp => NothingReported(st, Release(st), id);
  }

  lemma DisconnectedKeeps(st: State)
    requires Inv(st)
    ensures Inv(st.(connected := false))
  {
    hide Told, Of;
  }

  lemma RegisteredAreUnfinished(st: State, id: nat)
    requires Inv(st)
    ensures id in st.respond ==> id < |st.commands| && !st.commands[id].finished && st.alive
  {
    hide Told, Of;
  }

  lemma InitialInv()
    ensures Inv(INITIAL)
  {
  }

  lemma {:induction false} RunReports(st: State, ops: seq<Op>, id: nat)
    requires Inv(st) && id < |st.commands|
    ensures Reported(st, Run(st, ops), id, ResultsOfRun(st, ops, id))
    decreases |ops|
  {
    hide Inv, Step, Reported, ResultsOf;
    if ops == [] {
      HasMessenger(st, id);
      NothingReported(st, st, id);
    } else {
      var next := Step(st, ops[0]);
      StepKeeps(st, ops[0]);
      StepReports(st, ops[0], id);
      InReported(st, next, id, ResultsOf(st, ops[0], id));
      RunReports(next, ops[1..], id);
      ReportedTransitive(st, next, Run(next, ops[1..]), id, ResultsOf(st, ops[0], id),
                         ResultsOfRun(next, ops[1..], id));
    }
  }

  /**
   * In every run, a command's messenger is told exactly one result, the first that reaches the
   * command from the driver or from a disconnection, with its code; none if there is no
   * messenger or no result yet. The command is finished exactly when a result has reached it.
   */
  lemma FirstResultIsReported(before: seq<Op>, messenger: bool, attributes: bool, reply: Reply, after: seq<Op>)
    ensures var st := Run(INITIAL, before);
            var id := |st.commands|;
            var ops := [ProcessOp(messenger, attributes, reply)] + after;
            var results := ResultsOfRun(st, ops, id);
            var end := Run(st, ops);
            && id < |end.commands|
            && FinishCodes(Of(end.trace, id)) == (if messenger && results != [] then [results[0]] else [])
            && (end.commands[id].finished <==> results != [])
  {
    hide Inv, Process, Step, Reported, ResultsOf, Of, FinishCodes;
    InitialInv();
    InvOfRuns(INITIAL, before);
    var st := Run(INITIAL, before);
    var id, op := |st.commands|, ProcessOp(messenger, attributes, reply);
    assert ([op] + after)[1..] == after;
    var next := Step(st, op);
    ProcessReports(st, messenger, attributes, reply, id);
    ProcessKeeps(st, messenger, attributes, reply);
    assert next == Process(st, messenger, attributes, reply).0 by { StepIsProcess(st, messenger, attributes, reply); }
    InReported(Create(st, messenger), next, id, ResultsOf(st, op, id));
    RunReports(next, after, id);
    ReportedTransitive(Create(st, messenger), next, Run(next, after), id, ResultsOf(st, op, id),
                       ResultsOfRun(next, after, id));
    NothingSentYet(st);
    InReported(Create(st, messenger), Run(next, after), id, ResultsOfRun(st, [op] + after, id));
  }

  lemma StepIsProcess(st: State, messenger: bool, attributes: bool, reply: Reply)
    ensures Step(st, ProcessOp(messenger, attributes, reply)) == Process(st, messenger, attributes, reply).0
  {
    hide Process;
  }

  /** What the relation says. */
  lemma InReported(st: State, after: State, id: nat, rs: seq<int>)
    requires Reported(st, after, id, rs)
    ensures id < |st.commands| <= |after.commands|
    ensures after.commands[id].finished <==> st.commands[id].finished || rs != []
    ensures FinishCodes(Of(after.trace, id)) ==
            FinishCodes(Of(st.trace, id)) + if st.commands[id].messenger && rs != [] then [rs[0]] else []
  {
  }

  lemma NothingSentYet(st: State)
    requires Inv(st)
    ensures Of(st.trace, |st.commands|) == [] && FinishCodes([]) == []
  {
    NothingOf(st.trace, |st.commands|);
  }

  // ----------------------------------------------------- starting commands

  /**
   * A request is refused with an error and leaves nothing but its command when the executor is
   * gone or disconnected or the request has no attributes; otherwise the driver's result counts,
   * and an accepted command is registered until its result has arrived.
   */
  lemma ProcessEffect(st: State, messenger: bool, attributes: bool, reply: Reply)
    requires Inv(st)
    ensures var (after, code) := Process(st, messenger, attributes, reply);
            var id, asked := |st.commands|, st.alive && attributes && st.connected;
            && code == (if asked then reply.code else GENERAL_ERROR)
            && |after.commands| == id + 1 && after.alive == st.alive && after.connected == st.connected
            && after.granted == st.granted + (if asked && code == SUCCESS then {id} else {})
            && (!asked ==> after == st.(commands := st.commands + [Command(id, false, messenger, 1)]))
            && (asked ==> (id in after.respond <==> code == SUCCESS && !after.commands[id].finished))
            && (forall i | i != id :: i in after.respond ==> i in st.respond)
  {
    hide Inv, Deliver, Told, Of;
    var id := |st.commands|;
    CreateKeeps(st, messenger, st.alive);
    RegisteredAreUnfinished(st, id);
    assert st.granted + {} == st.granted;
    if st.alive {
      var added := Create(st, messenger).(respond := st.respond + {id});
      assert added.respond - {id} == st.respond;
      DeliverKeeps(added, reply.during);
      RegisteredAreUnfinished(Deliver(added, reply.during), id);
    }
  }

  /** A command in the set was granted. */
  ghost predicate OnlyGranted(st: State) {
    st.respond <= st.granted
  }

  lemma StepGranted(st: State, op: Op)
    requires Inv(st) && OnlyGranted(st)
    ensures OnlyGranted(Step(st, op))
  {
    hide Inv, Receive, Process, RespondAll, Enumerates;
    match op
    case ProcessOp(messenger, attributes, reply) =>
      ProcessEffect(st, messenger, attributes, reply);
      ProcessKeeps(st, messenger, attributes, reply);
    case CallOp(call) => ReceiveKeeps(st, call);
    case DisconnectOp(order) =>
    case ReleaseOp =>
  }

  lemma {:induction false} GrantedOfRuns(st: State, ops: seq<Op>)
    requires Inv(st) && OnlyGranted(st)
    ensures OnlyGranted(Run(st, ops))
    decreases |ops|
  {
    hide Inv, Step;
    if ops != [] {
      StepKeeps(st, ops[0]);
      StepGranted(st, ops[0]);
      GrantedOfRuns(Step(st, ops[0]), ops[1..]);
    }
  }

  /**
   * In every run, while the executor object lives, the commands it must answer on disconnection
   * are exactly those whose request was granted and whose result has not arrived.
   */
  lemma RegisteredIsGrantedAndOpen(ops: seq<Op>, id: nat)
    ensures var st := Run(INITIAL, ops);
            id in st.respond <==> st.alive && id in st.granted && id < |st.commands| && !st.commands[id].finished
  {
    hide Inv, Step;
    InitialInv();
    InvOfRuns(INITIAL, ops);
    GrantedOfRuns(INITIAL, ops);
    RegisteredAreUnfinished(Run(INITIAL, ops), id);
    GrantedAreRegistered(Run(INITIAL, ops), id);
  }

  lemma GrantedAreRegistered(st: State, id: nat)
    requires Inv(st)
    ensures id in st.granted && st.alive ==>
              id < |st.commands| && (!st.commands[id].finished ==> id in st.respond)
  {
    hide Told, Of;
  }
}
