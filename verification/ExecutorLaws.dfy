/** What a command's messenger receives in every run, and what disconnection leaves behind. */
module ExecutorLaws {
  import opened Common
  import opened ExecutorState

  /** The messages of one command. */
  function Of(trace: seq<Message>, id: nat): seq<Message>
    decreases |trace|
  {
    if trace == [] then []
    else
      var last := trace[|trace| - 1];
      Of(trace[..|trace| - 1], id) + if last.id == id then [last] else []
  }

  /** n data messages numbered from one, wrapping at thirty-two bits. */
  function Sends(id: nat, n: nat): (s: seq<Message>)
    ensures |s| == n && forall j | 0 <= j < n :: s[j] == SendData(id, (1 + j) % TWO_32)
  {
    if n == 0 then [] else Sends(id, n - 1) + [SendData(id, n % TWO_32)]
  }

  /** The messages a command may have sent, given its state. */
  ghost predicate Told(c: Command, sent: seq<Message>) {
    if c.messenger then
      !c.finished && sent == Sends(c.id, |sent|) && c.transNum == (1 + |sent|) % TWO_32
    else
      sent == [] || (c.finished && exists code :: sent == Sends(c.id, |sent| - 1) + [Finish(c.id, code)])
  }

  ghost predicate Inv(st: State) {
    && (forall i | 0 <= i < |st.commands| :: st.commands[i].id == i && Told(st.commands[i], Of(st.trace, i)))
    && (forall m <- st.trace :: m.id < |st.commands|)
    && (forall id <- st.respond :: id < |st.commands| && !st.commands[id].finished && st.alive)
    && (forall id <- st.granted ::
          id < |st.commands| && (st.commands[id].finished || id in st.respond || !st.alive))
  }

  lemma {:induction false} NothingOf(trace: seq<Message>, id: nat)
    requires forall m <- trace :: m.id != id
    ensures Of(trace, id) == []
    decreases |trace|
  {
    if trace != [] {
      NothingOf(trace[..|trace| - 1], id);
    }
  }

  lemma Append(trace: seq<Message>, news: seq<Message>, id: nat, i: nat)
    requires |news| <= 1 && forall m <- news :: m.id == id
    ensures Of(trace + news, i) == Of(trace, i) + if i == id then news else []
  {
    if news == [] {
      assert trace + news == trace;
    } else {
      assert (trace + news)[..|trace|] == trace && (trace + news)[|trace|] == news[0] && news == [news[0]];
    }
  }

  lemma ResultTold(c: Command, sent: seq<Message>, code: int)
    requires Told(c, sent)
    ensures Told(Concluded(c), sent + LastMessages(c, code))
  {
    if c.messenger {
      var told := sent + [Finish(c.id, code)];
      assert told == Sends(c.id, |told| - 1) + [Finish(c.id, code)];
    } else {
      assert sent + [] == sent;
    }
  }

  lemma AcquireTold(c: Command, sent: seq<Message>)
    requires Told(c, sent)
    ensures Told(Acquired(c), sent + AcquireMessages(c))
  {
    if !c.messenger {
      assert sent + [] == sent;
    }
  }

  /** What one call does to its command, the trace and the set. */
  ghost predicate OneCall(st: State, after: State, id: nat, news: seq<Message>) {
    && id < |st.commands| && |news| <= 1 && (forall m <- news :: m.id == id)
    && after == st.(commands := after.commands, trace := st.trace + news, respond := after.respond)
    && |after.commands| == |st.commands|
    && (forall i | 0 <= i < |st.commands| && i != id :: after.commands[i] == st.commands[i])
    && after.commands[id].id == st.commands[id].id
    && (st.commands[id].finished ==> after.commands[id].finished)
    && after.respond == if !st.commands[id].finished && after.commands[id].finished && st.alive
                        then st.respond - {id} else st.respond
  }

  lemma ReceiveEffect(st: State, call: Call) returns (news: seq<Message>)
    requires Inv(st) && call.id < |st.commands|
    ensures OneCall(st, Receive(st, call), call.id, news)
    ensures Told(Receive(st, call).commands[call.id], Of(st.trace, call.id) + news)
  {
    hide Told;
    var c := st.commands[call.id];
    match call
    case ResultCall(id, code) =>
      ResultTold(c, Of(st.trace, id), code);
      news := LastMessages(c, code);
    case AcquireCall(id) =>
      AcquireTold(c, Of(st.trace, id));
      news := AcquireMessages(c);
  }

  lemma OneCallKeeps(st: State, after: State, id: nat, news: seq<Message>)
    requires Inv(st) && OneCall(st, after, id, news) && Told(after.commands[id], Of(st.trace, id) + news)
    ensures Inv(after)
  {
    hide Told;
    forall i | 0 <= i < |st.commands| ensures Told(after.commands[i], Of(after.trace, i)) {
      Append(st.trace, news, id, i);
      assert Of(st.trace, i) + [] == Of(st.trace, i);
    }
  }

  lemma ReceiveKeeps(st: State, call: Call)
    requires Inv(st)
    ensures Inv(Receive(st, call)) && Follows(st, Receive(st, call))
  {
    hide Inv;
    if call.id < |st.commands| {
      var news := ReceiveEffect(st, call);
      hide Receive, Told;
      OneCallKeeps(st, Receive(st, call), call.id, news);
    }
  }

  /** Calls only finish commands, and only finished ones leave the set. */
  ghost predicate Follows(st: State, after: State) {
    && |after.commands| == |st.commands|
    && after == st.(commands := after.commands, trace := after.trace, respond := after.respond)
    && after.respond <= st.respond
    && (forall i | 0 <= i < |st.commands| ::
          && (st.commands[i].finished ==> after.commands[i].finished)
          && (i in st.respond && i !in after.respond ==> after.commands[i].finished))
  }

  lemma {:induction false} DeliverKeeps(st: State, calls: seq<Call>)
    requires Inv(st)
    ensures Inv(Deliver(st, calls)) && Follows(st, Deliver(st, calls))
    decreases |calls|
  {
    hide Inv, Receive;
    if calls != [] {
      ReceiveKeeps(st, calls[0]);
      DeliverKeeps(Receive(st, calls[0]), calls[1..]);
    }
  }

  // ---------------------------------------------------------- every run

  lemma CreateKeeps(st: State, messenger: bool, registered: bool)
    requires Inv(st) && (registered ==> st.alive)
    ensures Inv(st.(commands := st.commands + [NewCommand(|st.commands|, messenger)],
                    respond := if registered then st.respond + {|st.commands|} else st.respond))
  {
    var id := |st.commands|;
    NothingOf(st.trace, id);
    var after := st.commands + [NewCommand(id, messenger)];
    assert Told(after[id], Of(st.trace, id));
    forall i | 0 <= i < |after| ensures after[i].id == i && Told(after[i], Of(st.trace, i)) {
      if i < id {
        assert after[i] == st.commands[i];
      }
    }
  }

  lemma ProcessKeeps(st: State, messenger: bool, attributes: bool, reply: Reply)
    requires Inv(st)
    ensures Inv(Process(st, messenger, attributes, reply).0)
  {
    hide Told, Of, Deliver;
    var id := |st.commands|;
    CreateKeeps(st, messenger, st.alive);
    if st.alive {
      var added := st.(commands := st.commands + [NewCommand(id, messenger)], respond := st.respond + {id});
      assert Inv(added);
      if attributes && st.connected {
        DeliverKeeps(added, reply.during);
      }
    }
  }

  /** Answering the listed commands finishes each of them and leaves the others as they were. */
  lemma {:induction false} RespondAllEffect(st: State, order: seq<nat>)
    requires Inv(st) && st.alive && Enumerates(order, st.respond)
    ensures var after := RespondAll(st, order);
            && Inv(after) && after.respond == {}
            && after == st.(commands := after.commands, trace := after.trace, respond := {})
            && |after.commands| == |st.commands|
    ensures var after := RespondAll(st, order);
            forall i | 0 <= i < |st.commands| ::
              && after.commands[i] == (if i in st.respond then Concluded(st.commands[i]) else st.commands[i])
              && Of(after.trace, i) ==
                 Of(st.trace, i) + (if i in st.respond then LastMessages(st.commands[i], GENERAL_ERROR) else [])
    decreases |order|
  {
    if order == [] {
      assert st.respond == {};
    } else {
      FirstListed(order, st.respond);
      RestEnumerates(order, st.respond);
      FirstAnswer(st, order[0]);
      hide Inv, Enumerates, Receive, Concluded, LastMessages, Of;
      RespondAllEffect(Receive(st, ResultCall(order[0], GENERAL_ERROR)), order[1..]);
    }
  }

  lemma {:induction false} RespondLast(st: State, order: seq<nat>, id: nat)
    ensures RespondAll(st, order + [id]) == Receive(RespondAll(st, order), ResultCall(id, GENERAL_ERROR))
    decreases |order|
  {
    if order == [] {
      assert order + [id] == [id];
    } else {
      hide Receive;
      assert (order + [id])[1..] == order[1..] + [id];
      RespondLast(Receive(st, ResultCall(order[0], GENERAL_ERROR)), order[1..], id);
    }
  }

  lemma FirstListed(order: seq<nat>, ids: set<nat>)
    requires order != [] && Enumerates(order, ids)
    ensures order[0] in ids
  {
  }

  lemma RestEnumerates(order: seq<nat>, ids: set<nat>)
    requires order != [] && Enumerates(order, ids)
    ensures Enumerates(order[1..], ids - {order[0]})
  {
    var rest := order[1..];
    forall i | 0 <= i < |rest| ensures rest[i] in ids && rest[i] != order[0] {
      assert rest[i] == order[i + 1];
    }
    forall id <- ids - {order[0]} ensures id in rest {
      var k :| 0 <= k < |order| && order[k] == id;
      assert rest[k - 1] == id;
    }
  }

  lemma FirstAnswer(st: State, id: nat)
    requires Inv(st) && st.alive && id in st.respond
    ensures var after := Receive(st, ResultCall(id, GENERAL_ERROR));
            && Inv(after)
            && after == st.(commands := st.commands[id := Concluded(st.commands[id])],
                            trace := after.trace, respond := st.respond - {id})
            && forall i | 0 <= i < |st.commands| ::
                 Of(after.trace, i) ==
                 Of(st.trace, i) + if i == id then LastMessages(st.commands[i], GENERAL_ERROR) else []
  {
    ReceiveKeeps(st, ResultCall(id, GENERAL_ERROR));
    forall i | 0 <= i < |st.commands|
      ensures Of(st.trace + LastMessages(st.commands[id], GENERAL_ERROR), i) ==
              Of(st.trace, i) + if i == id then LastMessages(st.commands[i], GENERAL_ERROR) else []
    {
      Append(st.trace, LastMessages(st.commands[id], GENERAL_ERROR), id, i);
    }
  }

  lemma StepKeeps(st: State, op: Op)
    requires Inv(st)
    ensures Inv(Step(st, op))
  {
    hide Told, Of, Process, Receive, RespondAll, Enumerates;
    match op
    case ProcessOp(messenger, attributes, reply) => ProcessKeeps(st, messenger, attributes, reply);
    case CallOp(call) => ReceiveKeeps(st, call);
    case DisconnectOp(order) =>
      if st.alive && Enumerates(order, st.respond) {
        RespondAllEffect(st.(connected := false), order);
      }
    case ReleaseOp =>
  }

  lemma {:induction false} InvOfRuns(st: State, ops: seq<Op>)
    requires Inv(st)
    ensures Inv(Run(st, ops))
    decreases |ops|
  {
    hide Inv, Step;
    if ops != [] {
      StepKeeps(st, ops[0]);
      InvOfRuns(Step(st, ops[0]), ops[1..]);
    }
  }

  /**
   * In every run a command's messenger receives data numbered 1, 2, 3, ... (modulo 2^32), then
   * at most one result, and after that nothing; a finished command that sent anything sent one.
   */
  lemma MessagesOfACommand(ops: seq<Op>, id: nat) returns (n: nat)
    requires id < |Run(INITIAL, ops).commands|
    ensures var st := Run(INITIAL, ops);
            var sent := Of(st.trace, id);
            && n <= |sent| <= n + 1
            && (forall j | 0 <= j < n :: sent[j] == SendData(id, (1 + j) % TWO_32))
            && (|sent| > n ==> sent[n].Finish? && sent[n].id == id)
            && (sent != [] ==> (st.commands[id].finished <==> |sent| > n))
  {
    hide Step;
    InvOfRuns(INITIAL, ops);
    var st := Run(INITIAL, ops);
    var sent := Of(st.trace, id);
    assert Told(st.commands[id], sent);
    n := if st.commands[id].messenger || sent == [] then |sent| else |sent| - 1;
  }

  // ------------------------------------------------------- disconnection

  /**
   * Disconnection finishes exactly the registered commands, sends one error result for each
   * that has a messenger, touches no other command, and empties the set, in whatever order.
   */
  lemma DisconnectAnswersEveryCommand(ops: seq<Op>, order: seq<nat>)
    requires var st := Run(INITIAL, ops); st.alive && Enumerates(order, st.respond)
    ensures var st := Run(INITIAL, ops);
            var after := Disconnect(st, order);
            && after.respond == {} && !after.connected && |after.commands| == |st.commands|
            && (forall id <- st.respond :: id < |st.commands| && after.commands[id].finished)
            && (forall id <- st.granted :: id < |st.commands| && after.commands[id].finished)
            && forall i | 0 <= i < |st.commands| ::
                 && (i !in st.respond ==> after.commands[i] == st.commands[i])
                 && Of(after.trace, i) == Of(st.trace, i) +
                      if i in st.respond && st.commands[i].messenger then [Finish(i, GENERAL_ERROR)] else []
  {
    hide Step, Of, Told, Enumerates, RespondAll;
    InvOfRuns(INITIAL, ops);
    RespondAllEffect(Run(INITIAL, ops).(connected := false), order);
  }

  /** The executor never serves again: a later request is refused and leaves nothing behind. */
  lemma RefusedAfterDisconnect(st: State, messenger: bool, attributes: bool, reply: Reply)
    requires Inv(st) && !st.connected
    ensures var (after, code) := Process(st, messenger, attributes, reply);
            && code == GENERAL_ERROR && after.respond == st.respond && after.trace == st.trace
  {
    assert |st.commands| !in st.respond;
    assert st.respond + {|st.commands|} - {|st.commands|} == st.respond;
  }

  lemma {:induction false} StaysDisconnected(st: State, ops: seq<Op>)
    requires Inv(st) && !st.connected
    ensures !Run(st, ops).connected
    decreases |ops|
  {
    hide Inv, Step;
    if ops != [] {
      StepKeeps(st, ops[0]);
      StepStaysDisconnected(st, ops[0]);
      StaysDisconnected(Step(st, ops[0]), ops[1..]);
    }
  }

  lemma StepStaysDisconnected(st: State, op: Op)
    requires Inv(st) && !st.connected
    ensures !Step(st, op).connected
  {
    hide Told, Of, Receive, RespondAll, Enumerates, Deliver;
    match op
    case ProcessOp(_, _, _) =>
    case CallOp(call) => ReceiveKeeps(st, call);
    case DisconnectOp(order) =>
      if st.alive && Enumerates(order, st.respond) {
        RespondAllEffect(st, order);
      }
    case ReleaseOp =>
  }
}
