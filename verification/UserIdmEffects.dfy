/** What every controller operation and every notice does to the session, and what it answers. */
module UserIdmEffects {
  import opened Common
  import opened UserIdmState

  // ------------------------------------------------------------ cancelling

  lemma {:induction false} DeliverRemembers(st: State, ns: seq<Notice>)
    ensures st.trace <= Deliver(st, ns).trace && |Deliver(st, ns).handlers| == |st.handlers|
    decreases |ns|
  {
    if ns != [] {
      ReceiveRemembers(st, ns[0]);
      hide Receive;
      DeliverRemembers(Receive(st, ns[0]), ns[1..]);
    }
  }

  lemma ReceiveRemembers(st: State, n: Notice)
    ensures st.trace <= Receive(st, n).trace && |Receive(st, n).handlers| == |st.handlers|
  {
  }

  /** What arrives is dealt with one by one, in order. */
  lemma {:induction false} ArrivalOrder(st: State, first: seq<Notice>, n: Notice)
    ensures Deliver(st, first + [n]) == Receive(Deliver(st, first), n)
    decreases |first|
  {
    hide Receive;
    if first == [] {
      assert first + [n] == [n] && [n][1..] == [];
    } else {
      assert (first + [n])[1..] == first[1..] + [n];
      ArrivalOrder(Receive(st, first[0]), first[1..], n);
    }
  }

  /** The scheduler was asked to cancel what is under way, and then the notices arrived. */
  function Cancelling(st: State, during: seq<Notice>): (after: State)
    ensures st.trace + [Cancelled(st.data.scheduleId)] <= after.trace
  {
    DeliverRemembers(st.(trace := st.trace + [Cancelled(st.data.scheduleId)]), during);
    Deliver(st.(trace := st.trace + [Cancelled(st.data.scheduleId)]), during)
  }

  /** A session is active: there is a challenge and a schedule under way. */
  predicate Active(st: State) {
    st.data.challenge != 0 && st.data.scheduleId != 0
  }

  /**
   * Cancelling by challenge fails without a trace unless a schedule is under way and the
   * challenge is the one that is open. Otherwise the scheduler is asked to cancel that schedule,
   * its result is the answer, and the schedule id is forgotten exactly on success.
   */
  lemma DeleteByChallengeEffect(st: State, challenge: uint64, cancel: int, during: seq<Notice>)
    ensures var (after, code) := DeleteByChallenge(st, challenge, cancel, during);
            if st.data.scheduleId == 0 || challenge != st.data.challenge then after == st && code == FAIL
            else
              var told := Cancelling(st, during);
              && code == cancel && after.trace == told.trace && after.handlers == told.handlers
              && after.data.challenge == told.data.challenge
              && after.data.scheduleId == (if cancel == SUCCESS then 0 else told.data.scheduleId)
              && (during == [] ==>
                    && after.trace == st.trace + [Cancelled(st.data.scheduleId)] && after.handlers == st.handlers
                    && after.data.challenge == challenge && (after.data.scheduleId == 0 <==> cancel == SUCCESS))
  {
    hide Receive;
  }

  /** With the wrong challenge nothing is cancelled, whatever is under way. */
  lemma WrongChallengeTouchesNothing(st: State, challenge: uint64, cancel: int, during: seq<Notice>)
    requires challenge != st.data.challenge
    ensures DeleteByChallenge(st, challenge, cancel, during) == (st, FAIL)
  {
    DeleteByChallengeEffect(st, challenge, cancel, during);
  }

  /**
   * Cancelling by user answers with the driver's result. Only if that is a success and a session
   * is active is its schedule cancelled and forgotten, whatever the scheduler says.
   */
  lemma DeleteByUserEffect(st: State, driver: int, during: seq<Notice>)
    ensures var (after, code) := DeleteByUser(st, driver, during);
            && code == driver
            && (driver != SUCCESS || !Active(st) ==> after == st)
            && (driver == SUCCESS && Active(st) ==>
                  var told := Cancelling(st, during);
                  && after.trace == told.trace && after.handlers == told.handlers
                  && after.data == Module(told.data.challenge, 0))
  {
    hide Receive;
  }

  /** Ending whatever session there is: an active schedule is cancelled first. */
  ghost predicate Ended(st: State, after: State, during: seq<Notice>) {
    && (Active(st) ==>
          after.trace == Cancelling(st, during).trace && after.handlers == Cancelling(st, during).handlers)
    && (!Active(st) ==> after.trace == st.trace && after.handlers == st.handlers)
  }

  /**
   * Opening ends the old session and then holds exactly the new challenge; closing leaves
   * neither challenge nor schedule; closing for a user does nothing unless the driver agrees.
   */
  lemma SessionsOpenAndClose(st: State, challenge: uint64, driver: int, during: seq<Notice>)
    ensures var begun, closed := Open(st, challenge, during), Shut(st, during);
            && Ended(st, begun, during) && Ended(st, closed, during)
            && begun.data == Module(challenge, 0) && closed.data == Module(0, 0)
    ensures var closed := CloseUser(st, driver, during);
            if driver == SUCCESS then Ended(st, closed, during) && closed.data == Module(0, 0) else closed == st
  {
    hide Receive;
  }

  // -------------------------------------------------------------- enrolling

  /**
   * Adding or updating a credential is refused without a client, without a challenge, while a
   * schedule is under way, or when the driver gives no schedule; a refusal tells the client and
   * changes nothing else. Otherwise the driver's schedule id is inserted under the challenge,
   * a handler for it and the client is made, and the schedule is started.
   */
  lemma EnrollEffect(st: State, kind: Kind, client: Option<nat>, s: Schedule)
    ensures var (after, code) := Enroll(st, kind, client, s);
            var refusal := if st.data.challenge == 0 then FAIL else if st.data.scheduleId != 0 then BUSY else FAIL;
            if client.None? then after == st && code == INVALID_PARAMETERS
            else if st.data.challenge == 0 || st.data.scheduleId != 0 || s.code != SUCCESS then
              && after == st.(trace := st.trace + [Answered(client.value, refusal)])
              && code == (if st.data.challenge == 0 || st.data.scheduleId != 0 then refusal else s.code)
            else
              && code == SUCCESS
              && after == Deliver(
                   State.State(Module(st.data.challenge, s.scheduleId),
                               st.handlers + [Handler(kind, s.scheduleId, client)],
                               st.trace + [Inserted(s.scheduleId, st.data.challenge), Begun(|st.handlers|)]),
                   s.during)
  {
    hide Receive, Deliver;
    var h, handlers := |st.handlers|, st.handlers + [Handler(kind, s.scheduleId, client)];
    assert Emit(Insert(st, s.scheduleId).(handlers := handlers), Begun(h)).trace ==
           st.trace + [Inserted(s.scheduleId, st.data.challenge), Begun(h)];
  }

  // -------------------------------------------------------------- finishing

  /** A successful finish that may commit: its own schedule is under way, and a challenge for an update. */
  predicate Commits(st: State, handler: Handler, code: int) {
    && handler.client.Some? && code == SUCCESS
    && st.data.scheduleId != 0 && st.data.scheduleId == handler.scheduleId
    && (handler.kind == Modify ==> st.data.challenge != 0)
  }

  /**
   * Everything a finish says: with a commit, the commit, then for an update the result of its
   * property change if that has arrived, then the driver's answer to the commit for an addition
   * and success for an update; without one, a failure; nothing at all without a client.
   */
  lemma FinishEvents(st: State, h: nat, code: int, commit: int, prop: Option<int>)
    requires h < |st.handlers|
    ensures var handler, after := st.handlers[h], OnFinish(st, h, code, commit, prop);
            && after.handlers == st.handlers
            && (handler.client.None? ==> after == st)
            && (handler.client.Some? ==> after.data == Module(st.data.challenge, 0))
            && (handler.client.Some? && !Commits(st, handler, code) ==>
                  after.trace == st.trace + [Answered(handler.client.value, FAIL)])
            && (Commits(st, handler, code) && handler.kind == Add ==>
                  after.trace == st.trace + [Committed(h, handler.scheduleId, st.data),
                                             Answered(handler.client.value, commit)])
            && (Commits(st, handler, code) && handler.kind == Modify ==>
                  after.trace == st.trace + [Committed(h, handler.scheduleId, st.data)]
                    + (if prop.Some? then [Answered(handler.client.value, prop.value)] else [])
                    + [Answered(handler.client.value, SUCCESS)])
  {
    assert st.trace + [Committed(h, st.handlers[h].scheduleId, st.data)] + [] ==
           st.trace + [Committed(h, st.handlers[h].scheduleId, st.data)];
  }

  /** A property change that ends tells its client, and ends the session without looking at it. */
  lemma PropEffect(st: State, client: Option<nat>, code: int)
    ensures var after := Receive(st, PropNotice(client, code));
            && after.handlers == st.handlers && after.data == Module(st.data.challenge, 0)
            && |after.trace| == |st.trace| + (if client.Some? then 1 else 0) && st.trace <= after.trace
            && (client.Some? ==> after.trace[|st.trace|] == Answered(client.value, code))
  {
  }

  /** A handler that lost its client commits nothing. */
  ghost predicate NoCommitOf(st: State, after: State, h: nat) {
    && st.trace <= after.trace
    && forall k | |st.trace| <= k < |after.trace| :: after.trace[k].Committed? ==> after.trace[k].handler != h
  }

  ghost predicate Abandoned(st: State, h: nat) {
    h < |st.handlers| && st.handlers[h].client == None
  }

  lemma ReceiveAbandoned(st: State, n: Notice, h: nat)
    requires Abandoned(st, h)
    ensures Abandoned(Receive(st, n), h) && NoCommitOf(st, Receive(st, n), h)
  {
  }

  lemma {:induction false} DeliverAbandoned(st: State, ns: seq<Notice>, h: nat)
    requires Abandoned(st, h)
    ensures Abandoned(Deliver(st, ns), h) && NoCommitOf(st, Deliver(st, ns), h)
    decreases |ns|
  {
    if ns != [] {
      ReceiveAbandoned(st, ns[0], h);
      hide Receive;
      DeliverAbandoned(Receive(st, ns[0]), ns[1..], h);
    }
  }

  lemma StepAbandoned(st: State, op: Op, h: nat)
    requires Abandoned(st, h)
    ensures Abandoned(Step(st, op), h) && NoCommitOf(st, Step(st, op), h)
  {
    hide Receive, Deliver;
    match op
    case NoticeOp(n) => ReceiveAbandoned(st, n, h);
    case EnrollOp(kind, client, s) =>
      var inserted := Insert(st, s.scheduleId);
      var handlers := st.handlers + [Handler(kind, s.scheduleId, client)];
      var begun := Emit(inserted.(handlers := handlers), Begun(|st.handlers|));
      DeliverAbandoned(begun, s.during, h);
    case _ => DeliverAbandoned(Emit(st, Cancelled(st.data.scheduleId)), op.during, h);
  }

  /** In every run, a handler whose client was reset never commits again and gets no new client. */
  lemma {:induction false} ResetIsForEver(st: State, ops: seq<Op>, h: nat)
    requires Abandoned(st, h)
    ensures Abandoned(Run(st, ops), h) && NoCommitOf(st, Run(st, ops), h)
    decreases |ops|
  {
    if ops != [] {
      hide Step;
      StepAbandoned(st, ops[0], h);
      ResetIsForEver(Step(st, ops[0]), ops[1..], h);
    }
  }

  /** A reset takes the client of its own handler and touches nothing else. */
  lemma ResetEffect(st: State, h: nat)
    requires h < |st.handlers|
    ensures var after := Receive(st, ResetNotice(h));
            && Abandoned(after, h) && after == st.(handlers := after.handlers)
            && after.handlers[h].kind == st.handlers[h].kind
            && after.handlers[h].scheduleId == st.handlers[h].scheduleId
            && |after.handlers| == |st.handlers|
            && forall i | 0 <= i < |st.handlers| && i != h :: after.handlers[i] == st.handlers[i]
  {
  }
}
