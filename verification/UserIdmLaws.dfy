/** Who may commit a credential, and what an open session guarantees, in every run. */
module UserIdmLaws {
  import opened Common
  import opened UserIdmState

  datatype Grant = Grant(scheduleId: uint64, challenge: uint64)

  /** The last insertion, unless a commit has used it up. */
  function Authorisation(trace: seq<Event>): Option<Grant>
    decreases |trace|
  {
    if trace == [] then None
    else
      match trace[|trace| - 1]
      case Inserted(scheduleId, challenge) => Some(Grant(scheduleId, challenge))
      case Committed(_, _, _) => None
      case _ => Authorisation(trace[..|trace| - 1])
  }

  /** A commit uses the authorisation of its own schedule; only an authorised schedule is cancelled. */
  ghost predicate Allowed(grant: Option<Grant>, e: Event) {
    match e
    case Committed(_, scheduleId, held) =>
      held.scheduleId == scheduleId != 0 && held.challenge != 0 && grant == Some(Grant(scheduleId, held.challenge))
    case Cancelled(scheduleId) =>
      scheduleId != 0 && grant.Some? && grant.value.scheduleId == scheduleId && grant.value.challenge != 0
    case _ => true
  }

  ghost predicate LawfulAt(trace: seq<Event>, k: nat)
    requires k < |trace|
  {
    Allowed(Authorisation(trace[..k]), trace[k])
  }

  ghost predicate Lawful(trace: seq<Event>) {
    forall k | 0 <= k < |trace| :: LawfulAt(trace, k)
  }

  /** An active schedule implies a challenge, and was the last one inserted, under that challenge. */
  ghost predicate Inv(st: State) {
    && (st.data.scheduleId != 0 ==>
          && st.data.challenge != 0
          && Authorisation(st.trace) == Some(Grant(st.data.scheduleId, st.data.challenge)))
    && Lawful(st.trace)
  }

  lemma Append(trace: seq<Event>, e: Event)
    requires Lawful(trace) && Allowed(Authorisation(trace), e)
    ensures Lawful(trace + [e])
    ensures !e.Inserted? && !e.Committed? ==> Authorisation(trace + [e]) == Authorisation(trace)
  {
    var after := trace + [e];
    assert after[..|trace|] == trace;
    forall k | 0 <= k < |after| ensures LawfulAt(after, k) {
      if k < |trace| {
        assert after[..k] == trace[..k] && after[k] == trace[k];
        assert LawfulAt(trace, k);
      }
    }
  }

  lemma TellKeeps(st: State, client: Option<nat>, code: int)
    requires Inv(st)
    ensures Inv(Tell(st, client, code))
  {
    hide Lawful;
    if client.Some? {
      Append(st.trace, Answered(client.value, code));
    }
  }

  /** A commit leaves the trace lawful once the session is deleted. */
  lemma CommitKeeps(st: State, h: nat, scheduleId: uint64)
    requires Inv(st) && Holds(st, scheduleId)
    ensures Inv(DeleteSession(Commit(st, h, scheduleId)))
  {
    hide Lawful;
    Append(st.trace, Committed(h, scheduleId, st.data));
  }

  lemma FinishKeeps(st: State, h: nat, code: int, commit: int, prop: Option<int>)
    requires h < |st.handlers| && Inv(st)
    ensures Inv(OnFinish(st, h, code, commit, prop))
    ensures st.handlers[h].client.Some? ==> OnFinish(st, h, code, commit, prop).data.scheduleId == 0
  {
    hide Lawful, Authorisation;
    var handler := st.handlers[h];
    var ended := DeleteSession(if Holds(st, handler.scheduleId) then Commit(st, h, handler.scheduleId) else st);
    if Holds(st, handler.scheduleId) {
      CommitKeeps(st, h, handler.scheduleId);
    }
    if code != SUCCESS {
      TellKeeps(DeleteSession(st), handler.client, FAIL);
    } else if handler.kind.Add? {
      TellKeeps(ended, handler.client, if Holds(st, handler.scheduleId) then commit else FAIL);
    } else {
      var result := FinishModify(st, h, handler, prop).1;
      if result == SUCCESS && prop.Some? {
        TellKeeps(ended, handler.client, prop.value);
        TellKeeps(Tell(ended, handler.client, prop.value), handler.client, result);
      } else {
        TellKeeps(DeleteSession(st), handler.client, result);
        TellKeeps(ended, handler.client, result);
      }
    }
  }

  lemma ReceiveKeeps(st: State, n: Notice)
    requires Inv(st)
    ensures Inv(Receive(st, n))
  {
    hide Lawful, Authorisation, OnFinish, Tell;
    match n
    case FinishNotice(h, code, commit, prop) => if h < |st.handlers| { FinishKeeps(st, h, code, commit, prop); }
    case PropNotice(client, code) => TellKeeps(st, client, code);
    case ResetNotice(h) =>
  }

  lemma {:induction false} DeliverKeeps(st: State, ns: seq<Notice>)
    requires Inv(st)
    ensures Inv(Deliver(st, ns))
    decreases |ns|
  {
    hide Inv, Receive;
    if ns != [] {
      ReceiveKeeps(st, ns[0]);
      DeliverKeeps(Receive(st, ns[0]), ns[1..]);
    }
  }

  lemma CancelKeeps(st: State, during: seq<Notice>)
    requires Inv(st) && st.data.scheduleId != 0
    ensures Inv(CancelSchedule(st, during))
  {
    hide Lawful, Deliver;
    Append(st.trace, Cancelled(st.data.scheduleId));
    DeliverKeeps(Emit(st, Cancelled(st.data.scheduleId)), during);
  }

  lemma EnrollKeeps(st: State, kind: Kind, client: Option<nat>, s: Schedule)
    requires Inv(st)
    ensures Inv(Enroll(st, kind, client, s).0)
  {
    hide Lawful, Deliver, Tell;
    TellKeeps(st, client, FAIL);
    TellKeeps(st, client, BUSY);
    if client.Some? && st.data.challenge != 0 && st.data.scheduleId == 0 {
      var inserted := Insert(st, s.scheduleId);
      Append(st.trace, Inserted(s.scheduleId, st.data.challenge));
      Append(inserted.trace, Begun(|st.handlers|));
      var st := inserted.(handlers := st.handlers + [Handler(kind, s.scheduleId, client)]);
      DeliverKeeps(Emit(st, Begun(|inserted.handlers|)), s.during);
    }
  }

  lemma StepKeeps(st: State, op: Op)
    requires Inv(st)
    ensures Inv(Step(st, op))
  {
    hide Lawful, Authorisation, CancelSchedule, Enroll, Receive;
    match op
    case EnrollOp(kind, client, s) => EnrollKeeps(st, kind, client, s);
    case NoticeOp(n) => ReceiveKeeps(st, n);
    case _ => if st.data.scheduleId != 0 { CancelKeeps(st, op.during); }
  }

  lemma {:induction false} InvOfRuns(st: State, ops: seq<Op>)
    requires Inv(st)
    ensures Inv(Run(st, ops))
    decreases |ops|
  {
    hide Inv, Step;
    if ops != [] {
      StepKeeps(st, ops[0]);
      InvOfRuns(Step(st, ops[0]), ops[1..]);
    }
  }

  // ------------------------------------------------------ who may commit

  lemma {:induction false} GrantAt(trace: seq<Event>) returns (j: nat)
    requires Authorisation(trace).Some?
    ensures j < |trace|
    ensures trace[j] == Inserted(Authorisation(trace).value.scheduleId, Authorisation(trace).value.challenge)
    ensures forall i | j < i < |trace| :: !trace[i].Inserted? && !trace[i].Committed?
    decreases |trace|
  {
    var n := |trace| - 1;
    if trace[n].Inserted? {
      j := n;
    } else {
      j := GrantAt(trace[..n]);
    }
  }

  /**
   * In every run, a commit happens while the module holds a challenge and exactly the committing
   * handler's non-zero schedule id; that id was inserted under that same challenge, and nothing
   * was inserted or committed since. So each insertion authorises at most one commit.
   */
  lemma EveryCommitIsAuthorised(ops: seq<Op>, k: nat) returns (j: nat)
    requires k < |Run(INITIAL, ops).trace| && Run(INITIAL, ops).trace[k].Committed?
    ensures var trace := Run(INITIAL, ops).trace;
            var held := trace[k].held;
            && held.scheduleId == trace[k].scheduleId && held.scheduleId != 0 && held.challenge != 0
            && j < k && trace[j] == Inserted(held.scheduleId, held.challenge)
            && forall i | j < i < k :: !trace[i].Inserted? && !trace[i].Committed?
  {
    hide Step;
    InvOfRuns(INITIAL, ops);
    var trace := Run(INITIAL, ops).trace;
    assert LawfulAt(trace, k);
    j := GrantAt(trace[..k]);
  }

  /** Two commits of the same schedule id need that id to be inserted again in between. */
  lemma SecondCommitNeedsSecondInsertion(ops: seq<Op>, k: nat, l: nat) returns (j: nat)
    requires var trace := Run(INITIAL, ops).trace;
             && k < l < |trace| && trace[k].Committed? && trace[l].Committed?
             && trace[k].scheduleId == trace[l].scheduleId
    ensures k < j < l && Run(INITIAL, ops).trace[j] ==
                         Inserted(Run(INITIAL, ops).trace[k].scheduleId, Run(INITIAL, ops).trace[l].held.challenge)
  {
    hide Run;
    j := EveryCommitIsAuthorised(ops, l);
  }

  /** The handler named in a commit is the one whose schedule id it carries. */
  ghost predicate OwnCommits(st: State) {
    forall e <- st.trace | e.Committed? ::
      e.handler < |st.handlers| && st.handlers[e.handler].scheduleId == e.scheduleId
  }

  lemma ReceiveOwn(st: State, n: Notice)
    requires OwnCommits(st)
    ensures OwnCommits(Receive(st, n))
  {
  }

  lemma {:induction false} DeliverOwn(st: State, ns: seq<Notice>)
    requires OwnCommits(st)
    ensures OwnCommits(Deliver(st, ns))
    decreases |ns|
  {
    hide OwnCommits, Receive;
    if ns != [] {
      ReceiveOwn(st, ns[0]);
      DeliverOwn(Receive(st, ns[0]), ns[1..]);
    }
  }

  lemma StepOwn(st: State, op: Op)
    requires OwnCommits(st)
    ensures OwnCommits(Step(st, op))
  {
    hide Deliver, Receive;
    match op
    case EnrollOp(kind, client, s) =>
      var inserted := Insert(st, s.scheduleId);
      var begun := Emit(inserted, Begun(|st.handlers|)).(
                     handlers := st.handlers + [Handler(kind, s.scheduleId, client)]);
      DeliverOwn(begun, s.during);
    case NoticeOp(n) => ReceiveOwn(st, n);
    case _ => DeliverOwn(Emit(st, Cancelled(st.data.scheduleId)), op.during);
  }

  lemma {:induction false} OwnCommitsOfRuns(st: State, ops: seq<Op>)
    requires OwnCommits(st)
    ensures OwnCommits(Run(st, ops))
    decreases |ops|
  {
    hide OwnCommits, Step;
    if ops != [] {
      StepOwn(st, ops[0]);
      OwnCommitsOfRuns(Step(st, ops[0]), ops[1..]);
    }
  }

  /** In every run the schedule id of a commit is the one its handler was created with. */
  lemma CommitsCarryTheHandlersId(ops: seq<Op>, e: Event)
    requires e in Run(INITIAL, ops).trace && e.Committed?
    ensures e.handler < |Run(INITIAL, ops).handlers|
    ensures Run(INITIAL, ops).handlers[e.handler].scheduleId == e.scheduleId == e.held.scheduleId
  {
    hide Step;
    OwnCommitsOfRuns(INITIAL, ops);
    var trace := Run(INITIAL, ops).trace;
    var k :| 0 <= k < |trace| && trace[k] == e;
    var j := EveryCommitIsAuthorised(ops, k);
  }

  // -------------------------------------------------------- the session

  /** In every run an active schedule implies a challenge, and a second request finds it busy. */
  lemma ActiveSessionIsBusy(ops: seq<Op>, kind: Kind, client: nat, s: Schedule)
    requires Run(INITIAL, ops).data.scheduleId != 0
    ensures var st := Run(INITIAL, ops);
            && st.data.challenge != 0
            && Enroll(st, kind, Some(client), s) == (Emit(st, Answered(client, BUSY)), BUSY)
  {
    hide Step;
    InvOfRuns(INITIAL, ops);
  }

  /** In every run, cancelling with challenge zero fails and changes nothing. */
  lemma ZeroChallengeNeverCancels(ops: seq<Op>, cancel: int, during: seq<Notice>)
    ensures DeleteByChallenge(Run(INITIAL, ops), 0, cancel, during) == (Run(INITIAL, ops), FAIL)
  {
    hide Step;
    InvOfRuns(INITIAL, ops);
  }

  /** In every run only an inserted schedule that was not yet committed is ever cancelled. */
  lemma OnlyLiveSchedulesAreCancelled(ops: seq<Op>, k: nat) returns (j: nat)
    requires k < |Run(INITIAL, ops).trace| && Run(INITIAL, ops).trace[k].Cancelled?
    ensures var trace := Run(INITIAL, ops).trace;
            && j < k && trace[j].Inserted? && trace[j].challenge != 0
            && trace[j].scheduleId == trace[k].scheduleId && trace[j].scheduleId != 0
            && forall i | j < i < k :: !trace[i].Inserted? && !trace[i].Committed?
  {
    hide Step;
    InvOfRuns(INITIAL, ops);
    var trace := Run(INITIAL, ops).trace;
    assert LawfulAt(trace, k);
    j := GrantAt(trace[..k]);
  }

  /**
   * A finish commits exactly when it succeeds on a handler with a client whose own schedule is
   * active (and, for an update, a challenge is open); with a client it ends whatever session
   * there is, its own or not.
   */
  lemma FinishEffect(st: State, h: nat, code: int, commit: int, prop: Option<int>)
    requires h < |st.handlers|
    ensures var after := OnFinish(st, h, code, commit, prop);
            var handler := st.handlers[h];
            && ((exists e <- after.trace[|st.trace|..] :: e.Committed?) <==>
                  && handler.client.Some? && code == SUCCESS && Holds(st, handler.scheduleId)
                  && (handler.kind.Modify? ==> st.data.challenge != 0))
            && st.trace <= after.trace && after.handlers == st.handlers
            && after.data == if handler.client.Some? then st.data.(scheduleId := 0) else st.data
  {
    hide Holds;
    var handler, after := st.handlers[h], OnFinish(st, h, code, commit, prop);
    var news := after.trace[|st.trace|..];
    if handler.client.Some? && code == SUCCESS && Holds(st, handler.scheduleId)
       && (handler.kind.Modify? ==> st.data.challenge != 0) {
      assert news[0] == Committed(h, handler.scheduleId, st.data);
    }
  }

  function Answers(trace: seq<Event>): nat {
    if trace == [] then 0 else (if trace[0].Answered? then 1 else 0) + Answers(trace[1..])
  }

  /**
   * A finish answers its own client only: not at all without a client, twice when an update was
   * committed and its property change has returned, and once otherwise. It reports success only
   * if it committed.
   */
  lemma FinishAnswersItsClient(st: State, h: nat, code: int, commit: int, prop: Option<int>)
    requires h < |st.handlers|
    ensures var handler := st.handlers[h];
            var news := OnFinish(st, h, code, commit, prop).trace[|st.trace|..];
            var committed := exists e <- news :: e.Committed?;
            && Answers(news) == (if handler.client.None? then 0
                                 else if handler.kind.Modify? && committed && prop.Some? then 2 else 1)
            && (forall e <- news :: e.Answered? ==> handler.client == Some(e.client))
            && (!committed ==> forall e <- news :: e.Answered? ==> e.code == FAIL)
  {
    hide Holds;
    FinishEffect(st, h, code, commit, prop);
    var handler := st.handlers[h];
    var news := OnFinish(st, h, code, commit, prop).trace[|st.trace|..];
    if handler.client.Some? && code == SUCCESS && Holds(st, handler.scheduleId)
       && (handler.kind.Modify? ==> st.data.challenge != 0) {
      var e := Committed(h, handler.scheduleId, st.data);
      var last := Answered(handler.client.value, if handler.kind.Add? then commit else SUCCESS);
      if handler.kind.Modify? && prop.Some? {
        var first := Answered(handler.client.value, prop.value);
        assert news == [e] + ([first] + ([last] + []));
        AnswersOfMore(e, [first] + ([last] + []));
        AnswersOfMore(first, [last] + []);
      } else {
        assert news == [e] + ([last] + []);
        AnswersOfMore(e, [last] + []);
      }
      AnswersOfMore(last, []);
    } else if handler.client.Some? {
      assert news == [Answered(handler.client.value, FAIL)] + [];
      AnswersOfMore(Answered(handler.client.value, FAIL), []);
    }
  }

  lemma AnswersOfMore(e: Event, rest: seq<Event>)
    ensures Answers([e] + rest) == (if e.Answered? then 1 else 0) + Answers(rest)
  {
    assert ([e] + rest)[1..] == rest;
  }

  /** So a late finish of one schedule makes the successful finish of another commit nothing. */
  lemma LateFinishDisarmsTheActiveSchedule(st: State, late: int, current: int, code: int, commit: int,
      prop: Option<int>)
    requires 0 <= late < |st.handlers| && 0 <= current < |st.handlers| && late != current
    requires st.handlers[late].client.Some? && st.handlers[current].client.Some?
    requires Holds(st, st.handlers[current].scheduleId) && st.handlers[late].scheduleId != st.data.scheduleId
    ensures var after := OnFinish(st, late, code, commit, prop);
            OnFinish(after, current, SUCCESS, commit, prop) ==
            Emit(after, Answered(st.handlers[current].client.value, FAIL))
  {
    FinishEffect(st, late, code, commit, prop);
  }
}
