/** When a task can run before an earlier one of its transaction, and a run in which it does. */
module ThreadGroupOvertaking {
  import opened Common
  import opened ThreadGroupState
  import opened ThreadGroupLaws
  import opened ThreadGroupOrder

  // -------------------------------------------------- across a release

  /** The pools take tasks in the given order. */
  function Works(st: State, ps: seq<Ptr>): State
    decreases |ps|
  {
    if ps == [] then st else Works(Work(st, ps[0]), ps[1..])
  }

  /** Releases the transaction, retains it again and posts a task under it. */
  function PostedAgain(st: State, name: string, tx: uint64, maxTaskNum: int, body: nat): State {
    Post(Retain(Release(st, name, tx).0, name, tx, maxTaskNum).0, name, tx, body).0
  }

  /** The later task has run since, and the earlier one still waits on p. */
  ghost predicate Overtakes(st: State, ps: seq<Ptr>, p: Ptr, later: Task, earlier: Task) {
    var after := Works(st, ps);
    && st.log <= after.log && (exists e <- after.log[|st.log|..] :: e.task == later)
    && earlier in Waiting(after, p)
  }

  lemma {:induction false} WorksThrough(st: State, ps: seq<Ptr>, p: Ptr)
    ensures Through(Works(st, ps), p) == Through(st, p) && st.log <= Works(st, ps).log
    decreases |ps|
  {
    hide Through, Work;
    if ps != [] {
      WorkThrough(st, ps[0], p);
      WorkLog(st, ps[0]);
      WorksThrough(Work(st, ps[0]), ps[1..], p);
    }
  }

  lemma WorkLog(st: State, p: Ptr)
    ensures st.log <= Work(st, p).log
  {
  }

  lemma {:induction false} RanOnConcat(log: seq<Ran>, news: seq<Ran>, p: Ptr)
    ensures RanOn(log + news, p) == RanOn(log, p) + RanOn(news, p)
    decreases |news|
  {
    if news == [] {
      assert log + news == log;
    } else {
      var front, last := news[..|news| - 1], news[|news| - 1];
      assert log + news == (log + front) + [last] && news == front + [last];
      RanOnConcat(log, front, p);
      RanOnAppend(log + front, last, p);
      RanOnAppend(front, last, p);
    }
  }

  lemma {:induction false} RanOnHas(log: seq<Ran>, e: Ran)
    requires e in log
    ensures e.task in RanOn(log, e.pool)
    decreases |log|
  {
    var front, last := log[..|log| - 1], log[|log| - 1];
    assert log == front + [last];
    if e != last {
      RanOnHas(front, e);
    }
  }

  /** What has run since on p was waiting there, in front of what still waits. */
  lemma RanWasWaiting(st: State, ps: seq<Ptr>, p: Ptr)
    ensures var after := Works(st, ps);
            st.log <= after.log && RanOn(after.log[|st.log|..], p) + Waiting(after, p) == Waiting(st, p)
  {
    hide RanOn, Waiting, Works;
    WorksThrough(st, ps, p);
    var after := Works(st, ps);
    var news := after.log[|st.log|..];
    assert after.log == st.log + news;
    RanOnConcat(st.log, news, p);
    var ran := RanOn(st.log, p);
    assert ran + (RanOn(news, p) + Waiting(after, p)) == ran + Waiting(st, p);
    assert (ran + (RanOn(news, p) + Waiting(after, p)))[|ran|..] == RanOn(news, p) + Waiting(after, p);
    assert (ran + Waiting(st, p))[|ran|..] == Waiting(st, p);
  }

  /** A pool whose queue is worked off. */
  lemma {:induction false} WorkedOff(st: State, q: Ptr) returns (ps: seq<Ptr>)
    requires q in st.heap
    ensures var after := Works(st, ps);
            && q in after.heap && after.heap[q].queue == []
            && forall p | p != q :: Waiting(after, p) == Waiting(st, p)
    decreases |st.heap[q].queue|
  {
    hide Waiting;
    ps := [];
    if st.heap[q].queue != [] {
      var next := Work(st, q);
      OtherPoolsWait(st, q);
      var rest := WorkedOff(next, q);
      ps := [q] + rest;
      assert ps[1..] == rest;
    }
  }

  lemma OtherPoolsWait(st: State, q: Ptr)
    ensures forall p | p != q :: Waiting(Work(st, q), p) == Waiting(st, p)
  {
  }

  /** Where the new task waits, and that every earlier task waits where it did. */
  lemma PostedAgainWaits(st: State, p: Ptr, name: string, tx: uint64, maxTaskNum: int, body: nat) returns (q: Ptr)
    requires Inv(st) && InSlot(st, p, name, tx)
    ensures var posted := PostedAgain(st, name, tx, maxTaskNum, body);
            && q in posted.heap && (q == p <==> st.frees == [])
            && forall r :: Waiting(posted, r) ==
                 Waiting(st, r) + if r == q then [User(Serving(name, tx), body)] else []
  {
    hide Waiting, Settled, QueueOk, AddTask;
    SlotKnown(st, p, name, tx);
    var released := Release(st, name, tx).0;
    ReleaseUndisturbed(st, name, tx);
    ReleaseKeeps(st, name, tx);
    Known(released);
    RetainUndisturbed(released, name, tx, maxTaskNum);
    RetainKeeps(released, name, tx, maxTaskNum);
    ReleasedState(st, p, name, tx);
    var again := Retain(released, name, tx, maxTaskNum).0;
    RetainedFront(released, name, tx, maxTaskNum);
    q := released.frees[0];
    hide Release, Retain;
    SlotInHeap(again, q, name, tx);
    PostWaits(again, q, name, tx, body);
  }

  lemma SlotInHeap(st: State, p: Ptr, name: string, tx: uint64)
    requires Inv(st) && InSlot(st, p, name, tx)
    ensures p in st.heap && p != NULL
  {
  }

  lemma PostWaits(st: State, q: Ptr, name: string, tx: uint64, body: nat)
    requires InSlot(st, q, name, tx) && q in st.heap && q != NULL
    ensures q in Post(st, name, tx, body).0.heap
    ensures forall r :: Waiting(Post(st, name, tx, body).0, r) ==
                        Waiting(st, r) + if r == q then [User(Serving(name, tx), body)] else []
  {
    var task := User(Serving(name, tx), body);
    UserTasksAppend(st.heap[q].queue, task);
    forall r ensures Waiting(Post(st, name, tx, body).0, r) == Waiting(st, r) + if r == q then [task] else [] {
      assert Waiting(st, r) + [] == Waiting(st, r);
    }
  }

  /** Once the only occurrence of the new task on its pool has run, nothing waits there. */
  lemma LastOneRan(ran: seq<Task>, left: seq<Task>, before: seq<Task>, task: Task)
    requires ran + left == before + [task] && task !in before && task in ran
    ensures left == []
  {
    var i :| 0 <= i < |ran| && ran[i] == task;
    assert (before + [task])[i] == (ran + left)[i] == task;
  }

  /**
   * After a release, a new retain and a post, the new task can run while a given earlier task of
   * the old pool still waits, if and only if another pool was idle at the release.
   */
  lemma OvertakingNeedsAnIdlePool(st: State, p: Ptr, name: string, tx: uint64, maxTaskNum: int, body: nat,
      earlier: Task)
    requires Inv(st) && InSlot(st, p, name, tx) && earlier in Waiting(st, p)
    requires forall r :: User(Serving(name, tx), body) !in Waiting(st, r)
    ensures var posted := PostedAgain(st, name, tx, maxTaskNum, body);
            (exists ps :: Overtakes(posted, ps, p, User(Serving(name, tx), body), earlier)) <==> st.frees != []
  {
    hide Inv, Waiting, Works, PostedAgain, RanOn;
    var posted, later := PostedAgain(st, name, tx, maxTaskNum, body), User(Serving(name, tx), body);
    var q := PostedAgainWaits(st, p, name, tx, maxTaskNum, body);
    if st.frees != [] {
      var ps := WorkedOff(posted, q);
      var after := Works(posted, ps);
      RanWasWaiting(posted, ps, q);
      var news := after.log[|posted.log|..];
      EmptyQueue(after, q);
      assert RanOn(news, q) + [] == Waiting(st, q) + [later];
      assert (Waiting(st, q) + [later])[|Waiting(st, q)|] == later;
      assert later in RanOn(news, q);
      var e := RanBy(news, q, later);
      assert earlier in Waiting(after, p);
      assert Overtakes(posted, ps, p, later, earlier);
    } else if ps :| Overtakes(posted, ps, p, later, earlier) {
      var after := Works(posted, ps);
      var news := after.log[|posted.log|..];
      var e :| e in news && e.task == later;
      RanOnHas(news, e);
      RanWasWaiting(posted, ps, e.pool);
      assert later in Waiting(posted, e.pool);
      assert e.pool == q;
      LastOneRan(RanOn(news, q), Waiting(after, q), Waiting(st, q), later);
    }
  }

  lemma EmptyQueue(st: State, q: Ptr)
    requires q in st.heap && st.heap[q].queue == []
    ensures Waiting(st, q) == []
  {
  }

  lemma {:induction false} RanBy(log: seq<Ran>, p: Ptr, task: Task) returns (e: Ran)
    requires task in RanOn(log, p)
    ensures e in log && e.task == task
    decreases |log|
  {
    var front, last := log[..|log| - 1], log[|log| - 1];
    if last.pool == p && last.task == task {
      e := last;
    } else {
      e := RanBy(front, p, task);
    }
  }

  /** So the order of a pool's tasks can be broken across a release exactly when some wait and another pool is idle. */
  lemma OrderAcrossARelease(st: State, p: Ptr, name: string, tx: uint64, maxTaskNum: int, body: nat)
    requires Inv(st) && InSlot(st, p, name, tx)
    requires forall r :: User(Serving(name, tx), body) !in Waiting(st, r)
    ensures var posted := PostedAgain(st, name, tx, maxTaskNum, body);
            (exists ps, earlier ::
               earlier in Waiting(st, p) && Overtakes(posted, ps, p, User(Serving(name, tx), body), earlier))
            <==> st.frees != [] && Waiting(st, p) != []
  {
    hide Inv, Waiting, Overtakes, PostedAgain;
    var posted, later := PostedAgain(st, name, tx, maxTaskNum, body), User(Serving(name, tx), body);
    forall earlier | earlier in Waiting(st, p)
      ensures (exists ps :: Overtakes(posted, ps, p, later, earlier)) <==> st.frees != []
    {
      OvertakingNeedsAnIdlePool(st, p, name, tx, maxTaskNum, body, earlier);
    }
    if st.frees != [] && Waiting(st, p) != [] {
      var earlier := Waiting(st, p)[0];
      assert earlier in Waiting(st, p);
      var ps :| Overtakes(posted, ps, p, later, earlier);
    }
  }

  // ------------------------------------------------------- an example

  /** A task of transaction 1 in group "g". */
  function TaskOfOne(body: nat): Task {
    User(Serving("g", 1), body)
  }

  function QueueOf(tasks: seq<Task>): ThreadPool {
    ThreadPool(tasks, Idle, 8)
  }

  /** One group of two threads; the pools have the given queues. */
  function Two(retains: map<uint64, Ptr>, frees: seq<Ptr>, first: seq<Task>, second: seq<Task>): State {
    State.State(map["g" := ThreadGroup(2, retains)], frees, map[1 := QueueOf(first), 2 := QueueOf(second)], 3, {}, [])
  }

  function One(retains: map<uint64, Ptr>, queue: seq<Task>): State {
    State.State(map["g" := ThreadGroup(2, retains)], [], map[1 := QueueOf(queue)], 2, {}, [])
  }

  function Mark(tx: uint64): Task {
    Marker(LabelFor("g", tx))
  }

  const PREPARE: seq<Op> := [CreateOp("g", 2), RetainOp("g", 1, 8), RetainOp("g", 2, 8), ReleaseOp("g", 2)]

  /** Task 7 is posted, the transaction released and retained again, and task 8 posted. */
  const REPOST: seq<Op> := [PostOp("g", 1, 7), ReleaseOp("g", 1), RetainOp("g", 1, 8), PostOp("g", 1, 8)]

  const FOUR_STEPS: seq<Op> := [WorkOp(2), WorkOp(2), WorkOp(2), WorkOp(2)]

  lemma Four(st: State, ops: seq<Op>)
    requires |ops| == 4
    ensures Run(st, ops) == Step(Step(Step(Step(st, ops[0]), ops[1]), ops[2]), ops[3])
  {
    hide Step;
    assert Run(st, ops) == Run(Step(st, ops[0]), ops[1..]);
    assert Run(Step(st, ops[0]), ops[1..]) == Run(Step(Step(st, ops[0]), ops[1]), ops[1..][1..]);
    var two := Step(Step(st, ops[0]), ops[1]);
    assert ops[1..][1..] == ops[2..] == [ops[2], ops[3]];
    assert [ops[2], ops[3]][1..] == [ops[3]] && [ops[3]][1..] == [];
    assert Run(two, [ops[2], ops[3]]) == Run(Step(two, ops[2]), [ops[3]]);
    assert Run(Step(two, ops[2]), [ops[3]]) == Run(Step(Step(two, ops[2]), ops[3]), []);
  }

  /** States with one group agree when all of their parts do. */
  lemma SameState(a: State, b: State)
    requires a.groups.Keys == b.groups.Keys == {"g"} && a.groups["g"].threadNum == b.groups["g"].threadNum
    requires a.groups["g"].retains == b.groups["g"].retains && a.frees == b.frees && a.heap.Keys == b.heap.Keys
    requires forall p <- a.heap ::
               && a.heap[p].queue == b.heap[p].queue && a.heap[p].curr == b.heap[p].curr
               && a.heap[p].maxTaskNum == b.heap[p].maxTaskNum
    requires a.next == b.next && a.destroyed == b.destroyed && a.log == b.log
    ensures a == b
  {
    assert a.groups["g"] == b.groups["g"];
    assert a.groups == b.groups;
    forall p <- a.heap ensures a.heap[p] == b.heap[p] { }
    assert a.heap == b.heap;
  }

  lemma RetainFirst()
    ensures Retain(CreateGroup(INITIAL, "g", 2).0, "g", 1, 8).0 == One(map[1 := 1], [Mark(1)])
  {
    assert NewPool(CreateGroup(INITIAL, "g", 2).0).frees == [1];
    SameState(Retain(CreateGroup(INITIAL, "g", 2).0, "g", 1, 8).0,
              One(map[1 := 1], [Mark(1)]));
  }

  lemma RetainSecond()
    ensures Retain(One(map[1 := 1], [Mark(1)]), "g", 2, 8).0 == Two(map[1 := 1, 2 := 2], [], [Mark(1)], [Mark(2)])
  {
    assert NewPool(One(map[1 := 1], [Mark(1)])).frees == [2];
    SameState(Retain(One(map[1 := 1], [Mark(1)]), "g", 2, 8).0,
              Two(map[1 := 1, 2 := 2], [], [Mark(1)], [Mark(2)]));
  }

  /** With few idle pools, a release marks the pool, parks it and clears the slot. */
  lemma ReleaseSlot(st: State, tx: uint64, p: Ptr)
    requires InSlot(st, p, "g", tx) && tx != 0 && |st.frees| < THREAD_NUM_KEEP
    ensures Release(st, "g", tx).0 == ClearSlot(Park(st, "g", p), "g", tx)
  {
  }

  lemma ReleaseSecond()
    ensures Release(Two(map[1 := 1, 2 := 2], [], [Mark(1)], [Mark(2)]), "g", 2).0 ==
            Two(map[1 := 1], [2], [Mark(1)], [Mark(2), Mark(0)])
  {
    hide Release;
    ReleaseSlot(Two(map[1 := 1, 2 := 2], [], [Mark(1)], [Mark(2)]), 2, 2);
    assert map[1 := 1, 2 := 2] - {2} == map[1 := 1];
    SameState(Release(Two(map[1 := 1, 2 := 2], [], [Mark(1)], [Mark(2)]), "g", 2).0,
              Two(map[1 := 1], [2], [Mark(1)], [Mark(2), Mark(0)]));
  }

  lemma Prepared()
    ensures Run(INITIAL, PREPARE) == Two(map[1 := 1], [2], [Mark(1)], [Mark(2), Mark(0)])
  {
    hide Run, Retain, Release, One, Two;
    Four(INITIAL, PREPARE);
    RetainFirst();
    RetainSecond();
    ReleaseSecond();
  }

  lemma PostFirst()
    ensures Post(Two(map[1 := 1], [2], [Mark(1)], [Mark(2), Mark(0)]), "g", 1, 7).0 ==
            Two(map[1 := 1], [2], [Mark(1), TaskOfOne(7)], [Mark(2), Mark(0)])
  {
    SameState(Post(Two(map[1 := 1], [2], [Mark(1)], [Mark(2), Mark(0)]), "g", 1, 7).0,
              Two(map[1 := 1], [2], [Mark(1), TaskOfOne(7)], [Mark(2), Mark(0)]));
  }

  lemma ReleaseFirst()
    ensures Release(Two(map[1 := 1], [2], [Mark(1), TaskOfOne(7)], [Mark(2), Mark(0)]), "g", 1).0 ==
            Two(map[], [2, 1], [Mark(1), TaskOfOne(7), Mark(0)], [Mark(2), Mark(0)])
  {
    hide Release;
    ReleaseSlot(Two(map[1 := 1], [2], [Mark(1), TaskOfOne(7)], [Mark(2), Mark(0)]), 1, 1);
    assert map[1 := 1] - {1} == map[];
    SameState(Release(Two(map[1 := 1], [2], [Mark(1), TaskOfOne(7)], [Mark(2), Mark(0)]), "g", 1).0,
              Two(map[], [2, 1], [Mark(1), TaskOfOne(7), Mark(0)], [Mark(2), Mark(0)]));
  }

  lemma RetainAgain()
    ensures Retain(Two(map[], [2, 1], [Mark(1), TaskOfOne(7), Mark(0)], [Mark(2), Mark(0)]), "g", 1, 8).0 ==
            Two(map[1 := 2], [1], [Mark(1), TaskOfOne(7), Mark(0)], [Mark(2), Mark(0), Mark(1)])
  {
    SameState(Retain(Two(map[], [2, 1], [Mark(1), TaskOfOne(7), Mark(0)], [Mark(2), Mark(0)]), "g", 1, 8).0,
              Two(map[1 := 2], [1], [Mark(1), TaskOfOne(7), Mark(0)], [Mark(2), Mark(0), Mark(1)]));
  }

  function Reposted(): State {
    Two(map[1 := 2], [1], [Mark(1), TaskOfOne(7), Mark(0)], [Mark(2), Mark(0), Mark(1), TaskOfOne(8)])
  }

  lemma PostSecond()
    ensures Post(Two(map[1 := 2], [1], [Mark(1), TaskOfOne(7), Mark(0)], [Mark(2), Mark(0), Mark(1)]), "g", 1, 8).0 ==
            Reposted()
  {
    SameState(Post(Two(map[1 := 2], [1], [Mark(1), TaskOfOne(7), Mark(0)], [Mark(2), Mark(0), Mark(1)]), "g", 1, 8).0,
              Reposted());
  }

  lemma RepostedState()
    ensures Run(Run(INITIAL, PREPARE), REPOST) == Reposted()
  {
    hide Run, Retain, Release, Post, Two, Reposted;
    Prepared();
    Four(Run(INITIAL, PREPARE), REPOST);
    PostFirst();
    ReleaseFirst();
    RetainAgain();
    PostSecond();
  }

  lemma FourStepsDone()
    ensures var after := Run(Reposted(), FOUR_STEPS);
            after.log == [Ran(2, TaskOfOne(8), Serving("g", 1))] && 1 in after.heap
            && after.heap[1] == Reposted().heap[1]
  {
    Four(Reposted(), FOUR_STEPS);
    hide Run;
  }

  /** The later task of a transaction runs while its earlier one waits on the other pool. */
  lemma LaterTaskRunsFirst()
    ensures var st := Run(INITIAL, PREPARE + (REPOST + FOUR_STEPS));
            && st.log == [Ran(2, TaskOfOne(8), Serving("g", 1))]
            && Waiting(st, 1) == [TaskOfOne(7)]
  {
    hide Run;
    RepostedState();
    FourStepsDone();
    RunAppend(INITIAL, PREPARE, REPOST + FOUR_STEPS);
    RunAppend(Run(INITIAL, PREPARE), REPOST, FOUR_STEPS);
    var queue := Reposted().heap[1].queue;
    assert queue[1..] == [TaskOfOne(7), Marker(Idle)] && queue[1..][1..] == [Marker(Idle)];
    assert queue[1..][1..][1..] == [];
  }

  lemma {:induction false} RunAppend(st: State, before: seq<Op>, after: seq<Op>)
    ensures Run(st, before + after) == Run(Run(st, before), after)
    decreases |before|
  {
    hide Step;
    if before == [] {
      assert before + after == after;
    } else {
      assert (before + after)[1..] == before[1..] + after;
      RunAppend(Step(st, before[0]), before[1..], after);
    }
  }
}
