/** In which order the posted tasks run, and when one can be lost. */
module ThreadGroupOrder {
  import opened Common
  import opened OrderedKeys
  import opened ThreadGroupState
  import opened ThreadGroupLaws

  function UserTasks(queue: seq<Task>): seq<Task> {
    if queue == [] then [] else (if queue[0].User? then [queue[0]] else []) + UserTasks(queue[1..])
  }

  /** The user tasks waiting on pool p, in queue order. */
  function Waiting(st: State, p: Ptr): seq<Task> {
    if p in st.heap then UserTasks(st.heap[p].queue) else []
  }

  /** The user tasks that ran on pool p, in order. */
  function RanOn(log: seq<Ran>, p: Ptr): seq<Task>
    decreases |log|
  {
    if log == [] then []
    else
      var last := log[|log| - 1];
      RanOn(log[..|log| - 1], p) + if last.pool == p then [last.task] else []
  }

  function Through(st: State, p: Ptr): seq<Task> {
    RanOn(st.log, p) + Waiting(st, p)
  }

  /** The task that an operation posts to pool p, if any. */
  function PostedBy(st: State, op: Op, p: Ptr): seq<Task> {
    match op
    case PostOp(name, tx, body) =>
      if p != NULL && name in st.groups && tx in st.groups[name].retains && st.groups[name].retains[tx] == p
      then [User(Serving(name, tx), body)] else []
    case _ => []
  }

  ghost function PostedTo(st: State, ops: seq<Op>, p: Ptr): seq<Task>
    decreases |ops|
  {
    if ops == [] then [] else PostedBy(st, ops[0], p) + PostedTo(Step(st, ops[0]), ops[1..], p)
  }

  // ----------------------------------------------------------- one step

  lemma {:induction false} UserTasksAppend(queue: seq<Task>, task: Task)
    ensures UserTasks(queue + [task]) == UserTasks(queue) + if task.User? then [task] else []
    decreases |queue|
  {
    var longer := queue + [task];
    if queue == [] {
      assert longer == [task] && [task][1..] == [];
    } else {
      assert longer[1..] == queue[1..] + [task] && longer[0] == queue[0];
      UserTasksAppend(queue[1..], task);
      var head, last := if queue[0].User? then [queue[0]] else [], if task.User? then [task] else [];
      assert head + (UserTasks(queue[1..]) + last) == (head + UserTasks(queue[1..])) + last;
    }
  }

  /** Nothing ran and no queue gained or lost a user task. */
  ghost predicate Undisturbed(st: State, after: State) {
    after.log == st.log && forall p :: Waiting(after, p) == Waiting(st, p)
  }

  lemma AddMarker(st: State, p: Ptr, mark: Label)
    ensures Undisturbed(st, AddTask(st, p, Marker(mark)))
  {
    if p in st.heap {
      UserTasksAppend(st.heap[p].queue, Marker(mark));
    }
  }

  lemma {:induction false} TrimUndisturbed(st: State)
    ensures Undisturbed(st, Trim(st))
  {
    TrimHeap(st);
    TrimLog(st);
  }

  lemma {:induction false} TrimLog(st: State)
    ensures Trim(st).log == st.log
    decreases |st.frees|
  {
    if |st.frees| > THREAD_NUM_KEEP {
      TrimLog(st.(frees := st.frees[1..], destroyed := st.destroyed + {st.frees[0]}));
    }
  }

  lemma {:induction false} ParkAllUndisturbed(st: State, name: string, retains: map<uint64, Ptr>, keys: seq<uint64>)
    requires forall k <- keys :: k in retains
    ensures Undisturbed(st, ParkAll(st, name, retains, keys))
    decreases |keys|
  {
    hide Waiting;
    if keys != [] {
      var p := retains[keys[0]];
      AddMarker(st, p, LabelFor(name, 0));
      var parked := AddTask(st, p, Marker(LabelFor(name, 0)));
      SameHeap(parked, Park(st, name, p));
      ParkAllUndisturbed(if p == NULL then st else Park(st, name, p), name, retains, keys[1..]);
    }
  }

  lemma SameHeap(st: State, after: State)
    requires after.heap == st.heap && after.log == st.log
    ensures Undisturbed(st, after)
  {
  }

  lemma RetainUndisturbed(st: State, name: string, tx: uint64, maxTaskNum: int)
    requires st.next !in st.heap
    ensures Undisturbed(st, Retain(st, name, tx, maxTaskNum).0)
  {
    if Retain(st, name, tx, maxTaskNum).1 {
      var ready := if st.frees == [] then NewPool(st) else st;
      var p := ready.frees[0];
      var set' := SetMaxTaskNum(SetSlot(ready.(frees := ready.frees[1..]), name, tx, p), p, maxTaskNum);
      AddMarker(set', p, LabelFor(name, tx));
    }
  }

  lemma ReleaseUndisturbed(st: State, name: string, tx: uint64)
    ensures Undisturbed(st, Release(st, name, tx).0)
  {
    hide Waiting;
    if Release(st, name, tx).1 {
      var p := st.groups[name].retains[tx];
      AddMarker(st, p, LabelFor(name, 0));
      var marked := AddTask(st, p, Marker(LabelFor(name, 0)));
      var cleared := ClearSlot(Park(st, name, p), name, tx);
      SameHeap(marked, cleared);
      TrimUndisturbed(cleared);
    }
  }

  lemma DestroyUndisturbed(st: State, name: string)
    ensures Undisturbed(st, DestroyGroup(st, name).0)
  {
    hide Waiting;
    if name in st.groups {
      var retains := st.groups[name].retains;
      var keys := Ascending(retains.Keys);
      ParkAllUndisturbed(st, name, retains, keys);
      var parked := ParkAll(st, name, retains, keys);
      TrimUndisturbed(parked);
      SameHeap(Trim(parked), DestroyGroup(st, name).0);
    }
  }

  lemma RanOnAppend(log: seq<Ran>, e: Ran, p: Ptr)
    ensures RanOn(log + [e], p) == RanOn(log, p) + if e.pool == p then [e.task] else []
  {
    assert (log + [e])[..|log|] == log;
  }

  lemma WorkThrough(st: State, q: Ptr, p: Ptr)
    ensures Through(Work(st, q), p) == Through(st, p)
  {
    if q in st.heap && st.heap[q].queue != [] {
      var pool := st.heap[q];
      if pool.queue[0].User? {
        RanOnAppend(st.log, Ran(q, pool.queue[0], pool.curr), p);
        assert q == p ==> Waiting(st, p) == [pool.queue[0]] + Waiting(Work(st, q), p);
      }
    }
  }

  lemma PostThrough(st: State, name: string, tx: uint64, body: nat, p: Ptr)
    requires Inv(st)
    ensures Through(Post(st, name, tx, body).0, p) == Through(st, p) + PostedBy(st, PostOp(name, tx, body), p)
  {
    assert Through(st, p) + [] == Through(st, p);
    if name in st.groups && tx in st.groups[name].retains {
      var q := st.groups[name].retains[tx];
      assert InSlot(st, q, name, tx);
      UserTasksAppend(st.heap[q].queue, User(Serving(name, tx), body));
    }
  }

  /** An operation adds to a pool what it posts there; only dropping a destroyed pool's queue loses anything. */
  lemma StepThrough(st: State, op: Op, p: Ptr)
    requires Inv(st)
    ensures if op == DropOp(p) && p in st.destroyed
            then Through(Step(st, op), p) == RanOn(st.log, p) && PostedBy(st, op, p) == []
            else Through(Step(st, op), p) == Through(st, p) + PostedBy(st, op, p)
  {
    hide Through, Retain, Release, DestroyGroup, Post, Work;
    Known(st);
    assert Through(st, p) + [] == Through(st, p);
    match op
    case CreateOp(name, threadNum) => UndisturbedThrough(st, Step(st, op), p);
    case DestroyOp(name) =>
      DestroyUndisturbed(st, name);
      UndisturbedThrough(st, Step(st, op), p);
    case RetainOp(name, tx, maxTaskNum) =>
      RetainUndisturbed(st, name, tx, maxTaskNum);
      UndisturbedThrough(st, Step(st, op), p);
    case ReleaseOp(name, tx) =>
      ReleaseUndisturbed(st, name, tx);
      UndisturbedThrough(st, Step(st, op), p);
    case PostOp(name, tx, body) => PostThrough(st, name, tx, body, p);
    case WorkOp(q) => WorkThrough(st, q, p);
    case DropOp(q) => DropThrough(st, q, p);
  }

  lemma Known(st: State)
    requires Inv(st)
    ensures st.next !in st.heap && forall p <- st.destroyed :: p in st.heap
  {
  }

  lemma UndisturbedThrough(st: State, after: State, p: Ptr)
    requires Undisturbed(st, after)
    ensures Through(after, p) == Through(st, p)
  {
  }

  lemma DropThrough(st: State, q: Ptr, p: Ptr)
    requires forall d <- st.destroyed :: d in st.heap
    ensures Through(Drop(st, q), p) == if q == p && p in st.destroyed then RanOn(st.log, p) else Through(st, p)
  {
  }

  // ---------------------------------------------------------- every run

  lemma DestroyedForever(st: State, op: Op)
    ensures st.destroyed <= Step(st, op).destroyed
  {
    hide Ascending, AddTask;
    match op
    case DestroyOp(name) =>
      if name in st.groups {
        var retains := st.groups[name].retains;
        ParkAllFrame(st, name, retains, Ascending(retains.Keys));
        TrimDestroyed(ParkAll(st, name, retains, Ascending(retains.Keys)));
      }
    case ReleaseOp(name, tx) =>
      if Release(st, name, tx).1 {
        AddFrame(st, st.groups[name].retains[tx], Marker(LabelFor(name, 0)));
        TrimDestroyed(ClearSlot(Park(st, name, st.groups[name].retains[tx]), name, tx));
      }
    case RetainOp(name, tx, maxTaskNum) => RetainFrame(st, name, tx, maxTaskNum);
    case PostOp(name, tx, body) =>
      if name in st.groups && tx in st.groups[name].retains {
        AddFrame(st, st.groups[name].retains[tx], User(Serving(name, tx), body));
      }
    case _ =>
  }

  lemma AddFrame(st: State, p: Ptr, task: Task)
    ensures AddTask(st, p, task) == st.(heap := AddTask(st, p, task).heap)
  {
  }

  lemma RetainFrame(st: State, name: string, tx: uint64, maxTaskNum: int)
    ensures Retain(st, name, tx, maxTaskNum).0.destroyed == st.destroyed
  {
  }

  lemma {:induction false} TrimDestroyed(st: State)
    ensures st.destroyed <= Trim(st).destroyed
    decreases |st.frees|
  {
    if |st.frees| > THREAD_NUM_KEEP {
      TrimDestroyed(st.(frees := st.frees[1..], destroyed := st.destroyed + {st.frees[0]}));
    }
  }

  lemma {:induction false} ParkAllFrame(st: State, name: string, retains: map<uint64, Ptr>, keys: seq<uint64>)
    requires forall k <- keys :: k in retains
    ensures ParkAll(st, name, retains, keys).destroyed == st.destroyed
    decreases |keys|
  {
    hide AddTask;
    if keys != [] {
      var p := retains[keys[0]];
      AddFrame(st, p, Marker(LabelFor(name, 0)));
      ParkAllFrame(if p == NULL then st else Park(st, name, p), name, retains, keys[1..]);
    }
  }

  /** A destroyed pool is never posted to again. */
  lemma {:induction false} NothingForTheDestroyed(st: State, ops: seq<Op>, p: Ptr)
    requires Inv(st) && p in st.destroyed
    ensures PostedTo(st, ops, p) == []
    decreases |ops|
  {
    hide Step;
    if ops != [] {
      StepKeeps(st, ops[0]);
      DestroyedForever(st, ops[0]);
      NotPosted(st, ops[0], p);
      NothingForTheDestroyed(Step(st, ops[0]), ops[1..], p);
    }
  }

  lemma NotPosted(st: State, op: Op, p: Ptr)
    requires Inv(st) && p in st.destroyed
    ensures PostedBy(st, op, p) == []
  {
    if op.PostOp? && op.name in st.groups && op.tx in st.groups[op.name].retains {
      assert InSlot(st, st.groups[op.name].retains[op.tx], op.name, op.tx);
    }
  }

  lemma {:induction false} ThroughOfRuns(st: State, ops: seq<Op>, p: Ptr)
    requires Inv(st)
    ensures Through(Run(st, ops), p) <= Through(st, p) + PostedTo(st, ops, p)
    ensures p !in Run(st, ops).destroyed ==> Through(Run(st, ops), p) == Through(st, p) + PostedTo(st, ops, p)
    decreases |ops|
  {
    hide Inv, Step, Waiting, RanOn, PostedBy;
    if ops == [] {
      assert Through(st, p) + [] == Through(st, p);
    } else {
      var next, rest := Step(st, ops[0]), ops[1..];
      StepKeeps(st, ops[0]);
      StepThrough(st, ops[0], p);
      ThroughOfRuns(next, rest, p);
      if ops[0] == DropOp(p) && p in st.destroyed {
        DestroyedForever(st, ops[0]);
        NothingForTheDestroyed(next, rest, p);
        StillDestroyed(next, rest, p);
      } else {
        var posted := PostedBy(st, ops[0], p);
        assert Through(next, p) + PostedTo(next, rest, p) == Through(st, p) + (posted + PostedTo(next, rest, p));
      }
    }
  }

  lemma {:induction false} StillDestroyed(st: State, ops: seq<Op>, p: Ptr)
    requires p in st.destroyed
    ensures p in Run(st, ops).destroyed
    decreases |ops|
  {
    hide Step;
    if ops != [] {
      DestroyedForever(st, ops[0]);
      StillDestroyed(Step(st, ops[0]), ops[1..], p);
    }
  }

  /**
   * In every interleaving a pool runs the tasks posted to it at most once and in the order of
   * posting; those that have not run are waiting, in order, unless the pool was destroyed.
   */
  lemma TasksRunOnceInOrder(ops: seq<Op>, p: Ptr)
    ensures var st := Run(INITIAL, ops);
            && RanOn(st.log, p) <= PostedTo(INITIAL, ops, p)
            && (p !in st.destroyed ==> RanOn(st.log, p) + Waiting(st, p) == PostedTo(INITIAL, ops, p))
  {
    hide Run, PostedTo, Step;
    ThroughOfRuns(INITIAL, ops, p);
    assert Through(INITIAL, p) == [];
    var st := Run(INITIAL, ops);
    assert RanOn(st.log, p) <= Through(st, p);
    assert [] + PostedTo(INITIAL, ops, p) == PostedTo(INITIAL, ops, p);
  }

  // --------------------------------------------------- one transaction

  /** The tasks posted under a transaction, whichever pool it has. */
  ghost function PostedUnder(ops: seq<Op>, name: string, tx: uint64): seq<Task>
    decreases |ops|
  {
    if ops == [] then []
    else
      (match ops[0]
       case PostOp(n, t, body) => if n == name && t == tx then [User(Serving(name, tx), body)] else []
       case _ => [])
      + PostedUnder(ops[1..], name, tx)
  }

  /** Neither the transaction nor its group is released. */
  predicate KeepsSlot(op: Op, name: string, tx: uint64) {
    op != ReleaseOp(name, tx) && op != DestroyOp(name)
  }

  lemma SlotStays(st: State, op: Op, p: Ptr, name: string, tx: uint64)
    requires Inv(st) && InSlot(st, p, name, tx) && KeepsSlot(op, name, tx)
    ensures InSlot(Step(st, op), p, name, tx)
  {
    hide AddTask, Ascending, Settled, QueueOk;
    match op
    case DestroyOp(n) => OtherGroupUntouched(st, op, name);
    case ReleaseOp(n, t) =>
      if n != name {
        OtherGroupUntouched(st, op, name);
      } else if Release(st, n, t).1 {
        AddFrame(st, st.groups[n].retains[t], Marker(LabelFor(n, 0)));
        TrimGroups(ClearSlot(Park(st, n, st.groups[n].retains[t]), n, t),
                   ClearSlot(Park(st, n, st.groups[n].retains[t]), n, t).groups);
      }
    case RetainOp(n, t, maxTaskNum) => RetainSlots(st, n, t, maxTaskNum, p, name, tx);
    case PostOp(n, t, body) =>
      if n in st.groups && t in st.groups[n].retains {
        AddFrame(st, st.groups[n].retains[t], User(Serving(n, t), body));
        assert InSlot(st, st.groups[n].retains[t], n, t);
        SlotNotNull(st, st.groups[n].retains[t], n, t);
      }
    case _ =>
  }

  lemma SlotNotNull(st: State, p: Ptr, name: string, tx: uint64)
    requires Inv(st) && InSlot(st, p, name, tx)
    ensures p != NULL
  {
  }

  lemma RetainSlots(st: State, n: string, t: uint64, maxTaskNum: int, p: Ptr, name: string, tx: uint64)
    requires InSlot(st, p, name, tx)
    ensures InSlot(Retain(st, n, t, maxTaskNum).0, p, name, tx)
  {
    hide AddTask;
    if Retain(st, n, t, maxTaskNum).1 {
      var ready := if st.frees == [] then NewPool(st) else st;
      var q := ready.frees[0];
      AddFrame(SetMaxTaskNum(SetSlot(ready.(frees := ready.frees[1..]), n, t, q), q, maxTaskNum), q,
               Marker(LabelFor(n, t)));
    }
  }

  lemma OnlyItsPosts(st: State, op: Op, p: Ptr, name: string, tx: uint64)
    requires Inv(st) && InSlot(st, p, name, tx)
    ensures PostedBy(st, op, p) == PostedUnder([op], name, tx)
  {
    assert [op][1..] == [];
    SlotNotNull(st, p, name, tx);
    if op.PostOp? && op.name in st.groups && op.tx in st.groups[op.name].retains {
      assert InSlot(st, st.groups[op.name].retains[op.tx], op.name, op.tx);
    }
  }

  lemma {:induction false} PostedToItsPool(st: State, ops: seq<Op>, p: Ptr, name: string, tx: uint64)
    requires Inv(st) && InSlot(st, p, name, tx)
    requires forall i | 0 <= i < |ops| :: KeepsSlot(ops[i], name, tx)
    ensures PostedTo(st, ops, p) == PostedUnder(ops, name, tx) && InSlot(Run(st, ops), p, name, tx)
    decreases |ops|
  {
    hide Inv, Step, InSlot, PostedBy;
    if ops != [] {
      OnlyItsPosts(st, ops[0], p, name, tx);
      assert PostedUnder(ops, name, tx) == PostedUnder([ops[0]], name, tx) + PostedUnder(ops[1..], name, tx) by {
        assert [ops[0]][1..] == [];
      }
      SlotStays(st, ops[0], p, name, tx);
      StepKeeps(st, ops[0]);
      PostedToItsPool(Step(st, ops[0]), ops[1..], p, name, tx);
    }
  }

  /**
   * While a transaction stays retained, all of its tasks, and no others, go to its pool: they
   * run at most once and in the order of posting, and those that have not run are waiting.
   */
  lemma TransactionRunsInOrder(before: seq<Op>, ops: seq<Op>, p: Ptr, name: string, tx: uint64)
    requires InSlot(Run(INITIAL, before), p, name, tx)
    requires forall i | 0 <= i < |ops| :: KeepsSlot(ops[i], name, tx)
    ensures var st := Run(INITIAL, before);
            var after := Run(st, ops);
            RanOn(after.log, p) + Waiting(after, p) ==
            RanOn(st.log, p) + Waiting(st, p) + PostedUnder(ops, name, tx)
  {
    hide Inv, Step, Run, PostedTo, PostedUnder, RanOn, Waiting;
    InitialInv();
    InvOfRuns(INITIAL, before);
    var st := Run(INITIAL, before);
    PostedToItsPool(st, ops, p, name, tx);
    InvOfRuns(st, ops);
    SlotAlive(Run(st, ops), p, name, tx);
    ThroughOfRuns(st, ops, p);
  }

  lemma InitialInv()
    ensures Inv(INITIAL)
  {
  }

  lemma SlotAlive(st: State, p: Ptr, name: string, tx: uint64)
    requires Inv(st) && InSlot(st, p, name, tx)
    ensures p !in st.destroyed
  {
  }

  /**
   * Retained again after a release, the transaction gets its old pool, with what waits there, if
   * and only if no other pool was idle.
   */
  lemma RetainedAgainElsewhere(st: State, p: Ptr, name: string, tx: uint64, maxTaskNum: int)
    requires Inv(st) && InSlot(st, p, name, tx)
    ensures var again := Retain(Release(st, name, tx).0, name, tx, maxTaskNum);
            && again.1 && Waiting(again.0, p) == Waiting(st, p)
            && (InSlot(again.0, p, name, tx) <==> st.frees == [])
  {
    hide Waiting, Settled, QueueOk, AddTask;
    SlotKnown(st, p, name, tx);
    var released := Release(st, name, tx).0;
    ReleaseUndisturbed(st, name, tx);
    ReleaseKeeps(st, name, tx);
    Known(released);
    RetainUndisturbed(released, name, tx, maxTaskNum);
    ReleasedState(st, p, name, tx);
    hide Inv, Release;
    RetainedFront(released, name, tx, maxTaskNum);
  }

  lemma SlotKnown(st: State, p: Ptr, name: string, tx: uint64)
    requires Inv(st) && InSlot(st, p, name, tx)
    ensures tx != 0 && p !in st.frees && |st.groups[name].retains| <= st.groups[name].threadNum
    ensures |st.frees| <= THREAD_NUM_KEEP
  {
  }

  /** After a release the group has room, and an idle pool other than p comes first if there was one. */
  lemma ReleasedState(st: State, p: Ptr, name: string, tx: uint64)
    requires InSlot(st, p, name, tx) && tx != 0 && p !in st.frees && |st.frees| <= THREAD_NUM_KEEP
    requires |st.groups[name].retains| <= st.groups[name].threadNum
    ensures var released := Release(st, name, tx).0;
            && name in released.groups && tx !in released.groups[name].retains
            && |released.groups[name].retains| < released.groups[name].threadNum
            && released.frees != [] && (released.frees[0] == p <==> st.frees == [])
  {
    hide AddTask, Elements;
    AddFrame(st, p, Marker(LabelFor(name, 0)));
    var cleared := ClearSlot(Park(st, name, p), name, tx);
    TrimKeepsNewest(cleared);
    assert cleared.frees == st.frees + [p];
    var retains := st.groups[name].retains;
    assert retains.Keys == (retains - {tx}).Keys + {tx};
    assert |retains| == |retains.Keys| && |retains - {tx}| == |(retains - {tx}).Keys|;
    if st.frees != [] {
      assert st.frees[0] in st.frees;
      if |st.frees| == THREAD_NUM_KEEP {
        assert st.frees[1] in st.frees;
      }
    }
  }

  lemma RetainedFront(st: State, name: string, tx: uint64, maxTaskNum: int)
    requires name in st.groups && tx != 0 && tx !in st.groups[name].retains && st.frees != []
    requires |st.groups[name].retains| < st.groups[name].threadNum
    ensures var (after, retained) := Retain(st, name, tx, maxTaskNum);
            retained && name in after.groups && tx in after.groups[name].retains
            && after.groups[name].retains[tx] == st.frees[0]
  {
    hide AddTask;
    var q := st.frees[0];
    AddFrame(SetMaxTaskNum(SetSlot(st.(frees := st.frees[1..]), name, tx, q), q, maxTaskNum), q,
             Marker(LabelFor(name, tx)));
  }
}
