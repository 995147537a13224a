/** Ownership of pools and the labels seen by tasks, in every interleaving. */
module ThreadGroupLaws {
  import opened Common
  import opened OrderedKeys
  import opened ThreadGroupState

  function After(curr: Label, task: Task): Label {
    if task.Marker? then task.mark else curr
  }

  /** The label a pool's thread has once its queue is empty. */
  function Final(curr: Label, queue: seq<Task>): Label
    decreases |queue|
  {
    if queue == [] then curr else Final(After(curr, queue[0]), queue[1..])
  }

  /** Every user task in the queue runs under the label it was posted under. */
  ghost predicate QueueOk(curr: Label, queue: seq<Task>)
    decreases |queue|
  {
    queue == []
    || ((queue[0].User? ==> queue[0].owner == curr) && QueueOk(After(curr, queue[0]), queue[1..]))
  }

  lemma {:induction false} Append(curr: Label, queue: seq<Task>, task: Task)
    ensures Final(curr, queue + [task]) == After(Final(curr, queue), task)
    ensures QueueOk(curr, queue + [task]) <==>
            QueueOk(curr, queue) && (task.User? ==> task.owner == Final(curr, queue))
    decreases |queue|
  {
    if queue == [] {
      assert (queue + [task])[1..] == [];
    } else {
      assert (queue + [task])[1..] == queue[1..] + [task];
      Append(After(curr, queue[0]), queue[1..], task);
    }
  }

  ghost function Settled(pool: ThreadPool): Label {
    Final(pool.curr, pool.queue)
  }

  ghost predicate InSlot(st: State, p: Ptr, name: string, tx: uint64) {
    name in st.groups && tx in st.groups[name].retains && st.groups[name].retains[tx] == p
  }

  /** An idle pool: live, listed once, and settling to the idle label. */
  ghost predicate FreesOk(st: State) {
    && (forall p <- st.frees :: p in st.heap && p !in st.destroyed && Settled(st.heap[p]) == Idle)
    && (forall i, j | 0 <= i < j < |st.frees| :: st.frees[i] != st.frees[j])
  }

  /** A retained pool: live, non-null, and settling to its own group and transaction. */
  ghost predicate SlotsOk(st: State) {
    forall name, tx, p | InSlot(st, p, name, tx) ::
      p in st.heap && p !in st.destroyed && Settled(st.heap[p]) == Serving(name, tx) && tx != 0
  }

  /** Every pool ever created is destroyed, idle, or in the slot its label names. */
  ghost predicate Accounted(st: State, p: Ptr)
    requires p in st.heap
  {
    || p in st.destroyed
    || p in st.frees
    || (var mark := Settled(st.heap[p]); mark.Serving? && InSlot(st, p, mark.name, mark.tx))
  }

  ghost predicate Ownership(st: State) {
    && FreesOk(st) && SlotsOk(st)
    && (forall p <- st.heap :: 0 < p < st.next && QueueOk(st.heap[p].curr, st.heap[p].queue))
    && (forall p | 0 < p < st.next :: p in st.heap && Accounted(st, p))
    && st.destroyed <= st.heap.Keys && st.next > 0
  }

  ghost predicate Capacity(st: State) {
    forall name <- st.groups :: |st.groups[name].retains| <= st.groups[name].threadNum
  }

  ghost predicate LogOk(st: State) {
    forall e <- st.log :: e.task.User? && e.seen == e.task.owner
  }

  ghost predicate Inv(st: State) {
    Ownership(st) && Capacity(st) && |st.frees| <= THREAD_NUM_KEEP && LogOk(st)
  }

  // -------------------------------------------------------------- steps

  lemma CreateKeeps(st: State, name: string, threadNum: nat)
    requires Inv(st)
    ensures Inv(CreateGroup(st, name, threadNum).0)
  {
    var after := CreateGroup(st, name, threadNum).0;
    if name !in st.groups {
      forall n, tx, p ensures InSlot(after, p, n, tx) <==> InSlot(st, p, n, tx) { }
      forall p | 0 < p < st.next ensures p in after.heap && Accounted(after, p) {
        assert Accounted(st, p);
      }
    }
  }

  /** One pool's queue grows by a task that fits it; everything else is unchanged. */
  lemma AddKeeps(st: State, p: Ptr, task: Task)
    requires Ownership(st) && p in st.heap
    requires task.User? && task.owner == Settled(st.heap[p])
    ensures Ownership(AddTask(st, p, task))
  {
    Append(st.heap[p].curr, st.heap[p].queue, task);
    var after := AddTask(st, p, task);
    forall q | q in st.heap ensures Settled(after.heap[q]) == Settled(st.heap[q]) { }
    forall n, tx, q ensures InSlot(after, q, n, tx) <==> InSlot(st, q, n, tx) { }
  }

  lemma PostKeeps(st: State, name: string, tx: uint64, body: nat)
    requires Inv(st)
    ensures Inv(Post(st, name, tx, body).0)
    ensures Post(st, name, tx, body).1 <==> name in st.groups && tx in st.groups[name].retains
  {
    if name in st.groups && tx in st.groups[name].retains {
      var p := st.groups[name].retains[tx];
      assert InSlot(st, p, name, tx);
      AddKeeps(st, p, User(Serving(name, tx), body));
    }
  }

  /** The pool after its worker took the front task. */
  function Worked(pool: ThreadPool): ThreadPool
    requires pool.queue != []
  {
    pool.(queue := pool.queue[1..], curr := After(pool.curr, pool.queue[0]))
  }

  lemma WorkedSettles(pool: ThreadPool)
    requires pool.queue != []
    ensures Settled(Worked(pool)) == Settled(pool)
    ensures QueueOk(pool.curr, pool.queue) ==>
              && QueueOk(Worked(pool).curr, Worked(pool).queue)
              && (pool.queue[0].User? ==> pool.queue[0].owner == pool.curr)
  {
  }

  lemma WorkKeeps(st: State, p: Ptr)
    requires Inv(st)
    ensures Inv(Work(st, p))
  {
    if p in st.heap && st.heap[p].queue != [] {
      hide Settled, QueueOk;
      var after := Work(st, p);
      WorkedSettles(st.heap[p]);
      assert after.heap == st.heap[p := Worked(st.heap[p])];
      forall q | q in st.heap ensures q in after.heap && Settled(after.heap[q]) == Settled(st.heap[q]) { }
      forall n, tx, q ensures InSlot(after, q, n, tx) <==> InSlot(st, q, n, tx) { }
      forall q | 0 < q < st.next ensures q in after.heap && Accounted(after, q) {
        assert Accounted(st, q);
      }
    }
  }

  lemma DropKeeps(st: State, p: Ptr)
    requires Inv(st)
    ensures Inv(Drop(st, p))
  {
    var after := Drop(st, p);
    forall n, tx, q ensures InSlot(after, q, n, tx) <==> InSlot(st, q, n, tx) { }
  }

  lemma NewPoolKeeps(st: State)
    requires Ownership(st)
    ensures Ownership(NewPool(st))
  {
    var after := NewPool(st);
    forall n, tx, q ensures InSlot(after, q, n, tx) <==> InSlot(st, q, n, tx) { }
    forall q | q in st.heap ensures after.heap[q] == st.heap[q] { }
    forall q | q in st.frees ensures q in after.frees { }
    forall i | 0 <= i < |st.frees| ensures after.frees[i] < st.next {
      assert st.frees[i] in st.frees;
    }
  }

  lemma OccupyKeeps(st: State, name: string, tx: uint64, maxTaskNum: int)
    requires Ownership(st) && st.frees != []
    requires name in st.groups && tx != 0 && tx !in st.groups[name].retains
    ensures Ownership(Occupy(st, name, tx, maxTaskNum))
  {
    var p, after := st.frees[0], Occupy(st, name, tx, maxTaskNum);
    Append(st.heap[p].curr, st.heap[p].queue, Marker(Serving(name, tx)));
    assert Settled(after.heap[p]) == Serving(name, tx);
    forall q | q in st.heap && q != p ensures after.heap[q] == st.heap[q] { }
    forall n, t, q ensures InSlot(after, q, n, t) <==> InSlot(st, q, n, t) || (n == name && t == tx && q == p) { }
    forall q ensures q in st.frees <==> q == p || q in after.frees {
      assert st.frees == [p] + after.frees;
    }
    forall n, t | InSlot(st, p, n, t) ensures false { }
    assert p !in after.frees;
  }

  lemma RetainKeeps(st: State, name: string, tx: uint64, maxTaskNum: int)
    requires Inv(st)
    ensures Inv(Retain(st, name, tx, maxTaskNum).0)
  {
    if Retain(st, name, tx, maxTaskNum).1 {
      NewPoolKeeps(st);
      var ready := if st.frees == [] then NewPool(st) else st;
      OccupyKeeps(ready, name, tx, maxTaskNum);
    }
  }

  lemma {:induction false} TrimKeeps(st: State)
    requires Ownership(st)
    ensures Ownership(Trim(st)) && |Trim(st).frees| <= THREAD_NUM_KEEP
    ensures |Trim(st).frees| == if |st.frees| <= THREAD_NUM_KEEP then |st.frees| else THREAD_NUM_KEEP
    ensures Trim(st).groups == st.groups && Trim(st).log == st.log && Trim(st).heap == st.heap
    decreases |st.frees|
  {
    hide Ownership;
    if |st.frees| > THREAD_NUM_KEEP {
      EvictKeeps(st);
      TrimKeeps(st.(frees := st.frees[1..], destroyed := st.destroyed + {st.frees[0]}));
    }
  }

  lemma EvictKeeps(st: State)
    requires Ownership(st) && st.frees != []
    ensures Ownership(st.(frees := st.frees[1..], destroyed := st.destroyed + {st.frees[0]}))
  {
    hide QueueOk, Settled;
    var p := st.frees[0];
    var after := st.(frees := st.frees[1..], destroyed := st.destroyed + {p});
    forall n, t, q ensures InSlot(after, q, n, t) <==> InSlot(st, q, n, t) { }
    forall q ensures q in st.frees <==> q == p || q in after.frees {
      assert st.frees == [p] + after.frees;
    }
    forall q | 0 < q < st.next ensures q in after.heap && Accounted(after, q) {
      assert Accounted(st, q);
    }
  }

  lemma ElementsOfPrefix(s: seq<Ptr>, n: nat)
    requires 0 < n <= |s|
    ensures Elements(s[..n]) == {s[0]} + Elements(s[1..][..n - 1])
  {
    assert s[..n] == [s[0]] + s[1..][..n - 1];
  }

  /** Trimming keeps the five most recently parked pools, in order, and destroys the rest. */
  lemma {:induction false} TrimKeepsNewest(st: State)
    ensures var n := if |st.frees| <= THREAD_NUM_KEEP then 0 else |st.frees| - THREAD_NUM_KEEP;
            Trim(st) == st.(frees := st.frees[n..], destroyed := st.destroyed + Elements(st.frees[..n]))
    decreases |st.frees|
  {
    if |st.frees| > THREAD_NUM_KEEP {
      hide Elements;
      var after := st.(frees := st.frees[1..], destroyed := st.destroyed + {st.frees[0]});
      TrimKeepsNewest(after);
      var n := |st.frees| - THREAD_NUM_KEEP;
      assert after.frees[n - 1..] == st.frees[n..];
      ElementsOfPrefix(st.frees, n);
    } else {
      assert st.frees[0..] == st.frees;
      assert st.frees[..0] == [];
    }
  }

  /** Parking a retained pool and clearing its slot moves it between owners. */
  lemma ReleaseOneKeeps(st: State, name: string, tx: uint64)
    requires Ownership(st) && name in st.groups && tx in st.groups[name].retains
    ensures st.groups[name].retains[tx] in st.heap && st.groups[name].retains[tx] != NULL
    ensures Ownership(ClearSlot(Park(st, name, st.groups[name].retains[tx]), name, tx))
  {
    var p := st.groups[name].retains[tx];
    assert InSlot(st, p, name, tx);
    var after := ClearSlot(Park(st, name, p), name, tx);
    Append(st.heap[p].curr, st.heap[p].queue, Marker(Idle));
    assert Settled(after.heap[p]) == Idle;
    forall q | q in st.heap && q != p ensures after.heap[q] == st.heap[q] { }
    forall n, t, q ensures InSlot(after, q, n, t) <==> InSlot(st, q, n, t) && !(n == name && t == tx) { }
    forall q ensures q in after.frees <==> q == p || q in st.frees { }
    forall n, t | InSlot(st, p, n, t) ensures n == name && t == tx { }
  }

  lemma ReleaseKeeps(st: State, name: string, tx: uint64)
    requires Inv(st)
    ensures Inv(Release(st, name, tx).0)
  {
    if Release(st, name, tx).1 {
      ReleaseOneKeeps(st, name, tx);
      var after := ClearSlot(Park(st, name, st.groups[name].retains[tx]), name, tx);
      TrimKeeps(after);
    }
  }

  /** The state without the given slots of a group. */
  function Without(st: State, name: string, keys: seq<uint64>): State
    requires name in st.groups
  {
    var group := st.groups[name];
    st.(groups := st.groups[name := group.(retains := group.retains - set k <- keys)])
  }

  lemma {:induction false} ParkAllGroups(st: State, name: string, retains: map<uint64, Ptr>, keys: seq<uint64>,
                                         groups: map<string, ThreadGroup>)
    requires forall k <- keys :: k in retains
    ensures ParkAll(st.(groups := groups), name, retains, keys) ==
            ParkAll(st, name, retains, keys).(groups := groups)
    ensures ParkAll(st, name, retains, keys).groups == st.groups
    decreases |keys|
  {
    if keys != [] {
      var p := retains[keys[0]];
      ParkAllGroups(if p == NULL then st else Park(st, name, p), name, retains, keys[1..], groups);
    }
  }

  lemma {:induction false} TrimGroups(st: State, groups: map<string, ThreadGroup>)
    ensures Trim(st.(groups := groups)) == Trim(st).(groups := groups)
    decreases |st.frees|
  {
    if |st.frees| > THREAD_NUM_KEEP {
      TrimGroups(st.(frees := st.frees[1..], destroyed := st.destroyed + {st.frees[0]}), groups);
    }
  }

  /** Parking a group's pools in order, then clearing their slots, keeps ownership. */
  lemma {:induction false} ParkAllKeeps(st: State, name: string, retains: map<uint64, Ptr>, keys: seq<uint64>)
    requires Ownership(st) && name in st.groups && Strict(keys)
    requires forall k <- keys :: k in retains && InSlot(st, retains[k], name, k)
    ensures ParkAll(st, name, retains, keys).groups == st.groups
    ensures Ownership(Without(ParkAll(st, name, retains, keys), name, keys))
    ensures ParkAll(st, name, retains, keys).log == st.log
    decreases |keys|
  {
    hide Ownership, Without;
    ParkAllGroups(st, name, retains, keys, st.groups);
    if keys == [] {
      WithoutNone(st, name);
    } else {
      var k, rest := keys[0], keys[1..];
      assert InSlot(st, retains[k], name, k);
      ReleaseOneKeeps(st, name, k);
      var parked := Park(st, name, retains[k]);
      var next := ClearSlot(parked, name, k);
      forall x <- rest ensures x in retains && InSlot(next, retains[x], name, x) {
        assert InSlot(st, retains[x], name, x);
        ClearKeepsOthers(st, name, retains[k], k, retains[x], x);
      }
      ParkAllKeeps(next, name, retains, rest);
      ParkAllGroups(parked, name, retains, rest, next.groups);
      var all := ParkAll(parked, name, retains, rest);
      assert ParkAll(st, name, retains, keys) == all;
      assert next == parked.(groups := next.groups);
      assert ClearSlot(all, name, k) == ParkAll(next, name, retains, rest);
      WithoutOneMore(all, name, keys);
    }
  }

  lemma ClearKeepsOthers(st: State, name: string, p: Ptr, tx: uint64, q: Ptr, other: uint64)
    requires name in st.groups && InSlot(st, q, name, other) && other != tx
    ensures InSlot(ClearSlot(Park(st, name, p), name, tx), q, name, other)
    ensures Park(st, name, p).groups == st.groups && Park(st, name, p).log == st.log
    ensures ClearSlot(Park(st, name, p), name, tx).groups == ClearSlot(st, name, tx).groups
  {
  }

  lemma WithoutNone(st: State, name: string)
    requires name in st.groups
    ensures Without(st, name, []) == st
  {
    var group := st.groups[name];
    assert group.retains - (set k <- []) == group.retains;
    assert st.groups[name := group] == st.groups;
  }

  lemma WithoutOneMore(st: State, name: string, keys: seq<uint64>)
    requires name in st.groups && keys != []
    ensures Without(ClearSlot(st, name, keys[0]), name, keys[1..]) == Without(st, name, keys)
  {
    var retains := st.groups[name].retains;
    assert keys == [keys[0]] + keys[1..];
    assert retains - {keys[0]} - (set k <- keys[1..]) == retains - set k <- keys;
  }

  lemma DestroyKeeps(st: State, name: string)
    requires Inv(st)
    ensures Inv(DestroyGroup(st, name).0)
  {
    hide Ownership, ParkAll, Trim, QueueOk;
    if name in st.groups {
      var retains := st.groups[name].retains;
      var keys := Ascending(retains.Keys);
      AscendingStrict(retains.Keys);
      ParkAllKeeps(st, name, retains, keys);
      var parked := ParkAll(st, name, retains, keys);
      var empty := Without(parked, name, keys);
      assert retains - (set k <- keys) == map[];
      TrimGroups(parked, empty.groups);
      TrimKeeps(empty);
      TrimGroups(parked, st.groups);
      assert ReleaseAll(st, name) == Trim(empty);
      RemoveEmptyGroup(Trim(empty), name);
    }
  }

  lemma RemoveEmptyGroup(st: State, name: string)
    requires Ownership(st) && name in st.groups && st.groups[name].retains == map[]
    ensures Ownership(st.(groups := st.groups - {name}))
  {
    var after := st.(groups := st.groups - {name});
    forall n, t, q ensures InSlot(after, q, n, t) <==> InSlot(st, q, n, t) { }
  }

  // --------------------------------------------------------------- runs

  lemma StepKeeps(st: State, op: Op)
    requires Inv(st)
    ensures Inv(Step(st, op))
  {
    hide Inv;
    match op
    case CreateOp(name, threadNum) => CreateKeeps(st, name, threadNum);
    case DestroyOp(name) => DestroyKeeps(st, name);
    case RetainOp(name, tx, maxTaskNum) => RetainKeeps(st, name, tx, maxTaskNum);
    case ReleaseOp(name, tx) => ReleaseKeeps(st, name, tx);
    case PostOp(name, tx, body) => PostKeeps(st, name, tx, body);
    case WorkOp(p) => WorkKeeps(st, p);
    case DropOp(p) => DropKeeps(st, p);
  }

  lemma {:induction false} InvOfRuns(st: State, ops: seq<Op>)
    requires Inv(st)
    ensures Inv(Run(st, ops))
    decreases |ops|
  {
    hide Inv, Step;
    if ops != [] {
      StepKeeps(st, ops[0]);
      InvOfRuns(Step(st, ops[0]), ops[1..]);
    }
  }

  /**
   * In every interleaving, each user task that runs sees the thread labelled with the
   * group and transaction it was posted under.
   */
  lemma TasksSeeTheirTransaction(ops: seq<Op>, e: Ran)
    requires e in Run(INITIAL, ops).log
    ensures e.task.User? && e.seen == e.task.owner
  {
    InvOfRuns(INITIAL, ops);
  }

  ghost function SlotPtrs(st: State): set<Ptr> {
    set name <- st.groups, tx <- st.groups[name].retains :: st.groups[name].retains[tx]
  }

  /**
   * In every reachable state the pools ever created are split into idle, retained and
   * destroyed ones; no pool is idle twice or held by two transactions, and none is null.
   */
  lemma PoolsAreConserved(ops: seq<Op>)
    ensures var st := Run(INITIAL, ops);
            && st.next - 1 == |st.frees| + |SlotPtrs(st)| + |st.destroyed|
            && (forall i, j | 0 <= i < j < |st.frees| :: st.frees[i] != st.frees[j])
            && (forall p <- st.frees :: p !in SlotPtrs(st) && p !in st.destroyed)
            && SlotPtrs(st) !! st.destroyed
            && |st.frees| <= THREAD_NUM_KEEP && Capacity(st)
            && NULL !in st.frees && NULL !in SlotPtrs(st)
            && forall n1, t1, n2, t2, p :: InSlot(st, p, n1, t1) && InSlot(st, p, n2, t2) ==> n1 == n2 && t1 == t2
  {
    InvOfRuns(INITIAL, ops);
    var st := Run(INITIAL, ops);
    SplitPools(st);
    forall p <- SlotPtrs(st) ensures p !in st.frees && p !in st.destroyed {
      SlotPtr(st, p);
    }
  }

  ghost function Elements(s: seq<Ptr>): set<Ptr> {
    set p <- s
  }

  /** The pool addresses handed out before n. */
  ghost function Below(n: Ptr): (r: set<Ptr>)
    ensures forall p :: p in r <==> 0 < p < n
    ensures n > 0 ==> |r| == n - 1
  {
    if n <= 1 then {} else Below(n - 1) + {n - 1}
  }

  lemma SlotPtr(st: State, p: Ptr)
    requires Ownership(st) && p in SlotPtrs(st)
    ensures p in st.heap && p !in st.destroyed && Settled(st.heap[p]).Serving?
  {
    var name, tx :| name in st.groups && tx in st.groups[name].retains && st.groups[name].retains[tx] == p;
    assert InSlot(st, p, name, tx);
  }

  lemma SplitPools(st: State)
    requires Ownership(st)
    ensures st.next - 1 == |st.frees| + |SlotPtrs(st)| + |st.destroyed|
    ensures NULL !in st.frees && NULL !in SlotPtrs(st)
  {
    hide Settled, QueueOk;
    var idle, held := Elements(st.frees), SlotPtrs(st);
    forall p <- held ensures p in st.heap && p !in st.destroyed && p !in idle {
      SlotPtr(st, p);
    }
    forall p <- st.heap ensures p in idle || p in held || p in st.destroyed {
      assert Accounted(st, p);
    }
    CountParts(st.heap.Keys, idle, held, st.destroyed);
    DistinctCount(st.frees);
    assert st.heap.Keys == Below(st.next);
  }

  lemma CountParts(all: set<Ptr>, a: set<Ptr>, b: set<Ptr>, c: set<Ptr>)
    requires a <= all && b <= all && c <= all && a !! b && a !! c && b !! c
    requires forall p <- all :: p in a || p in b || p in c
    ensures |all| == |a| + |b| + |c|
  {
    assert all == a + b + c;
    assert |a + b| == |a| + |b|;
    assert |(a + b) + c| == |a + b| + |c|;
  }

  lemma {:induction false} DistinctCount(s: seq<Ptr>)
    requires forall i, j | 0 <= i < j < |s| :: s[i] != s[j]
    ensures |Elements(s)| == |s|
  {
    if s != [] {
      DistinctCount(s[1..]);
      assert s == [s[0]] + s[1..];
      assert Elements(s) == {s[0]} + Elements(s[1..]);
    }
  }

  /**
   * In every reachable state a post is accepted exactly for a retained transaction: the
   * null-pool branch is never taken.
   */
  lemma PostNeedsOnlyASlot(ops: seq<Op>, name: string, tx: uint64, body: nat)
    ensures var st := Run(INITIAL, ops);
            Post(st, name, tx, body).1 <==> name in st.groups && tx in st.groups[name].retains
  {
    InvOfRuns(INITIAL, ops);
    PostKeeps(Run(INITIAL, ops), name, tx, body);
  }

  // ------------------------------------- what one group sees of the steps

  /** The transactions that hold a thread of a group. */
  function Retained(st: State, name: string): set<uint64> {
    if name in st.groups then st.groups[name].retains.Keys else {}
  }

  lemma {:induction false} TrimFrame(st: State)
    ensures Trim(st).groups == st.groups
    decreases |st.frees|
  {
    if |st.frees| > THREAD_NUM_KEEP {
      TrimFrame(st.(frees := st.frees[1..], destroyed := st.destroyed + {st.frees[0]}));
    }
  }

  lemma RetainEffect(st: State, name: string, tx: uint64, maxTaskNum: int)
    ensures var (after, ok) := Retain(st, name, tx, maxTaskNum);
            && after.groups.Keys == st.groups.Keys
            && (ok <==> && name in st.groups && tx != 0 && tx !in Retained(st, name)
                        && |Retained(st, name)| < st.groups[name].threadNum)
            && Retained(after, name) == Retained(st, name) + (if ok then {tx} else {})
            && (name in st.groups ==> after.groups[name].threadNum == st.groups[name].threadNum)
            && (!ok ==> after == st)
  {
    if name in st.groups {
      assert |st.groups[name].retains| == |st.groups[name].retains.Keys|;
    }
  }

  lemma ReleaseEffect(st: State, name: string, tx: uint64)
    requires SlotsOk(st)
    ensures var after := Release(st, name, tx).0;
            && after.groups.Keys == st.groups.Keys
            && Retained(after, name) == Retained(st, name) - {tx}
            && (name in st.groups ==> after.groups[name].threadNum == st.groups[name].threadNum)
  {
    if name in st.groups && tx in st.groups[name].retains {
      var p := st.groups[name].retains[tx];
      assert InSlot(st, p, name, tx);
      TrimFrame(ClearSlot(Park(st, name, p), name, tx));
    }
  }

  /** Steps on other groups, and workers, leave a group's slots alone. */
  lemma OtherGroupUntouched(st: State, op: Op, name: string)
    requires op.WorkOp? || op.DropOp? || op.name != name
    ensures name in Step(st, op).groups <==> name in st.groups
    ensures name in st.groups ==> Step(st, op).groups[name] == st.groups[name]
  {
    match op
    case ReleaseOp(other, tx) =>
      if other in st.groups && tx in st.groups[other].retains {
        TrimFrame(ClearSlot(Park(st, other, st.groups[other].retains[tx]), other, tx));
      }
    case DestroyOp(other) =>
      if other in st.groups {
        var retains := st.groups[other].retains;
        var parked := ParkAll(st, other, retains, Ascending(retains.Keys));
        ParkAllGroups(st, other, retains, Ascending(retains.Keys), st.groups);
        TrimFrame(parked);
      }
    case _ =>
  }

  lemma DestroyEffect(st: State, name: string)
    ensures name !in DestroyGroup(st, name).0.groups
  {
  }

  /** The user tasks waiting in any queue. */
  ghost function Pending(st: State): set<Task> {
    set p <- st.heap, t <- st.heap[p].queue | t.User? :: t
  }

  lemma PendingSub(st: State, after: State, extra: set<Task>)
    requires forall p <- after.heap, t <- after.heap[p].queue ::
               t.User? ==> t in extra || (p in st.heap && t in st.heap[p].queue)
    ensures Pending(after) <= Pending(st) + extra
  {
  }

  lemma AddPending(st: State, p: Ptr, task: Task)
    ensures Pending(AddTask(st, p, task)) <= Pending(st) + if task.User? then {task} else {}
  {
    PendingSub(st, AddTask(st, p, task), if task.User? then {task} else {});
  }

  lemma {:induction false} ParkAllPending(st: State, name: string, retains: map<uint64, Ptr>, keys: seq<uint64>)
    requires forall k <- keys :: k in retains
    ensures Pending(ParkAll(st, name, retains, keys)) <= Pending(st)
    decreases |keys|
  {
    hide Pending, AddTask;
    if keys != [] {
      var p := retains[keys[0]];
      ParkPending(st, name, p);
      ParkAllPending(if p == NULL then st else Park(st, name, p), name, retains, keys[1..]);
    }
  }

  lemma ParkPending(st: State, name: string, p: Ptr)
    ensures Pending(Park(st, name, p)) <= Pending(st)
  {
    AddPending(st, p, Marker(LabelFor(name, 0)));
  }

  lemma {:induction false} TrimHeap(st: State)
    ensures Trim(st).heap == st.heap
    decreases |st.frees|
  {
    if |st.frees| > THREAD_NUM_KEEP {
      TrimHeap(st.(frees := st.frees[1..], destroyed := st.destroyed + {st.frees[0]}));
    }
  }

  /** Only a post adds a user task, and it adds the one posted. */
  lemma StepPending(st: State, op: Op)
    ensures Pending(Step(st, op)) <=
            Pending(st) + if op.PostOp? then {User(Serving(op.name, op.tx), op.body)} else {}
  {
    match op
    case CreateOp(name, threadNum) =>
    case DestroyOp(name) =>
      if name in st.groups {
        var retains := st.groups[name].retains;
        ParkAllPending(st, name, retains, Ascending(retains.Keys));
        TrimHeap(ParkAll(st, name, retains, Ascending(retains.Keys)));
      }
    case RetainOp(name, tx, maxTaskNum) => RetainPending(st, name, tx, maxTaskNum);
    case ReleaseOp(name, tx) =>
      if name in st.groups && tx in st.groups[name].retains {
        var p := st.groups[name].retains[tx];
        ParkPending(st, name, p);
        TrimHeap(ClearSlot(Park(st, name, p), name, tx));
      }
    case PostOp(name, tx, body) =>
      if name in st.groups && tx in st.groups[name].retains {
        AddPending(st, st.groups[name].retains[tx], User(Serving(name, tx), body));
      }
    case WorkOp(p) => PendingSub(st, Work(st, p), {});
    case DropOp(p) => PendingSub(st, Drop(st, p), {});
  }

  lemma RetainPending(st: State, name: string, tx: uint64, maxTaskNum: int)
    ensures Pending(Retain(st, name, tx, maxTaskNum).0) <= Pending(st)
  {
    PendingSub(st, Retain(st, name, tx, maxTaskNum).0, {});
  }
}
