/**
 * Thread groups over one shared list of idle single-worker pools: the state and the
 * reference definition of every operation and of a worker's step.
 */
module ThreadGroupState {
  import opened Common
  import opened OrderedKeys

  const THREAD_NUM_KEEP: nat := 5
  const GROUP_MAX_THREAD_NUM: nat := 4

  /** The address of a pool; zero is the null pointer. */
  type Ptr = nat
  const NULL: Ptr := 0

  /** What a worker thread is labelled with: its thread name and transactionCurr_. */
  datatype Label = Idle | Serving(name: string, tx: uint64)

  /** A queued task: a label change, or user work posted under a group and transaction. */
  datatype Task = Marker(mark: Label) | User(owner: Label, body: nat)

  datatype ThreadPool = ThreadPool(queue: seq<Task>, curr: Label, maxTaskNum: int)

  datatype ThreadGroup = ThreadGroup(threadNum: nat, retains: map<uint64, Ptr>)

  /** A user task that ran on a pool, and the label its thread had then. */
  datatype Ran = Ran(pool: Ptr, task: Task, seen: Label)

  datatype State = State(
    groups: map<string, ThreadGroup>,
    frees: seq<Ptr>,
    heap: map<Ptr, ThreadPool>,
    next: Ptr,
    destroyed: set<Ptr>,
    log: seq<Ran>)

  const INITIAL: State := State(map[], [], map[], 1, {}, [])

  function LabelFor(name: string, tx: uint64): Label {
    if tx == 0 then Idle else Serving(name, tx)
  }

  function AddTask(st: State, p: Ptr, task: Task): State {
    if p !in st.heap then st
    else st.(heap := st.heap[p := st.heap[p].(queue := st.heap[p].queue + [task])])
  }

  function CreateGroup(st: State, name: string, threadNum: nat): (State, bool) {
    if name in st.groups then (st, false)
    else (st.(groups := st.groups[name := ThreadGroup(threadNum, map[])]), true)
  }

  /** A new pool with one worker goes to the back of the idle list. */
  function NewPool(st: State): State {
    st.(heap := st.heap[st.next := ThreadPool([], Idle, 0)], frees := st.frees + [st.next], next := st.next + 1)
  }

  function SetSlot(st: State, name: string, tx: uint64, p: Ptr): State
    requires name in st.groups
  {
    var group := st.groups[name];
    st.(groups := st.groups[name := group.(retains := group.retains[tx := p])])
  }

  function SetMaxTaskNum(st: State, p: Ptr, n: int): State {
    if p !in st.heap then st else st.(heap := st.heap[p := st.heap[p].(maxTaskNum := n)])
  }

  /** Moves the front idle pool to a slot and labels it. */
  function Occupy(st: State, name: string, tx: uint64, maxTaskNum: int): State
    requires name in st.groups && st.frees != []
  {
    var p := st.frees[0];
    var st := SetSlot(st.(frees := st.frees[1..]), name, tx, p);
    AddTask(SetMaxTaskNum(st, p, maxTaskNum), p, Marker(LabelFor(name, tx)))
  }

  function Retain(st: State, name: string, tx: uint64, maxTaskNum: int): (State, bool) {
    if name !in st.groups || tx == 0 then (st, false)
    else
      var group := st.groups[name];
      if |group.retains| >= group.threadNum || tx in group.retains then (st, false)
      else (Occupy(if st.frees == [] then NewPool(st) else st, name, tx, maxTaskNum), true)
  }

  /** Drops idle pools from the front until at most five are left. */
  function Trim(st: State): State
    decreases |st.frees|
  {
    if |st.frees| <= THREAD_NUM_KEEP then st
    else Trim(st.(frees := st.frees[1..], destroyed := st.destroyed + {st.frees[0]}))
  }

  /** Labels p idle and appends it to the idle list. */
  function Park(st: State, name: string, p: Ptr): State {
    var st := AddTask(st, p, Marker(LabelFor(name, 0)));
    st.(frees := st.frees + [p])
  }

  function ClearSlot(st: State, name: string, tx: uint64): State
    requires name in st.groups
  {
    var group := st.groups[name];
    st.(groups := st.groups[name := group.(retains := group.retains - {tx})])
  }

  function Release(st: State, name: string, tx: uint64): (State, bool) {
    if name !in st.groups || tx == 0 || tx !in st.groups[name].retains then (st, false)
    else
      var p := st.groups[name].retains[tx];
      (Trim(ClearSlot(Park(st, name, p), name, tx)), true)
  }

  /** Parks the pools of the given slots in order; a null slot is skipped. */
  function ParkAll(st: State, name: string, retains: map<uint64, Ptr>, keys: seq<uint64>): State
    requires forall k <- keys :: k in retains
    decreases |keys|
  {
    if keys == [] then st
    else
      var p := retains[keys[0]];
      ParkAll(if p == NULL then st else Park(st, name, p), name, retains, keys[1..])
  }

  ghost function ReleaseAll(st: State, name: string): State
    requires name in st.groups
  {
    var retains := st.groups[name].retains;
    var st := Trim(ParkAll(st, name, retains, Ascending(retains.Keys)));
    if name in st.groups then st.(groups := st.groups[name := st.groups[name].(retains := map[])]) else st
  }

  ghost function DestroyGroup(st: State, name: string): (State, bool) {
    if name !in st.groups then (st, false)
    else
      var st := ReleaseAll(st, name);
      (st.(groups := st.groups - {name}), true)
  }

  function Post(st: State, name: string, tx: uint64, body: nat): (State, bool) {
    if name !in st.groups || tx !in st.groups[name].retains then (st, false)
    else
      var p := st.groups[name].retains[tx];
      if p == NULL then (ClearSlot(st, name, tx), false)
      else (AddTask(st, p, User(Serving(name, tx), body)), true)
  }

  /** The worker of p takes the front task of its queue. */
  function Work(st: State, p: Ptr): State {
    if p !in st.heap || st.heap[p].queue == [] then st
    else
      var pool := st.heap[p];
      var rest := pool.(queue := pool.queue[1..]);
      match pool.queue[0]
      case Marker(mark) => st.(heap := st.heap[p := rest.(curr := mark)])
      case User(_, _) => st.(heap := st.heap[p := rest], log := st.log + [Ran(p, pool.queue[0], pool.curr)])
  }

  /** A destroyed pool may lose its remaining tasks. */
  function Drop(st: State, p: Ptr): State {
    if p !in st.heap || p !in st.destroyed then st
    else st.(heap := st.heap[p := st.heap[p].(queue := [])])
  }

  datatype Op =
    | CreateOp(name: string, threadNum: nat)
    | DestroyOp(name: string)
    | RetainOp(name: string, tx: uint64, maxTaskNum: int)
    | ReleaseOp(name: string, tx: uint64)
    | PostOp(name: string, tx: uint64, body: nat)
    | WorkOp(p: Ptr)
    | DropOp(p: Ptr)

  ghost function Step(st: State, op: Op): State {
    match op
    case CreateOp(name, threadNum) => CreateGroup(st, name, threadNum).0
    case DestroyOp(name) => DestroyGroup(st, name).0
    case RetainOp(name, tx, maxTaskNum) => Retain(st, name, tx, maxTaskNum).0
    case ReleaseOp(name, tx) => Release(st, name, tx).0
    case PostOp(name, tx, body) => Post(st, name, tx, body).0
    case WorkOp(p) => Work(st, p)
    case DropOp(p) => Drop(st, p)
  }

  /** Any interleaving of calls from any threads and worker steps. */
  ghost function Run(st: State, ops: seq<Op>): State
    decreases |ops|
  {
    if ops == [] then st else Run(Step(st, ops[0]), ops[1..])
  }
}
