/** The thread groups as the object that is updated in place under its mutex. */
module ThreadGroups {
  import opened Common
  import opened OrderedKeys
  import opened ThreadGroupState
  import opened ThreadGroupLaws

  class ThreadGroups {
    var pools: map<string, ThreadGroup>
    var frees: seq<Ptr>
    var heap: map<Ptr, ThreadPool>
    var next: Ptr
    ghost var destroyed: set<Ptr>
    ghost var log: seq<Ran>

    ghost function Model(): State
      reads this
    {
      State.State(pools, frees, heap, next, destroyed, log)
    }

    constructor ()
      ensures Model() == INITIAL
    {
      pools, frees, heap, next, destroyed, log := map[], [], map[], 1, {}, [];
    }

    method CreateThreadGroup(name: string, threadNum: nat) returns (ok: bool)
      modifies this
      ensures (Model(), ok) == CreateGroup(old(Model()), name, threadNum)
    {
      if name in pools {
        return false;
      }
      pools := pools[name := ThreadGroup(threadNum, map[])];
      return true;
    }

    method Enqueue(p: Ptr, task: Task)
      modifies this
      ensures Model() == AddTask(old(Model()), p, task)
    {
      if p in heap {
        heap := heap[p := heap[p].(queue := heap[p].queue + [task])];
      }
    }

    /** Queues the task that re-labels the worker; transaction zero means idle. */
    method EnsureTransaction(p: Ptr, tx: uint64, name: string)
      modifies this
      ensures Model() == AddTask(old(Model()), p, Marker(LabelFor(name, tx)))
    {
      Enqueue(p, Marker(if tx == 0 then Idle else Serving(name, tx)));
    }

    method RetainTaskThread(name: string, tx: uint64, maxTaskNum: int) returns (ok: bool)
      modifies this
      ensures (Model(), ok) == Retain(old(Model()), name, tx, maxTaskNum)
    {
      if name !in pools || tx == 0 {
        return false;
      }
      if |pools[name].retains| >= pools[name].threadNum {
        return false;
      }
      if tx in pools[name].retains {
        return false;
      }
      if |frees| == 0 {
        heap := heap[next := ThreadPool([], Idle, 0)];
        frees := frees + [next];
        next := next + 1;
      }
      var p := frees[0];
      pools := pools[name := pools[name].(retains := pools[name].retains[tx := p])];
      frees := frees[1..];
      if p in heap {
        heap := heap[p := heap[p].(maxTaskNum := maxTaskNum)];
      }
      EnsureTransaction(p, tx, name);
      return true;
    }

    /** Destroys idle pools from the front while more than five are kept. */
    method TrimFrees()
      modifies this
      ensures Model() == Trim(old(Model()))
    {
      while |frees| > THREAD_NUM_KEEP
        invariant Trim(Model()) == Trim(old(Model()))
      {
        destroyed := destroyed + {frees[0]};
        frees := frees[1..];
      }
    }

    method ReleaseTaskThread(name: string, tx: uint64) returns (ok: bool)
      modifies this
      ensures (Model(), ok) == Release(old(Model()), name, tx)
    {
      if name !in pools || tx == 0 {
        return false;
      }
      if tx !in pools[name].retains {
        return false;
      }
      var p := pools[name].retains[tx];
      EnsureTransaction(p, 0, name);
      frees := frees + [p];
      pools := pools[name := pools[name].(retains := pools[name].retains - {tx})];
      TrimFrees();
      return true;
    }

    method ReleaseAllTaskThread(name: string)
      requires name in pools
      modifies this
      ensures Model() == ReleaseAll(old(Model()), name)
    {
      ghost var before := Model();
      var retains := pools[name].retains;
      var todo := retains.Keys;
      ghost var order := Ascending(todo);
      ParkAllGroups(before, name, retains, order, pools);
      while todo != {}
        invariant todo <= retains.Keys
        invariant ParkAll(Model(), name, retains, Ascending(todo)) == ParkAll(before, name, retains, order)
        decreases |todo|
      {
        ghost var least := FindLeast(todo);
        var k :| k in todo && forall x <- todo :: k <= x;
        ghost var keys := Ascending(todo);
        assert keys == [k] + Ascending(todo - {k});
        var p := retains[k];
        if p != NULL {
          EnsureTransaction(p, 0, name);
          frees := frees + [p];
        }
        assert keys[1..] == Ascending(todo - {k});
        todo := todo - {k};
      }
      TrimFrees();
      TrimGroups(ParkAll(before, name, retains, order), before.groups);
      pools := pools[name := pools[name].(retains := map[])];
    }

    method DestroyThreadGroup(name: string) returns (ok: bool)
      modifies this
      ensures (Model(), ok) == DestroyGroup(old(Model()), name)
    {
      if name !in pools {
        return false;
      }
      ReleaseAllTaskThread(name);
      pools := pools - {name};
      return true;
    }

    method PostTask(name: string, tx: uint64, body: nat) returns (ok: bool)
      modifies this
      ensures (Model(), ok) == Post(old(Model()), name, tx, body)
    {
      if name !in pools {
        return false;
      }
      if tx !in pools[name].retains {
        return false;
      }
      var p := pools[name].retains[tx];
      if p == NULL {
        pools := pools[name := pools[name].(retains := pools[name].retains - {tx})];
        return false;
      }
      Enqueue(p, User(Serving(name, tx), body));
      return true;
    }

    /** The single worker of p takes one task. */
    method WorkerStep(p: Ptr)
      modifies this
      ensures Model() == Work(old(Model()), p)
    {
      if p in heap && heap[p].queue != [] {
        var task := heap[p].queue[0];
        heap := heap[p := heap[p].(queue := heap[p].queue[1..])];
        match task {
          case Marker(mark) => heap := heap[p := heap[p].(curr := mark)];
          case User(_, _) => log := log + [Ran(p, task, heap[p].curr)];
        }
      }
    }
  }
}
