/** What each operation on the thread groups does to slots, idle list, queues and pools. */
module ThreadGroupEffects {
  import opened Common
  import opened OrderedKeys
  import opened ThreadGroupState
  import opened ThreadGroupLaws

  /** A group is created once, empty and with its number of threads; nothing else changes. */
  lemma CreateEffect(st: State, name: string, threadNum: nat)
    ensures var (after, ok) := CreateGroup(st, name, threadNum);
            && (ok <==> name !in st.groups) && (!ok ==> after == st)
            && (ok ==> after == st.(groups := after.groups) && after.groups.Keys == st.groups.Keys + {name}
                       && after.groups[name].threadNum == threadNum && after.groups[name].retains == map[]
                       && forall other <- st.groups :: after.groups[other] == st.groups[other])
  {
  }

  /** The slots and sizes of all groups, but for one slot, stay as they are. */
  ghost predicate OnlySlot(st: State, after: State, name: string, tx: uint64) {
    && after.groups.Keys == st.groups.Keys
    && (forall n <- st.groups :: after.groups[n].threadNum == st.groups[n].threadNum)
    && (forall n, t, q | n != name || t != tx :: InSlot(after, q, n, t) <==> InSlot(st, q, n, t))
  }

  /** One pool gets a task; every other pool stays as it is. */
  ghost predicate OnlyQueue(st: State, after: State, p: Ptr, task: Task) {
    && p in st.heap && after.heap.Keys == st.heap.Keys
    && after.heap[p].queue == st.heap[p].queue + [task] && after.heap[p].curr == st.heap[p].curr
    && forall q <- st.heap :: q != p ==> after.heap[q] == st.heap[q]
  }

  lemma OccupyEffect(st: State, name: string, tx: uint64, maxTaskNum: int)
    requires name in st.groups && tx != 0 && st.frees != [] && st.frees[0] in st.heap
    ensures var after, p := Occupy(st, name, tx, maxTaskNum), st.frees[0];
            && InSlot(after, p, name, tx) && OnlySlot(st, after, name, tx) && after.frees == st.frees[1..]
            && OnlyQueue(st, after, p, Marker(Serving(name, tx))) && after.heap[p].maxTaskNum == maxTaskNum
            && after == st.(groups := after.groups, heap := after.heap, frees := after.frees)
  {
  }

  /**
   * A successful retain takes the pool that has been idle longest, puts it in the slot, sets
   * its limit and queues the label of the transaction.
   */
  lemma RetainTakesIdle(st: State, name: string, tx: uint64, maxTaskNum: int)
    requires Ownership(st) && Retain(st, name, tx, maxTaskNum).1 && st.frees != []
    ensures var after, p := Retain(st, name, tx, maxTaskNum).0, st.frees[0];
            && InSlot(after, p, name, tx) && OnlySlot(st, after, name, tx) && after.frees == st.frees[1..]
            && OnlyQueue(st, after, p, Marker(Serving(name, tx))) && after.heap[p].maxTaskNum == maxTaskNum
            && after == st.(groups := after.groups, heap := after.heap, frees := after.frees)
  {
    hide Settled, QueueOk, Occupy;
    assert st.frees[0] in st.frees;
    OccupyEffect(st, name, tx, maxTaskNum);
  }

  /** If no pool is idle it makes one, whose only task is that label. */
  lemma RetainMakesPool(st: State, name: string, tx: uint64, maxTaskNum: int)
    requires Ownership(st) && Retain(st, name, tx, maxTaskNum).1 && st.frees == []
    ensures var after, p := Retain(st, name, tx, maxTaskNum).0, st.next;
            && InSlot(after, p, name, tx) && OnlySlot(st, after, name, tx) && after.frees == []
            && p !in st.heap && after.next == st.next + 1
            && after.heap == st.heap[p := ThreadPool([Marker(Serving(name, tx))], Idle, maxTaskNum)]
            && after.destroyed == st.destroyed && after.log == st.log
  {
    hide Settled, QueueOk, Occupy, OnlySlot;
    var p, ready := st.next, NewPool(st);
    OccupyEffect(ready, name, tx, maxTaskNum);
    var after := Occupy(ready, name, tx, maxTaskNum);
    assert [] + [Marker(Serving(name, tx))] == [Marker(Serving(name, tx))];
    assert after.heap[p] == ThreadPool([Marker(Serving(name, tx))], Idle, maxTaskNum);
    OnlySlotOf(st, ready, after, name, tx);
  }

  lemma OnlySlotOf(st: State, ready: State, after: State, name: string, tx: uint64)
    requires ready.groups == st.groups && OnlySlot(ready, after, name, tx)
    ensures OnlySlot(st, after, name, tx)
  {
    forall n, t, q ensures InSlot(ready, q, n, t) <==> InSlot(st, q, n, t) { }
  }

  /** The idle list after pools were parked: the last five stay, the others are destroyed. */
  ghost predicate Parked(st: State, after: State, ps: seq<Ptr>) {
    var all := st.frees + ps;
    var n := if |all| <= 5 then 0 else |all| - 5;
    after.frees == all[n..] && after.destroyed == st.destroyed + Elements(all[..n])
    && after.next == st.next && after.log == st.log
  }

  /** A release succeeds exactly for a retained transaction; its pool is labelled idle and parked last. */
  lemma ReleaseGives(st: State, name: string, tx: uint64)
    requires Ownership(st)
    ensures var (after, ok) := Release(st, name, tx);
            && (ok <==> name in st.groups && tx in st.groups[name].retains)
            && (!ok ==> after == st)
            && (ok ==> var p := st.groups[name].retains[tx];
                       && OnlySlot(st, after, name, tx) && tx !in after.groups[name].retains
                       && OnlyQueue(st, after, p, Marker(Idle)) && Parked(st, after, [p]))
  {
    hide Settled, QueueOk, Elements;
    if name in st.groups && tx in st.groups[name].retains {
      var p := st.groups[name].retains[tx];
      assert InSlot(st, p, name, tx);
      TrimKeepsNewest(ClearSlot(Park(st, name, p), name, tx));
    }
  }

  /** A post adds the task, under its group and transaction, to the queue of the retained pool. */
  lemma PostEffect(st: State, name: string, tx: uint64, body: nat)
    requires Ownership(st)
    ensures var (after, ok) := Post(st, name, tx, body);
            && (ok <==> name in st.groups && tx in st.groups[name].retains)
            && (!ok ==> after == st)
            && (ok ==> && after == st.(heap := after.heap)
                       && OnlyQueue(st, after, st.groups[name].retains[tx], User(Serving(name, tx), body)))
  {
    hide Settled, QueueOk;
    if name in st.groups && tx in st.groups[name].retains {
      assert InSlot(st, st.groups[name].retains[tx], name, tx);
    }
  }

  /** A slot that holds a null pool is emptied by the post that finds it, which fails. */
  lemma NullSlotIsEmptied(st: State, name: string, tx: uint64, body: nat)
    requires InSlot(st, NULL, name, tx)
    ensures var (after, ok) := Post(st, name, tx, body);
            !ok && after == st.(groups := after.groups) && OnlySlot(st, after, name, tx)
            && tx !in after.groups[name].retains
  {
  }

  /** The pools in the given slots. */
  function Pools(retains: map<uint64, Ptr>, keys: seq<uint64>): (ps: seq<Ptr>)
    requires forall k <- keys :: k in retains
    ensures |ps| == |keys| && forall i | 0 <= i < |keys| :: ps[i] == retains[keys[i]]
  {
    seq(|keys|, i requires 0 <= i < |keys| => retains[keys[i]])
  }

  /** Each of the pools gets one task more, the others none. */
  ghost predicate AllQueued(st: State, after: State, ps: seq<Ptr>, task: Task) {
    && after.heap.Keys == st.heap.Keys
    && forall p <- st.heap ::
         after.heap[p] == if p in ps then st.heap[p].(queue := st.heap[p].queue + [task]) else st.heap[p]
  }

  /** Slots of one group hold live pools, each its own. */
  ghost predicate OwnPools(st: State, retains: map<uint64, Ptr>, keys: seq<uint64>) {
    && (forall k <- keys :: k in retains && retains[k] in st.heap && retains[k] != NULL)
    && forall i, j | 0 <= i < j < |keys| :: retains[keys[i]] != retains[keys[j]]
  }

  /** Nothing changes but the heap, and the pools at the end of the idle list. */
  ghost predicate OnlyAppended(st: State, after: State, ps: seq<Ptr>) {
    after == st.(heap := after.heap, frees := st.frees + ps)
  }

  lemma {:induction false} ParkAllEffect(st: State, name: string, retains: map<uint64, Ptr>, keys: seq<uint64>)
    requires OwnPools(st, retains, keys)
    ensures var after := ParkAll(st, name, retains, keys);
            && AllQueued(st, after, Pools(retains, keys), Marker(Idle))
            && OnlyAppended(st, after, Pools(retains, keys))
    decreases |keys|
  {
    hide AllQueued, OwnPools, Park, Pools, OnlyAppended;
    if keys == [] {
      NothingQueued(st, Marker(Idle));
    } else {
      FirstOwnPool(st, retains, keys);
      var p, rest := retains[keys[0]], keys[1..];
      var parked := Park(st, name, p);
      ParkOne(st, name, p);
      RestOwnPools(st, parked, retains, keys);
      ParkAllEffect(parked, name, retains, rest);
      OneMoreQueued(st, parked, ParkAll(parked, name, retains, rest), p, Pools(retains, rest), Marker(Idle));
    }
  }

  lemma ParkOne(st: State, name: string, p: Ptr)
    requires p in st.heap
    ensures Park(st, name, p) == st.(heap := st.heap[p := st.heap[p].(queue := st.heap[p].queue + [Marker(Idle)])],
                                     frees := st.frees + [p])
  {
  }

  lemma NothingQueued(st: State, task: Task)
    ensures AllQueued(st, st, [], task) && OnlyAppended(st, st, [])
  {
    assert st.frees + [] == st.frees;
  }

  lemma FirstOwnPool(st: State, retains: map<uint64, Ptr>, keys: seq<uint64>)
    requires keys != [] && OwnPools(st, retains, keys)
    ensures keys[0] in retains && retains[keys[0]] in st.heap && retains[keys[0]] != NULL
  {
  }

  lemma RestOwnPools(st: State, parked: State, retains: map<uint64, Ptr>, keys: seq<uint64>)
    requires keys != [] && OwnPools(st, retains, keys) && parked.heap.Keys == st.heap.Keys
    ensures OwnPools(parked, retains, keys[1..])
    ensures forall k <- keys[1..] :: k in retains
    ensures keys[0] in retains && retains[keys[0]] !in Pools(retains, keys[1..])
    ensures Pools(retains, keys) == [retains[keys[0]]] + Pools(retains, keys[1..])
  {
    forall k <- keys[1..] ensures k in keys { }
  }

  lemma OneMoreQueued(st: State, parked: State, after: State, p: Ptr, ps: seq<Ptr>, task: Task)
    requires p in st.heap && p !in ps && AllQueued(parked, after, ps, task)
    requires parked == st.(heap := st.heap[p := st.heap[p].(queue := st.heap[p].queue + [task])],
                           frees := st.frees + [p])
    requires OnlyAppended(parked, after, ps)
    ensures AllQueued(st, after, [p] + ps, task) && OnlyAppended(st, after, [p] + ps)
  {
    assert st.frees + [p] + ps == st.frees + ([p] + ps);
  }

  lemma OwnPoolsOf(st: State, name: string, keys: seq<uint64>)
    requires Ownership(st) && name in st.groups && Strict(keys)
    requires forall k :: k in keys <==> k in st.groups[name].retains
    ensures OwnPools(st, st.groups[name].retains, keys)
  {
    hide QueueOk;
    var retains := st.groups[name].retains;
    forall k <- keys ensures InSlot(st, retains[k], name, k) { }
    forall i, j | 0 <= i < j < |keys| ensures retains[keys[i]] != retains[keys[j]] {
      assert keys[i] in keys && keys[j] in keys;
      assert InSlot(st, retains[keys[i]], name, keys[i]) && InSlot(st, retains[keys[j]], name, keys[j]);
    }
  }

  lemma OnlyHeap(st: State, parked: State, after: State, ps: seq<Ptr>)
    requires AllQueued(st, parked, ps, Marker(Idle)) && after.heap == parked.heap
    ensures forall other: State :: other.heap == after.heap ==> AllQueued(st, other, ps, Marker(Idle))
  {
  }

  /**
   * Destroying a group labels all of its pools idle and parks them in the order of their
   * transactions; the group is gone and no other group changes.
   */
  lemma DestroyParks(st: State, name: string) returns (keys: seq<uint64>)
    requires Ownership(st)
    ensures var (after, ok) := DestroyGroup(st, name);
            && (ok <==> name in st.groups) && (!ok ==> after == st)
            && (ok ==> && Strict(keys) && (forall k :: k in keys <==> k in st.groups[name].retains)
                       && after.groups == st.groups - {name}
                       && Parked(st, after, Pools(st.groups[name].retains, keys))
                       && AllQueued(st, after, Pools(st.groups[name].retains, keys), Marker(Idle)))
  {
    hide Ownership, ParkAll, Elements, Pools, AllQueued, OwnPools, Strict, Trim;
    keys := [];
    if name in st.groups {
      var retains := st.groups[name].retains;
      keys := Ascending(retains.Keys);
      AscendingStrict(retains.Keys);
      OwnPoolsOf(st, name, keys);
      ParkAllEffect(st, name, retains, keys);
      TrimKeepsNewest(ParkAll(st, name, retains, keys));
      OnlyHeap(st, ParkAll(st, name, retains, keys), Trim(ParkAll(st, name, retains, keys)), Pools(retains, keys));
      assert st.groups[name := st.groups[name].(retains := map[])] - {name} == st.groups - {name};
    }
  }

  /**
   * A worker takes the front task of its own pool: a label takes effect, a user task is logged
   * with the label its thread has at that moment. Without a task nothing happens.
   */
  lemma WorkEffect(st: State, p: Ptr)
    ensures var after := Work(st, p);
            if p !in st.heap || st.heap[p].queue == [] then after == st
            else
              var task, pool := st.heap[p].queue[0], after.heap[p];
              && after == st.(heap := after.heap, log := after.log) && after.heap == st.heap[p := pool]
              && st.heap[p].queue == [task] + pool.queue && pool.maxTaskNum == st.heap[p].maxTaskNum
              && (task.Marker? ==> pool.curr == task.mark && after.log == st.log)
              && (task.User? ==> pool.curr == st.heap[p].curr && after.log == st.log + [Ran(p, task, st.heap[p].curr)])
  {
  }
}
