/**
 * Lifecycles (Lifecycle.kt): a guarded state holder with a list of
 * subscribed callbacks. A move is applied only when `checkNextState`
 * accepts it; an accepted move is decomposed into transitions, each handed
 * in order to a snapshot of the callbacks. Subscribing appends a node and
 * returns a subscription that can remove it again.
 *
 * `MutableLifecycleImpl`, `ChildDeferringLifecycle` and
 * `MergeDeferringLifecycle` share this machinery; they differ only in the
 * projection `outputState` applied to the automaton's state (the identity for
 * the mutable lifecycle) and in where their moves come from.
 */
module Lifecycle {
  import opened Fanout

  /** A node of the callback list: its identity and the callback it holds. */
  datatype Node = Node(id: nat, callback: nat)

  /** The handle `subscribe` returns: the node to remove on `cancel`, and the
      callbacks' state at subscription time. */
  datatype Subscription<O> = Subscription(node: nat, initialState: O)

  /** The callbacks of a node list, in list order. */
  function Callbacks(nodes: seq<Node>): (r: seq<nat>)
    ensures |r| == |nodes|
    ensures forall i :: 0 <= i < |nodes| ==> r[i] == nodes[i].callback
  {
    if |nodes| == 0 then [] else Callbacks(nodes[..|nodes| - 1]) + [nodes[|nodes| - 1].callback]
  }

  /** Every delivery of one accepted move: the transitions `ts`, each handed
      to every callback of `snapshot`, one transition after another. */
  function Notifications<T>(snapshot: seq<nat>, ts: seq<T>): (r: seq<Delivery<T>>)
    ensures |r| == |ts| * |snapshot|
  {
    if |ts| == 0 then []
    else Notifications(snapshot, ts[..|ts| - 1]) + Deliver(snapshot, ts[|ts| - 1])
  }

  lemma NotificationsSnoc<T>(snapshot: seq<nat>, ts: seq<T>, i: nat)
    requires i < |ts|
    ensures Notifications(snapshot, ts[..i + 1]) == Notifications(snapshot, ts[..i]) + Deliver(snapshot, ts[i])
  {
    assert ts[..i + 1][..i] == ts[..i];
  }

  lemma {:induction false} NotificationsAppend<T>(snapshot: seq<nat>, a: seq<T>, b: seq<T>)
    ensures Notifications(snapshot, a + b) == Notifications(snapshot, a) + Notifications(snapshot, b)
    decreases |b|
  {
    if |b| > 0 {
      var n := |b| - 1;
      assert (a + b)[..|a| + n] == a + b[..n];
      NotificationsAppend(snapshot, a, b[..n]);
    } else {
      assert a + b == a;
    }
  }

  /** The deliveries of transition `ts[i]` come after those of every earlier
      transition and before those of every later one: all callbacks receive
      one transition before any receives the next. */
  lemma NotificationsInOrder<T>(snapshot: seq<nat>, ts: seq<T>, i: nat)
    requires i < |ts|
    ensures Notifications(snapshot, ts)
         == Notifications(snapshot, ts[..i]) + Deliver(snapshot, ts[i]) + Notifications(snapshot, ts[i + 1..])
  {
    assert ts == ts[..i] + [ts[i]] + ts[i + 1..];
    NotificationsAppend(snapshot, ts[..i] + [ts[i]], ts[i + 1..]);
    NotificationsAppend(snapshot, ts[..i], [ts[i]]);
    assert [ts[i]][..0] == [];
  }

  /** Deliveries to `cb` in `a + b` are those in `a` plus those in `b`. */
  lemma {:induction false} ReceivedAppend<T>(a: seq<Delivery<T>>, b: seq<Delivery<T>>, cb: nat)
    ensures Received(a + b, cb) == Received(a, cb) + Received(b, cb)
    decreases |b|
  {
    if |b| > 0 {
      var n := |b| - 1;
      assert (a + b)[..|a| + n] == a + b[..n];
      ReceivedAppend(a, b[..n], cb);
    } else {
      assert a + b == a;
    }
  }

  /** In one accepted move, a callback registered k times receives
      |ts| * k deliveries in all; `EachTransitionReachesEveryRegistration`
      says how they split over the transitions. */
  lemma {:induction false} NotificationsPerCallback<T>(snapshot: seq<nat>, ts: seq<T>, cb: nat)
    ensures Received(Notifications(snapshot, ts), cb) == |ts| * Count(snapshot, cb)
    decreases |ts|
  {
    if |ts| > 0 {
      var n := |ts| - 1;
      var k := Count(snapshot, cb);
      var earlier, last := Notifications(snapshot, ts[..n]), Deliver(snapshot, ts[n]);
      assert Notifications(snapshot, ts) == earlier + last;
      NotificationsPerCallback(snapshot, ts[..n], cb);
      ReceivedAppend(earlier, last, cb);
      DeliverOncePerRegistration(snapshot, ts[n], cb);
      MultiplySuccessor(n, k);
    }
  }

  /** The one non-linear step of `NotificationsPerCallback`, kept apart so
      that the solver meets it in isolation. */
  lemma MultiplySuccessor(n: nat, k: nat)
    ensures (n + 1) * k == n * k + k
  {
  }

  /** Each transition of a move has its own block of deliveries, placed
      between those of the earlier and the later transitions; the block
      carries only that transition, and a callback registered k times
      receives it exactly k times. */
  lemma EachTransitionReachesEveryRegistration<T>(snapshot: seq<nat>, ts: seq<T>, cb: nat)
    ensures forall i :: 0 <= i < |ts| ==>
      && Notifications(snapshot, ts)
         == Notifications(snapshot, ts[..i]) + Deliver(snapshot, ts[i]) + Notifications(snapshot, ts[i + 1..])
      && (forall d :: d in Deliver(snapshot, ts[i]) ==> d.event == ts[i])
      && Received(Deliver(snapshot, ts[i]), cb) == Count(snapshot, cb)
  {
    forall i | 0 <= i < |ts|
      ensures Notifications(snapshot, ts)
              == Notifications(snapshot, ts[..i]) + Deliver(snapshot, ts[i]) + Notifications(snapshot, ts[i + 1..])
      ensures Received(Deliver(snapshot, ts[i]), cb) == Count(snapshot, cb)
    {
      NotificationsInOrder(snapshot, ts, i);
      DeliverOncePerRegistration(snapshot, ts[i], cb);
    }
  }

  /** The node list with node `id` removed. */
  function Without(nodes: seq<Node>, id: nat): (r: seq<Node>)
    ensures forall n :: n in r <==> n in nodes && n.id != id
    ensures |r| <= |nodes|
  {
    if |nodes| == 0 then []
    else
      var rest := Without(nodes[..|nodes| - 1], id);
      var last := nodes[|nodes| - 1];
      assert forall n :: n in nodes <==> n in nodes[..|nodes| - 1] || n == last;
      if last.id == id then rest else rest + [last]
  }

  ghost predicate DistinctIds(nodes: seq<Node>)
  {
    forall i, j :: 0 <= i < j < |nodes| ==> nodes[i].id != nodes[j].id
  }

  /** Cancelling a subscribed node removes exactly that node. */
  lemma {:induction false} WithoutRemovesOne(nodes: seq<Node>, k: nat)
    requires DistinctIds(nodes) && k < |nodes|
    ensures |Without(nodes, nodes[k].id)| == |nodes| - 1
    decreases |nodes|
  {
    var n := |nodes| - 1;
    var prefix := nodes[..n];
    assert DistinctIds(prefix);
    if k == n {
      WithoutKeepsAbsent(prefix, nodes[k].id);
    } else {
      assert prefix[k] == nodes[k] && nodes[n].id != nodes[k].id;
      WithoutRemovesOne(prefix, k);
    }
  }

  /** Removing a node that is not there changes nothing. */
  lemma {:induction false} WithoutKeepsAbsent(nodes: seq<Node>, id: nat)
    requires forall i :: 0 <= i < |nodes| ==> nodes[i].id != id
    ensures Without(nodes, id) == nodes
    decreases |nodes|
  {
    if |nodes| > 0 {
      var n := |nodes| - 1;
      WithoutKeepsAbsent(nodes[..n], id);
      assert nodes[..n] + [nodes[n]] == nodes;
    }
  }

  /** Cancelling a fresh subscription straight away restores the callback
      list it was added to. */
  lemma CancelUndoesSubscribe(nodes: seq<Node>, id: nat, callback: nat)
    requires forall i :: 0 <= i < |nodes| ==> nodes[i].id < id
    ensures Without(nodes + [Node(id, callback)], id) == nodes
  {
    var extended := nodes + [Node(id, callback)];
    assert extended[..|nodes|] == nodes;
    WithoutKeepsAbsent(nodes, id);
  }

  class GuardedLifecycle<S, O, T> {
    /** `checkNextState`. */
    const check: (S, S) -> bool
    /** `decomposeTransition`. */
    const decompose: (S, S) -> seq<T>
    /** `outputState`: the public view of the automaton's state. */
    const output: S -> O

    /** The automaton's state. */
    var current: S
    /** `callbacksState`: the state handed to new subscriptions. */
    var callbacksState: O
    /** The callback list. */
    var callbacks: seq<Node>
    /** The identity the next node will get. */
    var nextNode: nat
    /** Every callback invocation so far, oldest first. */
    var notified: seq<Delivery<T>>

    ghost predicate Valid()
      reads this
    {
      && DistinctIds(callbacks)
      && (forall i :: 0 <= i < |callbacks| ==> callbacks[i].id < nextNode)
    }

    /** The lifecycle's `state`. */
    function State(): (r: O)
      reads this
      ensures r == output(current)
    {
      output(current)
    }

    constructor (initialState: S, check: (S, S) -> bool, decompose: (S, S) -> seq<T>, output: S -> O)
      ensures Valid()
      ensures this.check == check && this.decompose == decompose && this.output == output
      ensures current == initialState && callbacksState == output(initialState)
      ensures callbacks == [] && notified == []
    {
      this.check := check;
      this.decompose := decompose;
      this.output := output;
      current := initialState;
      callbacksState := output(initialState);
      callbacks := [];
      nextNode := 0;
      notified := [];
    }

    /** `moveTo`: a move the check refuses changes nothing; an accepted one
        replaces the state and hands each transition of the decomposition, in
        order, to every subscribed callback. */
    method MoveTo(next: S) returns (accepted: bool)
      requires Valid()
      modifies this
      ensures Valid()
      ensures MovedTo(this, next, accepted)
    {
      accepted := check(current, next);
      if accepted {
        var previous := current;
        current := next;
        var transitions := decompose(previous, next);
        // the loop works on copies of `callbacksState` and of the log; the
        // move is one atomic step, so both are written back once at the end
        var stateForCallbacks := callbacksState;
        var delivered: seq<Delivery<T>> := [];
        var i := 0;
        while i < |transitions|
          invariant 0 <= i <= |transitions|
          invariant current == next && callbacks == old(callbacks) && nextNode == old(nextNode)
          invariant callbacksState == old(callbacksState) && notified == old(notified)
          invariant delivered == Notifications(Callbacks(callbacks), transitions[..i])
          invariant stateForCallbacks == if i == 0 then old(callbacksState) else output(next)
        {
          stateForCallbacks := output(next);
          var snapshot := Callbacks(callbacks);
          NotificationsSnoc(snapshot, transitions, i);
          delivered := delivered + Deliver(snapshot, transitions[i]);
          i := i + 1;
        }
        assert transitions[..|transitions|] == transitions;
        callbacksState := stateForCallbacks;
        notified := notified + delivered;
      }
    }

    /** `subscribe`: appends a node for `callback` and returns its handle. */
    method Subscribe(callback: nat) returns (sub: Subscription<O>)
      requires Valid()
      modifies this
      ensures Valid()
      ensures sub == Subscription(old(nextNode), old(callbacksState))
      ensures callbacks == old(callbacks) + [Node(old(nextNode), callback)]
      ensures nextNode == old(nextNode) + 1
      ensures current == old(current) && callbacksState == old(callbacksState) && notified == old(notified)
    {
      sub := Subscription(nextNode, callbacksState);
      callbacks := callbacks + [Node(nextNode, callback)];
      nextNode := nextNode + 1;
    }

    /** `cancel` of a subscription: removes its node and no other. */
    method Cancel(sub: Subscription<O>)
      requires Valid()
      requires exists i :: 0 <= i < |callbacks| && callbacks[i].id == sub.node
      modifies this
      ensures Valid()
      ensures callbacks == Without(old(callbacks), sub.node)
      ensures |callbacks| == |old(callbacks)| - 1
      ensures nextNode == old(nextNode)
      ensures current == old(current) && callbacksState == old(callbacksState) && notified == old(notified)
    {
      var k :| 0 <= k < |callbacks| && callbacks[k].id == sub.node;
      WithoutRemovesOne(callbacks, k);
      callbacks := Without(callbacks, sub.node);
      assert forall i :: 0 <= i < |callbacks| ==> callbacks[i] in old(callbacks);
      assert DistinctIds(callbacks) by {
        WithoutDistinct(old(callbacks), sub.node);
      }
    }
  }

  lemma {:induction false} WithoutDistinct(nodes: seq<Node>, id: nat)
    requires DistinctIds(nodes)
    ensures DistinctIds(Without(nodes, id))
    decreases |nodes|
  {
    if |nodes| > 0 {
      var n := |nodes| - 1;
      var prefix, last := nodes[..n], nodes[n];
      assert DistinctIds(prefix);
      WithoutDistinct(prefix, id);
      var rest := Without(prefix, id);
      if last.id != id {
        forall i | 0 <= i < |rest|
          ensures rest[i].id != last.id
        {
          assert rest[i] in prefix;
          var j :| 0 <= j < n && prefix[j] == rest[i];
          assert nodes[j] == rest[i];
        }
        assert Without(nodes, id) == rest + [last];
      }
    }
  }

  /** The outcome of one guarded move of `l` towards `next`. */
  twostate predicate MovedTo<S, O, T>(l: GuardedLifecycle<S, O, T>, new next: S, accepted: bool)
    reads l
  {
    && accepted == l.check(old(l.current), next)
    && l.callbacks == old(l.callbacks) && l.nextNode == old(l.nextNode)
    && (!accepted ==> l.current == old(l.current) && l.callbacksState == old(l.callbacksState)
                      && l.notified == old(l.notified))
    && (accepted ==> && l.current == next
                     && l.notified == old(l.notified) + Notifications(Callbacks(l.callbacks), l.decompose(old(l.current), next))
                     && l.callbacksState == if l.decompose(old(l.current), next) == [] then old(l.callbacksState)
                                            else l.output(next))
  }

  /** `MutableLifecycle(...)`: a guarded lifecycle whose public state is the
      automaton's state itself. */
  method NewMutableLifecycle<S, T>(initialState: S, check: (S, S) -> bool, decompose: (S, S) -> seq<T>)
    returns (l: GuardedLifecycle<S, S, T>)
    ensures fresh(l) && l.Valid()
    ensures l.check == check && l.decompose == decompose && l.output == (s => s)
    ensures l.current == initialState && l.State() == initialState && l.callbacksState == initialState
    ensures l.callbacks == [] && l.notified == []
  {
    l := new GuardedLifecycle(initialState, check, decompose, s => s);
  }

  /** `childDeferring`: a lifecycle that, once launched, follows a parent:
      it starts from the parent's state mapped by `mapState` and moves by
      `mapTransition` on each parent transition, subject to its own check. */
  class ChildDeferringLifecycle<IS, IT, TS, OS, OT> {
    const inner: GuardedLifecycle<TS, OS, OT>
    const mapState: IS -> TS
    const mapTransition: (TS, IT) -> TS

    ghost predicate Valid()
      reads this, inner
    {
      inner.Valid()
    }

    /** `state`: the output of the automaton's state. */
    function State(): (r: OS)
      reads this, inner
      ensures r == inner.output(inner.current)
    {
      inner.State()
    }

    constructor (initialState: TS, mapState: IS -> TS, mapTransition: (TS, IT) -> TS,
                 check: (TS, TS) -> bool, decompose: (TS, TS) -> seq<OT>, output: TS -> OS)
      ensures fresh(inner) && Valid()
      ensures this.mapState == mapState && this.mapTransition == mapTransition
      ensures inner.check == check && inner.decompose == decompose && inner.output == output
      ensures inner.current == initialState && inner.callbacksState == output(initialState)
      ensures inner.callbacks == [] && inner.notified == []
    {
      this.mapState := mapState;
      this.mapTransition := mapTransition;
      inner := new GuardedLifecycle(initialState, check, decompose, output);
    }

    /** `launch`: subscribes `handler` to the parent, then moves to the
        parent's subscription state mapped by `mapState`. */
    method Launch<PS>(parent: GuardedLifecycle<PS, IS, IT>, handler: nat) returns (sub: Subscription<IS>, accepted: bool)
      requires Valid() && parent.Valid()
      requires parent as object != inner as object
      modifies parent, inner
      ensures Valid() && parent.Valid()
      ensures sub == Subscription(old(parent.nextNode), old(parent.callbacksState))
      ensures parent.callbacks == old(parent.callbacks) + [Node(old(parent.nextNode), handler)]
      ensures parent.nextNode == old(parent.nextNode) + 1
      ensures parent.current == old(parent.current) && parent.notified == old(parent.notified)
      ensures parent.callbacksState == old(parent.callbacksState)
      ensures MovedTo(inner, mapState(sub.initialState), accepted)
    {
      sub := parent.Subscribe(handler);
      accepted := inner.MoveTo(mapState(sub.initialState));
    }

    /** The subscribed handler: a parent transition `t` moves the lifecycle to
        `mapTransition` of its current state and `t`. */
    method OnParentTransition(t: IT) returns (accepted: bool)
      requires Valid()
      modifies inner
      ensures Valid()
      ensures MovedTo(inner, mapTransition(old(inner.current), t), accepted)
    {
      accepted := inner.MoveTo(mapTransition(inner.current, t));
    }
  }

  /** `mergeDeferring`: a lifecycle that, once launched, follows two parents:
      it starts from `mergeStates` of their states and moves by each parent's
      own `mapTransition`, subject to its own check. */
  class MergeDeferringLifecycle<I1S, I1T, I2S, I2T, TS, OS, OT> {
    const inner: GuardedLifecycle<TS, OS, OT>
    const mergeStates: (I1S, I2S) -> TS
    const mapTransition1: (TS, I1T) -> TS
    const mapTransition2: (TS, I2T) -> TS

    ghost predicate Valid()
      reads this, inner
    {
      inner.Valid()
    }

    /** `state`: the output of the automaton's state. */
    function State(): (r: OS)
      reads this, inner
      ensures r == inner.output(inner.current)
    {
      inner.State()
    }

    constructor (initialState: TS, mergeStates: (I1S, I2S) -> TS,
                 mapTransition1: (TS, I1T) -> TS, mapTransition2: (TS, I2T) -> TS,
                 check: (TS, TS) -> bool, decompose: (TS, TS) -> seq<OT>, output: TS -> OS)
      ensures fresh(inner) && Valid()
      ensures this.mergeStates == mergeStates
      ensures this.mapTransition1 == mapTransition1 && this.mapTransition2 == mapTransition2
      ensures inner.check == check && inner.decompose == decompose && inner.output == output
      ensures inner.current == initialState && inner.callbacksState == output(initialState)
      ensures inner.callbacks == [] && inner.notified == []
    {
      this.mergeStates := mergeStates;
      this.mapTransition1 := mapTransition1;
      this.mapTransition2 := mapTransition2;
      inner := new GuardedLifecycle(initialState, check, decompose, output);
    }

    /** `launch`: subscribes `handler1` to the first parent and `handler2` to
        the second, then moves to `mergeStates` of both subscription states. */
    method Launch<P1, P2>(parent1: GuardedLifecycle<P1, I1S, I1T>, parent2: GuardedLifecycle<P2, I2S, I2T>,
                          handler1: nat, handler2: nat)
      returns (sub1: Subscription<I1S>, sub2: Subscription<I2S>, accepted: bool)
      requires Valid() && parent1.Valid() && parent2.Valid()
      requires parent1 as object != parent2 as object
      requires parent1 as object != inner as object && parent2 as object != inner as object
      modifies parent1, parent2, inner
      ensures Valid() && parent1.Valid() && parent2.Valid()
      ensures sub1 == Subscription(old(parent1.nextNode), old(parent1.callbacksState))
      ensures sub2 == Subscription(old(parent2.nextNode), old(parent2.callbacksState))
      ensures parent1.callbacks == old(parent1.callbacks) + [Node(old(parent1.nextNode), handler1)]
      ensures parent2.callbacks == old(parent2.callbacks) + [Node(old(parent2.nextNode), handler2)]
      ensures parent1.nextNode == old(parent1.nextNode) + 1 && parent2.nextNode == old(parent2.nextNode) + 1
      ensures parent1.current == old(parent1.current) && parent1.notified == old(parent1.notified)
      ensures parent2.current == old(parent2.current) && parent2.notified == old(parent2.notified)
      ensures parent1.callbacksState == old(parent1.callbacksState)
      ensures parent2.callbacksState == old(parent2.callbacksState)
      ensures MovedTo(inner, mergeStates(sub1.initialState, sub2.initialState), accepted)
    {
      sub1 := parent1.Subscribe(handler1);
      sub2 := parent2.Subscribe(handler2);
      accepted := inner.MoveTo(mergeStates(sub1.initialState, sub2.initialState));
    }

    /** The handler subscribed to the first parent. */
    method OnParent1Transition(t: I1T) returns (accepted: bool)
      requires Valid()
      modifies inner
      ensures Valid()
      ensures MovedTo(inner, mapTransition1(old(inner.current), t), accepted)
    {
      accepted := inner.MoveTo(mapTransition1(inner.current, t));
    }

    /** The handler subscribed to the second parent. */
    method OnParent2Transition(t: I2T) returns (accepted: bool)
      requires Valid()
      modifies inner
      ensures Valid()
      ensures MovedTo(inner, mapTransition2(old(inner.current), t), accepted)
    {
      accepted := inner.MoveTo(mapTransition2(inner.current, t));
    }
  }
}
