/**
 * The children-reconciliation engine (`children` in generic.kt).
 *
 * The engine keeps a map from configurations to children. It creates one
 * child per configuration of the initial state and, on every event, computes
 * the next state, updates the children that are still required, destroys and
 * drops those that are not, creates the missing ones, and publishes the pair
 * (state, children). One transition is one atomic step; the user callbacks
 * appear as entries of an effect log, and `createChild` hands out a fresh
 * child number.
 */
module Engine {
  import opened Wrappers
  import Hub

  /** An opaque child; the model numbers them in creation order. */
  type ChildId = nat

  /** One call of a child-lifecycle callback. */
  datatype Effect<C, S> =
    | Created(conf: C, child: ChildId, state: S)
    | Updated(conf: C, child: ChildId, state: S)
    | Destroyed(conf: C, child: ChildId, state: S)

  /** The published value: a navigation state and the children map. */
  datatype NavigationResult<S, C> = NavigationResult(navigationState: S, children: map<C, ChildId>)

  /** A configuration paired with the component of its child. */
  datatype ChildWithConfiguration<C, K> = ChildWithConfiguration(configuration: C, component: K)

  /** Number of effects of `batch` that concern configuration `c`. */
  ghost function Occurrences<C, S>(batch: seq<Effect<C, S>>, c: C): nat
  {
    if |batch| == 0 then 0
    else Occurrences(batch[..|batch| - 1], c) + (if batch[|batch| - 1].conf == c then 1 else 0)
  }

  /** Effect `e` is the callback a held configuration is owed: an update
      with its old child if `required` still holds it, a destruction of that
      child otherwise. */
  ghost predicate Swept<C, S>(before: map<C, ChildId>, next: S, required: set<C>, e: Effect<C, S>)
  {
    && e.state == next
    && !e.Created?
    && e.conf in before
    && e.child == before[e.conf]
    && (e.Updated? <==> e.conf in required)
  }

  /** Effect `e` is the callback a reconciliation from `before` to `after`
      owes its configuration, for the next state `next` requiring `required`. */
  ghost predicate Agrees<C, S>(before: map<C, ChildId>, after: map<C, ChildId>, next: S, required: set<C>, e: Effect<C, S>)
  {
    if e.Created? then
      && e.state == next
      && e.conf !in before && e.conf in required
      && e.conf in after && after[e.conf] == e.child
    else
      Swept(before, next, required, e)
  }

  /** `batch` reconciles the children map `before` into `after` for the next
      state `next`, whose configurations are `required`: the keys become the
      required set, surviving children keep their value, and every
      configuration held before or required now receives exactly one callback,
      the one it is owed, and no other configuration receives any. */
  ghost predicate IsReconciliation<C, S>(before: map<C, ChildId>, after: map<C, ChildId>, next: S, required: set<C>, batch: seq<Effect<C, S>>)
  {
    && after.Keys == required
    && (forall c :: c in before && c in required ==> after[c] == before[c])
    && (forall c :: c in before.Keys + required ==> Occurrences(batch, c) == 1)
    && (forall i :: 0 <= i < |batch| ==> Agrees(before, after, next, required, batch[i]))
  }

  /** No two configurations share a child. */
  ghost predicate Injective<C>(m: map<C, ChildId>)
  {
    forall c, d :: c in m && d in m && c != d ==> m[c] != m[d]
  }

  lemma OccurrencesSnoc<C, S>(batch: seq<Effect<C, S>>, e: Effect<C, S>, c: C)
    ensures Occurrences(batch + [e], c) == Occurrences(batch, c) + (if e.conf == c then 1 else 0)
  {
    assert (batch + [e])[..|batch|] == batch;
  }

  /** Inserting a child for a configuration that had none keeps every effect
      owed. */
  lemma AgreesAfterInsert<C, S>(before: map<C, ChildId>, after: map<C, ChildId>, next: S, required: set<C>,
                                batch: seq<Effect<C, S>>, c: C, child: ChildId)
    requires c !in after
    requires forall i :: 0 <= i < |batch| ==> Agrees(before, after, next, required, batch[i])
    ensures forall i :: 0 <= i < |batch| ==> Agrees(before, after[c := child], next, required, batch[i])
  {
    forall i | 0 <= i < |batch|
      ensures Agrees(before, after[c := child], next, required, batch[i])
    {
      assert Agrees(before, after, next, required, batch[i]);
    }
  }

  /** Only effects on `c` means the batch's length counts them. */
  lemma {:induction false} OccurrencesOfOne<C, S>(batch: seq<Effect<C, S>>, c: C)
    requires forall i :: 0 <= i < |batch| ==> batch[i].conf == c
    ensures Occurrences(batch, c) == |batch|
    decreases |batch|
  {
    if |batch| > 0 {
      OccurrencesOfOne(batch[..|batch| - 1], c);
    }
  }

  /** Effects on `a` or `b` only: the batch's length is the sum of both counts. */
  lemma {:induction false} OccurrencesOfTwo<C, S>(batch: seq<Effect<C, S>>, a: C, b: C)
    requires a != b
    requires forall i :: 0 <= i < |batch| ==> batch[i].conf == a || batch[i].conf == b
    ensures Occurrences(batch, a) + Occurrences(batch, b) == |batch|
    decreases |batch|
  {
    if |batch| > 0 {
      OccurrencesOfTwo(batch[..|batch| - 1], a, b);
    }
  }

  /** A configuration whose count is positive has an effect in the batch. */
  lemma {:induction false} OccurrenceWitness<C, S>(batch: seq<Effect<C, S>>, c: C) returns (i: nat)
    requires Occurrences(batch, c) > 0
    ensures i < |batch| && batch[i].conf == c
    decreases |batch|
  {
    var n := |batch| - 1;
    if batch[n].conf == c {
      i := n;
    } else {
      i := OccurrenceWitness(batch[..n], c);
    }
  }

  /** When the required set equals the held set (a variants switch, a push of
      a configuration already on the stack), nothing is created or destroyed:
      the map is unchanged and every effect is an update. */
  lemma NoChurnWhenConfigurationsKept<C, S>(before: map<C, ChildId>, after: map<C, ChildId>, next: S, batch: seq<Effect<C, S>>)
    requires IsReconciliation(before, after, next, before.Keys, batch)
    ensures after == before
    ensures forall i :: 0 <= i < |batch| ==> batch[i] == Updated(batch[i].conf, before[batch[i].conf], next)
  {
    forall i | 0 <= i < |batch|
      ensures batch[i] == Updated(batch[i].conf, before[batch[i].conf], next)
    {
      assert Agrees(before, after, next, before.Keys, batch[i]);
    }
  }

  /** From no children to one required configuration: the batch is exactly
      one creation for it. */
  lemma SingleCreation<C, S>(before: map<C, ChildId>, after: map<C, ChildId>, next: S, a: C, batch: seq<Effect<C, S>>)
    requires before == map[]
    requires IsReconciliation(before, after, next, {a}, batch)
    ensures after.Keys == {a}
    ensures batch == [Created(a, after[a], next)]
  {
    forall i | 0 <= i < |batch| ensures batch[i].conf == a {
      assert Agrees(before, after, next, {a}, batch[i]);
    }
    OccurrencesOfOne(batch, a);
    assert Agrees(before, after, next, {a}, batch[0]);
  }

  /** From one child to no required configuration: the batch is exactly one
      destruction of the old child, and the map becomes empty. */
  lemma SingleDestruction<C, S>(before: map<C, ChildId>, after: map<C, ChildId>, next: S, a: C, batch: seq<Effect<C, S>>)
    requires before.Keys == {a}
    requires IsReconciliation(before, after, next, {}, batch)
    ensures after == map[]
    ensures batch == [Destroyed(a, before[a], next)]
  {
    forall i | 0 <= i < |batch| ensures batch[i].conf == a {
      assert Agrees(before, after, next, {}, batch[i]);
    }
    OccurrencesOfOne(batch, a);
    assert Agrees(before, after, next, {}, batch[0]);
  }

  /** Replacing the one held configuration `a` by a different `b`: the batch
      is two effects, the destruction of `a`'s child and the creation of `b`'s. */
  lemma SingleReplacement<C, S>(before: map<C, ChildId>, after: map<C, ChildId>, next: S, a: C, b: C, batch: seq<Effect<C, S>>)
    requires a != b
    requires before.Keys == {a}
    requires IsReconciliation(before, after, next, {b}, batch)
    ensures after.Keys == {b}
    ensures |batch| == 2
    ensures Destroyed(a, before[a], next) in batch
    ensures Created(b, after[b], next) in batch
  {
    forall i | 0 <= i < |batch| ensures batch[i].conf == a || batch[i].conf == b {
      assert Agrees(before, after, next, {b}, batch[i]);
    }
    OccurrencesOfTwo(batch, a, b);
    var i := OccurrenceWitness(batch, a);
    assert Agrees(before, after, next, {b}, batch[i]);
    var j := OccurrenceWitness(batch, b);
    assert Agrees(before, after, next, {b}, batch[j]);
  }

  /** The first half of one reconciliation batch (the loop over the held
      children in `onTransition`): every held configuration is updated if
      still required, and destroyed and dropped otherwise. */
  method SweepHeld<C(==), S>(before: map<C, ChildId>, required: set<C>, next: S)
    returns (kept: map<C, ChildId>, batch: seq<Effect<C, S>>)
    ensures kept == before - (before.Keys - required)
    ensures forall c :: c in before ==> Occurrences(batch, c) == 1
    ensures forall c :: c in required - before.Keys ==> Occurrences(batch, c) == 0
    ensures forall i :: 0 <= i < |batch| ==> Swept(before, next, required, batch[i])
  {
    kept := before;
    batch := [];
    var held := before.Keys;
    while held != {}
      invariant held <= before.Keys
      invariant kept == before - ((before.Keys - held) - required)
      invariant forall c :: c in before ==> Occurrences(batch, c) == if c in before.Keys - held then 1 else 0
      invariant forall c :: c in required - before.Keys ==> Occurrences(batch, c) == 0
      invariant forall i :: 0 <= i < |batch| ==> Swept(before, next, required, batch[i])
      decreases held
    {
      var c :| c in held;
      ghost var prior := batch;
      if c in required {
        batch := batch + [Updated(c, kept[c], next)];
      } else {
        batch := batch + [Destroyed(c, kept[c], next)];
        kept := kept - {c};
      }
      assert batch[..|prior|] == prior;
      held := held - {c};
    }
  }

  /** The state of the creation loop once the configurations of `required`
      outside `wanted` have been handled: `after` holds the surviving
      children and the new ones, numbered in [firstNew, nextFree), and
      `batch` owes nothing and repeats nothing. */
  ghost predicate CreationProgress<C, S>(before: map<C, ChildId>, required: set<C>, next: S, firstNew: ChildId,
                                         wanted: set<C>, after: map<C, ChildId>, batch: seq<Effect<C, S>>, nextFree: ChildId)
  {
    && wanted <= required
    && after.Keys == (before.Keys * required) + (required - wanted)
    && (forall c :: c in before && c in required ==> after[c] == before[c])
    && (forall c :: c in after && c !in before ==> firstNew <= after[c])
    && (forall c :: c in after ==> after[c] < nextFree)
    && firstNew <= nextFree
    && Injective(after)
    && (forall c :: c in before.Keys + required ==> Occurrences(batch, c) == if c in before || c in required - wanted then 1 else 0)
    && (forall i :: 0 <= i < |batch| ==> Agrees(before, after, next, required, batch[i]))
  }

  /** One pass of the creation loop keeps its progress. */
  lemma CreationStep<C, S>(before: map<C, ChildId>, required: set<C>, next: S, firstNew: ChildId,
                           wanted: set<C>, after: map<C, ChildId>, batch: seq<Effect<C, S>>, nextFree: ChildId, c: C)
    requires forall d :: d in before ==> before[d] < firstNew
    requires CreationProgress(before, required, next, firstNew, wanted, after, batch, nextFree)
    requires c in wanted
    ensures c in after ==>
      CreationProgress(before, required, next, firstNew, wanted - {c}, after, batch, nextFree)
    ensures c !in after ==>
      CreationProgress(before, required, next, firstNew, wanted - {c}, after[c := nextFree],
                       batch + [Created(c, nextFree, next)], nextFree + 1)
  {
    if c !in after {
      var e := Created(c, nextFree, next);
      AgreesAfterInsert(before, after, next, required, batch, c, nextFree);
      forall d | d in before.Keys + required
        ensures Occurrences(batch + [e], d) == Occurrences(batch, d) + (if d == c then 1 else 0)
      {
        OccurrencesSnoc(batch, e, d);
      }
      assert Agrees(before, after[c := nextFree], next, required, e);
    }
  }

  /** The second half of one reconciliation batch (the loop over the required
      configurations): starting from the map `kept` and the effects `swept`
      the first half left, every required configuration not held gets a new
      child, numbered from `firstNew` on. */
  method CreateMissing<C(==), S>(before: map<C, ChildId>, kept: map<C, ChildId>, required: set<C>, next: S,
                                 firstNew: ChildId, swept: seq<Effect<C, S>>)
    returns (after: map<C, ChildId>, batch: seq<Effect<C, S>>, nextFree: ChildId)
    requires forall c :: c in before ==> before[c] < firstNew
    requires Injective(before)
    requires kept == before - (before.Keys - required)
    requires forall c :: c in before ==> Occurrences(swept, c) == 1
    requires forall c :: c in required - before.Keys ==> Occurrences(swept, c) == 0
    requires forall i :: 0 <= i < |swept| ==> Swept(before, next, required, swept[i])
    ensures IsReconciliation(before, after, next, required, batch)
    ensures Injective(after)
    ensures firstNew <= nextFree
    ensures forall c :: c in after ==> after[c] < nextFree
    ensures forall c :: c in after && c !in before ==> firstNew <= after[c]
    ensures forall i :: 0 <= i < |batch| ==> batch[i].child < nextFree
  {
    after := kept;
    batch := swept;
    nextFree := firstNew;
    var wanted := required;
    assert forall i :: 0 <= i < |batch| ==> Agrees(before, after, next, required, batch[i]);
    while wanted != {}
      invariant CreationProgress(before, required, next, firstNew, wanted, after, batch, nextFree)
      decreases wanted
    {
      var c :| c in wanted;
      CreationStep(before, required, next, firstNew, wanted, after, batch, nextFree, c);
      if c !in after {
        var child := nextFree;
        nextFree := nextFree + 1;
        after := after[c := child];
        batch := batch + [Created(c, child, next)];
      }
      wanted := wanted - {c};
    }
  }

  class ChildrenEngine<S, E, C(==)> {
    /** `stateConfigurationsMapping`: the configurations a state requires. */
    const mapping: S -> set<C>
    /** `navigationTransition`; `None` stands for a transition that throws. */
    const transition: (S, E) -> Option<S>

    /** The automaton's current navigation state. */
    var state: S
    /** The configuration-to-child map. */
    var components: map<C, ChildId>
    /** The next child number `createChild` will hand out. */
    var nextChild: ChildId
    /** Every callback made so far, oldest first. */
    var log: seq<Effect<C, S>>
    /** The last published navigation result. */
    var published: NavigationResult<S, C>

    ghost predicate Valid()
      reads this
    {
      && components.Keys == mapping(state)
      && (forall c :: c in components ==> components[c] < nextChild)
      && Injective(components)
      && (forall i :: 0 <= i < |log| ==> log[i].child < nextChild)
      && published == NavigationResult(state, components)
    }

    /** Creates one child per configuration of the initial state, publishes
        the initial result and subscribes to the event source. */
    constructor (source: Hub.NavigationHub<E>, observer: nat, initialState: S,
                 mapping: S -> set<C>, transition: (S, E) -> Option<S>)
      modifies source
      ensures Valid()
      ensures this.mapping == mapping && this.transition == transition
      ensures state == initialState
      ensures IsReconciliation(map[], components, initialState, mapping(initialState), log)
      ensures source.observers == old(source.observers) + [observer]
      ensures source.deliveries == old(source.deliveries)
    {
      // the initial loop over `stateConfigurationsMapping(initialState)` is
      // the creation half of a reconciliation from no children at all
      var made, effects, id := CreateMissing(map[], map[], mapping(initialState), initialState, 0, []);
      this.mapping := mapping;
      this.transition := transition;
      state := initialState;
      components := made;
      nextChild := id;
      log := effects;
      published := NavigationResult(initialState, made);
      new;
      source.Subscribe(observer);
    }

    /** The handler the engine subscribes to its source: one move of the
        automaton. Its check never rejects; a transition that throws leaves
        everything as it was. */
    method OnEvent(event: E) returns (accepted: bool, batch: seq<Effect<C, S>>)
      requires Valid()
      modifies this
      ensures Valid()
      ensures accepted <==> transition(old(state), event).Some?
      ensures log == old(log) + batch
      ensures !accepted ==> && batch == [] && state == old(state) && components == old(components)
                            && nextChild == old(nextChild) && published == old(published)
      ensures accepted ==> state == transition(old(state), event).value
      ensures accepted ==> IsReconciliation(old(components), components, state, mapping(state), batch)
      ensures accepted ==> forall c :: c in components && c !in old(components) ==> old(nextChild) <= components[c]
      ensures old(nextChild) <= nextChild
      ensures accepted ==> forall c, i :: c in components && c !in old(components) && 0 <= i < |old(log)|
                                          ==> components[c] != old(log)[i].child
    {
      var candidate := transition(state, event);
      if candidate.None? {
        accepted, batch := false, [];
        assert log + batch == log;
        return;
      }
      accepted := true;
      var next := candidate.value;
      var required := mapping(next);
      var kept, swept := SweepHeld(components, required, next);
      var after, nextFree;
      after, batch, nextFree := CreateMissing(components, kept, required, next, nextChild, swept);
      state := next;
      components := after;
      nextChild := nextFree;
      log := log + batch;
      published := NavigationResult(state, components);
    }
  }
}
