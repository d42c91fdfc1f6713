/**
 * Stack navigation (stack.kt): the state is a non-empty list of
 * configurations whose last entry is the current one, and an event is a
 * transformation of the list. `None` stands for a transformation that throws.
 */
module StackNavigation {
  import opened Wrappers
  import Engine
  import Hub

  type StackEvent<!C> = seq<C> -> Option<seq<C>>

  /** `push(c)`: appends `c` to the stack. */
  function Push<C>(c: C): StackEvent<C>
  {
    stack => Some(stack + [c])
  }

  /** `pop()`: drops the last entry (an empty list stays empty). */
  function Pop<C>(): StackEvent<C>
  {
    stack => Some(if |stack| == 0 then [] else stack[..|stack| - 1])
  }

  /** `replaceCurrent(c)`: the last entry becomes `c`; on an empty list it is
      taken to throw. */
  function ReplaceCurrent<C>(c: C): StackEvent<C>
  {
    stack => if |stack| == 0 then None else Some(stack[..|stack| - 1] + [c])
  }

  /** `updateCurrent(f)`: the last entry `x` becomes `f(x)`; on an empty list
      it is taken to throw. */
  function UpdateCurrent<C>(f: C -> C): StackEvent<C>
  {
    stack => if |stack| == 0 then None else Some(stack[..|stack| - 1] + [f(stack[|stack| - 1])])
  }

  /** The children stack's `stateConfigurationsMapping`: the set of entries. */
  function Configurations<C>(stack: seq<C>): (r: set<C>)
    ensures forall c :: c in r ==> c in stack
    ensures forall i :: 0 <= i < |stack| ==> stack[i] in r
    ensures |r| <= |stack|
  {
    if |stack| == 0 then {}
    else Configurations(stack[..|stack| - 1]) + {stack[|stack| - 1]}
  }

  /** The children stack's `navigationTransition`: apply the event and reject
      an empty result. */
  function Transition<C>(previous: seq<C>, event: StackEvent<C>): (r: Option<seq<C>>)
    ensures r.Some? <==> event(previous).Some? && |event(previous).value| != 0
    ensures r.Some? ==> r.value == event(previous).value
  {
    match event(previous)
    case None => None
    case Some(next) => if |next| == 0 then None else Some(next)
  }

  /** `childrenStack` refuses an empty initial stack before any child exists. */
  function Initial<C>(initialStack: seq<C>): (r: Option<seq<C>>)
    ensures r.Some? <==> |initialStack| != 0
    ensures r.Some? ==> r.value == initialStack
  {
    if |initialStack| == 0 then None else Some(initialStack)
  }

  lemma PushAppends<C>(stack: seq<C>, c: C)
    requires stack != []
    ensures Transition(stack, Push(c)).Some?
    ensures var next := Transition(stack, Push(c)).value;
      |next| == |stack| + 1 && next[..|stack|] == stack && next[|stack|] == c
  {
  }

  lemma PopDropsLast<C>(stack: seq<C>)
    requires |stack| >= 2
    ensures Transition(stack, Pop()) == Some(stack[..|stack| - 1])
  {
  }

  /** Popping a one-element stack is rejected. */
  lemma PopSingletonFails<C>(c: C)
    ensures Transition([c], Pop()) == None
  {
  }

  /** `pop` undoes `push`. */
  lemma PopUndoesPush<C>(stack: seq<C>, c: C)
    requires stack != []
    ensures Transition(stack, Push(c)).Some?
    ensures Transition(Transition(stack, Push(c)).value, Pop()) == Some(stack)
  {
    assert (stack + [c])[..|stack|] == stack;
  }

  lemma ReplaceCurrentKeepsRest<C>(stack: seq<C>, c: C)
    requires stack != []
    ensures Transition(stack, ReplaceCurrent(c)).Some?
    ensures var next := Transition(stack, ReplaceCurrent(c)).value;
      |next| == |stack| && next[..|stack| - 1] == stack[..|stack| - 1] && next[|stack| - 1] == c
  {
  }

  lemma UpdateCurrentAppliesToLast<C>(stack: seq<C>, f: C -> C)
    requires stack != []
    ensures Transition(stack, UpdateCurrent(f)).Some?
    ensures var next := Transition(stack, UpdateCurrent(f)).value;
      |next| == |stack| && next[..|stack| - 1] == stack[..|stack| - 1] && next[|stack| - 1] == f(stack[|stack| - 1])
  {
  }

  /** The model's choices on an empty list: `pop` yields an empty list, while
      `replaceCurrent` and `updateCurrent` throw. */
  lemma EventsOnEmptyStack<C>(c: C, f: C -> C)
    ensures Pop<C>()([]) == Some([])
    ensures ReplaceCurrent(c)([]) == None
    ensures UpdateCurrent(f)([]) == None
  {
  }

  /** Every accepted stack is non-empty, whatever the event. */
  lemma TransitionKeepsNonEmpty<C>(previous: seq<C>, event: StackEvent<C>)
    requires Transition(previous, event).Some?
    ensures Transition(previous, event).value != []
  {
  }

  /** A stack holding a configuration twice has fewer children than entries:
      equal entries share one child. */
  lemma {:induction false} DuplicatesShareChild<C>(stack: seq<C>, i: nat, j: nat)
    requires i < j < |stack| && stack[i] == stack[j]
    ensures |Configurations(stack)| < |stack|
    decreases |stack|
  {
    var n := |stack| - 1;
    var prefix := stack[..n];
    var earlier := Configurations(prefix);
    assert Configurations(stack) == earlier + {stack[n]};
    if j == n {
      assert stack[n] == prefix[i] && prefix[i] in earlier;
      assert earlier + {stack[n]} == earlier;
    } else {
      assert prefix[i] == prefix[j];
      DuplicatesShareChild(prefix, i, j);
      assert |earlier + {stack[n]}| <= |earlier| + 1;
    }
  }

  /** `childrenStack`: refuses an empty initial stack, otherwise an engine
      whose state is the stack and whose children are its distinct entries. */
  method ChildrenStack<C(==)>(source: Hub.NavigationHub<StackEvent<C>>, observer: nat, initialStack: seq<C>)
    returns (r: Option<Engine.ChildrenEngine<seq<C>, StackEvent<C>, C>>)
    modifies source
    ensures r.Some? <==> |initialStack| != 0
    ensures r.None? ==> source.observers == old(source.observers)
    ensures source.deliveries == old(source.deliveries)
    ensures r.Some? ==> && fresh(r.value) && r.value.Valid()
                        && r.value.state == initialStack
                        && r.value.components.Keys == Configurations(initialStack)
                        && r.value.mapping == (s => Configurations(s))
                        && r.value.transition == ((s, e) => Transition(s, e))
                        && Engine.IsReconciliation(map[], r.value.components, initialStack,
                                                   Configurations(initialStack), r.value.log)
                        && source.observers == old(source.observers) + [observer]
  {
    match Initial(initialStack)
    case None =>
      r := None;
    case Some(stack) =>
      var engine := new Engine.ChildrenEngine(source, observer, stack,
                                              s => Configurations(s), (s, e) => Transition(s, e));
      r := Some(engine);
  }
}
