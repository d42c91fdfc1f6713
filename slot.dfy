/**
 * Slot navigation (slot.kt): exactly one configuration, replaced wholesale;
 * an event maps the current configuration to the next one.
 */
module SlotNavigation {
  import opened Wrappers
  import opened Engine
  import Hub

  /** `InnerSlotNavigationState`. */
  datatype SlotState<C> = SlotState(current: C)

  type SlotEvent<!C> = C -> C

  /** The slot's configuration set: the current configuration alone. */
  function Configurations<C>(s: SlotState<C>): (r: set<C>)
    ensures s.current in r && |r| == 1
  {
    {s.current}
  }

  /** `set(c)`: the next configuration is `c`, whatever the current one. */
  function Set<C>(c: C): SlotEvent<C>
  {
    _ => c
  }

  /** The slot's `navigationTransition`. */
  function Transition<C>(previous: SlotState<C>, event: SlotEvent<C>): (r: SlotState<C>)
    ensures r.current == event(previous.current)
  {
    SlotState(event(previous.current))
  }

  /** The public slot: the current configuration with its child's component.
      The lookup of the current configuration's child needs it to be held. */
  function Public<C, K>(s: SlotState<C>, children: map<C, ChildId>, access: ChildId -> K): (r: ChildWithConfiguration<C, K>)
    requires s.current in children
    ensures r.configuration == s.current
    ensures r.component == access(children[s.current])
  {
    ChildWithConfiguration(s.current, access(children[s.current]))
  }

  lemma SetIgnoresPrevious<C>(previous: SlotState<C>, c: C)
    ensures Transition(previous, Set(c)) == SlotState(c)
    ensures Configurations(Transition(previous, Set(c))) == {c}
  {
  }

  /** Once the children map agrees with the state, the public slot exists. */
  lemma PublicDefined<C>(s: SlotState<C>, children: map<C, ChildId>)
    requires children.Keys == Configurations(s)
    ensures s.current in children
  {
  }

  /** Switching the slot from `a` to a different `b` destroys `a`'s child and
      creates one for `b`, nothing else. */
  lemma SwitchReplacesChild<C>(before: map<C, ChildId>, after: map<C, ChildId>, previous: SlotState<C>,
                               b: C, batch: seq<Effect<C, SlotState<C>>>)
    requires before.Keys == Configurations(previous)
    requires previous.current != b
    requires IsReconciliation(before, after, Transition(previous, Set(b)), Configurations(Transition(previous, Set(b))), batch)
    ensures after.Keys == {b}
    ensures |batch| == 2
    ensures Destroyed(previous.current, before[previous.current], SlotState(b)) in batch
    ensures Created(b, after[b], SlotState(b)) in batch
  {
    SetIgnoresPrevious(previous, b);
    SingleReplacement(before, after, SlotState(b), previous.current, b, batch);
  }

  /** Setting the slot to its current configuration keeps the child. */
  lemma SetSameKeepsChild<C>(before: map<C, ChildId>, after: map<C, ChildId>, previous: SlotState<C>,
                             batch: seq<Effect<C, SlotState<C>>>)
    requires before.Keys == Configurations(previous)
    requires IsReconciliation(before, after, Transition(previous, Set(previous.current)),
                              Configurations(Transition(previous, Set(previous.current))), batch)
    ensures after == before
    ensures forall i :: 0 <= i < |batch| ==> batch[i].Updated?
  {
    SetIgnoresPrevious(previous, previous.current);
    NoChurnWhenConfigurationsKept(before, after, previous, batch);
  }

  /** `childrenSlot`: an engine holding one child, for the initial configuration. */
  method ChildrenSlot<C(==)>(source: Hub.NavigationHub<SlotEvent<C>>, observer: nat, initialConfiguration: C)
    returns (engine: ChildrenEngine<SlotState<C>, SlotEvent<C>, C>)
    modifies source
    ensures fresh(engine) && engine.Valid()
    ensures engine.state == SlotState(initialConfiguration)
    ensures engine.mapping == (s => Configurations(s))
    ensures engine.transition == ((s, e) => Some(Transition(s, e)))
    ensures engine.components.Keys == {initialConfiguration}
    ensures engine.log == [Created(initialConfiguration, engine.components[initialConfiguration], SlotState(initialConfiguration))]
    ensures source.observers == old(source.observers) + [observer]
    ensures source.deliveries == old(source.deliveries)
  {
    engine := new ChildrenEngine(source, observer, SlotState(initialConfiguration),
                                 s => Configurations(s), (s, e) => Some(Transition(s, e)));
    SingleCreation(map[], engine.components, SlotState(initialConfiguration), initialConfiguration, engine.log);
  }
}
