/**
 * Variants navigation (variants.kt): a fixed declared set of configurations,
 * all of them instantiated, with one active member; an event picks the next
 * active member from the declared set and the current one.
 */
module VariantsNavigation {
  import opened Wrappers
  import opened Engine
  import Hub

  /** `InnerVariantsNavigationState`. */
  datatype VariantsState<C> = VariantsState(configurations: set<C>, currentVariant: C)

  type VariantsEvent<!C> = (set<C>, C) -> C

  /** `ChildrenVariants`: the active child and every variant's component. */
  datatype ChildrenVariants<C, K> = ChildrenVariants(active: ChildWithConfiguration<C, K>, allVariants: map<C, K>)

  /** `set(c)`: the next active variant is `c`, ignoring both arguments. */
  function Set<C>(c: C): VariantsEvent<C>
  {
    (_, _) => c
  }

  /** The variants' `navigationTransition`: the declared set is kept and the
      event chooses the active variant. */
  function Transition<C>(previous: VariantsState<C>, event: VariantsEvent<C>): (r: VariantsState<C>)
    ensures r.configurations == previous.configurations
    ensures r.currentVariant == event(previous.configurations, previous.currentVariant)
  {
    VariantsState(previous.configurations, event(previous.configurations, previous.currentVariant))
  }

  /** The public variants. The active lookup fails when the active variant is
      not a declared one (nothing checks that it is); the declared variants
      are all held once the children map agrees with the state. */
  function Public<C, K>(s: VariantsState<C>, children: map<C, ChildId>, access: ChildId -> K)
    : (r: Option<ChildrenVariants<C, K>>)
    requires s.configurations <= children.Keys
    ensures r.Some? <==> s.currentVariant in children
    ensures r.Some? ==> r.value.active == ChildWithConfiguration(s.currentVariant, access(children[s.currentVariant]))
    ensures r.Some? ==> r.value.allVariants.Keys == s.configurations
    ensures r.Some? ==> forall c :: c in s.configurations ==> r.value.allVariants[c] == access(children[c])
  {
    if s.currentVariant !in children then None
    else Some(ChildrenVariants(
      ChildWithConfiguration(s.currentVariant, access(children[s.currentVariant])),
      map c | c in s.configurations :: access(children[c])))
  }

  lemma SetIgnoresArguments<C>(previous: VariantsState<C>, c: C)
    ensures Transition(previous, Set(c)) == VariantsState(previous.configurations, c)
  {
  }

  /** With the children map agreeing with the state, the public value exists
      exactly when the active variant is a declared one. */
  lemma PublicDefinedIffDeclared<C, K>(s: VariantsState<C>, children: map<C, ChildId>, access: ChildId -> K)
    requires children.Keys == s.configurations
    ensures Public(s, children, access).Some? <==> s.currentVariant in s.configurations
  {
  }

  /** A variants transition never creates or destroys a child: the map is
      unchanged and every callback is an update. */
  lemma SwitchKeepsChildren<C>(before: map<C, ChildId>, after: map<C, ChildId>, previous: VariantsState<C>,
                               event: VariantsEvent<C>, batch: seq<Effect<C, VariantsState<C>>>)
    requires before.Keys == previous.configurations
    requires IsReconciliation(before, after, Transition(previous, event), Transition(previous, event).configurations, batch)
    ensures after == before
    ensures forall i :: 0 <= i < |batch| ==> !batch[i].Created? && !batch[i].Destroyed?
  {
    NoChurnWhenConfigurationsKept(before, after, Transition(previous, event), batch);
  }

  /** `childrenVariants`: an engine holding one child per declared variant. */
  method ChildrenVariantsEngine<C(==)>(source: Hub.NavigationHub<VariantsEvent<C>>, observer: nat,
                                       allVariants: set<C>, initialVariant: C)
    returns (engine: ChildrenEngine<VariantsState<C>, VariantsEvent<C>, C>)
    modifies source
    ensures fresh(engine) && engine.Valid()
    ensures engine.state == VariantsState(allVariants, initialVariant)
    ensures engine.mapping == ((s: VariantsState<C>) => s.configurations)
    ensures engine.transition == ((s, e) => Some(Transition(s, e)))
    ensures engine.components.Keys == allVariants
    ensures IsReconciliation(map[], engine.components, engine.state, allVariants, engine.log)
    ensures source.observers == old(source.observers) + [observer]
    ensures source.deliveries == old(source.deliveries)
  {
    engine := new ChildrenEngine(source, observer, VariantsState(allVariants, initialVariant),
                                 (s: VariantsState<C>) => s.configurations, (s, e) => Some(Transition(s, e)));
  }
}
