/**
 * Possibility navigation (possibility.kt): zero or one configuration; an
 * event maps the optional current configuration to the next one.
 */
module PossibilityNavigation {
  import opened Wrappers
  import opened Engine
  import Hub

  /** `InnerPossibilityNavigationState`. */
  datatype PossibilityState<C> = PossibilityState(current: Option<C>)

  type PossibilityEvent<!C> = Option<C> -> Option<C>

  /** The configuration set: empty without a configuration, else its value. */
  function Configurations<C>(s: PossibilityState<C>): (r: set<C>)
    ensures s.current.None? ==> r == {}
    ensures s.current.Some? ==> s.current.value in r && |r| == 1
  {
    match s.current
    case None => {}
    case Some(c) => {c}
  }

  /** `set(c)`: the next value is `Some(c)`, whatever the current one. */
  function Set<C>(c: C): PossibilityEvent<C>
  {
    _ => Some(c)
  }

  /** `clear()`: the next value is `None`, whatever the current one. */
  function Clear<C>(): PossibilityEvent<C>
  {
    _ => None
  }

  /** The possibility's `navigationTransition`. */
  function Transition<C>(previous: PossibilityState<C>, event: PossibilityEvent<C>): (r: PossibilityState<C>)
    ensures r.current == event(previous.current)
  {
    PossibilityState(event(previous.current))
  }

  /** The public possibility: nothing without a configuration, otherwise the
      configuration with its child's component. */
  function Public<C, K>(s: PossibilityState<C>, children: map<C, ChildId>, access: ChildId -> K)
    : (r: Option<ChildWithConfiguration<C, K>>)
    requires s.current.Some? ==> s.current.value in children
    ensures r.None? <==> s.current.None?
    ensures r.Some? ==> r.value == ChildWithConfiguration(s.current.value, access(children[s.current.value]))
  {
    match s.current
    case None => None
    case Some(c) => Some(ChildWithConfiguration(c, access(children[c])))
  }

  lemma SetAndClearIgnorePrevious<C>(previous: PossibilityState<C>, c: C)
    ensures Transition(previous, Set(c)) == PossibilityState(Some(c))
    ensures Transition(previous, Clear()) == PossibilityState(None)
  {
  }

  /** Once the children map agrees with the state, the public value exists. */
  lemma PublicDefined<C>(s: PossibilityState<C>, children: map<C, ChildId>)
    requires children.Keys == Configurations(s)
    ensures s.current.Some? ==> s.current.value in children
  {
  }

  /** From an empty possibility, `set(a)` creates exactly one child, for `a`. */
  lemma SetFromEmptyCreatesOne<C>(before: map<C, ChildId>, after: map<C, ChildId>, a: C,
                                  batch: seq<Effect<C, PossibilityState<C>>>)
    requires before == map[]
    requires IsReconciliation(before, after, PossibilityState(Some(a)), Configurations(PossibilityState(Some(a))), batch)
    ensures after.Keys == {a}
    ensures batch == [Created(a, after[a], PossibilityState(Some(a)))]
  {
    SingleCreation(before, after, PossibilityState(Some(a)), a, batch);
  }

  /** Then `clear()` destroys that child exactly once and leaves no children. */
  lemma ClearDestroysOne<C>(before: map<C, ChildId>, after: map<C, ChildId>, a: C,
                            batch: seq<Effect<C, PossibilityState<C>>>)
    requires before.Keys == {a}
    requires IsReconciliation(before, after, PossibilityState(None), Configurations<C>(PossibilityState(None)), batch)
    ensures after == map[]
    ensures batch == [Destroyed(a, before[a], PossibilityState(None))]
  {
    SingleDestruction(before, after, PossibilityState(None), a, batch);
  }

  /** `childrenPossibility`: an engine holding a child for the initial value,
      if there is one. */
  method ChildrenPossibility<C(==)>(source: Hub.NavigationHub<PossibilityEvent<C>>, observer: nat,
                                    initialConfiguration: Option<C>)
    returns (engine: ChildrenEngine<PossibilityState<C>, PossibilityEvent<C>, C>)
    modifies source
    ensures fresh(engine) && engine.Valid()
    ensures engine.state == PossibilityState(initialConfiguration)
    ensures engine.mapping == (s => Configurations(s))
    ensures engine.transition == ((s, e) => Some(Transition(s, e)))
    ensures IsReconciliation(map[], engine.components, engine.state, Configurations(engine.state), engine.log)
    ensures source.observers == old(source.observers) + [observer]
    ensures source.deliveries == old(source.deliveries)
  {
    engine := new ChildrenEngine(source, observer, PossibilityState(initialConfiguration),
                                 s => Configurations(s), (s, e) => Some(Transition(s, e)));
  }
}
