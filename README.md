# Komponentual navigation and lifecycles, modelled in Dafny

Komponentual builds component trees for Kotlin multiplatform UIs. This
project models two parts of it.

**Navigation.** A *navigation hub* fans navigation events out to its
subscribers. The generic `children` function subscribes to such a source and
keeps a map from *configurations* to *children*. On every event it:

- computes the next navigation state;
- updates the children whose configuration the state still requires;
- destroys and drops the children whose configuration it no longer requires;
- creates a child for each newly required configuration;
- publishes the pair (state, children).

Four flavours instantiate `children`:

- a **stack**: a non-empty list; every distinct entry has a child;
- a **slot**: exactly one configuration;
- a **possibility**: zero or one configuration;
- **variants**: a fixed declared set, all instantiated, one of them active.

**Lifecycles.** A lifecycle is a guarded automaton with a callback list. A
move that `checkNextState` accepts is decomposed into transitions, and each
transition is handed in order to every subscribed callback. The
child-deferring and merge-deferring lifecycles follow one or two parent
lifecycles once launched.

Files:

- `wrappers.dfy` holds `Option`.
- `fanout.dfy` is the snapshot fan-out shared by hubs and lifecycles.
- `hub.dfy` is the navigation hub.
- `engine.dfy` is the `children` engine.
- `stack.dfy`, `slot.dfy`, `possibility.dfy` and `variants.dfy` are the flavours.
- `lifecycle.dfy` holds the lifecycles.

Modelling choices:

- Children are numbered by a counter. `createChild` hands out the next number.
- Calls to `createChild`, `updateChild` and `destroyChild` are recorded as
  `Engine.Effect` entries of a log.
- Callbacks are opaque numbers. Every invocation is recorded as a
  `Fanout.Delivery`.
- One navigation transition, or one lifecycle move, is one atomic step.
- The reconciliation loops iterate over sets in an unspecified order.
  Their contract therefore fixes, for each configuration, the one callback
  it receives, and leaves the order across configurations open.
- A navigation transition that throws is `None`. One example is the stack's
  `require` on an empty result. Another is `replaceCurrent` on an empty list,
  which is taken to throw.
  The move then fails and nothing changes.

## Model

| member | source | states |
|---|---|---|
| Fanout.Deliver | libs/navigation/src/commonMain/kotlin/dev/lounres/komponentual/navigation/generic.kt:56-67 | one publication yields one delivery per snapshot entry, in snapshot order, each carrying the event |
| Fanout.DeliverOncePerRegistration | libs/navigation/src/commonMain/kotlin/dev/lounres/komponentual/navigation/generic.kt:56-67 | a callback receives a published event exactly as many times as it is registered in the snapshot, and never if it is absent |
| Hub.NavigationHub.constructor | libs/navigation/src/commonMain/kotlin/dev/lounres/komponentual/navigation/generic.kt:46-48 | a new hub has no observers and has delivered nothing |
| Hub.NavigationHub.Subscribe | libs/navigation/src/commonMain/kotlin/dev/lounres/komponentual/navigation/generic.kt:50-54 | subscribing appends the observer at the end of the list and delivers nothing |
| Hub.NavigationHub.Navigate | libs/navigation/src/commonMain/kotlin/dev/lounres/komponentual/navigation/generic.kt:56-67 | navigate keeps the observer list and delivers the event once to each observer of the list as it stood when the call began |
| Engine.SweepHeld | libs/navigation/src/commonMain/kotlin/dev/lounres/komponentual/navigation/generic.kt:117-127 | the loop over held children leaves exactly the still-required entries; each held configuration gets one callback, an update of its own child if still required and a destruction of it otherwise; required configurations that were not held get none |
| Engine.CreateMissing | libs/navigation/src/commonMain/kotlin/dev/lounres/komponentual/navigation/generic.kt:129-134 | completing the sweep yields a reconciliation: keys equal the required set, survivors keep their child, every configuration held or required gets exactly the one callback it is owed, and new children get fresh pairwise-distinct numbers from the counter on |
| Engine.ChildrenEngine.constructor | libs/navigation/src/commonMain/kotlin/dev/lounres/komponentual/navigation/generic.kt:94-141 | the engine starts in the initial state with one new child for each configuration of that state and exactly one creation callback each; it publishes (state, children) and subscribes its handler to the source, delivering nothing |
| Engine.ChildrenEngine.OnEvent | libs/navigation/src/commonMain/kotlin/dev/lounres/komponentual/navigation/generic.kt:111-138 | an event whose transition throws changes nothing; otherwise the state becomes the transition's result and the children map is reconciled to the new state's configurations; the batch of callbacks is appended to the log; a new child's number differs from that of every child the log has ever recorded, including destroyed ones, because `Valid` keeps all logged children below the counter and the counter never goes back; and the published result is the new (state, children); the invariant (keys = configurations of the state, injective children) is kept |
| Engine.NoChurnWhenConfigurationsKept | libs/navigation/src/commonMain/kotlin/dev/lounres/komponentual/navigation/generic.kt:119-134 | when the next state requires exactly the held configurations, the map is unchanged and every callback is an update of the existing child |
| Engine.SingleCreation | libs/navigation/src/commonMain/kotlin/dev/lounres/komponentual/navigation/generic.kt:129-134 | from no children to one required configuration, the batch is exactly one creation |
| Engine.SingleDestruction | libs/navigation/src/commonMain/kotlin/dev/lounres/komponentual/navigation/generic.kt:119-127 | from one child to none required, the batch is exactly one destruction of that child and the map becomes empty |
| Engine.SingleReplacement | libs/navigation/src/commonMain/kotlin/dev/lounres/komponentual/navigation/generic.kt:119-134 | replacing the one held configuration by another gives exactly two callbacks: destroy the old child, create the new one |
| StackNavigation.Configurations | libs/navigation/src/commonMain/kotlin/dev/lounres/komponentual/navigation/stack.kt:115-123 | the configuration set of a stack is exactly its set of entries, no larger than the stack |
| StackNavigation.Transition | libs/navigation/src/commonMain/kotlin/dev/lounres/komponentual/navigation/stack.kt:124-126 | a stack transition succeeds exactly when the event does not throw and yields a non-empty list, and then it is that list |
| StackNavigation.Initial | libs/navigation/src/commonMain/kotlin/dev/lounres/komponentual/navigation/stack.kt:114 | an initial stack is accepted exactly when it is non-empty |
| StackNavigation.PushAppends | libs/navigation/src/commonMain/kotlin/dev/lounres/komponentual/navigation/stack.kt:31-38 | the push event on a stack yields the old stack with the configuration appended |
| StackNavigation.PopDropsLast | libs/navigation/src/commonMain/kotlin/dev/lounres/komponentual/navigation/stack.kt:40-42 | the pop event on a stack of two or more entries drops the last one |
| StackNavigation.PopSingletonFails | libs/navigation/src/commonMain/kotlin/dev/lounres/komponentual/navigation/stack.kt:40-42 | pop on a one-entry stack is rejected, because the empty result fails the non-empty requirement |
| StackNavigation.PopUndoesPush | libs/navigation/src/commonMain/kotlin/dev/lounres/komponentual/navigation/stack.kt:31-42 | pop after push returns the original stack |
| StackNavigation.ReplaceCurrentKeepsRest | libs/navigation/src/commonMain/kotlin/dev/lounres/komponentual/navigation/stack.kt:44-52 | the replaceCurrent event keeps the length and every entry but the last, which becomes the given configuration |
| StackNavigation.UpdateCurrentAppliesToLast | libs/navigation/src/commonMain/kotlin/dev/lounres/komponentual/navigation/stack.kt:54-63 | the updateCurrent event keeps the length and every entry but the last, which becomes the update applied to it |
| StackNavigation.EventsOnEmptyStack | libs/navigation/src/commonMain/kotlin/dev/lounres/komponentual/navigation/stack.kt:40-63 | on an empty list the pop event yields an empty list, while replaceCurrent and updateCurrent are taken to throw |
| StackNavigation.TransitionKeepsNonEmpty | libs/navigation/src/commonMain/kotlin/dev/lounres/komponentual/navigation/stack.kt:124-126 | every accepted stack is non-empty |
| StackNavigation.DuplicatesShareChild | libs/navigation/src/commonMain/kotlin/dev/lounres/komponentual/navigation/stack.kt:115-123 | a stack holding a configuration twice has fewer configurations, hence children, than entries |
| StackNavigation.ChildrenStack | libs/navigation/src/commonMain/kotlin/dev/lounres/komponentual/navigation/stack.kt:96-130 | childrenStack refuses an empty initial stack, subscribing nothing; otherwise it builds an engine over the stack with one child per distinct entry; either way nothing is delivered |
| SlotNavigation.Configurations | libs/navigation/src/commonMain/kotlin/dev/lounres/komponentual/navigation/slot.kt:55-68 | a slot state requires exactly one configuration, the current one |
| SlotNavigation.Transition | libs/navigation/src/commonMain/kotlin/dev/lounres/komponentual/navigation/slot.kt:98-105 | the next slot holds the event applied to the current configuration |
| SlotNavigation.Public | libs/navigation/src/commonMain/kotlin/dev/lounres/komponentual/navigation/slot.kt:109-114 | the public slot pairs the current configuration with its child's component |
| SlotNavigation.SetIgnoresPrevious | libs/navigation/src/commonMain/kotlin/dev/lounres/komponentual/navigation/slot.kt:32-34 | the set(c) event makes c the only configuration, whatever the slot held |
| SlotNavigation.PublicDefined | libs/navigation/src/commonMain/kotlin/dev/lounres/komponentual/navigation/slot.kt:109-114 | when the children map matches the state, the public slot's lookup succeeds |
| SlotNavigation.SwitchReplacesChild | libs/navigation/src/commonMain/kotlin/dev/lounres/komponentual/navigation/slot.kt:32-34 | switching the slot to a different configuration destroys the old child and creates exactly one new one |
| SlotNavigation.SetSameKeepsChild | libs/navigation/src/commonMain/kotlin/dev/lounres/komponentual/navigation/slot.kt:32-34 | setting the slot to its current configuration keeps the child and only updates it |
| SlotNavigation.ChildrenSlot | libs/navigation/src/commonMain/kotlin/dev/lounres/komponentual/navigation/slot.kt:72-115 | childrenSlot starts with exactly one creation, for the initial configuration, subscribes one handler and delivers nothing |
| PossibilityNavigation.Configurations | libs/navigation/src/commonMain/kotlin/dev/lounres/komponentual/navigation/possibility.kt:63-83 | an empty possibility requires nothing; a present one requires exactly its value |
| PossibilityNavigation.Transition | libs/navigation/src/commonMain/kotlin/dev/lounres/komponentual/navigation/possibility.kt:110-114 | the next possibility holds the event applied to the current optional configuration |
| PossibilityNavigation.Public | libs/navigation/src/commonMain/kotlin/dev/lounres/komponentual/navigation/possibility.kt:118-120 | the public value is absent exactly when there is no configuration; otherwise it pairs the configuration with its child's component |
| PossibilityNavigation.SetAndClearIgnorePrevious | libs/navigation/src/commonMain/kotlin/dev/lounres/komponentual/navigation/possibility.kt:36-42 | the set(c) event yields Some(c) and the clear() event yields None, whatever the previous value |
| PossibilityNavigation.PublicDefined | libs/navigation/src/commonMain/kotlin/dev/lounres/komponentual/navigation/possibility.kt:118-120 | when the children map matches the state, a present configuration has a child |
| PossibilityNavigation.SetFromEmptyCreatesOne | libs/navigation/src/commonMain/kotlin/dev/lounres/komponentual/navigation/possibility.kt:36-38 | set(a) on an empty possibility creates exactly one child, for a |
| PossibilityNavigation.ClearDestroysOne | libs/navigation/src/commonMain/kotlin/dev/lounres/komponentual/navigation/possibility.kt:40-42 | clear() on a possibility holding a destroys exactly that child and leaves none |
| PossibilityNavigation.ChildrenPossibility | libs/navigation/src/commonMain/kotlin/dev/lounres/komponentual/navigation/possibility.kt:87-121 | childrenPossibility starts with a reconciliation from nothing to the initial value's configurations, subscribes one handler and delivers nothing |
| VariantsNavigation.Transition | libs/navigation/src/commonMain/kotlin/dev/lounres/komponentual/navigation/variants.kt:91-96 | a variants transition keeps the declared set and lets the event choose the active variant |
| VariantsNavigation.Public | libs/navigation/src/commonMain/kotlin/dev/lounres/komponentual/navigation/variants.kt:100-108 | the public value exists exactly when the active variant has a child; it pairs the active variant with its component, and maps every declared variant, and no other, to its component |
| VariantsNavigation.SetIgnoresArguments | libs/navigation/src/commonMain/kotlin/dev/lounres/komponentual/navigation/variants.kt:33-35 | the set(c) event makes c active, ignoring both of its arguments, and keeps the declared set |
| VariantsNavigation.PublicDefinedIffDeclared | libs/navigation/src/commonMain/kotlin/dev/lounres/komponentual/navigation/variants.kt:100-108 | with children matching the state, the public value exists exactly when the active variant is declared |
| VariantsNavigation.SwitchKeepsChildren | libs/navigation/src/commonMain/kotlin/dev/lounres/komponentual/navigation/variants.kt:91-96 | no variants transition creates or destroys a child: the map is unchanged and every callback is an update |
| VariantsNavigation.ChildrenVariantsEngine | libs/navigation/src/commonMain/kotlin/dev/lounres/komponentual/navigation/variants.kt:66-109 | childrenVariants creates one child per declared variant, however the initial variant relates to them, subscribes one handler and delivers nothing |
| Lifecycle.Notifications | libs/lifecycle/src/commonMain/kotlin/dev/lounres/komponentual/lifecycle/Lifecycle.kt:91-101 | one accepted move makes one delivery per transition and subscribed callback |
| Lifecycle.NotificationsPerCallback | libs/lifecycle/src/commonMain/kotlin/dev/lounres/komponentual/lifecycle/Lifecycle.kt:91-101 | in one accepted move a callback registered k times receives |ts|·k deliveries in all |
| Lifecycle.EachTransitionReachesEveryRegistration | libs/lifecycle/src/commonMain/kotlin/dev/lounres/komponentual/lifecycle/Lifecycle.kt:91-101 | each transition of a move has its own block of deliveries, placed between those of the earlier and later transitions; the block carries only that transition, and a callback registered k times receives it exactly k times |
| Lifecycle.NotificationsInOrder | libs/lifecycle/src/commonMain/kotlin/dev/lounres/komponentual/lifecycle/Lifecycle.kt:90-101 | within one move, the deliveries of a transition come after those of every earlier transition and before those of every later one |
| Lifecycle.Without | libs/lifecycle/src/commonMain/kotlin/dev/lounres/komponentual/lifecycle/Lifecycle.kt:108-112 | cancelling removes exactly the nodes with that identity and keeps every other node |
| Lifecycle.WithoutRemovesOne | libs/lifecycle/src/commonMain/kotlin/dev/lounres/komponentual/lifecycle/Lifecycle.kt:106-114 | with distinct identities, cancelling a subscribed node shortens the list by exactly one |
| Lifecycle.WithoutKeepsAbsent | libs/lifecycle/src/commonMain/kotlin/dev/lounres/komponentual/lifecycle/Lifecycle.kt:108-112 | removing an identity no node has leaves the list as it is |
| Lifecycle.CancelUndoesSubscribe | libs/lifecycle/src/commonMain/kotlin/dev/lounres/komponentual/lifecycle/Lifecycle.kt:106-114 | cancelling a fresh subscription straight away restores the previous callback list |
| Lifecycle.WithoutDistinct | libs/lifecycle/src/commonMain/kotlin/dev/lounres/komponentual/lifecycle/Lifecycle.kt:108-112 | removal keeps node identities distinct |
| Lifecycle.GuardedLifecycle.constructor | libs/lifecycle/src/commonMain/kotlin/dev/lounres/komponentual/lifecycle/Lifecycle.kt:75-82 | a new lifecycle is in the initial state, hands out the initial output state, and has no callbacks and no deliveries |
| Lifecycle.GuardedLifecycle.MoveTo | libs/lifecycle/src/commonMain/kotlin/dev/lounres/komponentual/lifecycle/Lifecycle.kt:84-103 | a move the check refuses changes nothing; an accepted one sets the state, hands every transition of the decomposition, in order, to every callback once, and sets callbacksState to the output of the new state unless there were no transitions |
| Lifecycle.GuardedLifecycle.State | libs/lifecycle/src/commonMain/kotlin/dev/lounres/komponentual/lifecycle/Lifecycle.kt:105 | the state is the output of the automaton's state, the state itself for a mutable lifecycle |
| Lifecycle.GuardedLifecycle.Subscribe | libs/lifecycle/src/commonMain/kotlin/dev/lounres/komponentual/lifecycle/Lifecycle.kt:106-114 | subscribe appends one new node with a fresh identity and returns it with the current callbacksState |
| Lifecycle.GuardedLifecycle.Cancel | libs/lifecycle/src/commonMain/kotlin/dev/lounres/komponentual/lifecycle/Lifecycle.kt:108-112 | cancel removes the subscription's node and no other, shortening the list by one |
| Lifecycle.NewMutableLifecycle | libs/lifecycle/src/commonMain/kotlin/dev/lounres/komponentual/lifecycle/Lifecycle.kt:64-81 | MutableLifecycle is a guarded lifecycle whose public state is its automaton's state |
| Lifecycle.ChildDeferringLifecycle.State | libs/lifecycle/src/commonMain/kotlin/dev/lounres/komponentual/lifecycle/Lifecycle.kt:181 | the state is the output of the automaton's state |
| Lifecycle.ChildDeferringLifecycle.constructor | libs/lifecycle/src/commonMain/kotlin/dev/lounres/komponentual/lifecycle/Lifecycle.kt:146-179 | a new child-deferring lifecycle is in its initial state with no callbacks |
| Lifecycle.ChildDeferringLifecycle.Launch | libs/lifecycle/src/commonMain/kotlin/dev/lounres/komponentual/lifecycle/Lifecycle.kt:193-203 | launch subscribes one handler to the parent, leaving the parent's state, callbacks state and deliveries as they were, and then moves to the parent's subscription state mapped by mapState |
| Lifecycle.ChildDeferringLifecycle.OnParentTransition | libs/lifecycle/src/commonMain/kotlin/dev/lounres/komponentual/lifecycle/Lifecycle.kt:195-199 | a parent transition moves the lifecycle to mapTransition of its current state and the transition, subject to its own check |
| Lifecycle.MergeDeferringLifecycle.State | libs/lifecycle/src/commonMain/kotlin/dev/lounres/komponentual/lifecycle/Lifecycle.kt:268 | the state is the output of the automaton's state |
| Lifecycle.MergeDeferringLifecycle.constructor | libs/lifecycle/src/commonMain/kotlin/dev/lounres/komponentual/lifecycle/Lifecycle.kt:231-266 | a new merge-deferring lifecycle is in its initial state with no callbacks |
| Lifecycle.MergeDeferringLifecycle.Launch | libs/lifecycle/src/commonMain/kotlin/dev/lounres/komponentual/lifecycle/Lifecycle.kt:280-295 | launch subscribes one handler to each parent, leaving each parent's state, callbacks state and deliveries as they were, then moves to mergeStates of both subscription states |
| Lifecycle.MergeDeferringLifecycle.OnParent1Transition | libs/lifecycle/src/commonMain/kotlin/dev/lounres/komponentual/lifecycle/Lifecycle.kt:282-286 | a first-parent transition moves the lifecycle by mapTransition1 |
| Lifecycle.MergeDeferringLifecycle.OnParent2Transition | libs/lifecycle/src/commonMain/kotlin/dev/lounres/komponentual/lifecycle/Lifecycle.kt:287-291 | a second-parent transition moves the lifecycle by mapTransition2 |

## Left out

- Coroutines, mutexes, `ReentrantLock` and `supervisorScope` are not modelled.
  A navigation transition and a lifecycle move are each one atomic step.
  - Within a batch, the source launches child callbacks concurrently. The model
    records them in the loops' order.
  - The source runs a published fan-out concurrently. The model records it in
    list order.
  - Interleavings of concurrent events or moves are not modelled.
  - Lifecycle.GuardedLifecycle.MoveTo takes one snapshot of the callback list
    for the whole move. The source takes a fresh snapshot for each decomposed
    transition (Lifecycle.kt:92-95). Because the move is atomic, no subscribe
    or cancel can fall between two transitions of one move, so the model
    cannot show the difference.
- `AsynchronousAutomaton` and `SuspendAutomaton` are not part of this model. Their
  move is taken to be check-then-transition. For `children` that means: apply
  `navigationTransition`, and a transition that throws leaves everything as it was.
- The `Kone` collections are not modelled. Their `Equality`, `Hashing` and
  `Order` parameters are replaced by Dafny's built-in equality on configurations.
- The `KoneMutableAsynchronousHub` result is not modelled. The hub is given an
  equality on results (generic.kt:105-108), which may cause it to suppress
  some publications. Any such suppression is not modelled: the model publishes
  on every accepted transition.
- Engine.ChildrenEngine.OnEvent publishes a snapshot of the children map. The
  source hands the live mutable map to `NavigationResult` (generic.kt:104 and 137),
  so a later move changes what an earlier publication shows.
  - Aliasing of the published map is not modelled.
- `publicNavigationStateMapper` (slot, possibility, variants) is modelled as the
  `Public` function of each flavour.
  - `children` as shown takes no such parameter, and the possibility and
    variants flavours pass a `destroyChild` of a different arity.
  - `Public` is a separate function of a published pair (state, children).
    The model does not publish its result: the engine's published value is
    the raw pair. `PublicDefined` and `PublicDefinedIffDeclared` show when
    `Public` is defined on a published pair.
- The slot, possibility and variants hubs differ from the generic hub in two
  ways: they launch observers in a given `CoroutineScope`, and they `joinAll`.
  The model covers all of them with one `Hub.NavigationHub`, whose observable
  effect is the same.
- Wiring the handler that `children`, `launch` and the deferring lifecycles
  subscribe is not modelled. The handler is recorded by its callback number, and
  its body is the separate method `OnEvent` / `OnParentTransition`. That a
  parent's delivery actually triggers the call is not modelled.
- Lifecycle.GuardedLifecycle.Cancel requires the node to be still subscribed.
  Cancelling twice relies on the internals of `KoneGCLinkedList` node removal,
  which are not part of this model.
- Lifecycle.MergeDeferringLifecycle.Launch requires its two parents to be
  distinct objects. Launching with one lifecycle as both parents is not modelled.
- Lifecycle.ChildDeferringLifecycle.Launch and Lifecycle.MergeDeferringLifecycle.Launch
  require the parents to be distinct from the lifecycle itself.
- `Lifecycle.Subscription`'s cancel closure is represented by the node number it
  removes.
- StackNavigation: three of the stack events have assumed behaviour on an empty
  list. The operations involved come from Kone, whose code is not part of this
  model. Every accepted stack is non-empty (`TransitionKeepsNonEmpty`), and
  `childrenStack` refuses an empty initial stack, so none of these cases can
  reach the engine.
  - `Pop` (`dropLast`) is taken to yield an empty list.
  - `ReplaceCurrent` (`removeAt(lastIndex)`) is taken to throw.
  - `UpdateCurrent` (`last()`) is taken to throw.
- The flavour events are total Dafny functions. This covers the slot,
  possibility and variants events, and the update function `f` given to
  `UpdateCurrent`. A user transformation that throws therefore cannot be
  written as one of these events. The engine still covers a throwing
  transition through its `None` path.
- VariantsNavigation.ChildrenVariantsEngine does not check that the initial
  variant is declared, because the source does not check it either. The public
  value's lookup then fails (`Public` returns `None`).
