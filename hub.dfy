/**
 * The navigation event hub: observers are appended by `Subscribe`, and
 * `Navigate` hands the event to every observer of the list as it stood when
 * the call began.
 */
module Hub {
  import opened Fanout

  class NavigationHub<E> {
    /** The registered observers, in registration order. */
    var observers: seq<nat>
    /** Every delivery made so far, oldest first. */
    var deliveries: seq<Delivery<E>>

    constructor ()
      ensures observers == [] && deliveries == []
    {
      observers := [];
      deliveries := [];
    }

    method Subscribe(observer: nat)
      modifies this
      ensures observers == old(observers) + [observer]
      ensures deliveries == old(deliveries)
    {
      observers := observers + [observer];
    }

    method Navigate(event: E)
      modifies this
      ensures observers == old(observers)
      ensures deliveries == old(deliveries) + Deliver(old(observers), event)
    {
      var snapshot := observers;
      var i := 0;
      while i < |snapshot|
        invariant 0 <= i <= |snapshot|
        invariant observers == snapshot
        invariant deliveries == old(deliveries) + Deliver(snapshot[..i], event)
      {
        assert snapshot[..i + 1][..i] == snapshot[..i];
        deliveries := deliveries + [Delivery(snapshot[i], event)];
        i := i + 1;
      }
      assert snapshot[..|snapshot|] == snapshot;
    }
  }
}
