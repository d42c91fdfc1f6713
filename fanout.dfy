/**
 * Snapshot fan-out: every hub and every lifecycle hands one event to each
 * callback of a snapshot of its callback list. Callbacks are opaque and are
 * named by numbers; a delivery records which callback received which event.
 */
module Fanout {

  datatype Delivery<E> = Delivery(callback: nat, event: E)

  /** The deliveries of one publication of `e` to the callbacks `snapshot`. */
  function Deliver<E>(snapshot: seq<nat>, e: E): (r: seq<Delivery<E>>)
    ensures |r| == |snapshot|
    ensures forall i :: 0 <= i < |r| ==> r[i] == Delivery(snapshot[i], e)
  {
    if |snapshot| == 0 then []
    else Deliver(snapshot[..|snapshot| - 1], e) + [Delivery(snapshot[|snapshot| - 1], e)]
  }

  /** How many times callback `cb` occurs in `s`. */
  function Count(s: seq<nat>, cb: nat): nat
  {
    if |s| == 0 then 0
    else Count(s[..|s| - 1], cb) + (if s[|s| - 1] == cb then 1 else 0)
  }

  /** How many deliveries callback `cb` receives in `ds`. */
  function Received<E>(ds: seq<Delivery<E>>, cb: nat): nat
  {
    if |ds| == 0 then 0
    else Received(ds[..|ds| - 1], cb) + (if ds[|ds| - 1].callback == cb then 1 else 0)
  }

  /** A publication reaches each registration exactly once: a callback
      registered k times receives the event k times, and one that is not in
      the snapshot receives nothing. */
  lemma {:induction false} DeliverOncePerRegistration<E>(snapshot: seq<nat>, e: E, cb: nat)
    ensures Received(Deliver(snapshot, e), cb) == Count(snapshot, cb)
    decreases |snapshot|
  {
    if |snapshot| > 0 {
      var n := |snapshot| - 1;
      var r := Deliver(snapshot, e);
      assert r[..n] == Deliver(snapshot[..n], e);
      DeliverOncePerRegistration(snapshot[..n], e, cb);
    }
  }
}
