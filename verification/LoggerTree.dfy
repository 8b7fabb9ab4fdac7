/** Where install_capture (ui/utils/log_buffer.py) puts the ring buffer on the tree of Python loggers,
  * and how many times a record then reaches it.
  *
  * Loggers are numbered so that a parent comes before its children; logger 0 is the root.
  */
module LoggerTree {

  datatype Logger = Logger(parent: nat, propagate: bool)

  predicate IsTree(loggers: seq<Logger>) {
    0 < |loggers| && forall i :: 0 < i < |loggers| ==> loggers[i].parent < i
  }

  type Tree = t: seq<Logger> | IsTree(t) witness [Logger(0, true)]

  /** The logger where propagation from i ends. */
  function Sink(t: Tree, i: nat): (s: nat)
    requires i < |t|
    ensures s <= i && (s == 0 || !t[s].propagate)
  {
    if i == 0 || !t[i].propagate then i else Sink(t, t[i].parent)
  }

  /** How many times a record logged on i reaches a handler attached to the given loggers. */
  function Deliveries(t: Tree, attached: set<nat>, i: nat): nat
    requires i < |t|
  {
    (if i in attached then 1 else 0)
    + if i == 0 || !t[i].propagate then 0 else Deliveries(t, attached, t[i].parent)
  }

  predicate Known(t: Tree, captured: seq<nat>) {
    forall k :: 0 <= k < |captured| ==> captured[k] < |t|
  }

  function Sinks(t: Tree, captured: seq<nat>): (s: set<nat>)
    requires Known(t, captured)
  {
    set k | 0 <= k < |captured| :: Sink(t, captured[k])
  }

  class Capture {
    /** The loggers that carry the ring buffer handler. */
    var attached: set<nat>

    constructor ()
      ensures attached == {}
    {
      attached := {};
    }

    method Install(t: Tree, captured: seq<nat>)
      requires Known(t, captured)
      modifies this
      ensures attached == old(attached) + {0} + Sinks(t, captured)
    {
      if 0 !in attached { attached := attached + {0}; }
      for i := 0 to |captured|
        invariant attached == old(attached) + {0} + Sinks(t, captured[..i])
      {
        assert captured[..i+1] == captured[..i] + [captured[i]];
        ghost var reached := Sinks(t, captured[..i]);
        assert Sinks(t, captured[..i+1]) == reached + {Sink(t, captured[i])};
        if captured[i] != 0 {
          var sink := captured[i];
          while t[sink].propagate && sink != 0
            invariant 0 <= sink < |t| && Sink(t, sink) == Sink(t, captured[i])
            decreases sink
          {
            sink := t[sink].parent;
          }
          if sink != 0 && sink !in attached {
            attached := attached + {sink};
          }
        }
      }
      assert captured[..|captured|] == captured;
    }
  }

  /** With the handler on the root and on the sinks of captured loggers only, every record reaches it
    * at most once, and exactly once iff propagation from its logger ends where a captured logger's
    * does, or at the root. */
  lemma {:induction false} CapturedOnce(t: Tree, captured: seq<nat>, i: nat)
    requires Known(t, captured)
    requires i < |t|
    ensures Deliveries(t, {0} + Sinks(t, captured), i) == if Sink(t, i) in {0} + Sinks(t, captured) then 1 else 0
  {
    if i != 0 && t[i].propagate {
      CapturedOnce(t, captured, t[i].parent);
    }
  }

  lemma CapturedLoggerDeliversOnce(t: Tree, captured: seq<nat>, i: nat)
    requires Known(t, captured)
    requires i in captured
    ensures Deliveries(t, {0} + Sinks(t, captured), i) == 1
  {
    CapturedOnce(t, captured, i);
  }

  /** Installing twice is installing once. */
  method InstallTwice(t: Tree, captured: seq<nat>) returns (c: Capture)
    requires Known(t, captured)
    ensures c.attached == {0} + Sinks(t, captured)
  {
    c := new Capture();
    c.Install(t, captured);
    c.Install(t, captured);
  }

  // ----- handlers placed anywhere ------------------------------------------------------------------

  /** a is i or one of the loggers that a record logged on i propagates to. */
  predicate OnChain(t: Tree, i: nat, a: nat)
    requires i < |t|
  {
    a == i || (i != 0 && t[i].propagate && OnChain(t, t[i].parent, a))
  }

  function Carriers(t: Tree, attached: set<nat>, i: nat): set<nat>
    requires i < |t|
  {
    set a | a in attached && OnChain(t, i, a)
  }

  lemma {:induction false} ChainGoesUp(t: Tree, i: nat, a: nat)
    requires i < |t| && OnChain(t, i, a)
    ensures a <= i
  {
    if a != i { ChainGoesUp(t, t[i].parent, a); }
  }

  /** A record is delivered once by every handler on its chain. */
  lemma {:induction false} DeliveriesAreCarriers(t: Tree, attached: set<nat>, i: nat)
    requires i < |t|
    ensures Deliveries(t, attached, i) == |Carriers(t, attached, i)|
  {
    var own := if i in attached then {i} else {};
    if i == 0 || !t[i].propagate {
      assert Carriers(t, attached, i) == own;
    } else {
      var above := Carriers(t, attached, t[i].parent);
      DeliveriesAreCarriers(t, attached, t[i].parent);
      if i in above { ChainGoesUp(t, t[i].parent, i); }
      assert Carriers(t, attached, i) == own + above && own !! above;
    }
  }

  /** a is the one logger on the chain of i that carries the handler. */
  predicate OnlyCarrier(t: Tree, attached: set<nat>, i: nat, a: nat)
    requires i < |t|
  {
    a in attached && OnChain(t, i, a) && forall b :: b in attached && b != a ==> !OnChain(t, i, b)
  }

  lemma DeliveredOnceIff(t: Tree, attached: set<nat>, i: nat)
    requires i < |t|
    ensures Deliveries(t, attached, i) == 1 <==> exists a :: OnlyCarrier(t, attached, i, a)
    ensures Deliveries(t, attached, i) == 0 <==> forall a :: a in attached ==> !OnChain(t, i, a)
  {
    hide OnChain, Deliveries;
    DeliveriesAreCarriers(t, attached, i);
    var carriers := Carriers(t, attached, i);
    assert forall b: nat :: b in carriers <==> b in attached && OnChain(t, i, b);
    if |carriers| == 1 {
      var a: nat :| a in carriers;
      Singleton(carriers, a);
      assert OnlyCarrier(t, attached, i, a);
    }
    if exists a: nat :: OnlyCarrier(t, attached, i, a) {
      var a: nat :| OnlyCarrier(t, attached, i, a);
      assert carriers == {a};
    }
    if |carriers| != 0 {
      var a: nat :| a in carriers;
    } else {
      assert carriers == {};
    }
  }

  lemma Singleton(s: set<nat>, a: nat)
    requires a in s && |s| == 1
    ensures s == {a}
  {
    assert |s - {a}| == 0;
  }

  /** For handlers placed anywhere: nothing is delivered twice iff no handler is on the propagation chain
    * of another. */
  lemma AtMostOnceIff(t: Tree, attached: set<nat>)
    requires forall a :: a in attached ==> a < |t|
    ensures (forall i :: 0 <= i < |t| ==> Deliveries(t, attached, i) <= 1) <==>
            (forall a, b :: a in attached && b in attached && a != b ==> !OnChain(t, a, b))
  {
    hide Deliveries;
    if a, b :| a in attached && b in attached && a != b && OnChain(t, a, b) {
      DeliveriesAreCarriers(t, attached, a);
      TwoMembers(Carriers(t, attached, a), a, b);
    } else {
      forall i: nat | i < |t| ensures Deliveries(t, attached, i) <= 1 {
        DeliveriesAreCarriers(t, attached, i);
        if |Carriers(t, attached, i)| > 1 {
          var a, b := TwoOf(Carriers(t, attached, i));
          ChainIsLinear(t, i, a, b);
        }
      }
    }
  }

  lemma TwoMembers(s: set<nat>, a: nat, b: nat)
    requires a in s && b in s && a != b
    ensures |s| >= 2
  {
    assert {a, b} <= s;
    assert |s - {a, b}| == |s| - |{a, b}|;
  }

  lemma TwoOf(s: set<nat>) returns (a: nat, b: nat)
    requires |s| > 1
    ensures a in s && b in s && a != b
  {
    a :| a in s;
    assert |s - {a}| == |s| - 1;
    b :| b in s - {a};
  }

  /** Of two loggers on a chain one is on the chain of the other. */
  lemma {:induction false} ChainIsLinear(t: Tree, i: nat, a: nat, b: nat)
    requires i < |t| && OnChain(t, i, a) && OnChain(t, i, b)
    ensures a < |t| && b < |t| && (OnChain(t, a, b) || OnChain(t, b, a))
  {
    ChainGoesUp(t, i, a);
    ChainGoesUp(t, i, b);
    if a != i && b != i { ChainIsLinear(t, t[i].parent, a, b); }
  }

  // ----- propagate flags that change after the installation ------------------------------------------

  /** The same loggers, with any flags. */
  predicate SameParents(t: Tree, t': Tree) {
    |t| == |t'| && forall i :: 0 <= i < |t| ==> t[i].parent == t'[i].parent
  }

  /** Only where propagation ended at the installation can the handler be. */
  lemma AttachedAreSinks(t: Tree, captured: seq<nat>, a: nat)
    requires Known(t, captured) && a in {0} + Sinks(t, captured)
    ensures a < |t| && (a == 0 || !t[a].propagate)
  {
  }

  /** On the way from i up to where its chain ended, the flags are as they were or the new chain ends
    * earlier, where no handler is. */
  lemma {:induction false} UpToTheOldSink(t: Tree, t': Tree, captured: seq<nat>, i: nat)
    requires Known(t, captured) && SameParents(t, t') && i < |t|
    ensures var attached, old_ := {0} + Sinks(t, captured), Sink(t, i);
            if Sink(t', i) > old_ then Deliveries(t', attached, i) == 0
            else Sink(t', i) == Sink(t', old_) && Deliveries(t', attached, i) == Deliveries(t', attached, old_)
  {
    if i != 0 && t[i].propagate {
      if i in {0} + Sinks(t, captured) { AttachedAreSinks(t, captured, i); }
      if t'[i].propagate {
        UpToTheOldSink(t, t', captured, t[i].parent);
      } else {
        SinkAbove(t, t[i].parent);
      }
    }
  }

  lemma {:induction false} SinkAbove(t: Tree, i: nat)
    requires i < |t|
    ensures Sink(t, i) <= i
  {
  }

  /** Any set of flags may have changed since the installation.  A captured logger is no longer captured iff
    * its propagation now ends below where it ended, and is captured exactly once iff it ends where it did, or
    * above and no other logger with the handler is on the chain from there.  So where the handler is at the new
    * end too, as at the root, it is captured once iff the end has not moved. */
  lemma CaptureAfterChanges(t: Tree, t': Tree, captured: seq<nat>, i: nat)
    requires Known(t, captured) && SameParents(t, t') && i in captured
    ensures var attached, before, now := {0} + Sinks(t, captured), Sink(t, i), Sink(t', i);
            && (Deliveries(t', attached, i) == 0 <==> now > before)
            && (Deliveries(t', attached, i) == 1 <==>
                  now == before || (now < before && forall a :: a in attached && a != before ==> !OnChain(t', before, a)))
            && (now in attached ==> (Deliveries(t', attached, i) == 1 <==> now == before))
  {
    var attached, before, now := {0} + Sinks(t, captured), Sink(t, i), Sink(t', i);
    UpToTheOldSink(t, t', captured, i);
    if now <= before {
      assert before in attached && OnChain(t', before, before);
      DeliveredOnceIff(t', attached, before);
      SinkIsOnChain(t', before);
      if Deliveries(t', attached, before) == 1 {
        var a: nat :| OnlyCarrier(t', attached, before, a);
        assert a == before;
      }
      if now == before {
        assert Deliveries(t', attached, before) == 1;
      } else if forall a :: a in attached && a != before ==> !OnChain(t', before, a) {
        assert OnlyCarrier(t', attached, before, before);
      }
    }
  }

  lemma {:induction false} SinkIsOnChain(t: Tree, i: nat)
    requires i < |t|
    ensures OnChain(t, i, Sink(t, i))
  {
    if i != 0 && t[i].propagate { SinkIsOnChain(t, t[i].parent); }
  }

  /** So the docstring's promise still holds after any changes iff that is so for every captured logger. */
  lemma CapturedExactlyOnceIff(t: Tree, t': Tree, captured: seq<nat>)
    requires Known(t, captured) && SameParents(t, t')
    ensures var attached := {0} + Sinks(t, captured);
            (forall i :: i in captured ==> Deliveries(t', attached, i) == 1) <==>
            (forall i :: i in captured ==>
               Sink(t', i) <= Sink(t, i)
               && (Sink(t', i) == Sink(t, i) || forall a :: a in attached && a != Sink(t, i) ==> !OnChain(t', Sink(t, i), a)))
  {
    hide Deliveries, OnChain;
    forall i | i in captured
      ensures Deliveries(t', {0} + Sinks(t, captured), i) == 1 <==>
              Sink(t', i) <= Sink(t, i)
              && (Sink(t', i) == Sink(t, i)
                  || forall a :: a in {0} + Sinks(t, captured) && a != Sink(t, i) ==> !OnChain(t', Sink(t, i), a))
    {
      CaptureAfterChanges(t, t', captured, i);
    }
  }

  function WithFlag(t: Tree, i: nat, propagate: bool): (t': Tree)
    requires i < |t|
    ensures |t'| == |t|
  {
    t[i := Logger(t[i].parent, propagate)]
  }

  /** When one captured logger changes its flag: turned on, it is captured twice, unless its parent's chain ends
    * at a logger without the handler, which is never the root; turned off, it is no longer captured. */
  lemma FlagChangedIff(t: Tree, captured: seq<nat>, i: nat)
    requires Known(t, captured) && 0 < i && i in captured
    ensures var attached := {0} + Sinks(t, captured);
            && (!t[i].propagate ==>
                  Deliveries(WithFlag(t, i, true), attached, i) == if Sink(t, t[i].parent) in attached then 2 else 1)
            && (t[i].propagate ==> Deliveries(WithFlag(t, i, false), attached, i) == 0)
  {
    if t[i].propagate {
      SinkAbove(t, t[i].parent);
      CaptureAfterChanges(t, WithFlag(t, i, false), captured, i);
    } else {
      assert Sink(t, i) == i;
      CapturedOnce(t, captured, t[i].parent);
      DeliveriesBelow(t, WithFlag(t, i, true), {0} + Sinks(t, captured), t[i].parent, i);
    }
  }

  lemma {:induction false} DeliveriesBelow(t: Tree, t': Tree, attached: set<nat>, k: nat, i: nat)
    requires |t| == |t'| && k < i < |t|
    requires forall j :: 0 <= j < i ==> t'[j] == t[j]
    ensures Deliveries(t', attached, k) == Deliveries(t, attached, k)
  {
    if k != 0 && t[k].propagate {
      DeliveriesBelow(t, t', attached, t[k].parent, i);
    }
  }

  /** Both failures are real: a captured logger under the root is captured twice when it starts to
    * propagate, and not at all when it stops. */
  lemma FlagsThatBreakCapture()
    ensures var on, off := [Logger(0, true), Logger(0, true)], [Logger(0, true), Logger(0, false)];
            && IsTree(on) && IsTree(off)
            && Deliveries(on, {0} + Sinks(off, [1]), 1) == 2
            && Deliveries(off, {0} + Sinks(on, [1]), 1) == 0
  {
    var on, off := [Logger(0, true), Logger(0, true)], [Logger(0, true), Logger(0, false)];
    assert WithFlag(off, 1, true) == on && WithFlag(on, 1, false) == off;
    FlagChangedIff(off, [1], 1);
    FlagChangedIff(on, [1], 1);
    assert Sink(on, 1) == Sink(on, 0) == 0;
  }

  /** The one carrier need not be where the chain ends now: when a captured logger starts to propagate to a
    * parent that has stopped, the record is captured once, below a sink without the handler. */
  lemma CarrierBelowTheSink()
    ensures var t := [Logger(0, true), Logger(0, true), Logger(1, false)];
            var t' := [Logger(0, true), Logger(0, false), Logger(1, true)];
            && IsTree(t) && IsTree(t')
            && Deliveries(t', {0} + Sinks(t, [2]), 2) == 1
            && Sink(t', 2) !in {0} + Sinks(t, [2])
  {
    var t := [Logger(0, true), Logger(0, true), Logger(1, false)];
    var t' := [Logger(0, true), Logger(0, false), Logger(1, true)];
    assert Sinks(t, [2]) == {Sink(t, [2][0])};
    assert Sink(t', 2) == Sink(t', 1) == 1;
    assert Deliveries(t', {0, 2}, 1) == 0;
  }
}
