/** A controller fed a sequence of `mousemove` readings, and what holds over
    every such sequence: the events follow the crossings of the threshold, enter
    and exit alternate, and the smoothed position decays geometrically toward a
    fixed goal. */
module Traces {
  import opened JsValues
  import opened Smoothing
  import opened Config
  import opened MagneticController

  /** The moves handled in order; the events of all moves, in order. */
  function Run(c: Controller, rs: seq<Reading>): (o: Outcome)
    ensures o.next.settings == c.settings
    ensures |rs| == 0 ==> o.next == c && o.events == []
    ensures |rs| > 0 ==> o.next.isEnter == InRange(c.settings, rs[|rs| - 1].root)
    ensures |rs| > 0 ==> o.next.transform == Some(o.next.lerpPos)
    ensures o.next.classes - {ActiveClass(c.settings)} == c.classes - {ActiveClass(c.settings)}
    ensures ActiveInvariant(c) ==> ActiveInvariant(o.next)
    decreases |rs|
  {
    if |rs| == 0 then Outcome(c, [])
    else
      var first := Magnetize(c, rs[0]);
      var rest := Run(first.next, rs[1..]);
      Outcome(rest.next, first.events + rest.events)
  }

  /** Whether each reading is inside the threshold. */
  function Inside(s: Settings, rs: seq<Reading>): (fs: seq<bool>)
    ensures |fs| == |rs|
    decreases |rs|
  {
    if |rs| == 0 then [] else [InRange(s, rs[0].root)] + Inside(s, rs[1..])
  }

  /** Outside-to-inside steps of a flag sequence that starts from `prev`. */
  function Rises(prev: bool, fs: seq<bool>): nat
    decreases |fs|
  {
    if |fs| == 0 then 0 else Bit(!prev && fs[0]) + Rises(fs[0], fs[1..])
  }

  /** Inside-to-outside steps of a flag sequence that starts from `prev`. */
  function Falls(prev: bool, fs: seq<bool>): nat
    decreases |fs|
  {
    if |fs| == 0 then 0 else Bit(prev && !fs[0]) + Falls(fs[0], fs[1..])
  }

  function Trues(fs: seq<bool>): nat
    decreases |fs|
  {
    if |fs| == 0 then 0 else Bit(fs[0]) + Trues(fs[1..])
  }

  /** Over any run, `onEnter` fires once per crossing into range, `onExit` once per
      crossing out of range, and `onUpdate` once per reading in range. */
  lemma {:induction false} RunEvents(c: Controller, rs: seq<Reading>)
    ensures Count(Run(c, rs).events, OnEnter) == Rises(c.isEnter, Inside(c.settings, rs))
    ensures Count(Run(c, rs).events, OnExit) == Falls(c.isEnter, Inside(c.settings, rs))
    ensures Count(Run(c, rs).events, OnUpdate) == Trues(Inside(c.settings, rs))
    decreases |rs|
  {
    if |rs| > 0 {
      var first := Magnetize(c, rs[0]);
      RunEvents(first.next, rs[1..]);
      CountAppend(first.events, Run(first.next, rs[1..]).events, OnEnter);
      CountAppend(first.events, Run(first.next, rs[1..]).events, OnExit);
      CountAppend(first.events, Run(first.next, rs[1..]).events, OnUpdate);
    }
  }

  /** Enters minus exits is the change of the flag over the run. */
  lemma {:induction false} RunBalance(c: Controller, rs: seq<Reading>)
    ensures Count(Run(c, rs).events, OnEnter) - Count(Run(c, rs).events, OnExit)
      == Bit(Run(c, rs).next.isEnter) - Bit(c.isEnter)
    decreases |rs|
  {
    if |rs| > 0 {
      var first := Magnetize(c, rs[0]);
      RunBalance(first.next, rs[1..]);
      CountAppend(first.events, Run(first.next, rs[1..]).events, OnEnter);
      CountAppend(first.events, Run(first.next, rs[1..]).events, OnExit);
    }
  }

  /** From a controller whose pointer is outside, at every point of every run the
      enters exceed the exits by 0 or 1: exactly 1 while the pointer is inside. */
  lemma EnterExitAlternate(c: Controller, rs: seq<Reading>)
    requires !c.isEnter
    ensures var o := Run(c, rs);
      Count(o.events, OnEnter) - Count(o.events, OnExit) == Bit(o.next.isEnter)
  {
    RunBalance(c, rs);
  }

  /** With every reading of a run heading for the same goal `(gx, gy)` and a finite
      start, the smoothed position after `n` moves is `n` lerp steps toward that
      goal. */
  lemma {:induction false} RunFollowsIterate(c: Controller, rs: seq<Reading>, gx: real, gy: real)
    requires c.lerpPos.x.Finite? && c.lerpPos.y.Finite?
    requires forall i :: 0 <= i < |rs| ==> Goal(c.settings, rs[i]) == Pos(Finite(gx), Finite(gy))
    ensures Run(c, rs).next.lerpPos == Pos(
      Finite(Iterate(c.lerpPos.x.v, gx, FractionOf(c.settings.fraction), |rs|)),
      Finite(Iterate(c.lerpPos.y.v, gy, FractionOf(c.settings.fraction), |rs|)))
    decreases |rs|
  {
    if |rs| > 0 {
      var t := FractionOf(c.settings.fraction);
      var first := Magnetize(c, rs[0]);
      var p := first.next.lerpPos;
      assert Goal(c.settings, rs[0]) == Pos(Finite(gx), Finite(gy));
      LerpGap(c.lerpPos.x.v, gx, t);
      LerpGap(c.lerpPos.y.v, gy, t);
      assert p.x == Finite(Lerp(c.lerpPos.x.v, gx, t));
      assert p.y == Finite(Lerp(c.lerpPos.y.v, gy, t));
      assert forall i :: 0 <= i < |rs[1..]| ==> Goal(first.next.settings, rs[1..][i]) == Pos(Finite(gx), Finite(gy)) by {
        forall i | 0 <= i < |rs[1..]| ensures Goal(first.next.settings, rs[1..][i]) == Pos(Finite(gx), Finite(gy)) {
          assert rs[1..][i] == rs[i + 1];
        }
      }
      RunFollowsIterate(first.next, rs[1..], gx, gy);
    }
  }

  /** Release: while every reading is out of range, the smoothed position heads
      for the origin and its distance from it shrinks by `1 - fraction` per move;
      with a fraction below 1 it never reaches the origin exactly. */
  lemma {:induction false} ReleaseDecays(c: Controller, rs: seq<Reading>)
    requires c.lerpPos.x.Finite? && c.lerpPos.y.Finite?
    requires 0.0 <= FractionOf(c.settings.fraction) <= 1.0
    requires forall i :: 0 <= i < |rs| ==> !InRange(c.settings, rs[i].root)
    ensures var p := Run(c, rs).next.lerpPos;
      var t := FractionOf(c.settings.fraction);
      && p.x.Finite? && p.y.Finite?
      && Decayed(p.x.v, c.lerpPos.x.v, t, |rs|)
      && Decayed(p.y.v, c.lerpPos.y.v, t, |rs|)
      && (t < 1.0 && c.lerpPos.x.v != 0.0 ==> p.x.v != 0.0)
      && (t < 1.0 && c.lerpPos.y.v != 0.0 ==> p.y.v != 0.0)
  {
    var t := FractionOf(c.settings.fraction);
    var x0, y0 := c.lerpPos.x.v, c.lerpPos.y.v;
    forall i | 0 <= i < |rs| ensures Goal(c.settings, rs[i]) == Pos(Finite(0.0), Finite(0.0)) {
      assert !InRange(c.settings, rs[i].root);
    }
    RunFollowsIterate(c, rs, 0.0, 0.0);
    var p := Run(c, rs).next.lerpPos;
    assert p.x.v == Iterate(x0, 0.0, t, |rs|) && p.y.v == Iterate(y0, 0.0, t, |rs|);
    DecayToZero(x0, t, |rs|);
    DecayToZero(y0, t, |rs|);
  }

  /** Hold: while the pointer stays in range at the same offset, the smoothed
      position approaches the scaled delta, the gap shrinking by `1 - fraction`
      per move, and the flag stays set. */
  lemma {:induction false} HoldConverges(c: Controller, r: Reading, rs: seq<Reading>)
    requires c.lerpPos.x.Finite? && c.lerpPos.y.Finite? && c.settings.attraction.Defined?
    requires 0.0 <= FractionOf(c.settings.fraction) <= 1.0
    requires InRange(c.settings, r.root)
    requires forall i :: 0 <= i < |rs| ==> rs[i] == r
    ensures var p := Run(c, rs).next.lerpPos;
      var d := CalculateCoordinates(c.settings.attraction, r);
      var t := FractionOf(c.settings.fraction);
      && p.x.Finite? && p.y.Finite?
      && Decayed(p.x.v - d.deltaX.v, c.lerpPos.x.v - d.deltaX.v, t, |rs|)
      && Decayed(p.y.v - d.deltaY.v, c.lerpPos.y.v - d.deltaY.v, t, |rs|)
      && (|rs| > 0 ==> Run(c, rs).next.isEnter)
  {
    var t := FractionOf(c.settings.fraction);
    var d := CalculateCoordinates(c.settings.attraction, r);
    forall i | 0 <= i < |rs| ensures Goal(c.settings, rs[i]) == Pos(d.deltaX, d.deltaY) {
      assert rs[i] == r;
    }
    RunFollowsIterate(c, rs, d.deltaX.v, d.deltaY.v);
    var p := Run(c, rs).next.lerpPos;
    assert p.x.v == Iterate(c.lerpPos.x.v, d.deltaX.v, t, |rs|);
    assert p.y.v == Iterate(c.lerpPos.y.v, d.deltaY.v, t, |rs|);
    IterateDistance(c.lerpPos.x.v, d.deltaX.v, t, |rs|);
    IterateDistance(c.lerpPos.y.v, d.deltaY.v, t, |rs|);
  }
}
