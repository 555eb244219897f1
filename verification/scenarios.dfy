/** The library's own test scenarios, replayed on the model. The tests mock
    only the element's bounding rectangle, at (100, 100); they never set
    `offsetWidth` or `offsetHeight`, which the test environment's DOM, having no
    layout, reports as 0. So the centre the code computes is (100, 100), not the
    (150, 125) the tests' comments assume, and the distances below are measured
    from there. The square root of each move is left to the host: a scenario
    only asks that it lie in a bracket around the true root, and the
    `...Brackets` lemmas show that an exact root does. */
module Scenarios {
  import opened JsValues
  import opened Config
  import opened MagneticController
  import opened Traces

  /** The box the tests' element has: the mocked rectangle, zero offset size. */
  const TestBox: Layout := Layout(100.0, 100.0, 0.0, 0.0)

  /** A move to `(x, y)` over the test box whose reported distance lies in `[lo, hi]`. */
  predicate At(r: Reading, x: real, y: real, lo: real, hi: real)
  {
    r.clientX == x && r.clientY == y && r.layout == TestBox && lo <= r.root <= hi
  }

  /** A move to `(x, y)` over the test box whose reported distance is the exact root. */
  predicate ExactAt(r: Reading, x: real, y: real)
  {
    r.clientX == x && r.clientY == y && r.layout == TestBox && RootIsExact(r)
  }

  function Kinds(es: seq<Event>): seq<Kind>
  {
    seq(|es|, i requires 0 <= i < |es| => es[i].kind)
  }

  const NoData: DataAttributes := DataAttributes(None, None, None)

  /** Callbacks: with distance 100, a move to (160, 130) (distance sqrt 4500)
      calls `onEnter` then `onUpdate`; a move to (165, 135) (sqrt 5450) calls
      `onUpdate` only; a move to (300, 300) (sqrt 80000) calls `onExit`. */
  lemma CallbacksScenario(r1: Reading, r2: Reading, r3: Reading)
    requires At(r1, 160.0, 130.0, 67.0, 68.0)
    requires At(r2, 165.0, 135.0, 73.0, 74.0)
    requires At(r3, 300.0, 300.0, 282.0, 283.0)
    ensures var s := Resolve(NoOptions.(distance := Present(100.0)), NoData);
      var c0 := Bound(s, {});
      var o1 := Magnetize(c0, r1);
      var o2 := Magnetize(o1.next, r2);
      var o3 := Magnetize(o2.next, r3);
      && Kinds(o1.events) == [OnEnter, OnUpdate]
      && Kinds(o2.events) == [OnUpdate]
      && Kinds(o3.events) == [OnExit]
      && Run(c0, [r1, r2, r3]).events == o1.events + o2.events + o3.events
  {
    var s := Resolve(NoOptions.(distance := Present(100.0)), NoData);
    assert InRange(s, r1.root) && InRange(s, r2.root) && !InRange(s, r3.root);
    var c0 := Bound(s, {});
    var o1 := Magnetize(c0, r1);
    var o2 := Magnetize(o1.next, r2);
    var o3 := Magnetize(o2.next, r3);
    var d1 := CalculateCoordinates(s.attraction, r1);
    var d2 := CalculateCoordinates(s.attraction, r2);
    var d3 := CalculateCoordinates(s.attraction, r3);
    assert o1.events == [Event(OnEnter, d1), Event(OnUpdate, d1)];
    assert o2.events == [Event(OnUpdate, d2)];
    assert o3.events == [Event(OnExit, d3)];
    assert [r1, r2, r3][1..] == [r2, r3];
    assert [r2, r3][1..] == [r3];
    assert Run(o2.next, [r3]) == Outcome(o3.next, o3.events + []);
  }

  /** The exact roots of the callback moves lie in the brackets above. */
  lemma CallbacksBrackets(r1: Reading, r2: Reading, r3: Reading)
    requires ExactAt(r1, 160.0, 130.0) && ExactAt(r2, 165.0, 135.0) && ExactAt(r3, 300.0, 300.0)
    ensures At(r1, 160.0, 130.0, 67.0, 68.0)
    ensures At(r2, 165.0, 135.0, 73.0, 74.0)
    ensures At(r3, 300.0, 300.0, 282.0, 283.0)
  {
    RootBracket(r1, 67.0, 68.0);
    RootBracket(r2, 73.0, 74.0);
    RootBracket(r3, 282.0, 283.0);
  }

  /** Mouse distance: with distance 100 the active class is on the element after
      a move to (180, 125) (distance sqrt 7025) and off again after a move to
      (300, 125) (sqrt 40625). */
  lemma DistanceScenario(r1: Reading, r2: Reading)
    requires At(r1, 180.0, 125.0, 83.0, 84.0) && At(r2, 300.0, 125.0, 201.0, 202.0)
    ensures var s := Resolve(NoOptions.(distance := Present(100.0)), NoData);
      var c1 := Magnetize(Bound(s, {}), r1).next;
      var c2 := Magnetize(c1, r2).next;
      "magnetizing" in c1.classes && "magnetizing" !in c2.classes
  {
    var s := Resolve(NoOptions.(distance := Present(100.0)), NoData);
    assert ActiveClass(s) == "magnetizing";
    assert InRange(s, r1.root) && !InRange(s, r2.root);
  }

  lemma DistanceBrackets(r1: Reading, r2: Reading)
    requires ExactAt(r1, 180.0, 125.0) && ExactAt(r2, 300.0, 125.0)
    ensures At(r1, 180.0, 125.0, 83.0, 84.0) && At(r2, 300.0, 125.0, 201.0, 202.0)
  {
    RootBracket(r1, 83.0, 84.0);
    RootBracket(r2, 201.0, 202.0);
  }

  /** Data attributes: `data-distance="50"` and `data-attraction="0.8"` switch the
      class on for a move to (140, 120) (distance sqrt 2000) and off for a move
      to (220, 125) (sqrt 15025). */
  lemma DataAttributeMovesScenario(r1: Reading, r2: Reading)
    requires At(r1, 140.0, 120.0, 44.0, 45.0) && At(r2, 220.0, 125.0, 122.0, 123.0)
    ensures var s := Resolve(NoOptions, DataAttributes(Some(50.0), Some(0.8), None));
      var c1 := Magnetize(Bound(s, {}), r1).next;
      var c2 := Magnetize(c1, r2).next;
      "magnetizing" in c1.classes && "magnetizing" !in c2.classes
  {
    var s := Resolve(NoOptions, DataAttributes(Some(50.0), Some(0.8), None));
    assert ActiveClass(s) == "magnetizing";
    assert InRange(s, r1.root) && !InRange(s, r2.root);
  }

  lemma DataAttributeBrackets(r1: Reading, r2: Reading)
    requires ExactAt(r1, 140.0, 120.0) && ExactAt(r2, 220.0, 125.0)
    ensures At(r1, 140.0, 120.0, 44.0, 45.0) && At(r2, 220.0, 125.0, 122.0, 123.0)
  {
    RootBracket(r1, 44.0, 45.0);
    RootBracket(r2, 122.0, 123.0);
  }

  /** Custom options: with distance 300, a move to (150, 125) (distance
      sqrt 3125) puts the custom class `custom-active` on the element. */
  lemma CustomClassScenario(r: Reading)
    requires At(r, 150.0, 125.0, 55.0, 56.0)
    ensures var s := Resolve(Options(Present("custom-active"), Present(0.5), Present(300.0), Absent), NoData);
      "custom-active" in Magnetize(Bound(s, {}), r).next.classes
  {
    var s := Resolve(Options(Present("custom-active"), Present(0.5), Present(300.0), Absent), NoData);
    assert ActiveClass(s) == "custom-active";
    assert InRange(s, r.root);
  }

  lemma CustomClassBrackets(r: Reading)
    requires ExactAt(r, 150.0, 125.0)
    ensures At(r, 150.0, 125.0, 55.0, 56.0)
  {
    RootBracket(r, 55.0, 56.0);
  }

  /** Transform: with attraction 0.5, the default distance 200 and the default
      fraction 0.1, a move to (170, 135) (distance sqrt 6125) translates the
      element by (3.5, 1.75); a move to (400, 400) (sqrt 180000) then heads back
      to the origin, to (3.15, 1.575), within the 10 px the test allows. */
  lemma TransformScenario(r1: Reading, r2: Reading)
    requires At(r1, 170.0, 135.0, 78.0, 79.0) && At(r2, 400.0, 400.0, 424.0, 425.0)
    ensures var s := Resolve(NoOptions.(attraction := Present(0.5)), NoData);
      var c1 := Magnetize(Bound(s, {}), r1).next;
      var c2 := Magnetize(c1, r2).next;
      c1.transform == Some(Pos(Finite(3.5), Finite(1.75)))
      && c2.transform == Some(Pos(Finite(3.15), Finite(1.575)))
  {
    var s := Resolve(NoOptions.(attraction := Present(0.5)), NoData);
    assert InRange(s, r1.root) && !InRange(s, r2.root);
  }

  lemma TransformBrackets(r1: Reading, r2: Reading)
    requires ExactAt(r1, 170.0, 135.0) && ExactAt(r2, 400.0, 400.0)
    ensures At(r1, 170.0, 135.0, 78.0, 79.0) && At(r2, 400.0, 400.0, 424.0, 425.0)
  {
    RootBracket(r1, 78.0, 79.0);
    RootBracket(r2, 424.0, 425.0);
  }
}
