/** One bound controller: the geometry of a pointer reading, the in-range test,
    the smoothed position and the edge-triggered enter / update / exit events,
    taken one `mousemove` at a time. */
module MagneticController {
  import opened JsValues
  import opened RealArith
  import opened Smoothing
  import opened Config

  /** The class every bound element carries. */
  const IdentificationClass: string := "is-magnetized"

  /** The element's box as the controller reads it on each move:
      `getBoundingClientRect().left/top` and `offsetWidth/offsetHeight`. */
  datatype Layout = Layout(left: real, top: real, offsetWidth: real, offsetHeight: real)

  /** One `mousemove`: the pointer position, the element's box at that moment, and
      the answer `Math.sqrt` gives for the squared offset (a host call, so it is
      an input; `RootIsExact` says when it is the true square root). */
  datatype Reading = Reading(clientX: real, clientY: real, layout: Layout, root: real)

  /** The record handed to the hooks. */
  datatype MagneticData = MagneticData(deltaX: Num, deltaY: Num, distance: real)

  datatype Kind = OnEnter | OnUpdate | OnExit

  /** One hook call with its argument. */
  datatype Event = Event(kind: Kind, data: MagneticData)

  /** The smoothed translation; a coordinate is NaN once a NaN has been fed to it. */
  datatype Pos = Pos(x: Num, y: Num)

  const Origin: Pos := Pos(Finite(0.0), Finite(0.0))

  /** A controller's state together with the parts of its element it writes:
      `isEnter`, `lerpPos`, the element's class list and its `style.transform`
      (`None` until the first move). */
  datatype Controller = Controller(
    settings: Settings,
    isEnter: bool,
    lerpPos: Pos,
    classes: set<string>,
    transform: Option<Pos>)

  /** The state after one move and the hooks it called, in order. */
  datatype Outcome = Outcome(next: Controller, events: seq<Event>)

  /** The token `classList.add(settings.activeClass)` adds: an `undefined`
      class name is stringified. */
  function ActiveClass(s: Settings): string
  {
    match s.activeClass
    case Defined(name) => name
    case Undefined => "undefined"
  }

  function CenterX(r: Reading): real
  {
    r.layout.left + r.layout.offsetWidth / 2.0
  }

  function CenterY(r: Reading): real
  {
    r.layout.top + r.layout.offsetHeight / 2.0
  }

  /** The pointer's offset from the element's centre. */
  function OffsetX(r: Reading): real
  {
    r.clientX - CenterX(r)
  }

  function OffsetY(r: Reading): real
  {
    r.clientY - CenterY(r)
  }

  function SquaredOffset(r: Reading): real
  {
    OffsetX(r) * OffsetX(r) + OffsetY(r) * OffsetY(r)
  }

  /** The host's square root is the true non-negative root of the squared offset. */
  predicate RootIsExact(r: Reading)
  {
    0.0 <= r.root && r.root * r.root == SquaredOffset(r)
  }

  /** The hooks' record: the pointer's offset from the centre scaled by the
      attraction, and the pointer's Euclidean distance from the centre. */
  function CalculateCoordinates(attraction: Prop<real>, r: Reading): (d: MagneticData)
    ensures d.distance == r.root
    ensures attraction.Undefined? ==> d.deltaX.NaN? && d.deltaY.NaN?
    ensures attraction.Defined? ==>
      d.deltaX.Finite? && d.deltaY.Finite?
      && d.deltaX.v + CenterX(r) * attraction.value == r.clientX * attraction.value
      && d.deltaY.v + CenterY(r) * attraction.value == r.clientY * attraction.value
  {
    MagneticData(
      Times(Finite(OffsetX(r)), ToNumber(attraction)),
      Times(Finite(OffsetY(r)), ToNumber(attraction)),
      r.root)
  }

  /** The threshold test `data.distance < settings.distance`: strict, and never
      true against an `undefined` distance, which compares as NaN. */
  predicate InRange(s: Settings, distance: real)
  {
    Less(Finite(distance), ToNumber(s.distance))
  }

  /** `p'` is one smoothing step from `p` toward `goal` with fraction `f`: NaN in,
      NaN out; otherwise the remaining gap is the old gap times `1 - f`. */
  predicate StepToward(p: Num, p': Num, goal: Num, f: Prop<real>)
  {
    && (p'.Finite? <==> p.Finite? && goal.Finite?)
    && (p'.Finite? ==> p'.v - goal.v == (p.v - goal.v) * (1.0 - FractionOf(f)))
  }

  /** Both coordinates of the smoothed position take one step toward the goal. */
  function AnimateButton(pos: Pos, endX: Num, endY: Num, fraction: Prop<real>): (p: Pos)
    ensures StepToward(pos.x, p.x, endX, fraction)
    ensures StepToward(pos.y, p.y, endY, fraction)
    ensures 0.0 <= FractionOf(fraction) <= 1.0 ==>
      (p.x.Finite? ==> Between(p.x.v, pos.x.v, endX.v))
      && (p.y.Finite? ==> Between(p.y.v, pos.y.v, endY.v))
  {
    Pos(LerpNum(pos.x, endX, fraction), LerpNum(pos.y, endY, fraction))
  }

  /** Where the smoothed position heads on a move: the scaled delta when the
      pointer is in range, the origin otherwise. */
  function Goal(s: Settings, r: Reading): Pos
  {
    var d := CalculateCoordinates(s.attraction, r);
    if InRange(s, d.distance) then Pos(d.deltaX, d.deltaY) else Origin
  }

  /** Number of events of kind `k`. */
  function Count(es: seq<Event>, k: Kind): nat
  {
    if |es| == 0 then 0 else (if es[0].kind == k then 1 else 0) + Count(es[1..], k)
  }

  /** Counting distributes over concatenation. */
  lemma {:induction false} CountAppend(a: seq<Event>, b: seq<Event>, k: Kind)
    ensures Count(a + b, k) == Count(a, k) + Count(b, k)
  {
    if |a| > 0 {
      assert (a + b)[1..] == a[1..] + b;
      CountAppend(a[1..], b, k);
    } else {
      assert a + b == b;
    }
  }

  function Bit(b: bool): int
  {
    if b then 1 else 0
  }

  /** The active class is on the element exactly while the pointer is inside. */
  predicate ActiveInvariant(c: Controller)
  {
    ActiveClass(c.settings) in c.classes <==> c.isEnter
  }

  /** One `mousemove` handled by `magnetize`. */
  function Magnetize(c: Controller, r: Reading): (o: Outcome)
    ensures o.next.settings == c.settings
    ensures o.next.isEnter == InRange(c.settings, r.root)
    // the hooks see the raw sample, never the smoothed position
    ensures forall i :: 0 <= i < |o.events| ==>
      o.events[i].data == CalculateCoordinates(c.settings.attraction, r)
    // edge-triggered enter and exit, an update on every move inside
    ensures Count(o.events, OnEnter) == Bit(!c.isEnter && o.next.isEnter)
    ensures Count(o.events, OnExit) == Bit(c.isEnter && !o.next.isEnter)
    ensures Count(o.events, OnUpdate) == Bit(o.next.isEnter)
    ensures |o.events| == Count(o.events, OnEnter) + Count(o.events, OnUpdate) + Count(o.events, OnExit)
    ensures o.next.isEnter ==> o.events[|o.events| - 1].kind == OnUpdate
    // one smoothing step toward the goal, written to the transform
    ensures StepToward(c.lerpPos.x, o.next.lerpPos.x, Goal(c.settings, r).x, c.settings.fraction)
    ensures StepToward(c.lerpPos.y, o.next.lerpPos.y, Goal(c.settings, r).y, c.settings.fraction)
    ensures o.next.transform == Some(o.next.lerpPos)
    // only the active class is touched, and it tracks the flag
    ensures o.next.classes - {ActiveClass(c.settings)} == c.classes - {ActiveClass(c.settings)}
    ensures o.next.isEnter && !c.isEnter ==> ActiveClass(c.settings) in o.next.classes
    ensures !o.next.isEnter && c.isEnter ==> ActiveClass(c.settings) !in o.next.classes
    ensures o.next.isEnter == c.isEnter ==> o.next.classes == c.classes
    ensures ActiveInvariant(c) ==> ActiveInvariant(o.next)
  {
    var data := CalculateCoordinates(c.settings.attraction, r);
    var active := ActiveClass(c.settings);
    if InRange(c.settings, data.distance) then
      var pos := AnimateButton(c.lerpPos, data.deltaX, data.deltaY, c.settings.fraction);
      var moved := c.(lerpPos := pos, transform := Some(pos));
      if !c.isEnter then
        var events := [Event(OnEnter, data), Event(OnUpdate, data)];
        CountAppend([Event(OnEnter, data)], [Event(OnUpdate, data)], OnEnter);
        CountAppend([Event(OnEnter, data)], [Event(OnUpdate, data)], OnUpdate);
        CountAppend([Event(OnEnter, data)], [Event(OnUpdate, data)], OnExit);
        Outcome(moved.(isEnter := true, classes := c.classes + {active}), events)
      else
        Outcome(moved, [Event(OnUpdate, data)])
    else
      var pos := AnimateButton(c.lerpPos, Finite(0.0), Finite(0.0), c.settings.fraction);
      var moved := c.(lerpPos := pos, transform := Some(pos));
      if c.isEnter then
        Outcome(moved.(isEnter := false, classes := c.classes - {active}), [Event(OnExit, data)])
      else
        Outcome(moved, [])
  }

  /** With an exact square root and a defined threshold `D`, the test on the
      rooted distance is the test on squares: in range exactly when `D` is
      positive and the squared offset is below `D * D`. */
  lemma ThresholdIsSquaredTest(s: Settings, r: Reading)
    requires RootIsExact(r) && s.distance.Defined?
    ensures InRange(s, r.root) <==>
      0.0 < s.distance.value && SquaredOffset(r) < s.distance.value * s.distance.value
  {
    var d := s.distance.value;
    if 0.0 < d {
      SquareLess(r.root, d);
    }
  }

  /** An exact root lies in any non-negative bracket whose squares enclose the
      squared offset. */
  lemma RootBracket(r: Reading, lo: real, hi: real)
    requires RootIsExact(r) && 0.0 <= lo && 0.0 <= hi
    requires lo * lo <= SquaredOffset(r) <= hi * hi
    ensures lo <= r.root <= hi
  {
    SquareLess(r.root, lo);
    SquareLess(hi, r.root);
  }

  /** An `undefined` threshold keeps every pointer position out of range, from
      any state: the flag ends clear and neither `onEnter` nor `onUpdate` fires. */
  lemma UndefinedDistanceNeverInRange(c: Controller, r: Reading)
    requires c.settings.distance.Undefined?
    ensures !InRange(c.settings, r.root)
    ensures var o := Magnetize(c, r);
      !o.next.isEnter && Count(o.events, OnEnter) == 0 && Count(o.events, OnUpdate) == 0
  {
  }

  /** The hooks' record depends on the settings and the reading only: neither the
      flag, nor the smoothed position, nor the classes change it. */
  lemma PayloadIgnoresState(c1: Controller, c2: Controller, r: Reading)
    requires c1.settings == c2.settings
    ensures forall i, j :: 0 <= i < |Magnetize(c1, r).events| && 0 <= j < |Magnetize(c2, r).events| ==>
      Magnetize(c1, r).events[i].data == Magnetize(c2, r).events[j].data
  {
  }

  /** For an attraction in (0, 1] the delta points from the centre toward the
      pointer on each axis and is no longer than the pointer's offset. */
  lemma DeltaPointsAtPointer(a: real, r: Reading)
    requires 0.0 < a <= 1.0
    ensures var d := CalculateCoordinates(Defined(a), r);
      && (0.0 < OffsetX(r) ==> 0.0 < d.deltaX.v) && (OffsetX(r) < 0.0 ==> d.deltaX.v < 0.0)
      && (0.0 < OffsetY(r) ==> 0.0 < d.deltaY.v) && (OffsetY(r) < 0.0 ==> d.deltaY.v < 0.0)
      && Abs(d.deltaX.v) <= Abs(OffsetX(r)) && Abs(d.deltaY.v) <= Abs(OffsetY(r))
  {
    var d := CalculateCoordinates(Defined(a), r);
    assert d.deltaX.v == OffsetX(r) * a && d.deltaY.v == OffsetY(r) * a;
    StrictSign(OffsetX(r), a);
    StrictSign(OffsetY(r), a);
    ContractStep(OffsetX(r), d.deltaX.v, a);
    ContractStep(OffsetY(r), d.deltaY.v, a);
  }

  /** On one axis, scaling an offset by a larger non-negative attraction gives a
      larger magnitude. */
  lemma ScaledOffsetGrows(o: real, a1: real, a2: real)
    requires 0.0 <= a1 <= a2
    ensures Abs(o * a1) <= Abs(o * a2)
  {
    AbsOfScaled(o * a1, o, a1);
    AbsOfScaled(o * a2, o, a2);
    MulMonotone(Abs(o), a1, a2);
  }

  /** The attraction's polarity: 0 gives no pull, 1 gives the pointer's full
      offset, and a larger non-negative attraction pulls at least as far. */
  lemma AttractionPolarity(r: Reading, a1: real, a2: real)
    requires 0.0 <= a1 <= a2
    ensures var d := CalculateCoordinates(Defined(0.0), r);
      d.deltaX == Finite(0.0) && d.deltaY == Finite(0.0)
    ensures var d := CalculateCoordinates(Defined(1.0), r);
      d.deltaX == Finite(OffsetX(r)) && d.deltaY == Finite(OffsetY(r))
    ensures var d1, d2 := CalculateCoordinates(Defined(a1), r), CalculateCoordinates(Defined(a2), r);
      Abs(d1.deltaX.v) <= Abs(d2.deltaX.v) && Abs(d1.deltaY.v) <= Abs(d2.deltaY.v)
  {
    var ox, oy := OffsetX(r), OffsetY(r);
    var d1, d2 := CalculateCoordinates(Defined(a1), r), CalculateCoordinates(Defined(a2), r);
    assert d1.deltaX.v == ox * a1 && d2.deltaX.v == ox * a2;
    assert d1.deltaY.v == oy * a1 && d2.deltaY.v == oy * a2;
    ScaledOffsetGrows(ox, a1, a2);
    ScaledOffsetGrows(oy, a1, a2);
  }

  /** The state right after binding: identification class added, pointer
      outside, position at the origin, no transform written yet. */
  function Bound(s: Settings, classes: set<string>): (c: Controller)
    ensures IdentificationClass in c.classes && classes <= c.classes
    ensures c.classes - {IdentificationClass} == classes - {IdentificationClass}
    ensures !c.isEnter && c.lerpPos == Origin && c.transform.None? && c.settings == s
    ensures ActiveClass(s) !in classes && ActiveClass(s) != IdentificationClass ==> ActiveInvariant(c)
  {
    Controller(s, false, Origin, classes + {IdentificationClass}, None)
  }
}
