/** The constructor's side of the library: the process-wide registry of
    initialised elements, binding one element, and auto-discovery of every
    `[data-magnetic]` element when no target is given. */
module Registry {
  import opened JsValues
  import opened Config
  import opened MagneticController

  /** The identity of an element (the registry holds element references). */
  type ElementId = nat

  /** An element as the constructor sees it: its identity, whether it carries
      `data-magnetic`, its parsed `data-*` attributes and its class list. */
  datatype Element = Element(id: ElementId, marked: bool, data: DataAttributes, classes: set<string>)

  /** A window `mousemove` listener installed for one element, with the controller
      that handles its moves. */
  datatype Listener = Listener(target: ElementId, controller: Controller)

  /** The registry of initialised elements and the window's listeners in the
      order they were added. */
  datatype World = World(registry: set<ElementId>, listeners: seq<Listener>)

  const Empty: World := World({}, [])

  function Targets(ls: seq<Listener>): set<ElementId>
  {
    set i | 0 <= i < |ls| :: ls[i].target
  }

  function Ids(es: seq<Element>): set<ElementId>
  {
    set i | 0 <= i < |es| :: es[i].id
  }

  /** No element has two listeners. */
  predicate Distinct(ls: seq<Listener>)
  {
    forall i, j :: 0 <= i < j < |ls| ==> ls[i].target != ls[j].target
  }

  /** The registry lists exactly the elements that have a listener, one each. */
  predicate Valid(w: World)
  {
    Targets(w.listeners) == w.registry && Distinct(w.listeners)
  }

  lemma TargetsAppend(ls: seq<Listener>, l: Listener)
    ensures Targets(ls + [l]) == Targets(ls) + {l.target}
  {
    var both := ls + [l];
    forall t | t in Targets(both) ensures t in Targets(ls) + {l.target} {
      var i :| 0 <= i < |both| && both[i].target == t;
      if i < |ls| {
        assert ls[i] == both[i];
      }
    }
    forall t | t in Targets(ls) ensures t in Targets(both) {
      var i :| 0 <= i < |ls| && ls[i].target == t;
      assert both[i] == ls[i];
    }
    assert both[|ls|] == l;
  }

  /** The settings and initial state of the controller bound to `e`. */
  function ControllerFor(e: Element, options: Options): Controller
  {
    Bound(Resolve(options, e.data), e.classes)
  }

  /** `new MagneticButton(e, options)`: a registered element is left alone;
      otherwise the element is registered, one listener is added for it with a
      fresh controller, and that controller's element carries the identification
      class. */
  function Bind(w: World, e: Element, options: Options): (w': World)
    ensures e.id in w.registry ==> w' == w
    ensures e.id !in w.registry ==>
      && w'.registry == w.registry + {e.id}
      && |w'.listeners| == |w.listeners| + 1
      && w'.listeners[..|w.listeners|] == w.listeners
      && w'.listeners[|w.listeners|] == Listener(e.id, ControllerFor(e, options))
      && IdentificationClass in w'.listeners[|w.listeners|].controller.classes
    ensures e.id in w'.registry
    ensures Valid(w) ==> Valid(w')
  {
    if e.id in w.registry then w
    else
      var l := Listener(e.id, ControllerFor(e, options));
      TargetsAppend(w.listeners, l);
      assert (w.listeners + [l])[..|w.listeners|] == w.listeners;
      World(w.registry + {e.id}, w.listeners + [l])
  }

  /** `xs` is `ys` with some entries dropped: same order, each entry used once.
      Matching greedily from the front decides this. */
  predicate SubsequenceOf(xs: seq<Element>, ys: seq<Element>)
    decreases |ys|
  {
    if |xs| == 0 then true
    else if |ys| == 0 then false
    else if xs[0] == ys[0] then SubsequenceOf(xs[1..], ys[1..])
    else SubsequenceOf(xs, ys[1..])
  }

  /** `querySelectorAll('[data-magnetic]')`: the marked elements in document order. */
  function QueryMarked(doc: seq<Element>): (es: seq<Element>)
    ensures forall i :: 0 <= i < |es| ==> es[i].marked && es[i] in doc
    ensures forall i :: 0 <= i < |doc| && doc[i].marked ==> doc[i] in es
    ensures SubsequenceOf(es, doc) && |es| <= |doc|
    decreases |doc|
  {
    if |doc| == 0 then []
    else if doc[0].marked then [doc[0]] + QueryMarked(doc[1..])
    else QueryMarked(doc[1..])
  }

  /** The ids of the marked elements of a document. */
  function MarkedIds(doc: seq<Element>): set<ElementId>
  {
    set i | 0 <= i < |doc| && doc[i].marked :: doc[i].id
  }

  /** `l` is the listener that binding one of `es` with `options` installs. */
  predicate BuiltFrom(l: Listener, es: seq<Element>, options: Options)
  {
    exists e :: e in es && l == Listener(e.id, ControllerFor(e, options))
  }

  /** The `forEach` of auto-discovery: each element not yet registered is bound
      with the options of the discovering call. */
  function BindEach(w: World, es: seq<Element>, options: Options): (w': World)
    ensures w'.registry == w.registry + Ids(es)
    ensures |w.listeners| <= |w'.listeners| && w'.listeners[..|w.listeners|] == w.listeners
    ensures Targets(w'.listeners[|w.listeners|..]) == Ids(es) - w.registry
    ensures forall i :: |w.listeners| <= i < |w'.listeners| ==> BuiltFrom(w'.listeners[i], es, options)
    ensures Valid(w) ==> Valid(w')
    decreases |es|
  {
    if |es| == 0 then
      assert w.listeners[|w.listeners|..] == [];
      w
    else
      var w1 := if es[0].id !in w.registry then Bind(w, es[0], options) else w;
      var w' := BindEach(w1, es[1..], options);
      IdsCons(es);
      SuffixTargets(w.listeners, w1.listeners, w'.listeners);
      assert forall i :: |w.listeners| <= i < |w'.listeners| ==> BuiltFrom(w'.listeners[i], es, options) by {
        forall i | |w.listeners| <= i < |w'.listeners| ensures BuiltFrom(w'.listeners[i], es, options) {
          if i < |w1.listeners| {
            assert w'.listeners[i] == w1.listeners[i];
            assert w1.listeners[i] == Listener(es[0].id, ControllerFor(es[0], options));
          } else {
            var e :| e in es[1..] && w'.listeners[i] == Listener(e.id, ControllerFor(e, options));
            assert e in es;
          }
        }
      }
      w'
  }

  lemma IdsCons(es: seq<Element>)
    requires |es| > 0
    ensures Ids(es) == {es[0].id} + Ids(es[1..])
  {
    forall x | x in Ids(es) ensures x in {es[0].id} + Ids(es[1..]) {
      var i :| 0 <= i < |es| && es[i].id == x;
      if i > 0 {
        assert es[1..][i - 1] == es[i];
      }
    }
    forall x | x in Ids(es[1..]) ensures x in Ids(es) {
      var i :| 0 <= i < |es[1..]| && es[1..][i].id == x;
      assert es[i + 1] == es[1..][i];
    }
  }

  /** The listeners added across two prefix-extending steps are those added by
      the first followed by those added by the second. */
  lemma SuffixTargets(a: seq<Listener>, b: seq<Listener>, c: seq<Listener>)
    requires |a| <= |b| <= |c| && b[..|a|] == a && c[..|b|] == b
    ensures c[..|a|] == a
    ensures Targets(c[|a|..]) == Targets(b[|a|..]) + Targets(c[|b|..])
  {
    assert c[|a|..] == b[|a|..] + c[|b|..];
    TargetsConcat(b[|a|..], c[|b|..]);
  }

  lemma TargetsConcat(x: seq<Listener>, y: seq<Listener>)
    ensures Targets(x + y) == Targets(x) + Targets(y)
  {
    var xy := x + y;
    forall t | t in Targets(xy) ensures t in Targets(x) + Targets(y) {
      var i :| 0 <= i < |xy| && xy[i].target == t;
      if i < |x| {
        assert xy[i] == x[i];
      } else {
        assert xy[i] == y[i - |x|];
      }
    }
    forall t | t in Targets(x) ensures t in Targets(xy) {
      var i :| 0 <= i < |x| && x[i].target == t;
      assert xy[i] == x[i];
    }
    forall t | t in Targets(y) ensures t in Targets(xy) {
      var i :| 0 <= i < |y| && y[i].target == t;
      assert xy[|x| + i] == y[i];
    }
  }

  /** Auto-discovery: bind every marked element of the document, each with the
      options of the discovering call. */
  function AutoDiscover(w: World, doc: seq<Element>, options: Options): (w': World)
    ensures w'.registry == w.registry + MarkedIds(doc)
    ensures |w.listeners| <= |w'.listeners| && w'.listeners[..|w.listeners|] == w.listeners
    ensures Targets(w'.listeners[|w.listeners|..]) == MarkedIds(doc) - w.registry
    ensures forall i :: |w.listeners| <= i < |w'.listeners| ==>
      exists e :: e in doc && e.marked && w'.listeners[i] == Listener(e.id, ControllerFor(e, options))
    ensures Valid(w) ==> Valid(w')
  {
    var es := QueryMarked(doc);
    MarkedIdsAreQueried(doc);
    var w' := BindEach(w, es, options);
    forall i | |w.listeners| <= i < |w'.listeners|
      ensures exists e :: e in doc && e.marked && w'.listeners[i] == Listener(e.id, ControllerFor(e, options))
    {
      var e :| e in es && w'.listeners[i] == Listener(e.id, ControllerFor(e, options));
      var k :| 0 <= k < |es| && es[k] == e;
      assert e.marked && e in doc;
    }
    w'
  }

  lemma MarkedIdsAreQueried(doc: seq<Element>)
    ensures Ids(QueryMarked(doc)) == MarkedIds(doc)
  {
    var es := QueryMarked(doc);
    forall x | x in Ids(es) ensures x in MarkedIds(doc) {
      var i :| 0 <= i < |es| && es[i].id == x;
      var j :| 0 <= j < |doc| && doc[j] == es[i];
    }
    forall x | x in MarkedIds(doc) ensures x in Ids(es) {
      var j :| 0 <= j < |doc| && doc[j].marked && doc[j].id == x;
      var i :| 0 <= i < |es| && es[i] == doc[j];
    }
  }

  /** `new MagneticButton(target, options)`: with no target, auto-discovery over
      the document; with one, binding that element. */
  function Construct(w: World, target: Option<Element>, doc: seq<Element>, options: Options): (w': World)
    ensures target.None? ==> w'.registry == w.registry + MarkedIds(doc)
    ensures target.None? ==> forall i :: |w.listeners| <= i < |w'.listeners| ==>
      exists e :: e in doc && e.marked && w'.listeners[i] == Listener(e.id, ControllerFor(e, options))
    ensures target.Some? ==> w'.registry == w.registry + {target.value.id}
    ensures target.Some? && target.value.id in w.registry ==> w' == w
    ensures target.Some? && target.value.id !in w.registry ==>
      w'.listeners == w.listeners + [Listener(target.value.id, ControllerFor(target.value, options))]
    ensures |w.listeners| <= |w'.listeners| && w'.listeners[..|w.listeners|] == w.listeners
    ensures Valid(w) ==> Valid(w')
  {
    match target
    case None => AutoDiscover(w, doc, options)
    case Some(e) => Bind(w, e, options)
  }

  /** Binding the same element again, with any options, changes nothing. */
  lemma BindTwiceIsNoOp(w: World, e: Element, first: Options, second: Options)
    ensures Bind(Bind(w, e, first), e, second) == Bind(w, e, first)
  {
  }

  /** Binding elements that are all registered already changes nothing. */
  lemma {:induction false} BindEachRegistered(w: World, es: seq<Element>, options: Options)
    requires Ids(es) <= w.registry
    ensures BindEach(w, es, options) == w
    decreases |es|
  {
    if |es| > 0 {
      IdsCons(es);
      BindEachRegistered(w, es[1..], options);
    }
  }

  /** After auto-discovery every marked element is registered, and a second
      auto-discovery over the same document binds nothing new. */
  lemma AutoDiscoverIdempotent(w: World, doc: seq<Element>, first: Options, second: Options)
    ensures forall i :: 0 <= i < |doc| && doc[i].marked ==> doc[i].id in AutoDiscover(w, doc, first).registry
    ensures AutoDiscover(AutoDiscover(w, doc, first), doc, second) == AutoDiscover(w, doc, first)
  {
    var w1 := AutoDiscover(w, doc, first);
    MarkedIdsAreQueried(doc);
    BindEachRegistered(w1, QueryMarked(doc), second);
  }

  /** Auto-discovery after an explicit binding skips the bound element: the
      element keeps its one listener. */
  lemma DiscoverySkipsBound(w: World, e: Element, doc: seq<Element>, options: Options, discovered: Options)
    requires Valid(w)
    ensures var w' := AutoDiscover(Bind(w, e, options), doc, discovered);
      e.id !in Targets(w'.listeners[|Bind(w, e, options).listeners|..])
  {
  }

  /** In a consistent world every listener has its own target. */
  lemma {:induction false} DistinctTargetsCount(ls: seq<Listener>)
    requires Distinct(ls)
    ensures |Targets(ls)| == |ls|
    decreases |ls|
  {
    if |ls| > 0 {
      var init := ls[..|ls| - 1];
      var last := ls[|ls| - 1];
      assert ls == init + [last];
      TargetsAppend(init, last);
      DistinctTargetsCount(init);
      assert forall i :: 0 <= i < |init| ==> init[i] == ls[i];
      assert last.target !in Targets(init);
    }
  }

  /** One listener per registered element: the window holds exactly as many
      listeners as the registry holds elements. */
  lemma ListenerCount(w: World)
    requires Valid(w)
    ensures |w.listeners| == |w.registry|
  {
    DistinctTargetsCount(w.listeners);
  }

  /** The registry starts consistent; since every construction preserves
      consistency (`Construct`), so does any sequence of them. */
  lemma EmptyIsValid()
    ensures Valid(Empty)
  {
  }
}
