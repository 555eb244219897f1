# magnetic-button in Dafny

A model of the `MagneticButton` controller of phucbm/magnetic-button, with proofs
of its behaviour. The controller makes an element drift toward the mouse pointer
when the pointer comes close. The model has four parts:

- **Registry** (`registry.dfy`). A process-wide set of initialised elements
  makes binding idempotent. Constructing with no target auto-discovers every
  `[data-magnetic]` element and binds each one not yet registered. Binding adds
  one window `mousemove` listener and the class `is-magnetized`.
- **Settings** (`config.dfy`). Each controller's settings merge three layers:
  the built-in defaults, the element's parsed `data-distance`,
  `data-attraction` and `data-fraction`, and the options object. The options
  object is spread last, so any key present in it wins.
- **The per-move step** (`controller.dfy`). On each `mousemove`, `magnetize`
  does four things:
  - it computes the pointer's offset from the element's centre, scaled by the
    attraction, and its Euclidean distance;
  - it compares that distance with the threshold, strictly;
  - it moves the smoothed translation one lerp step toward the scaled offset
    (in range) or toward the origin (out of range);
  - it sets or clears the engagement flag and the active class, calling
    `onEnter`, `onUpdate` and `onExit` on the edges.

  `trace.dfy` follows a controller over any sequence of moves.
- **Smoothing** (`smoothing.dfy`). `@phucbm/lerp` computes
  `lerp(r, u, e = 0.1) = r * (1 - e) + u * e`. Over exact reals, a repeated
  step toward a fixed goal closes the gap geometrically and never arrives.

Supporting modules:

- `values.dfy`: JavaScript values the controller can see. These are `undefined`
  settings, option keys that are absent, present-but-`undefined` or present, and
  NaN.
- `arith.dfy`: small facts about real products.
- `scenarios.dfy`: the library's test scenarios replayed on the model.

Notes on how the model reads the code:

- **Default distance.** The default trigger distance is 200 px
  (`src/index.ts:75`). The demo page passes smaller distances explicitly, such
  as 50 at `demo/main.ts:7`.
- **Distance metric.** `src/index.ts:203` measures the distance from the
  element's centre, and the model does the same.
- **Polarity of `attraction` and `fraction`.** The option interface's doc
  comments describe both the other way round from what the code computes.
  `src/index.ts:16` calls attraction "0 = strong, 1 = weak". But
  `src/index.ts:199-200` multiply the offset by it, so 0 gives no pull and 1
  the pointer's full offset. `src/index.ts:20` calls fraction "0 = instant,
  1 = slow". But `lerp(r, u, e) = r * (1 - e) + u * e`
  (`dist/magnetic-button.js:35-37`, called at `src/index.ts:177-178`) never
  moves at 0 and lands on the target at 1. The model follows the code
  (`MagneticController.AttractionPolarity`, `Smoothing.FractionPolarity`).
- **Option keys that hold `undefined`.** Because the options object is spread
  last, a key written out with the value `undefined` overwrites both the data
  attribute and the default. For `distance` this means the pointer is never in
  range, since `x < undefined` is false. For `attraction` it makes the deltas NaN
  on every move. The position becomes NaN at the first in-range move, which
  steps toward the NaN deltas; until then out-of-range moves step toward the
  finite origin and the position stays a number. For `activeClass` it makes the active class the token
  `"undefined"`. The `options.x ?? default` half of the per-field expression at
  `src/index.ts:123-125` can never decide the result
  (`Config.MiddleOptionIsShadowed`). The model keeps this behaviour as written.
- **`fraction: undefined`.** It reaches `lerp` as `undefined`, so the library's
  parameter default 0.1 applies (`Smoothing.FractionOf`).
- **`Math.sqrt`.** The host's answer is an input of each reading (`root`).
  Lemmas about the threshold assume `RootIsExact`: `root` is non-negative and
  its square is the squared offset.
- **Test geometry.** `tests/MagneticButton.test.ts:15-26` mocks only
  `getBoundingClientRect`, at (100, 100) with width 100 and height 50. The code
  reads the centre from `offsetWidth` and `offsetHeight` (`src/index.ts:195-196`).
  The tests never set these, and the test environment's DOM has no layout, so
  both read 0. The scenarios therefore use the centre (100, 100), which is what
  the code computes in the tests. The tests' comments assume the centre
  (150, 125), which would need an offset size of 100 × 50. The scenarios
  prove the tests' assertions for the centre (100, 100), and the transform
  scenario's exact positions are the ones for that centre.
  Each scenario asks only that the host's root of a move lie in a bracket
  around the true distance, for example [67, 68] for the square root of 4500.
  The `...Brackets` lemmas show that exact roots lie in those brackets
  (via `MagneticController.RootBracket`).

## Model

| member | source | states |
|---|---|---|
| Config.Resolve | src/index.ts:121-127 | Each resolved field follows one priority order. A present option key gives its value. An option key holding `undefined` gives `undefined`. Otherwise a parsed data attribute wins, and otherwise the default applies: `magnetizing`, 0.3, 200, 0.1. |
| Config.DefaultsApply | src/index.ts:72-83 | With no attributes and no options, the settings are exactly the defaults: class `magnetizing`, attraction 0.3, distance 200, fraction 0.1. |
| Config.UndefinedOnlyFromOptions | src/index.ts:121-127 | A field ends up `undefined` exactly when the options object wrote that key with the value `undefined`. All fields are defined exactly when no option key holds `undefined`. |
| Config.MiddleOptionIsShadowed | src/index.ts:123-126 | The merge gives the same settings when the per-field expression ignores the options. The later spread always supersedes the `options.x ?? default` branch. |
| Config.DataAttributeScenario | tests/MagneticButton.test.ts:76-81 | `data-distance="50"` and `data-attraction="0.8"` give distance 50 and attraction 0.8. The unread `data-speed` leaves the fraction at 0.1. |
| Config.OptionsScenario | tests/MagneticButton.test.ts:52-59 | Options with distance 300, attraction 0.5 and class `custom-active` replace those defaults. The fraction stays 0.1. |
| Smoothing.LerpGap | dist/magnetic-button.js:35-37 | After one step the remaining gap to the target is the old gap times `1 - t`. The distance covered is the old gap times `t`. |
| Smoothing.LerpBetween | dist/magnetic-button.js:35-37 | For a weight in [0, 1], one step lands on the segment between the start and the target. |
| Smoothing.LerpApproaches | dist/magnetic-button.js:35-37 | For a weight strictly between 0 and 1, a step from a different start strictly shrinks the gap and never lands exactly on the target. |
| Smoothing.MockLerpAgrees | tests/setup.ts:5-9 | The test mock `start + (end - start) * fraction` equals the library's `r * (1 - e) + u * e`. |
| Smoothing.LerpNum | dist/magnetic-button.js:35-37 | The result is a number exactly when both ends are numbers (NaN otherwise). The gap shrinks by `1 - fraction`, with an `undefined` fraction taking the parameter default 0.1. For a fraction in [0, 1] the result lies between the ends. |
| Smoothing.FractionPolarity | dist/magnetic-button.js:35-37 | A fraction of 0 never moves and a fraction of 1 lands on the target at once. Within [0, 1], a larger fraction leaves a smaller gap. This is the opposite of the "0 = instant, 1 = slow" doc comment at src/index.ts:20. |
| Smoothing.PowBounds | src/index.ts:177-178 | The per-move decay factor `(1 - f)^n` stays in [0, 1] and is positive when `1 - f` is positive. |
| Smoothing.IterateLast | src/index.ts:177-178 | `n + 1` smoothing steps are `n` steps followed by one more. |
| Smoothing.IterateGap | src/index.ts:177-178 | After `n` steps toward a fixed target, the gap is the initial gap times `(1 - t)^n`. |
| Smoothing.IterateDistance | src/index.ts:177-178 | For a weight in [0, 1], the distance to a fixed target after `n` steps is the initial distance times `(1 - t)^n`. |
| Smoothing.IterateMonotone | src/index.ts:177-178 | For a weight in [0, 1], no step moves farther from a fixed target. |
| Smoothing.IterateNeverArrives | src/index.ts:177-178 | For a weight in [0, 1), smoothing never reaches a target it did not start on. |
| Smoothing.DecayToZero | src/index.ts:157 | Smoothing toward the origin scales the magnitude by `(1 - t)^n`. For a weight below 1, a non-zero start never reaches 0. |
| MagneticController.CalculateCoordinates | src/index.ts:191-206 | The reported distance is the host's square root of the squared offset from the centre (left + offsetWidth / 2, top + offsetHeight / 2). Each delta is the pointer's offset from the centre times the attraction. An `undefined` attraction makes both deltas NaN. |
| MagneticController.ThresholdIsSquaredTest | src/index.ts:144 | With an exact root and a defined threshold `D`, the strict test `distance < D` holds exactly when `D > 0` and the squared offset is below `D * D`. |
| MagneticController.RootBracket | src/index.ts:203 | An exact square root of the squared offset lies in every non-negative bracket `[lo, hi]` with `lo * lo <= squared offset <= hi * hi`. |
| MagneticController.UndefinedDistanceNeverInRange | src/index.ts:144 | Against an `undefined` threshold no pointer position is in range, whatever the controller's state. After the move the flag is clear, and neither `onEnter` nor `onUpdate` fires. |
| MagneticController.DeltaPointsAtPointer | src/index.ts:199-200 | For an attraction in (0, 1], each delta has the sign of the pointer's offset on that axis and is no longer than that offset. |
| MagneticController.AttractionPolarity | src/index.ts:199-200 | An attraction of 0 gives zero deltas and an attraction of 1 gives the pointer's full offset from the centre. A larger non-negative attraction gives deltas at least as large on each axis. This is the opposite of the "0 = strong, 1 = weak" doc comment at src/index.ts:16. |
| MagneticController.AnimateButton | src/index.ts:174-182 | Each coordinate of the smoothed position takes one lerp step toward its end with the settings' fraction. The step is NaN in, NaN out, and the gap scales by `1 - fraction`. For a fraction in [0, 1] the new coordinate lies between the old one and the end. |
| MagneticController.Magnetize | src/index.ts:141-165 | Settings are unchanged, and afterwards the flag equals the strict in-range test. Every event carries the raw sample, not the smoothed position. `onEnter` fires once exactly on an out-to-in move and `onExit` once exactly on an in-to-out move. `onUpdate` fires once on every in-range move and comes last. The position takes one step toward the scaled delta or the origin and is written to the transform. Only the active class changes, added on entering and removed on leaving, so the class-tracks-flag invariant is preserved. |
| MagneticController.PayloadIgnoresState | src/index.ts:142 | The hooks' record depends only on the settings and the reading, never on the flag, position or classes. |
| MagneticController.Bound | src/index.ts:84-133 | A freshly bound controller starts outside and at the origin (lines 84-85), with no transform, and its element gets the class `is-magnetized` (line 133) and no other new class. It satisfies the class-tracks-flag invariant when the element did not already carry the active class and the active class is not `is-magnetized` itself. |
| Traces.Run | src/index.ts:130 | Over any sequence of moves, settings stay fixed. The final flag is the in-range test of the last reading. Classes other than the active class are untouched, and the class-tracks-flag invariant is preserved. |
| Traces.RunEvents | src/index.ts:148-163 | Over any run, the `onEnter` count equals the number of out-to-in crossings of the in-range flags. The `onExit` count equals the in-to-out crossings, and the `onUpdate` count equals the in-range readings. |
| Traces.RunBalance | src/index.ts:148-163 | Over any run, enters minus exits equals the change of the engagement flag. |
| Traces.EnterExitAlternate | tests/MagneticButton.test.ts:166-219 | From the outside, every run has enters minus exits equal to 1 while inside and 0 while outside, so the difference is always 0 or 1. |
| Traces.RunFollowsIterate | src/index.ts:146-157 | When every move heads for the same goal, the smoothed position after `n` moves is `n` lerp steps toward that goal. |
| Traces.ReleaseDecays | tests/MagneticButton.test.ts:144-160 | While the pointer stays out of range, the position decays toward the origin by `1 - fraction` per move and never snaps to 0 for a fraction below 1. |
| Traces.HoldConverges | src/index.ts:144-146 | While the pointer holds still in range, the flag stays set and the gap to the scaled delta shrinks by `1 - fraction` per move. |
| Registry.Bind | src/index.ts:107-133 | Binding a registered element changes nothing. Otherwise it adds the element to the registry and exactly one listener, whose controller has the resolved settings and the class `is-magnetized`, and keeps the registry consistent with the listeners. |
| Registry.QueryMarked | src/index.ts:98 | The query returns only marked elements of the document and every marked element. The result is a subsequence of the document: in document order, with each position used at most once. |
| Registry.BindEach | src/index.ts:98-103 | Binding a list of elements registers exactly their ids. It keeps earlier listeners, adds listeners for exactly the ids not registered before, and keeps the registry consistent. Each new listener is the one that binding one of the listed elements with the call's options installs: its controller is resolved from those options and that element's data attributes. |
| Registry.AutoDiscover | src/index.ts:97-104 | Auto-discovery registers exactly the marked elements. Its new listeners target exactly the marked elements not registered before, and consistency is preserved. Every new listener belongs to a marked element of the document, with a controller resolved from the discovering call's options and that element's data attributes. |
| Registry.Construct | src/index.ts:95-110 | With no target, the constructor registers the marked elements, and every new listener belongs to a marked element with a controller built from the call's options. With a registered target nothing changes. With an unregistered target exactly one listener is appended, for that element, with its controller built from the options. Earlier listeners are kept and consistency is preserved. |
| Registry.BindTwiceIsNoOp | src/index.ts:107-110 | A second construction on the same element, with any options, changes nothing. |
| Registry.BindEachRegistered | src/index.ts:99-102 | Running the discovery loop over elements that are all registered changes nothing. |
| Registry.AutoDiscoverIdempotent | src/index.ts:97-104 | After auto-discovery every marked element is registered, and a second auto-discovery binds nothing new. |
| Registry.DiscoverySkipsBound | src/index.ts:100 | Auto-discovery after an explicit binding adds no second listener for that element. |
| Registry.ListenerCount | src/index.ts:112-130 | In a consistent world there are exactly as many listeners as registered elements. |
| Registry.EmptyIsValid | src/index.ts:88 | The empty registry with no listeners is consistent. |
| Scenarios.CallbacksScenario | tests/MagneticButton.test.ts:166-219 | With distance 100: the move to (160, 130) calls `onEnter` then `onUpdate`, the move to (165, 135) calls `onUpdate` only, and the move to (300, 300) calls `onExit`. The run's events are those three lists in order. |
| Scenarios.CallbacksBrackets | tests/MagneticButton.test.ts:179-209 | Exact roots of the callback test's three moves fall in the brackets that scenario uses. |
| Scenarios.DistanceScenario | tests/MagneticButton.test.ts:105-125 | With distance 100, the active class is present after the move to (180, 125) and absent after the move to (300, 125). |
| Scenarios.DistanceBrackets | tests/MagneticButton.test.ts:109-120 | Exact roots of the distance test's two moves fall in the brackets that scenario uses. |
| Scenarios.DataAttributeMovesScenario | tests/MagneticButton.test.ts:76-100 | With `data-distance="50"`, the class is on after the move to (140, 120) and off after the move to (220, 125). |
| Scenarios.DataAttributeBrackets | tests/MagneticButton.test.ts:76-100 | Exact roots of the data-attribute test's two moves fall in the brackets that scenario uses. |
| Scenarios.CustomClassScenario | tests/MagneticButton.test.ts:52-71 | With distance 300, a move to (150, 125) adds the custom class `custom-active`. |
| Scenarios.CustomClassBrackets | tests/MagneticButton.test.ts:52-71 | The exact root of the custom-class test's move falls in the bracket that scenario uses. |
| Scenarios.TransformScenario | tests/MagneticButton.test.ts:130-161 | With attraction 0.5, the move to (170, 135) translates the element by (3.5, 1.75). The move to (400, 400) brings it back toward the origin, to (3.15, 1.575), within the 10 px the test allows. |
| Scenarios.TransformBrackets | tests/MagneticButton.test.ts:134-148 | Exact roots of the transform test's two moves fall in the brackets that scenario uses. |

## Left out

- `destroy`, offset clamping, touch suppression and an edge-aware distance. None of these exists in `src/index.ts`; demo/main.ts calls a `destroy` that the class does not define.
- DOM plumbing: the model has no DOM.
  - `addEventListener` is a `Listener` record.
  - `classList` is a set of class names.
  - `style.transform` is the last written position, not the formatted `translate(...)` string.
  - `getBoundingClientRect` and `offsetWidth`/`offsetHeight` are inputs of each reading.
- Dispatching one window `mousemove` to every listener. Each controller is followed on its own (`Traces.Run`), because each sees its own element's box.
- `parseFloat` and `isNaN` on attribute strings. A data attribute is given already parsed, or `None` when missing or not a number.
- IEEE-754 arithmetic. Numbers are exact reals, with NaN kept only as the result of `undefined` in arithmetic. Rounding and infinities are not modelled.
- MagneticController.CalculateCoordinates: the distance is whatever `Math.sqrt` returned. Properties that need it to be the true root take `RootIsExact` as a hypothesis.
- Hooks as code. Each call is an event record. Side effects, re-entrancy and a hook that throws are out of scope. So is an options key such as `onEnter: undefined`, which the spread copies and whose call would throw.
- `classList.add` and `remove` throwing on an empty or whitespace-containing class name. Any string is accepted as a class.
- Option keys other than the four settings and the hooks (the tests pass `speed`). The spread copies them, but nothing reads them.
- The WeakSet's garbage-collection semantics. The registry is a finite set of element ids.
- Auto-initialisation at module load (src/index.ts:212-218) and the global wrapper in src/umd.ts. Module load calls the constructor with no target, and `init(target, options)` in src/umd.ts:15-17 passes its arguments to the constructor. `Registry.Construct` covers both kinds of call.
