# minplayer display, modelled in Dafny

A model of `minplayer.display`, the base class of the minplayer media-player
widgets. A display binds a component to a root DOM handle, merges the
subclass's named sub-elements into the caller's `options.elements`, can
subscribe a debounced window-resize notification, and offers the
scale-to-fit helper `getScaledRect`.

- `geometry.dfy` (module `Geometry`): `getScaledRect(ratio, rect)` over exact
  reals, with JavaScript truthiness of missing or zero fields made explicit.
- `elements.dfy` (module `Elements`): the element table as a `map`, and
  `jQuery.extend(target, source)` as the map union in which `source` wins.
- `debounce.dfy` (module `Debounce`): the trailing-edge resize debounce as a
  state machine over an abstract millisecond clock: one pending deadline per
  registered handler, `Tick(t)` runs the timeouts due by `t`, `Resized`
  re-arms every handler for `now + 200`.
- `display.dfy` (module `Display`): the `Display` class. Its constructor
  mutates the caller's `Options` object in place and aliases `elements` to
  `options.elements`. `Construct`, `WindowResized` and `Tick` drive the
  debounce state.
- `wrappers.dfy`: `Option`, for JavaScript's `undefined`.

On a shared key, the subclass's `getElements()` value overwrites the caller's.
This is because `jQuery.extend(target, source)` copies `source` over `target`
(src/minplayer.display.js:28). `Elements.SubclassWinsExample` shows that
`{foo: A}` merged with `{foo: B, bar: C}` gives `{foo: B, bar: C}`.

When `ratio` is truthy, `getScaledRect` does arithmetic on `rect.width` and
`rect.height`. A missing width or height makes some result fields NaN: only
`y` when just the height is missing, and `x`, `y` and `height` when the width
is missing. So the model requires both to be present (`Geometry.ScalingDefined`). A zero height is
modelled. The comparison `w / h > ratio` at src/minplayer.display.js:123 is then
`Infinity > ratio` for a positive width, which is true; for any other width it
is `-Infinity` or `NaN`, which compares false (`Geometry.ExceedsRatio`). Either
way the result is finite: for a zero height and positive width it is an empty
rect centred on the width (`Geometry.ZeroHeightDegenerate`). Negative sizes and
ratios are allowed, because the arithmetic is defined for them. Containment is
proved for positive ones.

## Model

| member | source | states |
|---|---|---|
| Geometry.OrZero | src/minplayer.display.js:118-121 | `f ? f : 0`: the field's value when it is truthy, 0 when it is falsy or missing |
| Geometry.GetScaledRect | src/minplayer.display.js:116-135 | falsy ratio: the input fields, 0 where falsy/missing, not floored; wider bounds: full height and width the floor of height*ratio; otherwise full width and height the floor of width/ratio; truthy ratio: x and y are the floors of half the horizontal and vertical slack |
| Geometry.ScaledRectContained | src/minplayer.display.js:123-132 | for a positive ratio and positive bounds the result has non-negative size and offsets, lies inside the bounds, and fills them in width or height |
| Geometry.ScaledRectCentred | src/minplayer.display.js:131-132 | the right margin is at least the left margin and less than 2 more, and the same for bottom and top; the offsets are whole numbers |
| Geometry.ScaledRectIgnoresOffsets | src/minplayer.display.js:116-135 | with a truthy ratio the input's own x and y do not affect the result |
| Geometry.ZeroHeightDegenerate | src/minplayer.display.js:123-132 | a zero-height box of positive width takes the wider branch: width 0, height 0, y 0, and x the floor of half the width |
| Geometry.SixteenByNineInSquare | src/minplayer.display.js:122-133 | ratio 16/9 in 1000x1000 gives x 0, y 219, width 1000, height 562 |
| Geometry.FourByThreeInWide | src/minplayer.display.js:122-133 | ratio 4/3 in 640x200 gives x 187, y 0, width 266, height 200 |
| Elements.BaseElements | src/minplayer.display.js:143-145 | the base `getElements()` declares no element |
| Elements.Extend | src/minplayer.display.js:28 | the merged table's keys are the union of both key sets; a subclass key keeps the subclass's handle; a caller-only key keeps the caller's handle |
| Elements.ExtendBaseElements | src/minplayer.display.js:28 | merging the base display's empty element map leaves the caller's table unchanged |
| Elements.ExtendIdempotent | src/minplayer.display.js:28 | extending a second time with the same subclass elements changes nothing |
| Elements.ExtendOverridesShared | src/minplayer.display.js:28 | on a shared key with different handles the caller's handle does not survive |
| Elements.SubclassWinsExample | src/minplayer.display.js:27-29 | `{foo: A}` merged with `{foo: B, bar: C}` is `{foo: B, bar: C}` |
| Debounce.Subscribe | src/minplayer.display.js:64-68 | registering a handler adds one handler with nothing pending and keeps the clock and the calls |
| Debounce.Rearm | src/minplayer.display.js:69-70 | every handler afterwards has exactly one timeout pending, with the given deadline |
| Debounce.Expire | src/minplayer.display.js:70-72 | timeouts due by `t` are cleared, the others are kept, and none is left due |
| Debounce.Due | src/minplayer.display.js:70-72 | the calls of one tick: each at a deadline not later than `t`, and no more calls than handlers with a timeout pending, so none when nothing is pending (the exact number per handler is stated by `Debounce.DueAll` and `Debounce.TickFiresPending`) |
| Debounce.PendingZero | src/minplayer.display.js:69-72 | the count of pending handlers is zero exactly when no handler has a timeout pending |
| Debounce.Step | src/minplayer.display.js:68-73 | a resize event keeps the clock and calls and re-arms every handler for now+200; a tick moves the clock, appends the due calls, clears exactly the due timeouts (the others stay pending) and leaves nothing due |
| Debounce.InitialInv | src/minplayer.display.js:64 | before any event no timeout is pending and no call has happened |
| Debounce.StepKeepsInv | src/minplayer.display.js:68-73 | every step keeps the invariant: pending deadlines are after now, at most 200 ms ahead, and all equal |
| Debounce.SubscribeKeepsInv | src/minplayer.display.js:64-68 | registering a handler keeps the invariant |
| Debounce.DueNone | src/minplayer.display.js:70-72 | a tick before every pending deadline runs nothing and clears nothing |
| Debounce.DueAll | src/minplayer.display.js:70-72 | when every pending timeout shares one deadline due by the tick, each pending handler runs once at that deadline, idle handlers run nothing, and all are cleared |
| Debounce.TickFiresPending | src/minplayer.display.js:70-72 | in any state meeting the invariant, a tick before the shared deadline (or with nothing pending) changes no timeout and makes no call; a tick at or after it calls `onResize` once per pending handler, at that deadline, leaving nothing pending |
| Debounce.NoHandlerNoCalls | src/minplayer.display.js:61-74 | with no handler registered, no sequence of events ever calls `onResize` |
| Debounce.BurstArms | src/minplayer.display.js:68-73 | during a burst (gaps under 200 ms) nothing fires, and afterwards every handler is pending for the last event + 200 |
| Debounce.BurstFiresOnce | src/minplayer.display.js:68-73 | after a burst, a tick at least 200 ms after its last event calls `onResize` exactly once per handler, at last + 200, and leaves nothing pending |
| Debounce.QuietBeforeDeadline | src/minplayer.display.js:70-72 | a tick less than 200 ms after the burst's last event calls nothing and keeps every timeout pending |
| Debounce.SeparatedResizesFireTwice | src/minplayer.display.js:68-73 | two resize events at least 200 ms apart give two calls per handler, at each event + 200 |
| Display.Display.constructor | src/minplayer.display.js:15-30 | `allowResize` is false; without a context, display, options and elements stay unset; with one, the caller's `options.elements` (or a fresh empty table) is extended in place, the subclass winning, and `elements` is that same object |
| Display.Display.Construct | src/minplayer.display.js:55-75 | registers one more resize handler exactly when `allowResize` is set, and keeps the debounce invariant |
| Display.Display.WindowResized | src/minplayer.display.js:68-73 | every handler's deadline becomes the event time + 200; the invariant is kept |
| Display.Display.Tick | src/minplayer.display.js:70-72 | the new state is one tick step: the due callbacks run and `fired` is their number; the invariant is kept |
| Display.ResizeBurstScenario | src/minplayer.display.js:61-73 | with `allowResize` set, resizes at 10 and 120 ms, followed by ticks up to 400 ms, give exactly one `onResize`, at 320 ms |
| Display.NoResizeScenario | src/minplayer.display.js:61-74 | with `allowResize` unset, resizing never calls `onResize` |

## Left out

- `getDisplay` (src/minplayer.display.js:48-50) is `jQuery(context)`. The model keeps the context handle itself as the display.
- `trigger`, `bind` and `isValid` (src/minplayer.display.js:91-107, 152-154) only call jQuery's event registry and node set, which are not part of this model. `bind`'s unbind-then-bind is meant to make re-binding the same handler idempotent, but the model does not show that.
- The `minplayer.plugin` base class is not part of this model. This covers the `minplayer.plugin.call(...)` at the end of the constructor, the prototype chain, and the base `construct` that `construct` calls first. The `name` argument goes only to that base class, so the model drops it.
- `onResize` is a virtual hook with an empty body. The model records the times at which it is called, not what a subclass does in it.
- Real timers, the host event loop and the `window` subscription are not modelled. Time is an abstract clock. A tick runs the due timeouts in handler order before later events; a timeout that comes due at the same moment as a resize event runs first.
- IEEE-754 rounding, NaN and Infinity are not modelled. Numbers are exact reals. A missing width or height with a truthy ratio makes the JavaScript return some NaN fields (see above), and `Geometry.ScalingDefined` excludes it. The one infinite intermediate value, `w / 0`, appears only in the comparison, and `Geometry.ExceedsRatio` decides it as JavaScript does.
- JavaScript `null` is not told apart from a missing property. Non-numeric field values are not modelled.
- `jQuery.extend` skips `undefined` values in its source. Element handles here are never undefined, so the model does not show this.
- Calling the constructor with a context but no `options` throws in JavaScript, when `this.options.elements` is read. The constructor excludes this with its precondition.
- Debounce.Due: its own contract only bounds the number of calls by the number of pending handlers. That each pending handler runs exactly once is stated by `Debounce.DueAll` and `Debounce.TickFiresPending` for states meeting the debounce invariant, which every reachable state does (`Debounce.StepKeepsInv`, `Debounce.SubscribeKeepsInv`).
