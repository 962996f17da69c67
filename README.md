# AKStepper: the bounded counter of `CustomStepper`

`CustomStepper` is a stepper control with a minus button, a value label and
a plus button. Its only logic is a small bounded-counter state machine. There
is a stored integer `_value` (default 0) and inclusive bounds `minValue`
(default 0) and `maxValue` (default 9). The public `value` setter clamps
every assignment, and the bound observers re-assign `value` when a new bound
excludes it. The two tap handlers take one guarded step and then send a
`.valueChanged` control event. A refresh hook runs on every assignment to
`_value`: it redraws the label and recomputes whether each button is enabled.

The project models that state machine three ways:

- `stepper_spec.dfy`, module `StepperSpec`. The state is a datatype `State`.
  Each operation is a pure transition function whose contract says what it
  does to the value, the bounds, the flags, the label and the event log.
  Small lemmas cover the clamp order, inverted bounds and stale flags.
- `stepper_traces.dfy`, module `StepperTraces`. A client trace is a sequence
  of operations. The lemmas here are proved by induction over traces: the
  event log is append-only and only taps add to it, the label never goes
  stale, the value stays in range for as long as the bounds stay ordered,
  and repeated taps climb or fall to a bound.
- `custom_stepper.dfy`, module `AKStepper`. This is the control itself, a
  class `CustomStepper` whose fields are the stored properties. Each setter,
  observer and handler is a method that updates the fields in place, in the
  same order as the source and with the same cascades. Each method's
  contract equates the new state with the matching `StepperSpec` transition
  of the old state.

Behaviour the model pins down:

- **Clamp order.** The setter tests the lower bound first. A value below
  `minValue` becomes `minValue`. Otherwise a value above `maxValue` becomes
  `maxValue`.
- **Inverted bounds.** Raising `minValue` above both `maxValue` and the value
  re-enters the setter, which stores `maxValue`. That is below the new
  minimum, and both buttons end up disabled. Lowering `maxValue` is the
  mirror image. Once a refresh has enabled a button again, a tap that passes
  its guard can move the value by more than one.
- **Stale flags.** A bound change that leaves the value alone does not run the
  refresh hook. The enabled flags then describe the old bounds. The label
  never goes stale: for a fixed configuration its text depends only on the
  value, and every change of value or configuration redraws it.
- **Two channels.** Only a tap that is applied sends `.valueChanged`, and it
  sends exactly one. Programmatic assignments and a new configuration refresh
  the display without sending an event; a bound change refreshes the display
  only when it moves the value, and sends no event either.

Two properties a reader might expect of a stepper do not hold of this code:

- **The clamp is not `max(minValue, min(n, maxValue))`.** The two agree for
  ordered bounds. With inverted bounds and `n >= minValue` the setter stores
  `maxValue` (`StepperSpec.ClampVersusMaxMin`).
- **`minValue <= value <= maxValue` is not an invariant of the control.** It
  holds while every operation leaves the bounds ordered
  (`StepperTraces.RunKeepsInRange`). One step with inverted bounds can leave
  the value outside bounds that are ordered again
  (`StepperTraces.InvertedExcursionLeavesRange`).

## Model

| member | source | states |
|---|---|---|
| `StepperSpec.Clamp` | Sources/AKStepper/AKStepper.swift:95-105 | with ordered bounds the result lies in [lo, hi] and equals n when n is in range; below lo gives lo; otherwise above hi gives hi, whatever the bounds |
| `StepperSpec.ClampIsNearest` | Sources/AKStepper/AKStepper.swift:95-105 | with ordered bounds the clamped value is the point of [lo, hi] nearest to n |
| `StepperSpec.ClampVersusMaxMin` | Sources/AKStepper/AKStepper.swift:95-105 | the setter's clamp equals max(lo, min(n, hi)) for ordered bounds, and differs from it (storing hi) for inverted bounds with n >= lo |
| `StepperSpec.UpdateValueState` | Sources/AKStepper/AKStepper.swift:206-218 | afterwards minus is enabled iff value > minValue, plus iff value < maxValue, and the label shows the value; value, bounds and events untouched; a refresh of a current state changes nothing |
| `StepperSpec.StoreValue` | Sources/AKStepper/AKStepper.swift:85-89 | an assignment to `_value` stores exactly v and always leaves flags and label current; bounds and events untouched |
| `StepperSpec.SetValue` | Sources/AKStepper/AKStepper.swift:91-106 | with ordered bounds the value ends in range and equals n when n was in range; n below minValue gives minValue, otherwise n above maxValue gives maxValue; flags current; no event |
| `StepperSpec.SetMinValue` | Sources/AKStepper/AKStepper.swift:108-114 | value >= m leaves the whole state but the bound unchanged (flags possibly stale); otherwise the value becomes m when m <= maxValue and maxValue when m > maxValue, with flags and label current; no event; range kept when the bounds stay ordered |
| `StepperSpec.SetMaxValue` | Sources/AKStepper/AKStepper.swift:116-122 | value <= M leaves the whole state but the bound unchanged; otherwise the value becomes M when M >= minValue and minValue when M < minValue, with flags and label current; no event; range kept when the bounds stay ordered |
| `StepperSpec.TapMinus` | Sources/AKStepper/AKStepper.swift:173-181 | value - 1 < minValue changes nothing and sends nothing; otherwise exactly one event carrying the new value, the value is value - 1 when that is within maxValue (else maxValue), flags current |
| `StepperSpec.TapPlus` | Sources/AKStepper/AKStepper.swift:183-191 | value + 1 > maxValue changes nothing and sends nothing; otherwise exactly one event carrying the new value, the value is value + 1 when that is at least minValue (else minValue), flags current |
| `StepperSpec.UpdateConfiguration` | Sources/AKStepper/AKStepper.swift:193-204 | reconfiguring refreshes flags and label and changes neither value, bounds nor events |
| `StepperSpec.Init` | Sources/AKStepper/AKStepper.swift:132-171 | a new control has value 0, bounds [0, 9], minus disabled, plus enabled, no events, and is in range with current flags |
| `StepperSpec.SetValueVersusTapPlus` | Sources/AKStepper/AKStepper.swift:183-191 | in range below the maximum, a plus tap is the assignment `value = value + 1` plus exactly one event, and the assignment alone sends none |
| `StepperSpec.SetValueVersusTapMinus` | Sources/AKStepper/AKStepper.swift:173-181 | in range above the minimum, a minus tap is the assignment `value = value - 1` plus exactly one event, and the assignment alone sends none |
| `StepperSpec.StaleMinusAfterLoweringMin` | Sources/AKStepper/AKStepper.swift:108-114 | lowering minValue to -5 on a new control leaves the minus button disabled although the flag is now wrong; a new configuration enables it, and then a minus tap steps to -1 |
| `StepperSpec.StalePlusAfterRaisingMax` | Sources/AKStepper/AKStepper.swift:116-122 | raising maxValue to 12 while the value sits at 9 leaves the plus button disabled, a stale flag |
| `StepperSpec.InvertedByRaisingMin` | Sources/AKStepper/AKStepper.swift:108-114 | raising minValue above both maxValue and the value stores maxValue, which is below the new minValue, and disables both buttons |
| `StepperSpec.InvertedByLoweringMax` | Sources/AKStepper/AKStepper.swift:116-122 | lowering maxValue below both minValue and the value stores minValue, which is above the new maxValue, and disables both buttons |
| `StepperTraces.StepEvents` | Sources/AKStepper/AKStepper.swift:173-191 | one operation keeps the event log as a prefix and adds at most one entry, and none unless it is a tap |
| `StepperTraces.RunEvents` | Sources/AKStepper/AKStepper.swift:91-191 | over any trace the event log is append-only and grows by at most the number of taps |
| `StepperTraces.NoTapsNoEvents` | Sources/AKStepper/AKStepper.swift:91-122 | a trace of assignments and reconfigurations sends no `.valueChanged` at all |
| `StepperTraces.RunKeepsLabelCurrent` | Sources/AKStepper/AKStepper.swift:85-89 | the label shows the current value after any trace |
| `StepperTraces.StepKeepsInRange` | Sources/AKStepper/AKStepper.swift:91-191 | from a value in range, any operation that leaves the bounds ordered leaves the value in range |
| `StepperTraces.RunKeepsInRange` | Sources/AKStepper/AKStepper.swift:91-191 | minValue <= value <= maxValue holds after a trace in which every step leaves the bounds ordered |
| `StepperTraces.InvertedExcursionLeavesRange` | Sources/AKStepper/AKStepper.swift:108-122 | minValue := 20 then maxValue := 100 on a new control gives ordered bounds [20, 100] with the value 9 outside them |
| `StepperTraces.TapPlusJumpsWithInvertedBounds` | Sources/AKStepper/AKStepper.swift:183-191 | with minValue 20 above maxValue 15 and value 9 both buttons are disabled; after a new configuration plus is enabled, and a plus tap passes its guard and stores 20, sending one event |
| `StepperTraces.RepeatedTapPlus` | Sources/AKStepper/AKStepper.swift:183-191 | k plus taps from a value v in range give min(v + k, maxValue) and exactly min(k, maxValue - v) new events; bounds unchanged; flags current once a step was taken |
| `StepperTraces.RepeatedTapMinus` | Sources/AKStepper/AKStepper.swift:173-181 | k minus taps from a value v in range give max(v - k, minValue) and exactly min(k, v - minValue) new events; bounds unchanged; flags current once a step was taken |
| `StepperTraces.NineTapsReachMaximum` | Sources/AKStepper/AKStepper.swift:183-191 | nine plus taps on a new control give 9 with plus disabled and nine events; a tenth tap keeps 9 and sends no tenth event |
| `StepperTraces.AssignmentScenarios` | Sources/AKStepper/AKStepper.swift:91-122 | value 5 then maxValue 3 gives 3; value 100 gives 9 and value -5 gives 0, with no event sent |
| `AKStepper.CustomStepper.constructor` | Sources/AKStepper/AKStepper.swift:132-171 | the new object's state is `StepperSpec.Init()`: value 0, bounds [0, 9], minus disabled, plus enabled, no events |
| `AKStepper.CustomStepper.UpdateValueState` | Sources/AKStepper/AKStepper.swift:206-218 | the new state is `StepperSpec.UpdateValueState` of the old one; both flags agree with value and bounds |
| `AKStepper.CustomStepper.StoreValue` | Sources/AKStepper/AKStepper.swift:85-89 | the new state is `StepperSpec.StoreValue` of the old one: the value stored, then refreshed |
| `AKStepper.CustomStepper.SetValue` | Sources/AKStepper/AKStepper.swift:91-106 | the new state is `StepperSpec.SetValue` of the old one; bounds and events unchanged, the value in range for ordered bounds and equal to n when n was in range |
| `AKStepper.CustomStepper.SetMinValue` | Sources/AKStepper/AKStepper.swift:108-114 | the new state is `StepperSpec.SetMinValue` of the old one; when the value already satisfies the new bound, value and both flags are unchanged |
| `AKStepper.CustomStepper.SetMaxValue` | Sources/AKStepper/AKStepper.swift:116-122 | the new state is `StepperSpec.SetMaxValue` of the old one; when the value already satisfies the new bound, value and both flags are unchanged |
| `AKStepper.CustomStepper.TapMinus` | Sources/AKStepper/AKStepper.swift:173-181 | the new state is `StepperSpec.TapMinus` of the old one; a refused step changes nothing, an in-range step lowers the value by one and logs one event |
| `AKStepper.CustomStepper.TapPlus` | Sources/AKStepper/AKStepper.swift:183-191 | the new state is `StepperSpec.TapPlus` of the old one; a refused step changes nothing, an in-range step raises the value by one and logs one event |
| `AKStepper.CustomStepper.UpdateConfiguration` | Sources/AKStepper/AKStepper.swift:193-204 | the new state is `StepperSpec.UpdateConfiguration` of the old one: a refresh only |

`AKStepper.NineTapsThenOneMore` is a client of the class: it shows from
the method contracts alone that a new control tapped nine times shows 9 with
plus disabled, and that a tenth tap is refused.

## Left out

- Subviews and layout (`contentStackView`, the constraints, `intrinsicContentSize`, `valueWidthConstraint` and the width measured from formatting 99): framework layout in floating-point sizes.
- Text formatting (`NumberFormatter`, the `valueFormatter` closure, attributed text): the label is modelled only by the integer it was last formatted from (`labelValue`): for a fixed configuration its text depends only on that integer, and every new configuration re-runs the refresh.
- The `Configuration` struct and the styling done by `updateConfiguration` (spacing, button configuration, font, colour): only its final call to the refresh hook is modelled.
- The `AKButton` dependency, the button action closures with their weak captures, and `init?(coder:)`: an external library, memory management and archiving. The taps are called directly. A disabled button delivers no tap, but the traces of `StepperTraces` allow a tap in any state, so they admit more than a user can do; the facts proved over all traces hold a fortiori for the ones a user can make.
- `sendActions(for: .valueChanged)`: the dispatch to registered targets is framework code, modelled as appending the current value to `valueChangedLog`.
- The enabled flags before the first refresh are taken as true, the default of every control; `commonInit` overwrites them before the constructor returns.
- Swift `Int` is 64-bit and traps on overflow at `value - 1` and `value + 1`. The model uses unbounded integers, so it has no trap at `Int.min` or `Int.max`.
- Package.swift is a build manifest with no behaviour.
