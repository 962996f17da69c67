/** The bounded-counter state of `CustomStepper` as a value, and each of its
    transitions as a pure function over that value.

    `value` stands for the stored `_value`; `minusEnabled` and `plusEnabled`
    for `minusButton.isEnabled` and `plusButton.isEnabled`; `labelValue` for
    the integer last handed to the value formatter (the label's text is a
    function of it); `valueChanged` for the `.valueChanged` control events
    sent so far, each recorded with the value the control held when it was
    sent.
 */
module StepperSpec {

  datatype State = State(
    value: int,
    minValue: int,
    maxValue: int,
    minusEnabled: bool,
    plusEnabled: bool,
    labelValue: int,
    valueChanged: seq<int>)

  /** Stored-property defaults of a freshly created control. */
  const DefaultValue: int := 0
  const DefaultMinValue: int := 0
  const DefaultMaxValue: int := 9

  /** The bounds are the right way round. */
  predicate Ordered(s: State) {
    s.minValue <= s.maxValue
  }

  /** The value lies in the closed range [minValue, maxValue]. */
  predicate InRange(s: State) {
    s.minValue <= s.value <= s.maxValue
  }

  /** Both enabled flags agree with the current value and bounds. */
  predicate FlagsCurrent(s: State) {
    s.minusEnabled == (s.value > s.minValue) && s.plusEnabled == (s.value < s.maxValue)
  }

  /** The label shows the current value. */
  predicate LabelCurrent(s: State) {
    s.labelValue == s.value
  }

  /** The same state with only its bounds and event log compared: what every
      setter leaves alone besides the value and what the refresh hook writes. */
  predicate SameBoundsAndEvents(s: State, r: State) {
    r.minValue == s.minValue && r.maxValue == s.maxValue && r.valueChanged == s.valueChanged
  }

  function Min(a: int, b: int): (r: int) {
    if a <= b then a else b
  }

  function Max(a: int, b: int): (r: int) {
    if a <= b then b else a
  }

  /** The clamp the public `value` setter applies: the lower bound is tested
      first, the upper bound only when the lower one does not apply. */
  function Clamp(n: int, lo: int, hi: int): (r: int)
    ensures lo <= hi ==> lo <= r <= hi
    ensures lo <= n <= hi ==> r == n
    ensures n < lo ==> r == lo
    ensures lo <= n && hi < n ==> r == hi
  {
    if n < lo then lo else if n > hi then hi else n
  }

  /** With ordered bounds the clamp picks the point of [lo, hi] nearest to `n`. */
  lemma ClampIsNearest(n: int, lo: int, hi: int, k: int)
    requires lo <= hi && lo <= k <= hi
    ensures var r := Clamp(n, lo, hi);
      (if r <= n then n - r else r - n) <= (if k <= n then n - k else k - n)
  {
  }

  /** With ordered bounds the clamp is max(lo, min(n, hi)); with inverted
      bounds the two differ as soon as n >= lo, because the setter then takes
      its upper-bound branch and stores hi. */
  lemma ClampVersusMaxMin(n: int, lo: int, hi: int)
    ensures lo <= hi ==> Clamp(n, lo, hi) == Max(lo, Min(n, hi))
    ensures hi < lo <= n ==> Clamp(n, lo, hi) == hi != Max(lo, Min(n, hi))
  {
  }

  /** `updateValueState`: redraw the label from the value and recompute both
      enabled flags from the value and the current bounds. */
  function UpdateValueState(s: State): (r: State)
    ensures FlagsCurrent(r) && LabelCurrent(r)
    ensures r.value == s.value && SameBoundsAndEvents(s, r)
    ensures FlagsCurrent(s) && LabelCurrent(s) ==> r == s
  {
    s.(labelValue := s.value,
       minusEnabled := s.value > s.minValue,
       plusEnabled := s.value < s.maxValue)
  }

  /** An assignment to `_value`: its observer runs the refresh hook, whether
      or not the stored value actually changes. */
  function StoreValue(s: State, v: int): (r: State)
    ensures r.value == v && SameBoundsAndEvents(s, r)
    ensures FlagsCurrent(r) && LabelCurrent(r)
  {
    UpdateValueState(s.(value := v))
  }

  /** The public `value` setter. */
  function SetValue(s: State, n: int): (r: State)
    ensures SameBoundsAndEvents(s, r)
    ensures FlagsCurrent(r) && LabelCurrent(r)
    ensures Ordered(s) ==> InRange(r)
    ensures Ordered(s) && s.minValue <= n <= s.maxValue ==> r.value == n
    ensures n < s.minValue ==> r.value == s.minValue
    ensures s.minValue <= n && s.maxValue < n ==> r.value == s.maxValue
  {
    StoreValue(s, Clamp(n, s.minValue, s.maxValue))
  }

  /** An assignment to `minValue`; its observer re-assigns `value := minValue`
      through the public setter when the value has fallen below the new bound. */
  function SetMinValue(s: State, m: int): (r: State)
    ensures r.minValue == m && r.maxValue == s.maxValue && r.valueChanged == s.valueChanged
    ensures m <= s.value ==> r == s.(minValue := m)
    ensures s.value < m <= s.maxValue ==> r.value == m && FlagsCurrent(r)
    ensures s.value < m && s.maxValue < m ==> r.value == s.maxValue && FlagsCurrent(r)
    ensures s.value < m ==> LabelCurrent(r)
    ensures LabelCurrent(s) ==> LabelCurrent(r)
    ensures s.value <= s.maxValue && m <= s.maxValue ==> InRange(r)
  {
    var t := s.(minValue := m);
    if t.value < t.minValue then SetValue(t, t.minValue) else t
  }

  /** An assignment to `maxValue`; its observer re-assigns `value := maxValue`
      through the public setter when the value now exceeds the new bound. */
  function SetMaxValue(s: State, m: int): (r: State)
    ensures r.maxValue == m && r.minValue == s.minValue && r.valueChanged == s.valueChanged
    ensures s.value <= m ==> r == s.(maxValue := m)
    ensures s.minValue <= m < s.value ==> r.value == m && FlagsCurrent(r)
    ensures m < s.value && m < s.minValue ==> r.value == s.minValue && FlagsCurrent(r)
    ensures m < s.value ==> LabelCurrent(r)
    ensures LabelCurrent(s) ==> LabelCurrent(r)
    ensures s.minValue <= s.value && s.minValue <= m ==> InRange(r)
  {
    var t := s.(maxValue := m);
    if t.value > t.maxValue then SetValue(t, t.maxValue) else t
  }

  /** `didTapMinus`: a guarded step down; the event is sent only when the
      step is taken, after the value has been assigned. */
  function TapMinus(s: State): (r: State)
    ensures r.minValue == s.minValue && r.maxValue == s.maxValue
    ensures s.value - 1 < s.minValue ==> r == s
    ensures s.minValue <= s.value - 1 ==>
      r.valueChanged == s.valueChanged + [r.value] && FlagsCurrent(r) && LabelCurrent(r)
    ensures s.minValue <= s.value - 1 <= s.maxValue ==> r.value == s.value - 1
    ensures s.minValue <= s.value - 1 && s.maxValue < s.value - 1 ==> r.value == s.maxValue
  {
    var newValue := s.value - 1;
    if newValue < s.minValue then s
    else
      var t := SetValue(s, newValue);
      t.(valueChanged := t.valueChanged + [t.value])
  }

  /** `didTapPlus`: a guarded step up; the event is sent only when the step
      is taken, after the value has been assigned. */
  function TapPlus(s: State): (r: State)
    ensures r.minValue == s.minValue && r.maxValue == s.maxValue
    ensures s.maxValue < s.value + 1 ==> r == s
    ensures s.value + 1 <= s.maxValue ==>
      r.valueChanged == s.valueChanged + [r.value] && FlagsCurrent(r) && LabelCurrent(r)
    ensures s.minValue <= s.value + 1 <= s.maxValue ==> r.value == s.value + 1
    ensures s.value + 1 <= s.maxValue && s.value + 1 < s.minValue ==> r.value == s.minValue
  {
    var newValue := s.value + 1;
    if newValue > s.maxValue then s
    else
      var t := SetValue(s, newValue);
      t.(valueChanged := t.valueChanged + [t.value])
  }

  /** `updateConfiguration`, as far as the counter is concerned: the styling
      it applies is not modelled, and it ends in the refresh hook. */
  function UpdateConfiguration(s: State): (r: State)
    ensures FlagsCurrent(r) && LabelCurrent(r)
    ensures r.value == s.value && SameBoundsAndEvents(s, r)
  {
    UpdateValueState(s)
  }

  /** A freshly created control: the stored-property defaults, then the
      `updateConfiguration()` call at the end of `commonInit`. The buttons
      start enabled, as every control does, until that call resets them. */
  function Init(): (r: State)
    ensures r.value == 0 && r.minValue == 0 && r.maxValue == 9
    ensures !r.minusEnabled && r.plusEnabled && r.valueChanged == []
    ensures InRange(r) && FlagsCurrent(r) && LabelCurrent(r)
  {
    UpdateConfiguration(State(DefaultValue, DefaultMinValue, DefaultMaxValue, true, true, DefaultValue, []))
  }

  /** Direct assignment and a tap to the same value differ only in the event:
      `value = value + 1` sends nothing, `didTapPlus` sends one `.valueChanged`. */
  lemma SetValueVersusTapPlus(s: State)
    requires InRange(s) && s.value < s.maxValue
    ensures SetValue(s, s.value + 1).valueChanged == s.valueChanged
    ensures TapPlus(s) == SetValue(s, s.value + 1).(valueChanged := s.valueChanged + [s.value + 1])
  {
  }

  /** The same for `value = value - 1` against `didTapMinus`. */
  lemma SetValueVersusTapMinus(s: State)
    requires InRange(s) && s.minValue < s.value
    ensures SetValue(s, s.value - 1).valueChanged == s.valueChanged
    ensures TapMinus(s) == SetValue(s, s.value - 1).(valueChanged := s.valueChanged + [s.value - 1])
  {
  }

  /** Lowering `minValue` below the value leaves the value, and with it the
      flags, alone: on a fresh control the minus button stays disabled although
      a step down is now allowed. Only a later refresh, here a new
      configuration, enables it, and then a tap steps down to -1. */
  lemma StaleMinusAfterLoweringMin()
    ensures var r := SetMinValue(Init(), -5);
      r.value == 0 && r.minValue == -5 && !r.minusEnabled && !FlagsCurrent(r)
    ensures var r := UpdateConfiguration(SetMinValue(Init(), -5));
      r.minusEnabled && TapMinus(r).value == -1
  {
  }

  /** Raising `maxValue` above a value sitting at the old maximum leaves the
      plus button disabled in the same way. */
  lemma StalePlusAfterRaisingMax()
    ensures var r := SetMaxValue(SetValue(Init(), 9), 12);
      r.value == 9 && r.maxValue == 12 && !r.plusEnabled && !FlagsCurrent(r)
  {
  }

  /** Inverted bounds from the `minValue` observer: the re-entered setter sees
      `newValue > maxValue` and stores `maxValue`, which lies below the new
      `minValue`. */
  lemma InvertedByRaisingMin(s: State, m: int)
    requires s.value < m && s.maxValue < m
    ensures SetMinValue(s, m).value == s.maxValue < SetMinValue(s, m).minValue
    ensures !SetMinValue(s, m).minusEnabled && !SetMinValue(s, m).plusEnabled
  {
  }

  /** Symmetrically, the `maxValue` observer stores `minValue`, which lies
      above the new `maxValue`. */
  lemma InvertedByLoweringMax(s: State, m: int)
    requires m < s.value && m < s.minValue
    ensures SetMaxValue(s, m).value == s.minValue > SetMaxValue(s, m).maxValue
    ensures !SetMaxValue(s, m).minusEnabled && !SetMaxValue(s, m).plusEnabled
  {
  }
}
