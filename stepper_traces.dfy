/** What a client of `CustomStepper` can observe over a whole sequence of
    operations: programmatic assignments of `value`, `minValue` and
    `maxValue`, taps on either button, and a new `configuration`.
 */
module StepperTraces {
  import opened StepperSpec

  datatype Op =
    | AssignValue(n: int)
    | AssignMin(m: int)
    | AssignMax(m: int)
    | Minus
    | Plus
    | Reconfigure

  function Step(s: State, op: Op): (r: State) {
    match op
    case AssignValue(n) => SetValue(s, n)
    case AssignMin(m) => SetMinValue(s, m)
    case AssignMax(m) => SetMaxValue(s, m)
    case Minus => TapMinus(s)
    case Plus => TapPlus(s)
    case Reconfigure => UpdateConfiguration(s)
  }

  function Run(s: State, ops: seq<Op>): (r: State)
    decreases |ops|
  {
    if ops == [] then s else Run(Step(s, ops[0]), ops[1..])
  }

  /** `k` taps on the same button. */
  function Repeat(op: Op, k: nat): (ops: seq<Op>)
    ensures |ops| == k && forall i :: 0 <= i < k ==> ops[i] == op
  {
    if k == 0 then [] else [op] + Repeat(op, k - 1)
  }

  predicate IsTap(op: Op) {
    op.Minus? || op.Plus?
  }

  /** The number of taps in a trace. */
  function TapCount(ops: seq<Op>): (n: nat)
    decreases |ops|
  {
    if ops == [] then 0 else (if IsTap(ops[0]) then 1 else 0) + TapCount(ops[1..])
  }

  /** Every state a trace passes through, the last included, has ordered bounds. */
  predicate OrderedThroughout(s: State, ops: seq<Op>)
    decreases |ops|
  {
    ops == [] || (Ordered(Step(s, ops[0])) && OrderedThroughout(Step(s, ops[0]), ops[1..]))
  }

  /** No operation, taps included, grows the event log by more than one entry,
      and only a tap grows it at all. */
  lemma StepEvents(s: State, op: Op)
    ensures var r := Step(s, op);
      |s.valueChanged| <= |r.valueChanged| <= |s.valueChanged| + (if IsTap(op) then 1 else 0)
      && r.valueChanged[..|s.valueChanged|] == s.valueChanged
  {
  }

  /** The event log is append-only, and a trace adds at most one
      `.valueChanged` per tap: assignments and reconfiguration never send one. */
  lemma {:induction false} RunEvents(s: State, ops: seq<Op>)
    ensures var r := Run(s, ops);
      |s.valueChanged| <= |r.valueChanged| <= |s.valueChanged| + TapCount(ops)
      && r.valueChanged[..|s.valueChanged|] == s.valueChanged
    decreases |ops|
  {
    if ops != [] {
      var t := Step(s, ops[0]);
      StepEvents(s, ops[0]);
      RunEvents(t, ops[1..]);
      var r := Run(t, ops[1..]);
      assert r.valueChanged[..|s.valueChanged|] == r.valueChanged[..|t.valueChanged|][..|s.valueChanged|];
    }
  }

  /** A trace without taps sends no event at all. */
  lemma NoTapsNoEvents(s: State, ops: seq<Op>)
    requires TapCount(ops) == 0
    ensures Run(s, ops).valueChanged == s.valueChanged
  {
    RunEvents(s, ops);
  }

  /** The label is redrawn on every change of the value, so it never goes
      stale, unlike the enabled flags. */
  lemma {:induction false} RunKeepsLabelCurrent(s: State, ops: seq<Op>)
    requires LabelCurrent(s)
    ensures LabelCurrent(Run(s, ops))
    decreases |ops|
  {
    if ops != [] {
      RunKeepsLabelCurrent(Step(s, ops[0]), ops[1..]);
    }
  }

  /** One operation that ends with ordered bounds keeps the value in range. */
  lemma StepKeepsInRange(s: State, op: Op)
    requires InRange(s) && Ordered(Step(s, op))
    ensures InRange(Step(s, op))
  {
  }

  /** The value stays within its bounds for as long as every operation leaves
      the bounds ordered. */
  lemma {:induction false} RunKeepsInRange(s: State, ops: seq<Op>)
    requires InRange(s) && OrderedThroughout(s, ops)
    ensures InRange(Run(s, ops))
    decreases |ops|
  {
    if ops != [] {
      StepKeepsInRange(s, ops[0]);
      RunKeepsInRange(Step(s, ops[0]), ops[1..]);
    }
  }

  /** Ordered bounds at the end do not suffice: after the bounds were inverted
      for one step, the value can be left below `minValue`. */
  lemma InvertedExcursionLeavesRange()
    ensures var r := Run(Init(), [AssignMin(20), AssignMax(100)]);
      r.value == 9 && r.minValue == 20 && r.maxValue == 100 && Ordered(r) && !InRange(r)
  {
  }

  /** With inverted bounds a tap that passes its guard can move the value past
      the next integer: the re-entered setter clamps to `minValue`. Right after
      the bound changes both buttons are disabled; a new configuration
      refreshes them and enables plus, so the tap is one a user can make. */
  lemma TapPlusJumpsWithInvertedBounds()
    ensures var s := Run(Init(), [AssignMin(20), AssignMax(15)]);
      s.value == 9 && !s.plusEnabled && !s.minusEnabled
    ensures var s := Run(Init(), [AssignMin(20), AssignMax(15), Reconfigure]);
      s.value == 9 && s.plusEnabled
      && TapPlus(s).value == 20 && TapPlus(s).valueChanged == [20]
  {
  }

  /** `k` taps on plus from a value in range: the value climbs to at most
      `maxValue`, one event is sent per step actually taken, and once a step
      has been taken both flags are current. */
  lemma {:induction false} RepeatedTapPlus(s: State, k: nat)
    requires InRange(s)
    ensures var r := Run(s, Repeat(Plus, k));
      r.minValue == s.minValue && r.maxValue == s.maxValue
      && r.value == Min(s.value + k, s.maxValue)
      && |r.valueChanged| == |s.valueChanged| + Min(k, s.maxValue - s.value)
      && r.valueChanged[..|s.valueChanged|] == s.valueChanged
      && (s.value == s.maxValue ==> r == s)
      && (0 < k && s.value < s.maxValue ==> FlagsCurrent(r))
    decreases k
  {
    if k > 0 {
      var ops := Repeat(Plus, k);
      assert ops[0] == Plus && ops[1..] == Repeat(Plus, k - 1);
      var t := TapPlus(s);
      RepeatedTapPlus(t, k - 1);
      var r := Run(t, Repeat(Plus, k - 1));
      assert Run(s, ops) == r;
      if s.value < s.maxValue {
        assert r.valueChanged[..|s.valueChanged|] == r.valueChanged[..|t.valueChanged|][..|s.valueChanged|];
      }
    }
  }

  /** `k` taps on minus from a value in range: the mirror image. */
  lemma {:induction false} RepeatedTapMinus(s: State, k: nat)
    requires InRange(s)
    ensures var r := Run(s, Repeat(Minus, k));
      r.minValue == s.minValue && r.maxValue == s.maxValue
      && r.value == Max(s.value - k, s.minValue)
      && |r.valueChanged| == |s.valueChanged| + Min(k, s.value - s.minValue)
      && r.valueChanged[..|s.valueChanged|] == s.valueChanged
      && (s.value == s.minValue ==> r == s)
      && (0 < k && s.minValue < s.value ==> FlagsCurrent(r))
    decreases k
  {
    if k > 0 {
      var ops := Repeat(Minus, k);
      assert ops[0] == Minus && ops[1..] == Repeat(Minus, k - 1);
      var t := TapMinus(s);
      RepeatedTapMinus(t, k - 1);
      var r := Run(t, Repeat(Minus, k - 1));
      assert Run(s, ops) == r;
      if s.minValue < s.value {
        assert r.valueChanged[..|s.valueChanged|] == r.valueChanged[..|t.valueChanged|][..|s.valueChanged|];
      }
    }
  }

  /** A fresh control tapped nine times shows 9 with the plus button disabled;
      a tenth tap changes nothing and sends no tenth event. */
  lemma NineTapsReachMaximum()
    ensures var r := Run(Init(), Repeat(Plus, 9));
      r.value == 9 && !r.plusEnabled && r.minusEnabled && |r.valueChanged| == 9
    ensures var r := Run(Init(), Repeat(Plus, 10));
      r.value == 9 && !r.plusEnabled && |r.valueChanged| == 9
  {
    RepeatedTapPlus(Init(), 9);
    RepeatedTapPlus(Init(), 10);
  }

  /** Programmatic assignments clamp without sending events: 5, then a
      maximum of 3 gives 3; assigning 100 and -5 gives 9 and 0. */
  lemma AssignmentScenarios()
    ensures Run(Init(), [AssignValue(5), AssignMax(3)]).value == 3
    ensures var r := Run(Init(), [AssignValue(5), AssignValue(100)]);
      r.value == 9 && r.valueChanged == []
    ensures var r := Run(Init(), [AssignValue(5), AssignValue(100), AssignValue(-5)]);
      r.value == 0 && r.valueChanged == []
  {
  }
}
