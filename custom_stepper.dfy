/** `CustomStepper` as an object: the stored properties are fields, each
    property setter and observer is a method that updates them in place, and
    every method is specified by the transition of `StepperSpec` it performs.
 */
module AKStepper {
  import StepperSpec

  class CustomStepper {
    /** `_value`, read through the public `value` getter. */
    var value: int
    var minValue: int
    var maxValue: int
    /** `minusButton.isEnabled` and `plusButton.isEnabled`. */
    var minusEnabled: bool
    var plusEnabled: bool
    /** The integer the label's text was last formatted from. */
    var labelValue: int
    /** The value held at each `sendActions(for: .valueChanged)`, in order. */
    var valueChangedLog: seq<int>

    /** The whole observable state as a value. */
    function Snapshot(): (s: StepperSpec.State)
      reads this
    {
      StepperSpec.State(value, minValue, maxValue, minusEnabled, plusEnabled, labelValue, valueChangedLog)
    }

    /** The stored-property defaults, then `commonInit`'s final
        `updateConfiguration()`. */
    constructor ()
      ensures Snapshot() == StepperSpec.Init()
      ensures value == 0 && minValue == 0 && maxValue == 9
      ensures !minusEnabled && plusEnabled && valueChangedLog == []
    {
      value := StepperSpec.DefaultValue;
      minValue := StepperSpec.DefaultMinValue;
      maxValue := StepperSpec.DefaultMaxValue;
      minusEnabled, plusEnabled := true, true;
      labelValue := StepperSpec.DefaultValue;
      valueChangedLog := [];
      new;
      UpdateConfiguration();
    }

    /** `updateValueState`: redraw the label, recompute both flags. */
    method UpdateValueState()
      modifies this
      ensures Snapshot() == StepperSpec.UpdateValueState(old(Snapshot()))
      ensures minusEnabled == (value > minValue) && plusEnabled == (value < maxValue)
    {
      labelValue := value;
      minusEnabled := value > minValue;
      plusEnabled := value < maxValue;
    }

    /** An assignment to `_value`, which fires its observer. */
    method StoreValue(v: int)
      modifies this
      ensures Snapshot() == StepperSpec.StoreValue(old(Snapshot()), v)
    {
      value := v;
      UpdateValueState();
    }

    /** The public `value` setter. */
    method SetValue(n: int)
      modifies this
      ensures Snapshot() == StepperSpec.SetValue(old(Snapshot()), n)
      ensures minValue == old(minValue) && maxValue == old(maxValue)
      ensures valueChangedLog == old(valueChangedLog)
      ensures minValue <= maxValue ==> minValue <= value <= maxValue
      ensures minValue <= n <= maxValue ==> value == n
    {
      if n < minValue {
        StoreValue(minValue);
      } else if n > maxValue {
        StoreValue(maxValue);
      } else {
        StoreValue(n);
      }
    }

    /** An assignment to `minValue`, with its observer. */
    method SetMinValue(m: int)
      modifies this
      ensures Snapshot() == StepperSpec.SetMinValue(old(Snapshot()), m)
      ensures m <= old(value) ==>
        value == old(value) && minusEnabled == old(minusEnabled) && plusEnabled == old(plusEnabled)
    {
      minValue := m;
      if value < minValue {
        SetValue(minValue);
      }
    }

    /** An assignment to `maxValue`, with its observer. */
    method SetMaxValue(m: int)
      modifies this
      ensures Snapshot() == StepperSpec.SetMaxValue(old(Snapshot()), m)
      ensures old(value) <= m ==>
        value == old(value) && minusEnabled == old(minusEnabled) && plusEnabled == old(plusEnabled)
    {
      maxValue := m;
      if value > maxValue {
        SetValue(maxValue);
      }
    }

    /** `didTapMinus`. */
    method TapMinus()
      modifies this
      ensures Snapshot() == StepperSpec.TapMinus(old(Snapshot()))
      ensures old(value) - 1 < minValue ==> Snapshot() == old(Snapshot())
      ensures minValue <= old(value) - 1 <= maxValue ==>
        value == old(value) - 1 && valueChangedLog == old(valueChangedLog) + [value]
    {
      var newValue := value - 1;
      if newValue < minValue {
        return;
      }
      SetValue(newValue);
      valueChangedLog := valueChangedLog + [value];
    }

    /** `didTapPlus`. */
    method TapPlus()
      modifies this
      ensures Snapshot() == StepperSpec.TapPlus(old(Snapshot()))
      ensures maxValue < old(value) + 1 ==> Snapshot() == old(Snapshot())
      ensures minValue <= old(value) + 1 <= maxValue ==>
        value == old(value) + 1 && valueChangedLog == old(valueChangedLog) + [value]
    {
      var newValue := value + 1;
      if newValue > maxValue {
        return;
      }
      SetValue(newValue);
      valueChangedLog := valueChangedLog + [value];
    }

    /** `updateConfiguration`, run by the `configuration` observer and by
        `commonInit`; only its final call to the refresh hook is modelled. */
    method UpdateConfiguration()
      modifies this
      ensures Snapshot() == StepperSpec.UpdateConfiguration(old(Snapshot()))
    {
      UpdateValueState();
    }
  }

  /** What a caller can prove from the method contracts alone: nine taps on a
      fresh control reach the maximum, the tenth is refused. */
  method NineTapsThenOneMore()
  {
    var c := new CustomStepper();
    c.TapPlus(); c.TapPlus(); c.TapPlus();
    c.TapPlus(); c.TapPlus(); c.TapPlus();
    c.TapPlus(); c.TapPlus(); c.TapPlus();
    assert c.value == 9 && !c.plusEnabled && |c.valueChangedLog| == 9;
    c.TapPlus();
    assert c.value == 9 && c.valueChangedLog == [1, 2, 3, 4, 5, 6, 7, 8, 9];
  }
}
