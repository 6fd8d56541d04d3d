/** The vertical scroll bar beside the grid (`CharMap4.gridScroll`), reduced
    to the bounded-range model that Swing's `JScrollBar` keeps: a value, a
    visible extent, a minimum and a maximum with
    `minimum <= value <= value + extent <= maximum`, plus the page size.
    Only the calls the character map makes are modelled. */
module ScrollBars {
  import opened JavaLang
  import opened Geometry

  class ScrollBar {
    var value: int
    var extent: int
    var minimum: int
    var maximum: int
    var blockIncrement: int
    var unitIncrement: int

    predicate Valid()
      reads this
    {
      MIN_INT <= minimum <= value && 0 <= extent && value + extent <= maximum <= MAX_INT
    }

    /** `new JScrollBar(VERTICAL, value, extent, min, max)`; Swing refuses
        arguments that break the range invariant. The page starts at the
        extent, or 1 for an empty extent. */
    constructor (value: int, extent: int, min: int, max: int)
      requires MIN_INT <= min <= value && 0 <= extent && value + extent <= max <= MAX_INT
      ensures Valid()
      ensures this.value == value && this.extent == extent && minimum == min && maximum == max
      ensures blockIncrement == (if extent == 0 then 1 else extent) && unitIncrement == 1
    {
      this.value := value;
      this.extent := extent;
      minimum := min;
      maximum := max;
      blockIncrement := if extent == 0 then 1 else extent;
      unitIncrement := 1;
    }

    /** `setValue(n)`: the value is pulled back into
        `[minimum, maximum - extent]`; `changed` says whether listeners are
        told (the model only reports a change when the value moves). */
    method SetValue(n: int) returns (changed: bool)
      requires Valid()
      modifies this
      ensures Valid()
      ensures n <= minimum ==> value == minimum
      ensures minimum <= n <= maximum - extent ==> value == n
      ensures n >= maximum - extent ==> value == maximum - extent
      ensures value == Max(minimum, Min(n, maximum - extent))
      ensures extent == old(extent) && minimum == old(minimum) && maximum == old(maximum)
      ensures blockIncrement == old(blockIncrement) && unitIncrement == old(unitIncrement)
      ensures changed <==> value != old(value)
    {
      var v := Min(n, MAX_INT - extent);
      v := Max(v, minimum);
      if v + extent > maximum {
        v := maximum - extent;
      }
      changed := v != value;
      value := v;
    }

    /** `setValues(value, extent, min, max)`: the value is taken as given,
        the bounds are widened to include it, and the extent is cut down to
        fit between the value and the maximum. */
    method SetValues(newValue: int, newExtent: int, newMin: int, newMax: int) returns (changed: bool)
      requires IsJavaInt(newValue) && IsJavaInt(newMin) && IsJavaInt(newMax)
      modifies this
      ensures Valid()
      ensures value == newValue
      ensures maximum == Max(newMax, newValue)
      ensures minimum == Min(Min(newMin, newMax), newValue)
      ensures extent == Max(0, Min(newExtent, maximum - newValue))
      ensures blockIncrement == old(blockIncrement) && unitIncrement == old(unitIncrement)
      ensures changed <==> (value, extent, minimum, maximum) != old((value, extent, minimum, maximum))
    {
      var mn, mx, e := newMin, newMax, newExtent;
      if mn > mx {
        mn := mx;
      }
      if newValue > mx {
        mx := newValue;
      }
      if newValue < mn {
        mn := newValue;
      }
      if e + newValue > mx {
        e := mx - newValue;
      }
      if e < 0 {
        e := 0;
      }
      changed := (newValue, e, mn, mx) != (value, extent, minimum, maximum);
      value, extent, minimum, maximum := newValue, e, mn, mx;
    }

    method SetBlockIncrement(b: int)
      modifies this
      ensures blockIncrement == b
      ensures value == old(value) && extent == old(extent) && minimum == old(minimum) && maximum == old(maximum)
      ensures unitIncrement == old(unitIncrement)
    {
      blockIncrement := b;
    }

    method SetUnitIncrement(u: int)
      modifies this
      ensures unitIncrement == u
      ensures value == old(value) && extent == old(extent) && minimum == old(minimum) && maximum == old(maximum)
      ensures blockIncrement == old(blockIncrement)
    {
      unitIncrement := u;
    }
  }
}
