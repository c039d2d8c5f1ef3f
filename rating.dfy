/** The star rating: a click sets the value (kept inside unless the value is
    controlled by the parent), hovering previews a value, and each star is lit
    from the displayed value. Values are whole or half stars, so `real` holds
    them exactly. */
module Rating {
  import opened Values

  /** The value a star target stands for: `index + 0.5` for its left half,
      `index + 1` for the whole star. */
  function StarValue(index: nat, isHalf: bool): (r: real)
    ensures index as real < r <= index as real + 1.0
    ensures isHalf <==> r == index as real + 0.5
  {
    if isHalf then index as real + 0.5 else index as real + 1.0
  }

  /** `controlledValue ?? internalValue`. */
  function CurrentValue(controlled: Option<real>, internalValue: real): (r: real)
    ensures controlled.Some? ==> r == controlled.value
    ensures controlled.None? ==> r == internalValue
  {
    if controlled.Some? then controlled.value else internalValue
  }

  /** `hoverValue || currentValue`: a zero hover shows the current value. */
  function DisplayValue(hoverValue: real, current: real): (r: real)
    ensures hoverValue != 0.0 ==> r == hoverValue
    ensures hoverValue == 0.0 ==> r == current
  {
    if hoverValue != 0.0 then hoverValue else current
  }

  /** `Array.from({ length: max })`: a negative length gives no stars. */
  function StarCount(max: int): (r: nat)
    ensures max >= 0 ==> r == max
    ensures max < 0 ==> r == 0
  {
    if max < 0 then 0 else max
  }

  /** Star `index` is lit. */
  predicate IsActive(display: real, index: nat)
  {
    display > index as real
  }

  /** Star `index` shows its left half lit. */
  predicate IsHalfActive(allowHalf: bool, display: real, index: nat)
  {
    allowHalf && display == index as real + 0.5
  }

  /** Showing a star's value lights that star and every star before it,
      and no star after it. */
  lemma ValueLightsPrefix(k: nat, isHalf: bool, i: nat)
    ensures IsActive(StarValue(k, isHalf), i) <==> i <= k
  {
  }

  /** In half mode a half value half-lights exactly its own star; a whole
      value half-lights none. */
  lemma HalfValueMarksOneStar(k: nat, isHalf: bool, i: nat)
    ensures IsHalfActive(true, StarValue(k, isHalf), i) <==> isHalf && i == k
  {
  }

  /** Without half mode no star is half lit, whatever is displayed. */
  lemma NoHalvesWithoutHalfMode(display: real, i: nat)
    ensures !IsHalfActive(false, display, i)
  {
  }

  class RatingWidget {
    const controlled: Option<real>
    const max: int
    const disabled: bool
    const readonly: bool
    const allowHalf: bool
    var internalValue: real
    var hoverValue: real

    /** `internalValue` starts at the controlled value, else the default
        value, else 0; nothing is hovered. */
    constructor (controlled: Option<real>, defaultValue: Option<real>, max: Option<int>,
                 disabled: bool, readonly: bool, allowHalf: bool)
      ensures this.controlled == controlled && this.disabled == disabled
      ensures this.readonly == readonly && this.allowHalf == allowHalf
      ensures this.max == (if max.Some? then max.value else 5)
      ensures internalValue == CurrentValue(controlled, if defaultValue.Some? then defaultValue.value else 0.0)
      ensures hoverValue == 0.0
    {
      this.controlled := controlled;
      this.max := if max.Some? then max.value else 5;
      this.disabled := disabled;
      this.readonly := readonly;
      this.allowHalf := allowHalf;
      internalValue := CurrentValue(controlled, if defaultValue.Some? then defaultValue.value else 0.0);
      hoverValue := 0.0;
    }

    function Current(): real
      reads this
    {
      CurrentValue(controlled, internalValue)
    }

    function Display(): real
      reads this
    {
      DisplayValue(hoverValue, Current())
    }

    function Interactive(): bool
      reads this
    {
      !disabled && !readonly
    }

    /** `handleClick`: when interactive, `onChange` gets the star's value and,
        uncontrolled, it becomes the internal value; otherwise nothing. Only
        rendered targets are clicked: a star below `max`, and its left half
        only in half mode. */
    method Click(index: nat, isHalf: bool) returns (changed: Option<real>)
      requires index < StarCount(max) && (isHalf ==> allowHalf)
      modifies this`internalValue
      ensures !Interactive() ==> changed == None && internalValue == old(internalValue)
      ensures Interactive() ==> changed == Some(StarValue(index, isHalf))
      ensures Interactive() && controlled.None? ==> internalValue == StarValue(index, isHalf)
      ensures controlled.Some? ==> internalValue == old(internalValue) && Current() == controlled.value
    {
      if disabled || readonly {
        return None;
      }
      var newValue := StarValue(index, isHalf);
      if controlled.None? {
        internalValue := newValue;
      }
      changed := Some(newValue);
    }

    /** `handleMouseEnter`: when interactive, the star's value is previewed
        and sent to `onHover`. */
    method MouseEnter(index: nat, isHalf: bool) returns (hovered: Option<real>)
      requires index < StarCount(max) && (isHalf ==> allowHalf)
      modifies this`hoverValue
      ensures !Interactive() ==> hovered == None && hoverValue == old(hoverValue)
      ensures Interactive() ==> hoverValue == StarValue(index, isHalf) && hovered == Some(hoverValue)
    {
      if disabled || readonly {
        return None;
      }
      hoverValue := StarValue(index, isHalf);
      hovered := Some(hoverValue);
    }

    /** `handleMouseLeave`: when interactive, the preview ends and `onHover`
        gets 0. */
    method MouseLeave() returns (hovered: Option<real>)
      modifies this`hoverValue
      ensures !Interactive() ==> hovered == None && hoverValue == old(hoverValue)
      ensures Interactive() ==> hoverValue == 0.0 && hovered == Some(0.0)
    {
      if disabled || readonly {
        return None;
      }
      hoverValue := 0.0;
      hovered := Some(0.0);
    }

    function Stars(): nat
      reads this
    {
      StarCount(max)
    }

    function StarActive(index: nat): bool
      reads this
    {
      IsActive(Display(), index)
    }

    function StarHalfActive(index: nat): bool
      reads this
    {
      IsHalfActive(allowHalf, Display(), index)
    }
  }

  /** Hovering a star lights the stars up to it; leaving shows the
      current value again. */
  method HoverThenLeave(w: RatingWidget, index: nat, isHalf: bool) returns (previewed: real)
    requires w.Interactive() && w.hoverValue == 0.0
    requires index < w.Stars() && (isHalf ==> w.allowHalf)
    modifies w
    ensures previewed == StarValue(index, isHalf)
    ensures forall i: nat :: IsActive(previewed, i) <==> i <= index
    ensures w.hoverValue == 0.0 && w.Display() == old(w.Display())
  {
    var h := w.MouseEnter(index, isHalf);
    previewed := w.Display();
    forall i: nat
      ensures IsActive(previewed, i) <==> i <= index
    {
      ValueLightsPrefix(index, isHalf, i);
    }
    h := w.MouseLeave();
  }

  /** An uncontrolled click on star `k` lights stars `0..k` once the pointer
      has left. */
  method ClickLightsPrefix(w: RatingWidget, k: nat)
    requires w.Interactive() && w.controlled.None? && k < w.Stars()
    modifies w
    ensures forall i: nat :: w.StarActive(i) <==> i <= k
  {
    var c := w.Click(k, false);
    var h := w.MouseLeave();
    forall i: nat
      ensures w.StarActive(i) <==> i <= k
    {
      ValueLightsPrefix(k, false, i);
    }
  }
}
