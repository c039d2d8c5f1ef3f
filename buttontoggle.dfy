/** The on/off button. */
module ButtonToggle {
  import opened Values

  /** The caption for a state. */
  function Label(on: bool): (r: string)
    ensures r == "ON" <==> on
    ensures r == "OFF" <==> !on
  {
    if on then "ON" else "OFF"
  }

  class Toggle {
    var on: bool

    /** The `toggle` prop, defaulting to off. */
    constructor (toggle: Option<bool>)
      ensures on == (toggle.Some? && toggle.value)
    {
      on := toggle.Some? && toggle.value;
    }

    /** `setOn(!on)`. */
    method Click()
      modifies this
      ensures on == !old(on)
    {
      on := !on;
    }

    function Caption(): string
      reads this
    {
      Label(on)
    }
  }

  /** Two clicks give back the state and the caption. */
  method ClickTwice(t: Toggle)
    modifies t
    ensures t.on == old(t.on) && t.Caption() == old(t.Caption())
  {
    t.Click();
    t.Click();
  }
}
