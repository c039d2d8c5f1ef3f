/** The counter with a minus and a plus button; every change is reported to
    `onChange` with the new count. */
module Stepper {
  import opened Values

  class Counter {
    var count: int

    /** The `count` prop, defaulting to 0. */
    constructor (initial: Option<int>)
      ensures count == (if initial.Some? then initial.value else 0)
    {
      count := if initial.Some? then initial.value else 0;
    }

    /** `handleIncrement`: one more, reported as the new count. */
    method Increment() returns (reported: int)
      modifies this
      ensures count == old(count) + 1 && reported == count
    {
      var newCount := count + 1;
      count := newCount;
      reported := newCount;
    }

    /** `handleDecrement`: one less, with no lower bound. */
    method Decrement() returns (reported: int)
      modifies this
      ensures count == old(count) - 1 && reported == count
    {
      var newCount := count - 1;
      count := newCount;
      reported := newCount;
    }
  }

  /** Plus then minus gives back the count, and `onChange` sees the
      intermediate count and then the original one. */
  method IncrementThenDecrement(c: Counter) returns (first: int, second: int)
    modifies c
    ensures c.count == old(c.count)
    ensures first == old(c.count) + 1 && second == old(c.count)
  {
    first := c.Increment();
    second := c.Decrement();
  }

  /** The count can go below zero. */
  method BelowZero() returns (c: Counter)
    ensures c.count == -1
  {
    c := new Counter(None);
    var r := c.Decrement();
  }
}
