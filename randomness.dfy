/** System.Random, seen only through the values it hands out. */
module Randomness {
  import opened Entities

  /** The n values a stream hands out when `from` values have already been
      drawn from it. */
  function Draws(stream: nat -> Component, from: nat, n: nat): Vector {
    seq(n, i requires 0 <= i < n => stream(from + i))
  }

  /** A source of random components. `stream(n)` is the (n+1)-th value it
      produces, that is `NextDouble() * 2 - 1` for its n-th call;
      `drawn` counts the values handed out so far. */
  class Random {
    const stream: nat -> Component
    var drawn: nat

    constructor (stream: nat -> Component)
      ensures this.stream == stream && drawn == 0
    {
      this.stream := stream;
      drawn := 0;
    }

    /** The next random component (`(float)(random.NextDouble() * 2 - 1)`). */
    method NextComponent() returns (x: Component)
      modifies this
      ensures x == stream(old(drawn))
      ensures drawn == old(drawn) + 1
    {
      x := stream(drawn);
      drawn := drawn + 1;
    }
  }
}
