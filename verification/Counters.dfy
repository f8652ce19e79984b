/** The integer the graph passes share and count up. */
module Counters {
  class Counter {
    var value: nat

    constructor (start: nat)
      ensures value == start
    {
      value := start;
    }
  }
}
