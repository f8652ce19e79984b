/** Packet identifiers drawn from a wrapping 32-bit counter. */
module PacketIds {
  const WRAP := 0x1_0000_0000

  function Increment(counter: nat): nat {
    (counter + 1) % WRAP
  }

  /** The identifier drawn, and the counter it leaves. */
  function Draw(counter: nat): (nat, nat) {
    var first := Increment(counter);
    if first % 65535 != 0 then (first % 65535, first)
    else
      var second := Increment(first);
      (if second % 65535 != 0 then second % 65535 else 1, second)
  }

  class Source {
    var counter: nat

    constructor ()
      ensures counter == 0
    {
      counter := 0;
    }

    method NextPacketID() returns (id: nat)
      requires counter < WRAP
      modifies this
      ensures (id, counter) == Draw(old(counter)) && counter < WRAP
    {
      counter := (counter + 1) % WRAP;
      id := counter % 65535;
      if id == 0 {
        counter := (counter + 1) % WRAP;
        id := counter % 65535;
        if id == 0 {
          id := 1;
        }
      }
    }
  }

  /** The counter wraps at a multiple of 65535 plus one, so both draws can come out zero there. */
  lemma WrapIsOneOff(counter: nat)
    requires counter < WRAP
    ensures WRAP == 65537 * 65535 + 1
    ensures Increment(counter) % 65535 == 0 && Increment(Increment(counter)) % 65535 == 0 <==> counter == WRAP - 2
  {
    var first := Increment(counter);
    if first % 65535 == 0 && first != WRAP - 1 {
      assert Increment(first) == first + 1;
      assert (first + 1) % 65535 == 1;
    }
  }

  /** An identifier is never zero, and fits in 16 bits; 65535 is never drawn. */
  lemma NeverZero(counter: nat)
    requires counter < WRAP
    ensures 1 <= Draw(counter).0 <= 65534
  {
  }

  /** Consecutive identifiers differ except at one counter value, the one just before the wrap. */
  lemma {:induction false} ConsecutiveDiffer(counter: nat)
    requires counter < WRAP
    ensures Draw(counter).0 == Draw(Draw(counter).1).0 <==> counter == WRAP - 2
  {
    if counter < WRAP - 2 {
      DrawnBelow(counter + 1);
      assert Increment(counter) == counter + 1;
    }
  }

  /** Away from the wrap, the next identifier is the residue one further on, or 1 after zero. */
  lemma DrawnBelow(first: nat)
    requires 0 < first < WRAP - 1
    ensures var id := if first % 65535 != 0 then first % 65535 else 1;
            var left := if first % 65535 != 0 then first else first + 1;
            Draw(first - 1) == (id, left) && Draw(left).0 != id
  {
    var q := first / 65535;
    assert first == 65535 * q + first % 65535;
    assert Increment(first - 1) == first && Increment(first) == first + 1;
  }
}
