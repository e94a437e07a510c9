/** Unrolling of MPEG-2 transport stream timestamps. A timestamp in the
    stream is coded in 33 bits, so it wraps around every 2^33 ticks; the
    unroller turns each one into the value congruent to it modulo 2^33
    that lies closest to the previous unrolled value. */
module TimestampUnroller {

  /** 2^33, the period of a 33-bit timestamp. */
  const Period: int := 0x2_0000_0000
  /** 2^32, half a period. */
  const HalfPeriod: int := 0x1_0000_0000

  function Distance(a: int, b: int): (d: nat)
    ensures d == a - b || d == b - a
  {
    if a >= b then a - b else b - a
  }

  /** The candidate `timestamp + k * 2^33`. */
  function Candidate(timestamp: int, k: int): int
  {
    timestamp + k * Period
  }

  /** A multiple of the period other than 0 is at least a period away
      from 0. */
  lemma MultipleOfPeriod(j: int)
    requires j != 0
    ensures j * Period >= Period || j * Period <= -Period
  {
    if j > 0 {
      assert j * Period == (j - 1) * Period + Period;
      assert (j - 1) * Period >= 0;
    } else {
      assert j * Period == (j + 1) * Period - Period;
      assert (j + 1) * Period <= 0;
    }
  }

  /** The unrolled value of `timestamp` next to `previous`: congruent to
      `timestamp` modulo 2^33, at most half a period from `previous`, and
      no candidate is closer. */
  function Unroll(previous: int, timestamp: int): (r: int)
    ensures (r - timestamp) % Period == 0
    ensures Distance(r, previous) <= HalfPeriod
    ensures forall k :: Distance(Candidate(timestamp, k), previous) >= Distance(r, previous)
  {
    var d := (previous - timestamp) % Period;
    var below := previous - d;
    assert (below - timestamp) % Period == 0 by {
      assert below - timestamp == ((previous - timestamp) / Period) * Period;
    }
    var r := if d <= HalfPeriod then below else below + Period;
    assert (r - timestamp) % Period == 0 by {
      if r != below {
        assert r - timestamp == (below - timestamp) + Period;
      }
    }
    assert forall k :: Distance(Candidate(timestamp, k), previous) >= Distance(r, previous) by {
      forall k ensures Distance(Candidate(timestamp, k), previous) >= Distance(r, previous) {
        var c := Candidate(timestamp, k);
        var j := k - (r - timestamp) / Period;
        assert c == r + j * Period;
        if j != 0 {
          MultipleOfPeriod(j);
        }
      }
    }
    r
  }

  /** When the true timestamp lies less than half a period from the
      previous unrolled value, unrolling its 33-bit code gives it back. */
  lemma UnrollRecovers(previous: int, t: int, timestamp: int)
    requires (t - timestamp) % Period == 0 && Distance(t, previous) < HalfPeriod
    ensures Unroll(previous, timestamp) == t
  {
    var r := Unroll(previous, timestamp);
    var j := (t - timestamp) / Period - (r - timestamp) / Period;
    assert t == r + j * Period;
    if j != 0 {
      MultipleOfPeriod(j);
    }
  }

  /** Unrolling is insensitive to which 33-bit code names the timestamp:
      codes a period apart unroll to the same value. */
  lemma UnrollByResidue(previous: int, timestamp: int, k: int)
    ensures Unroll(previous, Candidate(timestamp, k)) == Unroll(previous, timestamp)
  {
    var x := previous - timestamp;
    assert previous - Candidate(timestamp, k) == x + (-k) * Period;
    assert (x + (-k) * Period) % Period == x % Period by {
      assert x + (-k) * Period == (x / Period - k) * Period + x % Period;
    }
  }

  class TimestampUnroller {
    /** `is_previous_timestamp_valid_` */
    var valid: bool
    /** `previous_unrolled_timestamp_`, the last result. */
    var previous: int

    constructor ()
      ensures !valid && previous == 0
    {
      valid := false;
      previous := 0;
    }

    /** `GetUnrolledTimestamp(timestamp)`. */
    method GetUnrolledTimestamp(timestamp: int) returns (r: int)
      modifies this
      ensures !old(valid) ==> r == timestamp
      ensures old(valid) ==> r == Unroll(old(previous), timestamp)
      ensures (r - timestamp) % Period == 0
      ensures old(valid) ==> Distance(r, old(previous)) <= HalfPeriod
      ensures valid && previous == r
    {
      if !valid {
        r := timestamp;
      } else {
        r := Unroll(previous, timestamp);
      }
      previous := r;
      valid := true;
    }

    /** `Reset()`: back to the state after construction. */
    method Reset()
      modifies this
      ensures !valid && previous == 0
    {
      valid := false;
      previous := 0;
    }
  }
}
