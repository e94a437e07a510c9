/** The hex helpers test programs use to turn test vectors into bytes and
    bytes back into text: `FromHex` reads one digit, `DecodeHex` decodes a
    NUL-terminated string into a fresh buffer, and `HexDump` prints bytes as
    lowercase hex.

    A C string is modelled by the characters before its terminator, a null
    pointer by `None`, and each test failure that `ADD_FAILURE` records by a
    `Failure` value; the description text of the messages is not kept. */
module CryptographyHelpers {
  import opened Wrappers

  type Byte = x: int | 0 <= x < 256

  /** A test failure recorded by `DecodeHex`. */
  datatype Failure = OddLength | InvalidCharacter(at: nat)

  /** The value of a hexadecimal digit in either case. */
  function HexValue(c: char): (r: Option<nat>)
    ensures r.Some? <==> ('0' <= c <= '9' || 'a' <= c <= 'f' || 'A' <= c <= 'F')
    ensures r.Some? ==> r.value < 16
  {
    if '0' <= c <= '9' then Some(c as int - '0' as int)
    else if 'a' <= c <= 'f' then Some(c as int - 'a' as int + 10)
    else if 'A' <= c <= 'F' then Some(c as int - 'A' as int + 10)
    else None
  }

  /** The lowercase digit `%x` prints for a value below 16. */
  function LowerDigit(n: nat): (c: char)
    requires n < 16
    ensures '0' <= c <= '9' || 'a' <= c <= 'f'
  {
    if n < 10 then ('0' as int + n) as char else ('a' as int + n - 10) as char
  }

  /** Reading a printed digit gives back its value, and the two cases of a
      letter digit name the same value. */
  lemma DigitRoundTrip(n: nat)
    requires n < 16
    ensures HexValue(LowerDigit(n)) == Some(n)
    ensures n >= 10 ==> HexValue(('A' as int + n - 10) as char) == Some(n)
  {
  }

  /** Every digit `HexValue` accepts is the printed digit of its value or
      that digit in upper case. */
  lemma HexValueDigits(c: char)
    requires HexValue(c).Some?
    ensures var n := HexValue(c).value;
            c == LowerDigit(n) || (n >= 10 && c == ('A' as int + n - 10) as char)
  {
  }

  /** `FromHex(out, in)`: on a digit, writes its value to `*out` and
      returns 1; otherwise returns 0 and `*out` keeps `current`. */
  method FromHex(current: Byte, c: char) returns (result: int, out: Byte)
    ensures result == 1 || result == 0
    ensures result == 1 <==> HexValue(c).Some?
    ensures result == 1 ==> out == HexValue(c).value
    ensures result == 0 ==> out == current
  {
    if '0' <= c <= '9' {
      return 1, c as int - '0' as int;
    }
    if 'a' <= c <= 'f' {
      return 1, c as int - 'a' as int + 10;
    }
    if 'A' <= c <= 'F' {
      return 1, c as int - 'A' as int + 10;
    }
    return 0, current;
  }

  /** Both characters of pair `k` are digits. */
  predicate PairValid(s: seq<char>, k: nat)
    requires 2 * k + 1 < |s|
  {
    HexValue(s[2 * k]).Some? && HexValue(s[2 * k + 1]).Some?
  }

  /** The byte a valid pair spells: high digit first. */
  function PairByte(s: seq<char>, k: nat): (b: Byte)
    requires 2 * k + 1 < |s| && PairValid(s, k)
    ensures b / 16 == HexValue(s[2 * k]).value && b % 16 == HexValue(s[2 * k + 1]).value
  {
    HexValue(s[2 * k]).value * 16 + HexValue(s[2 * k + 1]).value
  }

  /** The failures recorded for the pairs before pair `k`, in order. */
  function InvalidPairs(s: seq<char>, k: nat): (fs: seq<Failure>)
    requires 2 * k <= |s| && |s| % 2 == 0
    ensures forall f :: f in fs ==> f.InvalidCharacter? && f.at % 2 == 0 && f.at < 2 * k
  {
    if k == 0 then []
    else InvalidPairs(s, k - 1) + (if PairValid(s, k - 1) then [] else [InvalidCharacter(2 * (k - 1))])
  }

  /** `DecodeHex(out, out_len, in, ...)`. The caller's `*out` and `*out_len`
      come in as `out` and `outLen` and leave as `newOut` and `newLen`.
      A byte whose pair is invalid is left as the buffer's initial
      contents, which the contract does not fix. */
  method DecodeHex(out: array?<Byte>, outLen: int, input: Option<seq<char>>)
    returns (newOut: array?<Byte>, newLen: int, failures: seq<Failure>)
    ensures input.None? ==> newOut == null && newLen == 0 && failures == []
    ensures input.Some? && |input.value| % 2 == 1 ==>
              newOut == out && newLen == outLen && failures == [OddLength]
    ensures input.Some? && |input.value| % 2 == 0 ==>
              newOut != null && fresh(newOut) && newLen == |input.value| / 2 == newOut.Length &&
              failures == InvalidPairs(input.value, newLen) &&
              forall k :: 0 <= k < newLen && PairValid(input.value, k) ==> newOut[k] == PairByte(input.value, k)
  {
    if input.None? {
      return null, 0, [];
    }
    var s := input.value;
    var len := |s|;
    if len % 2 == 1 {
      return out, outLen, [OddLength];
    }
    var buf := new Byte[len / 2];
    failures := DecodePairs(s, buf);
    return buf, len / 2, failures;
  }

  /** The loop of `DecodeHex` over the pairs of `s`, writing into `buf`. */
  method DecodePairs(s: seq<char>, buf: array<Byte>) returns (failures: seq<Failure>)
    requires |s| == 2 * buf.Length
    modifies buf
    ensures failures == InvalidPairs(s, buf.Length)
    ensures forall k :: 0 <= k < buf.Length && PairValid(s, k) ==> buf[k] == PairByte(s, k)
  {
    failures := [];
    var k := 0;
    while k < buf.Length
      invariant 0 <= k <= buf.Length
      invariant failures == InvalidPairs(s, k)
      invariant forall j :: 0 <= j < k && PairValid(s, j) ==> buf[j] == PairByte(s, j)
    {
      var ok, b := DecodePair(s, k);
      InvalidPairsStep(s, k);
      if ok {
        buf[k] := b;
      } else {
        failures := failures + [InvalidCharacter(2 * k)];
      }
      k := k + 1;
    }
  }

  lemma InvalidPairsStep(s: seq<char>, k: nat)
    requires 2 * k + 1 < |s| && |s| % 2 == 0
    ensures InvalidPairs(s, k + 1) == InvalidPairs(s, k) + (if PairValid(s, k) then [] else [InvalidCharacter(2 * k)])
  {
  }

  /** One iteration: `FromHex` on both characters of pair `k`, stopping
      at the first that fails, and the byte `(v << 4) | v2`. */
  method DecodePair(s: seq<char>, k: nat) returns (ok: bool, b: Byte)
    requires 2 * k + 1 < |s|
    ensures ok <==> PairValid(s, k)
    ensures ok ==> b == PairByte(s, k)
  {
    var v, v2 := 0, 0;
    var r1, r2 := 0, 0;
    r1, v := FromHex(v, s[2 * k]);
    if r1 == 1 {
      r2, v2 := FromHex(v2, s[2 * k + 1]);
    }
    ok := r1 == 1 && r2 == 1;
    b := if ok then v * 16 + v2 else 0;
  }

  /** The text `%02x` prints for each byte in turn. */
  function Hex(bytes: seq<Byte>): seq<char>
  {
    if bytes == [] then []
    else Hex(bytes[..|bytes| - 1]) + [LowerDigit(bytes[|bytes| - 1] / 16), LowerDigit(bytes[|bytes| - 1] % 16)]
  }

  /** `HexDump(in, len)` over the `len` bytes at `in`. */
  method HexDump(data: seq<Byte>) returns (result: seq<char>)
    ensures result == Hex(data)
  {
    result := [];
    var i := 0;
    while i < |data|
      invariant 0 <= i <= |data|
      invariant result == Hex(data[..i])
    {
      assert data[..i + 1][..i] == data[..i];
      result := result + [LowerDigit(data[i] / 16), LowerDigit(data[i] % 16)];
      i := i + 1;
    }
    assert data[..i] == data;
  }

  /** The dump has two lowercase digits per byte: the high nibble at `2k`,
      the low nibble at `2k + 1`. */
  lemma {:induction false} HexLayout(bytes: seq<Byte>)
    ensures |Hex(bytes)| == 2 * |bytes|
    ensures forall c :: c in Hex(bytes) ==> '0' <= c <= '9' || 'a' <= c <= 'f'
    ensures forall k :: 0 <= k < |bytes| ==>
              Hex(bytes)[2 * k] == LowerDigit(bytes[k] / 16) && Hex(bytes)[2 * k + 1] == LowerDigit(bytes[k] % 16)
  {
    if bytes != [] {
      var init := bytes[..|bytes| - 1];
      HexLayout(init);
      forall k | 0 <= k < |init| ensures init[k] == bytes[k] {}
    }
  }

  /** Decoding a dump: the length is even, every pair is valid and spells
      the byte it came from, so `DecodeHex` records no failure and returns
      the original bytes. */
  lemma DecodeDump(bytes: seq<Byte>)
    ensures var s := Hex(bytes);
            |s| % 2 == 0 && |s| / 2 == |bytes| &&
            (forall k :: 0 <= k < |bytes| ==> PairValid(s, k) && PairByte(s, k) == bytes[k])
    ensures InvalidPairs(Hex(bytes), |bytes|) == []
  {
    var s := Hex(bytes);
    HexLayout(bytes);
    forall k | 0 <= k < |bytes| ensures PairValid(s, k) && PairByte(s, k) == bytes[k] {
      DigitRoundTrip(bytes[k] / 16);
      DigitRoundTrip(bytes[k] % 16);
    }
    NoInvalidPairs(s, |bytes|);
  }

  lemma {:induction false} NoInvalidPairs(s: seq<char>, k: nat)
    requires 2 * k <= |s| && |s| % 2 == 0
    requires forall j :: 0 <= j < k ==> PairValid(s, j)
    ensures InvalidPairs(s, k) == []
  {
    if k > 0 {
      NoInvalidPairs(s, k - 1);
    }
  }

  /** A pair records a failure exactly when one of its characters is not a
      digit. */
  lemma {:induction false} InvalidPairsExact(s: seq<char>, k: nat)
    requires 2 * k <= |s| && |s| % 2 == 0
    ensures forall j :: 0 <= j < k ==> (InvalidCharacter(2 * j) in InvalidPairs(s, k) <==> !PairValid(s, j))
  {
    if k > 0 {
      InvalidPairsExact(s, k - 1);
    }
  }

  /** The round trip through the methods: dumping bytes and decoding the
      dump gives the same bytes back, with no failure. */
  method DumpThenDecode(bytes: seq<Byte>) returns (decoded: seq<Byte>, failures: seq<Failure>)
    ensures decoded == bytes && failures == []
  {
    var text := HexDump(bytes);
    var out, len, fs := DecodeHex(null, 0, Some(text));
    DecodeDump(bytes);
    decoded := out[..];
    assert forall k :: 0 <= k < |bytes| ==> decoded[k] == bytes[k];
    failures := fs;
  }
}
