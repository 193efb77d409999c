/**
 Base 128 varints over 64-bit values, as the reporting-token extractor reads and writes them.

 The shift-and-or arithmetic of the source only ever combines disjoint bits, so it is written
 here as addition of a multiple of the current weight, reduced modulo 2^64.
 */
module Varint {
  import opened Bytes

  const U64: nat := 0x1_0000_0000_0000_0000
  const MAX_VARINT_LEN: nat := 10

  /** The least value that does not fit when `k` bytes of the ten are left. */
  function Bound(k: nat): (r: nat)
    requires 1 <= k
    ensures 2 <= r
  {
    if k == 1 then 2 else 128 * Bound(k - 1)
  }

  lemma BoundTen()
    ensures Bound(10) == U64
  {
    assert Bound(4) == 128 * 128 * 128 * 2;
    assert Bound(7) == 128 * 128 * 128 * Bound(4);
    assert Bound(10) == 128 * 128 * 128 * Bound(7);
  }

  function Encode(v: nat): (r: bytes)
    ensures r != []
  {
    if v < 128 then [v] else [128 + v % 128] + Encode(v / 128)
  }

  /**
   Decoding with at most `k` bytes left: the value and the number of bytes read. The last of
   the ten bytes has room for one bit only; its higher bits are shifted out.
   */
  function DecodeUpTo(d: bytes, k: nat): (r: Option<(nat, nat)>)
    requires 1 <= k
    ensures r.Some? ==> 1 <= r.value.1 <= |d| && r.value.1 <= k && r.value.0 < Bound(k)
  {
    if d == [] then None
    else if d[0] < 128 then Some((if k == 1 then d[0] % 2 else d[0], 1))
    else if k == 1 then None
    else
      match DecodeUpTo(d[1..], k - 1)
      case None => None
      case Some((v, n)) => Some((d[0] - 128 + 128 * v, n + 1))
  }

  function Decode(d: bytes): (r: Option<(nat, nat)>)
    ensures r.Some? ==> 1 <= r.value.1 <= |d| && r.value.1 <= MAX_VARINT_LEN && r.value.0 < U64
  {
    BoundTen();
    DecodeUpTo(d, MAX_VARINT_LEN)
  }

  /** One turn of decoding. */
  lemma DecodeMore(d: bytes, k: nat, low: nat)
    requires 2 <= k && d != [] && d[0] == 128 + low
    ensures DecodeUpTo(d, k).Some? <==> DecodeUpTo(d[1..], k - 1).Some?
    ensures DecodeUpTo(d, k).Some? ==>
      var (v, n) := DecodeUpTo(d[1..], k - 1).value;
      DecodeUpTo(d, k).value == (low + 128 * v, n + 1)
  {
  }

  lemma LowAndHigh(low: nat, v: nat)
    requires low < 128
    ensures (low + 128 * v) % 128 == low && (low + 128 * v) / 128 == v
  {
  }

  lemma {:induction false} RoundTripUpTo(v: nat, s: bytes, k: nat)
    requires 1 <= k && v < Bound(k)
    ensures |Encode(v)| <= k
    ensures DecodeUpTo(Encode(v) + s, k) == Some((v, |Encode(v)|))
  {
    if v < 128 {
    } else {
      RoundTripUpTo(v / 128, s, k - 1);
      Assoc([128 + v % 128], Encode(v / 128), s);
      TailOfSum([128 + v % 128], Encode(v / 128) + s);
    }
  }

  /** Every 64-bit value decodes from its own encoding, whatever follows it. */
  lemma RoundTrip(v: nat, s: bytes)
    requires v < U64
    ensures 1 <= |Encode(v)| <= MAX_VARINT_LEN
    ensures Decode(Encode(v) + s) == Some((v, |Encode(v)|))
  {
    BoundTen();
    RoundTripUpTo(v, s, MAX_VARINT_LEN);
  }

  lemma {:induction false} EncodeMinimalUpTo(d: bytes, k: nat)
    requires 1 <= k && DecodeUpTo(d, k).Some?
    ensures |Encode(DecodeUpTo(d, k).value.0)| <= DecodeUpTo(d, k).value.1
  {
    if d[0] < 128 {
    } else {
      EncodeMinimalUpTo(d[1..], k - 1);
      DecodeMore(d, k, d[0] - 128);
      EncodeShifted(d[0] - 128, DecodeUpTo(d[1..], k - 1).value.0);
    }
  }

  lemma EncodeShifted(low: nat, v: nat)
    requires low < 128
    ensures |Encode(low + 128 * v)| <= 1 + |Encode(v)|
  {
    LowAndHigh(low, v);
  }

  /** Re-encoding a decoded value never takes more bytes than were read. */
  lemma EncodeMinimal(d: bytes)
    requires Decode(d).Some?
    ensures |Encode(Decode(d).value.0)| <= Decode(d).value.1
  {
    EncodeMinimalUpTo(d, MAX_VARINT_LEN);
  }

  lemma {:induction false} EncodeMonotone(a: nat, b: nat)
    requires a <= b
    ensures |Encode(a)| <= |Encode(b)|
  {
    if a < 128 {
    } else {
      EncodeMonotone(a / 128, b / 128);
    }
  }

  lemma {:induction false} DecodeLocalUpTo(d: bytes, s: bytes, k: nat)
    requires 1 <= k && DecodeUpTo(d, k).Some?
    ensures DecodeUpTo(d[..DecodeUpTo(d, k).value.1] + s, k) == DecodeUpTo(d, k)
  {
    var n := DecodeUpTo(d, k).value.1;
    if d[0] < 128 {
    } else {
      DecodeLocalUpTo(d[1..], s, k - 1);
      TailOfSum(d[..n], s);
      assert d[..n][1..] == d[1..][..n - 1];
    }
  }

  /** Decoding depends only on the bytes it consumes. */
  lemma DecodeLocal(d: bytes, s: bytes)
    requires Decode(d).Some?
    ensures Decode(d[..Decode(d).value.1] + s) == Decode(d)
  {
    DecodeLocalUpTo(d, s, MAX_VARINT_LEN);
  }

  /** Left shift without truncation. */
  function Shl(v: nat, shift: nat): nat
    decreases shift
  {
    if shift == 0 then v else Shl(2 * v, shift - 1)
  }

  /** Left shift of a 64-bit word: bits past the top are lost. */
  function Shl64(v: nat, shift: nat): nat {
    Shl(v, shift) % U64
  }

  lemma {:induction false} ShlAdd(a: nat, b: nat, shift: nat)
    ensures Shl(a + b, shift) == Shl(a, shift) + Shl(b, shift)
    decreases shift
  {
    if shift == 0 {
    } else {
      ShlAdd(2 * a, 2 * b, shift - 1);
    }
  }

  lemma {:induction false} ShlSplit(v: nat, s: nat, t: nat)
    ensures Shl(Shl(v, s), t) == Shl(v, s + t)
    decreases s
  {
    if s == 0 {
    } else {
      ShlSplit(2 * v, s - 1, t);
    }
  }

  lemma ShlSeven(v: nat)
    ensures Shl(v, 7) == 128 * v
  {
    assert Shl(v, 7) == Shl(8 * v, 4) == Shl(64 * v, 1);
  }

  lemma {:induction false} ShlBound(v: nat, i: nat, k: nat)
    requires 1 <= k && v < Bound(k)
    ensures Shl(v, 7 * i) < Bound(k + i)
    decreases i
  {
    if i == 0 {
    } else {
      ShlSplit(v, 7, 7 * (i - 1));
      ShlSeven(v);
      ShlBound(128 * v, i - 1, k + 1);
    }
  }

  /** What the low seven bits of byte `i` contribute: nothing is lost below index 9. */
  lemma Contribution(b: nat, i: nat)
    requires b < 128 && i <= 9
    ensures Shl64(b, 7 * i) == Shl(if i < 9 then b else b % 2, 7 * i)
  {
    BoundTen();
    if i < 9 {
      ShlBound(b, i, 2);
      BoundMonotone(2 + i, 10);
    } else {
      ShlBound(b % 2, i, 1);
      ContributionTop(b, 7 * i);
    }
  }

  lemma ContributionTop(b: nat, shift: nat)
    requires shift == 63 && Shl(b % 2, shift) < U64
    ensures Shl64(b, shift) == Shl(b % 2, shift)
  {
    var c, r := b / 2, b % 2;
    assert b == 2 * c + r;
    ShlAdd(2 * c, r, shift);
    TopBit(c, shift);
    ModOfMultiple(c, Shl(r, shift), Shl(b, shift));
  }

  lemma ModOfMultiple(c: nat, r: nat, x: nat)
    requires r < U64 && x == c * U64 + r
    ensures x % U64 == r
  {
  }

  lemma {:induction false} BoundMonotone(j: nat, k: nat)
    requires 1 <= j <= k
    ensures Bound(j) <= Bound(k)
  {
    if j >= k {
    } else {
      BoundMonotone(j, k - 1);
    }
  }

  lemma TopBit(c: nat, shift: nat)
    requires shift == 63
    ensures Shl(2 * c, shift) == c * U64
  {
    var h := shift - 31;
    ShlSplit(c, h, h);
    ShlThirtyTwo(c, h);
    ShlThirtyTwo(Shl(c, h), h);
  }

  lemma ShlThirtyTwo(v: nat, h: nat)
    requires h == 32
    ensures Shl(v, h) == 0x1_0000_0000 * v
  {
    ShlSplit(v, 7, h - 7);
    ShlSeven(v);
    ShlSplit(128 * v, 7, h - 14);
    ShlSeven(128 * v);
    ShlSplit(16384 * v, 7, h - 21);
    ShlSeven(16384 * v);
    ShlSplit(2097152 * v, 7, h - 28);
    ShlSeven(2097152 * v);
    assert Shl(268435456 * v, 4) == Shl(1073741824 * v, 2);
  }

  /** Decoding the rest of the input, seen from `i` bytes in with `value` accumulated. */
  function Resume(value: nat, i: nat, rest: Option<(nat, nat)>): Option<(nat, nat)> {
    match rest
    case None => None
    case Some((v, n)) => Some((value + Shl(v, 7 * i), i + n))
  }

  lemma ResumeLast(rest: bytes, value: nat, i: nat)
    requires i <= 9 && rest != [] && rest[0] < 128
    ensures Resume(value, i, DecodeUpTo(rest, 10 - i)) == Some((value + Shl64(rest[0] % 128, 7 * i), i + 1))
  {
    Contribution(rest[0], i);
  }

  lemma ShlTail(low: nat, v: nat, i: nat)
    ensures Shl(low + 128 * v, 7 * i) == Shl(low, 7 * i) + Shl(v, 7 * (i + 1))
  {
    ShlAdd(low, 128 * v, 7 * i);
    ShlSeven(v);
    ShlSplit(v, 7, 7 * i);
  }

  lemma ResumeMore(rest: bytes, value: nat, i: nat, k: nat, low: nat)
    requires i < 9 && k == 10 - i && rest != [] && rest[0] == 128 + low
    ensures Resume(value, i, DecodeUpTo(rest, k))
         == Resume(value + Shl64(low, 7 * i), i + 1, DecodeUpTo(rest[1..], k - 1))
  {
    DecodeMore(rest, k, low);
    Contribution(low, i);
    var tail := DecodeUpTo(rest[1..], k - 1);
    if tail.Some? {
      ShlTail(low, tail.value.0, i);
    }
  }

  lemma ResumeStart(data: bytes)
    ensures Decode(data) == Resume(0, 0, DecodeUpTo(data, 10))
  {
  }

  /** The loop invariant: the bytes still to come complete what has been read. */
  predicate Decoding(data: bytes, i: nat, value: nat) {
    i <= |data| && i <= 9 && Decode(data) == Resume(value, i, DecodeUpTo(data[i..], 10 - i))
  }

  lemma DecodingStart(data: bytes)
    ensures Decoding(data, 0, 0)
  {
    ResumeStart(data);
    assert data[0..] == data;
  }

  lemma DecodingLast(data: bytes, i: nat, value: nat)
    requires Decoding(data, i, value) && i < |data| && data[i] < 128
    ensures Decode(data) == Some((value + Shl64(data[i] % 128, 7 * i), i + 1))
  {
    ResumeLast(data[i..], value, i);
  }

  lemma DecodingMore(data: bytes, i: nat, value: nat)
    requires Decoding(data, i, value) && i < |data| && i < 9 && data[i] >= 128
    ensures Decoding(data, i + 1, value + Shl64(data[i] % 128, 7 * i))
  {
    ResumeMore(data[i..], value, i, 10 - i, data[i] % 128);
    DropDrop(data, i, 1);
  }

  lemma DecodingNone(data: bytes, i: nat, value: nat)
    requires Decoding(data, i, value) && (i == |data| || (i == 9 && data[i] >= 128))
    ensures Decode(data).None?
  {
  }

  /** The byte loop: `value` and `shift` grow until a byte without the continuation bit. */
  method DecodeVarint(data: bytes) returns (r: Option<(nat, nat)>)
    ensures r == Decode(data)
  {
    var value: nat := 0;
    var shift := 0;
    DecodingStart(data);
    for i := 0 to |data|
      invariant shift == 7 * i && Decoding(data, i, value)
    {
      var byte := data[i];
      var part := Shl64(byte % 128, shift);
      if byte < 128 {
        DecodingLast(data, i, value);
      } else if i < 9 {
        DecodingMore(data, i, value);
      } else {
        DecodingNone(data, i, value);
      }
      value := value + part;
      if byte < 128 {
        return Some((value, i + 1));
      }
      shift := shift + 7;
      if shift > 63 {
        return None;
      }
    }
    DecodingNone(data, |data|, value);
    return None;
  }

  /** The byte that one turn of the encoder writes. */
  function EncoderByte(v: nat): byte {
    if v / 128 != 0 then v % 128 + 128 else v % 128
  }

  lemma EncodeTurn(v: nat)
    ensures v / 128 == 0 ==> Encode(v) == [EncoderByte(v)]
    ensures v / 128 != 0 ==> v / 128 < v && Encode(v) == [EncoderByte(v)] + Encode(v / 128)
  {
  }

  /** Writes the encoding into the caller's ten-byte buffer and returns its length. */
  method EncodeVarintToBuf(value: nat, buf: array<byte>) returns (n: nat)
    requires value < U64 && buf.Length == MAX_VARINT_LEN
    modifies buf
    ensures n == |Encode(value)| && n <= MAX_VARINT_LEN
    ensures buf[..n] == Encode(value)
    ensures forall j :: n <= j < MAX_VARINT_LEN ==> buf[j] == old(buf[j])
  {
    ghost var whole := Encode(value);
    RoundTrip(value, []);
    var rest := value;
    n := 0;
    while true
      invariant n + |Encode(rest)| == |whole| <= MAX_VARINT_LEN
      invariant buf[..n] + Encode(rest) == whole
      invariant forall j :: n <= j < MAX_VARINT_LEN ==> buf[j] == old(buf[j])
      decreases rest
    {
      EncodeTurn(rest);
      var byte := rest % 128;
      rest := rest / 128;
      if rest != 0 {
        byte := byte + 128;
      }
      ghost var done := buf[..n];
      buf[n] := byte;
      n := n + 1;
      assert buf[..n] == done + [byte];
      if rest == 0 {
        break;
      }
      Assoc(done, [byte], Encode(rest));
    }
  }

  // ----- what a varint says -----

  /** Seven bits a byte, the first byte least significant. */
  function Value(s: bytes): nat {
    if s == [] then 0 else s[0] % 128 + 128 * Value(s[1..])
  }

  /** The first `n` bytes are one varint: only the last of them has no continuation bit. */
  predicate EndsAt(d: bytes, n: nat) {
    && 1 <= n <= |d| && d[n - 1] < 128
    && forall i :: 0 <= i < n - 1 ==> d[i] >= 128
  }

  /** The bytes that count when `k` are allowed: of the last allowed byte only the lowest bit does. */
  function Counted(d: bytes, n: nat, k: nat): bytes
    requires 1 <= n <= |d|
  {
    if n < k then d[..n] else d[..n - 1] + [d[n - 1] % 2]
  }

  lemma CountedTail(d: bytes, n: nat, k: nat)
    requires 2 <= n <= |d| && n <= k
    ensures Counted(d, n, k)[0] == d[0] && Counted(d, n, k)[1..] == Counted(d[1..], n - 1, k - 1)
  {
  }

  lemma EndsTail(d: bytes, n: nat)
    requires EndsAt(d, n) && n >= 2
    ensures d[0] >= 128 && EndsAt(d[1..], n - 1)
  {
    assert forall i :: 0 <= i < n - 2 ==> d[1..][i] == d[i + 1];
  }

  lemma {:induction false} DecodeUpToMeaning(d: bytes, n: nat, k: nat)
    requires EndsAt(d, n) && n <= k
    ensures DecodeUpTo(d, k) == Some((Value(Counted(d, n, k)), n))
    decreases n
  {
    if n == 1 {
      assert Counted(d, n, k)[1..] == [];
    } else {
      EndsTail(d, n);
      DecodeUpToMeaning(d[1..], n - 1, k - 1);
      CountedTail(d, n, k);
      DecodeMore(d, k, d[0] - 128);
    }
  }

  /** A varint decodes to its value; of a tenth byte only the lowest bit counts. */
  lemma DecodeMeaning(d: bytes, n: nat)
    requires EndsAt(d, n) && n <= 10
    ensures n < 10 ==> Decode(d) == Some((Value(d[..n]), n))
    ensures n == 10 ==> Decode(d) == Some((Value(d[..9] + [d[9] % 2]), 10))
  {
    DecodeUpToMeaning(d, n, MAX_VARINT_LEN);
  }

  lemma {:induction false} DecodedEnds(d: bytes, k: nat)
    requires 1 <= k && DecodeUpTo(d, k).Some?
    ensures EndsAt(d, DecodeUpTo(d, k).value.1) && DecodeUpTo(d, k).value.1 <= k
    decreases k
  {
    if d[0] < 128 {
    } else {
      DecodedEnds(d[1..], k - 1);
      EndsCons(d, DecodeUpTo(d[1..], k - 1).value.1);
    }
  }

  lemma EndsCons(d: bytes, n: nat)
    requires d != [] && d[0] >= 128 && EndsAt(d[1..], n)
    ensures EndsAt(d, n + 1)
  {
    assert forall i :: 0 < i < n ==> d[i] == d[1..][i - 1];
  }

  /** Nothing else decodes: a longer run of continuation bits, or one that is cut off. */
  lemma DecodeNoneExactly(d: bytes)
    ensures Decode(d).None? <==> forall n: nat :: n <= 10 ==> !EndsAt(d, n)
  {
    if Decode(d).Some? {
      DecodedEnds(d, MAX_VARINT_LEN);
    }
    forall n: nat | n <= 10 && EndsAt(d, n) ensures Decode(d).Some? {
      DecodeMeaning(d, n);
    }
  }

  lemma ValueCons(low: nat, rest: bytes)
    requires low < 128
    ensures Value([128 + low] + rest) == low + 128 * Value(rest)
  {
    TailOfSum([128 + low], rest);
  }

  /** One whole varint with this value, which no shorter one has. */
  predicate Denotes(s: bytes, v: nat) {
    EndsAt(s, |s|) && Value(s) == v && (v != 0 ==> s[|s| - 1] != 0)
  }

  lemma DenotesCons(low: nat, high: nat, rest: bytes)
    requires low < 128 && high > 0 && Denotes(rest, high)
    ensures Denotes([128 + low] + rest, low + 128 * high)
  {
    ValueCons(low, rest);
    WholeCons(low, rest, [128 + low] + rest);
  }

  lemma WholeCons(low: nat, rest: bytes, x: bytes)
    requires low < 128 && EndsAt(rest, |rest|) && x == [128 + low] + rest
    ensures EndsAt(x, |x|) && x[|x| - 1] == rest[|rest| - 1]
  {
    assert forall i :: 0 < i < |x| ==> x[i] == rest[i - 1];
  }

  /** The encoding denotes the value. */
  lemma {:induction false} EncodeMeaning(v: nat)
    ensures Denotes(Encode(v), v)
  {
    if v < 128 {
      assert [v][1..] == [];
    } else {
      var high := v / 128;
      EncodeMeaning(high);
      DenotesCons(v % 128, high, Encode(high));
    }
  }
}
