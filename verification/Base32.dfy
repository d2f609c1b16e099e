/** Positional notation: a number as a fixed count of digits, most significant first. */
module Positional {

  function Pow(b: nat, k: nat): nat { if k == 0 then 1 else b * Pow(b, k - 1) }

  function ToDigits(n: nat, b: nat, len: nat): (s: seq<nat>)
    requires b > 0
    ensures |s| == len && forall i :: 0 <= i < len ==> s[i] < b
    decreases len
  {
    if len == 0 then [] else ToDigits(n / b, b, len - 1) + [n % b]
  }

  function FromDigits(s: seq<nat>, b: nat): nat {
    if s == [] then 0 else FromDigits(s[..|s| - 1], b) * b + s[|s| - 1]
  }

  lemma Monotone(a: int, b: int, c: nat)
    requires a <= b
    ensures a * c <= b * c
  {
  }

  /** Quotient and remainder are determined by their product and sum. */
  lemma DivIs(n: nat, b: nat, q: nat, r: nat)
    requires r < b && n == q * b + r
    ensures n / b == q && n % b == r
  {
    var d, m := n / b, n % b;
    assert n == d * b + m;
    if q < d {
      Monotone(q + 1, d, b);
    } else if d < q {
      Monotone(d + 1, q, b);
    }
  }

  lemma Divide(n: nat, b: nat) returns (q: nat, r: nat)
    requires b > 0
    ensures q == n / b && r == n % b && r < b && n == q * b + r
  {
    q, r := n / b, n % b;
  }

  /** Two levels of division with remainder as one. */
  lemma TwoLevels(q: nat, p: nat, r: nat, b: nat, y: nat)
    requires r < p && y < b
    ensures (q * p + r) * b + y == q * (b * p) + (r * b + y)
    ensures r * b + y < b * p
  {
    Monotone(r + 1, p, b);
    Distribute(q, p, r, b);
  }

  lemma Distribute(q: nat, p: nat, r: nat, b: nat)
    ensures (q * p + r) * b == q * (b * p) + r * b
  {
    assert (q * p + r) * b == (q * p) * b + r * b;
    assert (q * p) * b == q * (p * b);
    assert p * b == b * p;
  }

  lemma PowPositive(b: nat, k: nat)
    requires b > 0
    ensures Pow(b, k) > 0
  {
  }

  lemma {:induction false} FromBound(s: seq<nat>, b: nat)
    requires b > 0 && forall i :: 0 <= i < |s| ==> s[i] < b
    ensures FromDigits(s, b) < Pow(b, |s|)
  {
    if s != [] {
      FromBound(s[..|s| - 1], b);
      var f, p := FromDigits(s[..|s| - 1], b), Pow(b, |s| - 1);
      Monotone(f + 1, p, b);
      assert (f + 1) * b == f * b + b;
      assert Pow(b, |s|) == b * p == p * b;
    }
  }

  lemma {:induction false} ToOfFrom(s: seq<nat>, b: nat)
    requires b > 0 && forall i :: 0 <= i < |s| ==> s[i] < b
    ensures ToDigits(FromDigits(s, b), b, |s|) == s
  {
    if s != [] {
      var front, last := s[..|s| - 1], s[|s| - 1];
      ToOfFrom(front, b);
      DivIs(FromDigits(s, b), b, FromDigits(front, b), last);
      assert s == front + [last];
    }
  }

  lemma {:induction false} FromOfTo(n: nat, b: nat, len: nat)
    requires b > 0 && n < Pow(b, len)
    ensures FromDigits(ToDigits(n, b, len), b) == n
    decreases len
  {
    if len > 0 {
      var q, r := Divide(n, b);
      BelowPower(n, b, Pow(b, len - 1), q, r);
      FromOfTo(q, b, len - 1);
      var s := ToDigits(n, b, len);
      assert s[..len - 1] == ToDigits(q, b, len - 1);
    }
  }

  lemma BelowPower(n: nat, b: nat, p: nat, q: nat, r: nat)
    requires n == q * b + r && n < b * p
    ensures q < p
  {
    if p <= q {
      Monotone(p, q, b);
    }
  }

  lemma ProductPositive(b: nat, p: nat)
    requires b > 0 && p > 0
    ensures b * p > 0
  {
  }

  lemma DivDiv(n: nat, b: nat, p: nat)
    requires b > 0 && p > 0
    ensures b * p > 0 && n / b / p == n / (b * p)
  {
    ProductPositive(b, p);
    var x, y := Divide(n, b);
    var q, r := Divide(x, p);
    TwoLevelsDiv(n, b, p, x, y, q, r);
  }

  lemma TwoLevelsDiv(n: nat, b: nat, p: nat, x: nat, y: nat, q: nat, r: nat)
    requires n == x * b + y && y < b && x == q * p + r && r < p && b * p > 0
    ensures n / (b * p) == q && n % (b * p) == r * b + y
  {
    TwoLevels(q, p, r, b, y);
    DivIs(n, b * p, q, r * b + y);
  }

  /** Taking the low digits and then the top one of them is shifting and taking the low one. */
  lemma ModDiv(n: nat, b: nat, p: nat)
    requires b > 0 && p > 0
    ensures p * b > 0 && n % (p * b) / p == n / p % b && n % (p * b) % p == n % p
  {
    ProductPositive(p, b);
    var x, y := Divide(n, p);
    var q, r := Divide(x, b);
    TwoLevelsDiv(n, p, b, x, y, q, r);
    DivIs(r * p + y, p, r, y);
  }

  lemma {:induction false} DigitAt(n: nat, b: nat, len: nat, i: nat)
    requires b > 0 && i < len
    ensures Pow(b, len - 1 - i) > 0 && ToDigits(n, b, len)[i] == n / Pow(b, len - 1 - i) % b
    decreases len
  {
    PowPositive(b, len - 1 - i);
    if i < len - 1 {
      DigitAt(n / b, b, len - 1, i);
      DivDiv(n, b, Pow(b, len - 2 - i));
    }
  }

  function Zeros(n: nat): (s: seq<nat>)
    ensures |s| == n && forall i :: 0 <= i < n ==> s[i] == 0
  {
    seq(n, i => 0)
  }

  lemma ZeroStep(z: nat)
    requires z > 0
    ensures Zeros(z) == Zeros(z - 1) + [0]
  {
  }

  lemma TimesPower(m: nat, b: nat, p: nat)
    requires b > 0
    ensures m * (b * p) == (m * p) * b
  {
  }

  /** Trailing zero digits are multiplication by a power. */
  lemma {:induction false} ToTrailing(m: nat, b: nat, len: nat, z: nat)
    requires b > 0
    ensures ToDigits(m * Pow(b, z), b, len + z) == ToDigits(m, b, len) + Zeros(z)
    decreases z
  {
    if z > 0 {
      var p := Pow(b, z - 1);
      TimesPower(m, b, p);
      DivIs(m * (b * p), b, m * p, 0);
      ToTrailing(m, b, len, z - 1);
      ZeroStep(z);
    }
  }

  lemma {:induction false} FromTrailing(s: seq<nat>, b: nat, z: nat)
    requires b > 0
    ensures FromDigits(s + Zeros(z), b) == FromDigits(s, b) * Pow(b, z)
    decreases z
  {
    if z == 0 {
      assert s + Zeros(0) == s;
    } else {
      FromTrailing(s, b, z - 1);
      ZeroStep(z);
      assert (s + Zeros(z))[..|s| + z - 1] == s + Zeros(z - 1);
      TimesPower(FromDigits(s, b), b, Pow(b, z - 1));
    }
  }

  /** Grouping: each digit in base b^k is k digits in base b. */
  function Flatten(s: seq<nat>, b: nat, k: nat): seq<nat>
    requires b > 0
  {
    if s == [] then [] else Flatten(s[..|s| - 1], b, k) + ToDigits(s[|s| - 1], b, k)
  }

  lemma {:induction false} FlattenAppend(s: seq<nat>, t: seq<nat>, b: nat, k: nat)
    requires b > 0
    ensures Flatten(s + t, b, k) == Flatten(s, b, k) + Flatten(t, b, k)
  {
    hide ToDigits;
    if t == [] {
      assert s + t == s;
    } else {
      var front, last := t[..|t| - 1], t[|t| - 1];
      FlattenAppend(s, front, b, k);
      assert (s + t)[..|s + t| - 1] == s + front && (s + t)[|s + t| - 1] == last;
      assert Flatten(s + t, b, k) == Flatten(s + front, b, k) + ToDigits(last, b, k);
    }
  }

  lemma {:induction false} SplitDigits(n: nat, b: nat, hi: nat, lo: nat)
    requires b > 0
    ensures Pow(b, lo) > 0 &&
            ToDigits(n, b, hi + lo) == ToDigits(n / Pow(b, lo), b, hi) + ToDigits(n % Pow(b, lo), b, lo)
    decreases lo
  {
    hide Pow, ToDigits;
    PowPositive(b, lo);
    if lo == 0 {
      SplitNothing(n, b, hi);
    } else {
      var p := Pow(b, lo - 1);
      PowPositive(b, lo - 1);
      PowStep(b, lo - 1);
      SplitDigits(n / b, b, hi, lo - 1);
      DivDiv(n, b, p);
      ModDiv(n, p, b);
      Commute(p, b);
      LastDigit(n, b, hi + lo);
      LastDigit(n % Pow(b, lo), b, lo);
    }
  }

  lemma SplitNothing(n: nat, b: nat, hi: nat)
    requires b > 0
    ensures Pow(b, 0) == 1 && ToDigits(n, b, hi) == ToDigits(n / 1, b, hi) + ToDigits(n % 1, b, 0)
  {
  }

  lemma LastDigit(n: nat, b: nat, len: nat)
    requires b > 0 && len > 0
    ensures ToDigits(n, b, len) == ToDigits(n / b, b, len - 1) + [n % b]
  {
  }

  lemma Commute(a: nat, b: nat)
    ensures a * b == b * a
  {
  }

  lemma PowStep(b: nat, k: nat)
    ensures Pow(b, k + 1) == b * Pow(b, k)
  {
  }

  lemma OneMore(z: nat, k: nat)
    requires z > 0
    ensures (z - 1) * k + k == z * k
  {
  }

  lemma FlattenLast(n: nat, p: nat, b: nat, k: nat, len: nat)
    requires p > 0 && b > 0 && len > 0
    ensures Flatten(ToDigits(n, p, len), b, k) == Flatten(ToDigits(n / p, p, len - 1), b, k) + ToDigits(n % p, b, k)
  {
    var s := ToDigits(n, p, len);
    assert s[..len - 1] == ToDigits(n / p, p, len - 1);
  }

  lemma FlattenNothing(n: nat, p: nat, b: nat, k: nat)
    requires p > 0 && b > 0
    ensures Flatten(ToDigits(n, p, 0), b, k) == ToDigits(n, b, 0 * k) == []
  {
  }

  lemma {:induction false} FlattenDigits(n: nat, b: nat, k: nat, len: nat)
    requires b > 0
    ensures Pow(b, k) > 0 && Flatten(ToDigits(n, Pow(b, k), len), b, k) == ToDigits(n, b, len * k)
    decreases len
  {
    hide Pow, ToDigits, Flatten;
    var p := Pow(b, k);
    PowPositive(b, k);
    if len == 0 {
      FlattenNothing(n, p, b, k);
    } else {
      FlattenDigits(n / p, b, k, len - 1);
      SplitDigits(n, b, (len - 1) * k, k);
      OneMore(len, k);
      FlattenLast(n, p, b, k, len);
    }
  }
}

/** Unpadded base 32 with the lower-case alphabet of section 6 of RFC 4648. */
module Base32 {
  import opened Positional

  type Byte = x: int | 0 <= x < 256

  const UINT64: nat := 0x1_0000_0000_0000_0000

  /* ---- the tables ---- */

  function Letter(d: nat): Byte
    requires d < 32
  {
    if d < 26 then 97 + d else 50 + (d - 26)
  }

  /** The decoding table; 127 marks an invalid character. Its last row is not written out, so the last
      eight bytes map to zero like the zero byte. */
  function Value(c: Byte): nat {
    if c == 0 || c >= 248 then 0
    else if 50 <= c <= 55 then c - 50 + 26
    else if 97 <= c <= 122 then c - 97
    else 127
  }

  /** The alphabet of section 6 of RFC 4648, in lower case. */
  const ALPHABET: string := "abcdefghijklmnopqrstuvwxyz234567"

  /** Each digit is written as its letter of the alphabet and read back from it. */
  lemma LettersAreTheAlphabet(d: nat)
    requires d < 32
    ensures Letter(d) as char == ALPHABET[d] && Value(ALPHABET[d] as int) == d
  {
    if d < 16 {
      match d
      case 0 => case 1 => case 2 => case 3 => case 4 => case 5 => case 6 => case 7 =>
      case 8 => case 9 => case 10 => case 11 => case 12 => case 13 => case 14 => case 15 =>
    } else {
      match d
      case 16 => case 17 => case 18 => case 19 => case 20 => case 21 => case 22 => case 23 =>
      case 24 => case 25 => case 26 => case 27 => case 28 => case 29 => case 30 => case 31 =>
    }
  }

  function Letters(digits: seq<nat>): (s: seq<Byte>)
    requires forall i :: 0 <= i < |digits| ==> digits[i] < 32
    ensures |s| == |digits|
  {
    seq(|digits|, i requires 0 <= i < |digits| => Letter(digits[i]))
  }

  function Values(text: seq<Byte>): (s: seq<nat>)
    ensures |s| == |text|
  {
    seq(|text|, i requires 0 <= i < |text| => Value(text[i]))
  }

  predicate AllDigits(s: seq<nat>, b: nat) { forall i :: 0 <= i < |s| ==> s[i] < b }

  lemma ValuesOfLetters(digits: seq<nat>)
    requires AllDigits(digits, 32)
    ensures Values(Letters(digits)) == digits
  {
  }

  /* ---- blocks ---- */

  function Block(src: seq<Byte>): (text: seq<Byte>)
    requires |src| == 5
    ensures |text| == 8
  {
    Letters(ToDigits(FromDigits(src, 256), 32, 8))
  }

  function Unblock(values: seq<nat>): (bytes: seq<Byte>)
    requires |values| == 8
    ensures |bytes| == 5
  {
    ToDigits(FromDigits(values, 32), 256, 5)
  }

  lemma UnblockBlock(src: seq<Byte>)
    requires |src| == 5
    ensures Values(Block(src)) == ToDigits(FromDigits(src, 256), 32, 8) && Unblock(Values(Block(src))) == src
  {
    var n := FromDigits(src, 256);
    ValuesOfLetters(ToDigits(n, 32, 8));
    FromBound(src, 256);
    assert Pow(256, 5) == Pow(32, 8);
    FromOfTo(n, 32, 8);
    ToOfFrom(src, 256);
  }

  /* ---- whole strings ---- */

  /** How many letters carry r bytes. */
  function TailLength(r: nat): nat { r * 8 / 5 + if r * 8 % 5 > 0 then 1 else 0 }

  function Encode(src: seq<Byte>): (text: seq<Byte>) {
    if |src| < 5 then Block(src + Zeros(5 - |src|))[..TailLength(|src|)]
    else Block(src[..5]) + Encode(src[5..])
  }

  datatype Decoded = Decoded(ok: bool, bytes: seq<Byte>)

  function Decode(text: seq<Byte>): Decoded {
    if |text| < 8 then
      var values := Values(text + Zeros(8 - |text|));
      if AllDigits(values, 32) then Decoded(true, Unblock(values)[..|text| * 5 / 8]) else Decoded(false, [])
    else
      var values := Values(text[..8]);
      if AllDigits(values, 32) then
        var rest := Decode(text[8..]);
        Decoded(rest.ok, Unblock(values) + rest.bytes)
      else Decoded(false, [])
  }

  function Factor(r: nat): nat {
    match r
    case 0 => 1
    case 1 => 4
    case 2 => 16
    case 3 => 2
    case _ => 8
  }

  lemma TailPower(r: nat)
    requires r < 5
    ensures TailLength(r) <= 7 && Pow(256, 5 - r) == Factor(r) * Pow(32, 8 - TailLength(r))
  {
    match r
    case 0 => assert Pow(256, 5) == Pow(32, 8);
    case 1 => assert Pow(256, 4) == 4 * Pow(32, 6);
    case 2 => assert Pow(256, 3) == 16 * Pow(32, 4);
    case 3 => assert Pow(256, 2) == 2 * Pow(32, 3);
    case 4 => assert Pow(256, 1) == 8 * Pow(32, 1);
  }

  lemma Associate(n: nat, m: nat, q: nat, f: nat, p: nat)
    requires n == m * q && q == f * p
    ensures n == (m * f) * p
  {
  }

  lemma TailNumber(src: seq<Byte>) returns (g: nat)
    requires |src| < 5
    ensures TailLength(|src|) <= 7
    ensures FromDigits(src + Zeros(5 - |src|), 256) == g * Pow(32, 8 - TailLength(|src|))
  {
    hide Pow, FromDigits, Factor, TailLength;
    var r, m := |src|, FromDigits(src, 256);
    g := m * Factor(r);
    TailPower(r);
    FromTrailing(src, 256, 5 - r);
    Associate(FromDigits(src + Zeros(5 - r), 256), m, Pow(256, 5 - r), Factor(r), Pow(32, 8 - TailLength(r)));
  }

  lemma SplitTrailing(n: nat, g: nat, len: nat, z: nat)
    requires n == g * Pow(32, z)
    ensures var digits := ToDigits(n, 32, len + z); digits == digits[..len] + Zeros(z)
  {
    hide Pow, ToDigits;
    ToTrailing(g, 32, len, z);
    var high := ToDigits(g, 32, len);
    assert (high + Zeros(z))[..len] == high;
  }

  /** The last, incomplete block: the letters left out stand for zero digits. */
  lemma TailDigits(src: seq<Byte>)
    requires |src| < 5
    ensures var digits := ToDigits(FromDigits(src + Zeros(5 - |src|), 256), 32, 8);
            TailLength(|src|) <= 7 &&
            digits == digits[..TailLength(|src|)] + Zeros(8 - TailLength(|src|))
  {
    hide Pow, ToDigits, FromDigits, TailLength;
    var g := TailNumber(src);
    SplitTrailing(FromDigits(src + Zeros(5 - |src|), 256), g, TailLength(|src|), 8 - TailLength(|src|));
  }

  lemma TailValues(text: seq<Byte>, digits: seq<nat>, len: nat)
    requires |text| == |digits| == 8 && len <= 8 && Values(text) == digits
    requires digits == digits[..len] + Zeros(8 - len)
    ensures Values(text[..len] + Zeros(8 - len)) == digits
  {
    var padded := text[..len] + Zeros(8 - len);
    forall i | 0 <= i < 8
      ensures Values(padded)[i] == digits[i]
    {
      assert Values(text)[i] == Value(text[i]);
    }
  }

  lemma DecodeShort(text: seq<Byte>, values: seq<nat>)
    requires |text| < 8 && values == Values(text + Zeros(8 - |text|)) && AllDigits(values, 32)
    ensures Decode(text) == Decoded(true, Unblock(values)[..|text| * 5 / 8])
  {
    hide Unblock, ToDigits, FromDigits, Values, Zeros;
  }

  lemma EncodeShort(src: seq<Byte>)
    requires |src| < 5
    ensures Encode(src) == Block(src + Zeros(5 - |src|))[..TailLength(|src|)]
    ensures TailLength(|src|) <= 7 && TailLength(|src|) * 5 / 8 == |src|
  {
    hide Block, ToDigits, FromDigits, Zeros;
  }

  lemma TailRoundTrip(src: seq<Byte>)
    requires |src| < 5
    ensures Decode(Encode(src)) == Decoded(true, src)
  {
    hide Pow, ToDigits, FromDigits, Values, Block, Unblock, Encode, Decode, TailLength, Zeros;
    var full, len := src + Zeros(5 - |src|), TailLength(|src|);
    EncodeShort(src);
    TailDigits(src);
    UnblockBlock(full);
    var values := Values(Block(full));
    TailValues(Block(full), values, len);
    DecodeShort(Block(full)[..len], values);
    assert full[..|src|] == src;
  }

  /** Decoding undoes encoding on every byte string. */
  lemma {:induction false} RoundTrip(src: seq<Byte>)
    ensures Decode(Encode(src)) == Decoded(true, src)
  {
    hide Block, Unblock, ToDigits, FromDigits, Zeros, Values;
    if |src| < 5 {
      TailRoundTrip(src);
    } else {
      RoundTrip(src[5..]);
      UnblockBlock(src[..5]);
      var text := Encode(src);
      assert text[..8] == Block(src[..5]) && text[8..] == Encode(src[5..]);
      assert src == src[..5] + src[5..];
    }
  }

  /** The encoding uses only the alphabet: lower-case letters and the digits two to seven. */
  lemma {:induction false} EncodeAlphabet(src: seq<Byte>)
    ensures forall c :: c in Encode(src) ==> 97 <= c <= 122 || 50 <= c <= 55
  {
    if |src| >= 5 {
      EncodeAlphabet(src[5..]);
    }
  }

  /* ---- the definition by bits ---- */

  function BytesToBits(src: seq<Byte>): seq<nat> { Flatten(src, 2, 8) }

  function TextToBits(text: seq<Byte>): seq<nat> { Flatten(Values(text), 2, 5) }

  lemma BlockBits(src: seq<Byte>)
    requires |src| == 5
    ensures TextToBits(Block(src)) == BytesToBits(src) == ToDigits(FromDigits(src, 256), 2, 40)
  {
    var n := FromDigits(src, 256);
    UnblockBlock(src);
    assert Pow(2, 5) == 32 && Pow(2, 8) == 256;
    FlattenDigits(n, 2, 5, 8);
    FlattenDigits(n, 2, 8, 5);
    ToOfFrom(src, 256);
  }

  lemma ZerosAppend(a: nat, b: nat)
    ensures Zeros(a) + Zeros(b) == Zeros(a + b)
  {
  }

  lemma {:induction false} FlattenZeros(z: nat, k: nat)
    ensures Flatten(Zeros(z), 2, k) == Zeros(z * k)
    decreases z
  {
    if z > 0 {
      FlattenZeros(z - 1, k);
      ToTrailing(0, 2, 0, k);
      OneMore(z, k);
      ZerosAppend((z - 1) * k, k);
      assert Zeros(z)[..z - 1] == Zeros(z - 1);
    }
  }

  lemma {:induction false} FlattenLength(s: seq<nat>, k: nat)
    ensures |Flatten(s, 2, k)| == |s| * k
  {
    if s != [] {
      FlattenLength(s[..|s| - 1], k);
      OneMore(|s|, k);
    }
  }

  /** What section 6 of RFC 4648 asks for: the letters' five-bit groups, in order, are the bits of the
      bytes followed by fewer than five zero bits. */
  lemma {:induction false} EncodeIsBits(src: seq<Byte>)
    ensures var pad := |Encode(src)| * 5 - |src| * 8;
            0 <= pad < 5 && TextToBits(Encode(src)) == BytesToBits(src) + Zeros(pad)
  {
    hide Pow, ToDigits, FromDigits, Values, Block, Flatten;
    if |src| < 5 {
      TailBits(src);
    } else {
      EncodeIsBits(src[5..]);
      BlockBits(src[..5]);
      TextAppend(Block(src[..5]), Encode(src[5..]));
      FlattenAppend(src[..5], src[5..], 2, 8);
      assert src == src[..5] + src[5..];
    }
  }

  lemma TextAppend(a: seq<Byte>, b: seq<Byte>)
    ensures TextToBits(a + b) == TextToBits(a) + TextToBits(b)
  {
    assert Values(a + b) == Values(a) + Values(b);
    FlattenAppend(Values(a), Values(b), 2, 5);
  }

  lemma TailBits(src: seq<Byte>)
    requires |src| < 5
    ensures var pad := |Encode(src)| * 5 - |src| * 8;
            0 <= pad < 5 && TextToBits(Encode(src)) == BytesToBits(src) + Zeros(pad)
  {
    hide Pow, ToDigits, FromDigits, Values, Block, Flatten;
    var z, len := 5 - |src|, TailLength(|src|);
    var full := src + Zeros(z);
    BlockBits(full);
    FlattenAppend(src, Zeros(z), 2, 8);
    FlattenZeros(z, 8);
    var text := Block(full);
    TextAppend(text[..len], text[len..]);
    assert text == text[..len] + text[len..];
    FlattenLength(Values(text[..len]), 5);
    FlattenLength(src, 8);
    assert TextToBits(Encode(src)) == (BytesToBits(src) + Zeros(z * 8))[..len * 5];
  }

  /* ---- the code's loops over a 64-bit buffer ---- */

  function ShiftLeft(n: nat, k: nat): nat { n * Pow(2, k) % UINT64 }

  function ShiftRight(n: nat, k: nat): nat
  {
    PowPositive(2, k);
    n / Pow(2, k)
  }

  lemma Below(f: nat, b: nat, p: nat)
    requires f < p && b > 0
    ensures f * b < b * p
  {
    Monotone(f + 1, p, b);
  }

  lemma OneDigitMore(s: seq<nat>, i: nat, b: nat)
    requires i < |s|
    ensures FromDigits(s[..i + 1], b) == FromDigits(s[..i], b) * b + s[i]
  {
    assert s[..i + 1][..i] == s[..i];
  }

  /** Shifting in the next digit; the bits it is or-ed into are zero, so this is addition. */
  lemma PushDigit(s: seq<nat>, i: nat, b: nat, k: nat)
    requires i < |s| && AllDigits(s, b) && b == Pow(2, k) && Pow(b, i + 1) <= UINT64
    ensures ShiftLeft(FromDigits(s[..i], b), k) + s[i] == FromDigits(s[..i + 1], b)
  {
    hide Pow, FromDigits;
    var f := FromDigits(s[..i], b);
    PowPositive(2, k);
    FromBound(s[..i], b);
    PowStep(b, i);
    Below(f, b, Pow(b, i));
    OneDigitMore(s, i, b);
  }

  lemma PowNothing(b: nat, y: nat)
    ensures Pow(b, 0) * Pow(b, y) == Pow(b, 0 + y)
  {
    assert Pow(b, 0) == 1;
  }

  lemma {:induction false} PowAdd(b: nat, x: nat, y: nat)
    ensures Pow(b, x) * Pow(b, y) == Pow(b, x + y)
    decreases x
  {
    hide Pow;
    if x == 0 {
      PowNothing(b, y);
    } else {
      PowAdd(b, x - 1, y);
      PowStep(b, x - 1);
      PowStep(b, x - 1 + y);
      Associate(b * Pow(b, x - 1 + y), b, Pow(b, x - 1 + y), Pow(b, x - 1), Pow(b, y));
    }
  }

  lemma {:induction false} PowThirtyTwo(j: nat)
    ensures Pow(32, j) == Pow(2, j * 5)
  {
    if j > 0 {
      PowThirtyTwo(j - 1);
      PowAdd(2, 5, (j - 1) * 5);
      assert Pow(2, 5) == 32;
    }
  }

  lemma Powers(j: nat)
    requires j < 8
    ensures Pow(2, 24 + (7 - j) * 5) * Pow(32, j + 1) == UINT64 && Pow(2, j * 5) == Pow(32, j)
  {
    hide Pow;
    PowThirtyTwo(j);
    PowThirtyTwo(j + 1);
    PowAdd(2, 24 + (7 - j) * 5, (j + 1) * 5);
    assert 24 + (7 - j) * 5 + (j + 1) * 5 == 64;
    SixtyFourBits();
  }

  lemma SixtyFourBits()
    ensures Pow(2, 64) == UINT64
  {
    assert Pow(2, 8) == 0x100;
    PowAdd(2, 8, 8);
    PowAdd(2, 16, 16);
    PowAdd(2, 32, 32);
  }

  /** Shifting left and right again keeps the low digits. */
  lemma ShiftOut(n: nat, j: nat)
    requires j < 8
    ensures Pow(32, j + 1) > 0
    ensures var k := 24 + (7 - j) * 5; ShiftRight(ShiftLeft(n, k), k) == n % Pow(32, j + 1)
  {
    hide Pow;
    Powers(j);
    var p, q := Pow(2, 24 + (7 - j) * 5), Pow(32, j + 1);
    PowPositive(2, 24 + (7 - j) * 5);
    PowPositive(32, j + 1);
    ModDiv(n * p, q, p);
    DivIs(n * p, p, n, 0);
  }

  lemma NextDigit(n: nat, buffer: nat, j: nat)
    requires j < 8 && Pow(32, j + 1) > 0 && buffer == n % Pow(32, j + 1)
    ensures ShiftRight(buffer, j * 5) == ToDigits(n, 32, 8)[7 - j]
    ensures Pow(32, j) > 0 && buffer % Pow(32, j) == n % Pow(32, j)
  {
    hide ToDigits;
    var p := Pow(32, j);
    assert Pow(32, j + 1) == p * 32;
    DigitOf(n, buffer, j, p);
  }

  lemma DigitOf(n: nat, buffer: nat, j: nat, p: nat)
    requires j < 8 && p == Pow(32, j) && p > 0 && buffer == n % (p * 32)
    ensures ShiftRight(buffer, j * 5) == ToDigits(n, 32, 8)[7 - j] && buffer % p == n % p
  {
    hide ToDigits, Pow;
    Powers(j);
    ModDiv(n, 32, p);
    DigitAt(n, 32, 8, 7 - j);
  }

  /** `base32_encode_block`. */
  method EncodeBlock(res: array<Byte>, src: seq<Byte>)
    requires res.Length == 8 && |src| == 5
    modifies res
    ensures res[..] == Block(src)
  {
    hide ToDigits, FromDigits, ShiftLeft, ShiftRight, Pow;
    var buffer: nat := PackBytes(src);
    ghost var n := FromDigits(src, 256);
    ghost var digits := ToDigits(n, 32, 8);
    assert buffer == n;
    var i := 0;
    while i < 8
      invariant i <= 8
      invariant i == 0 ==> buffer == n
      invariant i > 0 ==> Pow(32, 8 - i) > 0 && buffer % Pow(32, 8 - i) == n % Pow(32, 8 - i)
      invariant forall x :: 0 <= x < i ==> res[x] == Letter(digits[x])
    {
      var j := 7 - i;
      var k := 24 + (7 - j) * 5;
      ShiftOut(buffer, j);
      buffer := ShiftLeft(buffer, k);
      buffer := ShiftRight(buffer, k);
      NextDigit(n, buffer, j);
      var c := ShiftRight(buffer, j * 5) % 256;
      res[7 - j] := Letter(c);
      i := i + 1;
    }
    assert res[..] == Block(src);
  }

  method PackBytes(src: seq<Byte>) returns (buffer: nat)
    requires |src| == 5
    ensures buffer == FromDigits(src, 256)
  {
    buffer := 0;
    var i := 0;
    while i < 5
      invariant i <= 5 && buffer == FromDigits(src[..i], 256)
    {
      BytePower(i);
      PushDigit(src, i, 256, 8);
      if i != 0 {
        buffer := ShiftLeft(buffer, 8);
      }
      buffer := buffer + src[i];
      i := i + 1;
    }
    assert src[..5] == src;
  }

  lemma BytePower(i: nat)
    requires i < 8
    ensures Pow(2, 8) == 256 && Pow(256, i + 1) <= UINT64
  {
    match i
    case 0 => assert Pow(256, 1) <= UINT64;
    case 1 => assert Pow(256, 2) <= UINT64;
    case 2 => assert Pow(256, 3) <= UINT64;
    case 3 => assert Pow(256, 4) <= UINT64;
    case 4 => assert Pow(256, 5) <= UINT64;
    case 5 => assert Pow(256, 6) <= UINT64;
    case 6 => assert Pow(256, 7) <= UINT64;
    case 7 => assert Pow(256, 8) <= UINT64;
  }

  /** `base32_decode_block`: fails, leaving the output alone, on a character outside the table. */
  method DecodeBlock(res: array<Byte>, src: seq<Byte>) returns (ok: bool)
    requires res.Length == 5 && |src| == 8
    modifies res
    ensures ok == AllDigits(Values(src), 32)
    ensures res[..] == if ok then Unblock(Values(src)) else old(res[..])
  {
    hide ToDigits, FromDigits, ShiftLeft, ShiftRight, Pow;
    var buffer: nat;
    ok, buffer := PackLetters(src);
    if !ok {
      return;
    }
    ghost var bytes := ToDigits(buffer, 256, 5);
    var i := 0;
    while i < 5
      invariant i <= 5
      invariant forall x :: 0 <= x < i ==> res[x] == bytes[x]
    {
      ByteOf(buffer, i);
      var j := 4 - i;
      res[4 - j] := ShiftRight(buffer, j * 8) % 256;
      i := i + 1;
    }
    assert res[..] == Unblock(Values(src));
  }

  lemma ByteOf(n: nat, i: nat)
    requires i < 5
    ensures ShiftRight(n, (4 - i) * 8) % 256 == ToDigits(n, 256, 5)[i]
  {
    hide ToDigits;
    PowTwoFiftySix(4 - i);
    DigitAt(n, 256, 5, i);
  }

  lemma {:induction false} PowTwoFiftySix(j: nat)
    ensures Pow(256, j) == Pow(2, j * 8)
  {
    if j > 0 {
      PowTwoFiftySix(j - 1);
      PowAdd(2, 8, (j - 1) * 8);
      assert Pow(2, 8) == 256;
    }
  }

  method PackLetters(src: seq<Byte>) returns (ok: bool, buffer: nat)
    requires |src| == 8
    ensures ok == AllDigits(Values(src), 32)
    ensures ok ==> buffer == FromDigits(Values(src), 32)
  {
    ghost var values := Values(src);
    buffer := 0;
    var i := 0;
    while i < 8
      invariant i <= 8 && AllDigits(values[..i], 32) && buffer == FromDigits(values[..i], 32)
    {
      if i != 0 {
        buffer := ShiftLeft(buffer, 5);
      }
      var dec := Value(src[i]);
      if dec >= 32 {
        assert values[i] >= 32;
        return false, 0;
      }
      PushLetter(values, i);
      buffer := buffer + dec;
      i := i + 1;
    }
    assert values[..8] == values;
    ok := true;
  }

  lemma PushLetter(values: seq<nat>, i: nat)
    requires i < |values| == 8 && AllDigits(values[..i], 32) && values[i] < 32
    ensures (if i == 0 then 0 else ShiftLeft(FromDigits(values[..i], 32), 5)) + values[i]
         == FromDigits(values[..i + 1], 32)
    ensures AllDigits(values[..i + 1], 32)
  {
    hide Pow, FromDigits, ShiftLeft;
    var s := values[..i + 1];
    assert s[..i] == values[..i] && s[..i + 1] == s;
    assert AllDigits(s, 32) by {
      forall x | 0 <= x < |s|
        ensures s[x] < 32
      {
        assert x < i ==> s[x] == values[..i][x];
      }
    }
    LetterPower(i);
    PushDigit(s, i, 32, 5);
    if i == 0 {
      NothingShifted();
      assert values[..0] == [];
    }
  }

  lemma NothingShifted()
    ensures FromDigits([], 32) == 0 && ShiftLeft(0, 5) == 0
  {
  }

  lemma LetterPower(i: nat)
    requires i < 8
    ensures Pow(2, 5) == 32 && Pow(32, i + 1) <= UINT64
  {
    hide Pow;
    Powers(i);
    PowPositive(2, 24 + (7 - i) * 5);
    Monotone(1, Pow(2, 24 + (7 - i) * 5), Pow(32, i + 1));
    FiveBits();
  }

  lemma FiveBits()
    ensures Pow(2, 5) == 32
  {
  }

  /** `base32_encode`: appends the encoding. */
  method EncodeText(res: seq<Byte>, src: seq<Byte>) returns (out: seq<Byte>)
    ensures out == res + Encode(src)
  {
    hide Block, ToDigits, FromDigits, Encode;
    var d, r := |src| / 5, |src| % 5;
    out := res;
    var buf := new Byte[8](_ => 0);
    var j := 0;
    while j < d
      invariant j <= d && out + Encode(src[j * 5..]) == res + Encode(src)
    {
      EncodeTurn(src, j);
      EncodeBlock(buf, src[j * 5..j * 5 + 5]);
      out := out + buf[..];
      j := j + 1;
    }
    var tail := src[|src| - r..];
    var padd := Padded(tail, 5);
    EncodeBlock(buf, padd);
    EncodeShort(tail);
    out := out + buf[..r * 8 / 5 + if r * 8 % 5 > 0 then 1 else 0];
  }

  lemma EncodeTurn(src: seq<Byte>, j: nat)
    requires j * 5 + 5 <= |src|
    ensures Encode(src[j * 5..]) == Block(src[j * 5..j * 5 + 5]) + Encode(src[(j + 1) * 5..])
  {
    hide Block;
    var s := src[j * 5..];
    assert s[..5] == src[j * 5..j * 5 + 5] && s[5..] == src[(j + 1) * 5..];
  }

  /** The zeroed buffer with the remaining bytes copied in. */
  method Padded(tail: seq<Byte>, n: nat) returns (s: seq<Byte>)
    requires |tail| <= n
    ensures s == tail + Zeros(n - |tail|)
  {
    var padd := new Byte[n](_ => 0);
    var i := 0;
    while i < |tail|
      invariant i <= |tail|
      invariant forall x :: 0 <= x < n ==> padd[x] == if x < i then tail[x] else 0
    {
      padd[i] := tail[i];
      i := i + 1;
    }
    s := padd[..];
  }

  /** `base32_decode`: appends what was decoded before the first bad block, or everything. */
  method DecodeText(res: seq<Byte>, src: seq<Byte>) returns (ok: bool, out: seq<Byte>)
    ensures ok == Decode(src).ok && out == res + Decode(src).bytes
  {
    hide Unblock, Values, ToDigits, FromDigits, Decode;
    var d, r := |src| / 8, |src| % 8;
    out := res;
    var buf := new Byte[5](_ => 0);
    var j := 0;
    while j < d
      invariant j <= d && out + Decode(src[j * 8..]).bytes == res + Decode(src).bytes
      invariant Decode(src[j * 8..]).ok == Decode(src).ok
    {
      DecodeTurn(src, j);
      ok := DecodeBlock(buf, src[j * 8..j * 8 + 8]);
      if !ok {
        return;
      }
      out := out + buf[..];
      j := j + 1;
    }
    var tail := src[|src| - r..];
    assert tail == src[j * 8..];
    var padd := Padded(tail, 8);
    DecodeTail(tail);
    ok := DecodeBlock(buf, padd);
    if ok {
      out := out + buf[..r * 5 / 8];
    }
  }

  lemma DecodeTurn(src: seq<Byte>, j: nat)
    requires j * 8 + 8 <= |src|
    ensures var values := Values(src[j * 8..j * 8 + 8]);
            var rest := Decode(src[(j + 1) * 8..]);
            Decode(src[j * 8..]) ==
            if AllDigits(values, 32) then Decoded(rest.ok, Unblock(values) + rest.bytes) else Decoded(false, [])
  {
    hide Values, Unblock;
    var s := src[j * 8..];
    assert s[..8] == src[j * 8..j * 8 + 8] && s[8..] == src[(j + 1) * 8..];
  }

  lemma DecodeTail(text: seq<Byte>)
    requires |text| < 8
    ensures var values := Values(text + Zeros(8 - |text|));
            Decode(text) ==
            if AllDigits(values, 32) then Decoded(true, Unblock(values)[..|text| * 5 / 8]) else Decoded(false, [])
  {
    hide Values, Unblock, Zeros;
  }
}
