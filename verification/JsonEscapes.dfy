/** String escapes and number forms as a writer of JSON has them, written without regard to the parser,
    and the proof that the parser's tokens read them back. */
module JsonEscapes {
  import opened Common
  import opened JsonScan
  import opened JsonTokens

  /* ---- texts at a position ---- */

  predicate Has(s: string, p: nat, t: string) {
    p + |t| <= |s| && s[p..p + |t|] == t
  }

  lemma HasSplit(s: string, p: nat, a: string, b: string)
    requires Has(s, p, a + b)
    ensures Has(s, p, a) && Has(s, p + |a|, b)
  {
    var t := s[p..p + |a + b|];
    assert t == a + b;
    assert s[p..p + |a|] == t[..|a|] == a;
    assert s[p + |a|..p + |a| + |b|] == t[|a|..] == b;
  }

  lemma HasItself(t: string)
    ensures Has(t, 0, t)
  {
  }

  lemma HasChar(s: string, p: nat, t: string)
    requires Has(s, p, t)
    ensures forall i :: 0 <= i < |t| ==> s[p + i] == t[i]
  {
    assert forall i :: 0 <= i < |t| ==> s[p..p + |t|][i] == t[i];
  }

  lemma HasHead(s: string, p: nat, c: char, t: string)
    requires Has(s, p, [c] + t)
    ensures p < |s| && s[p] == c && Has(s, p + 1, t)
  {
    HasSplit(s, p, [c], t);
    assert s[p..p + 1][0] == s[p];
  }

  /* ---- writing strings ---- */

  /** The bytes with an escape of two characters, and its letter. */
  function ShortEscape(c: char): Option<char> {
    if c == '"' || c == '\\' || c == '/' then Some(c)
    else if c as int == 8 then Some('b')
    else if c as int == 12 then Some('f')
    else if c as int == 10 then Some('n')
    else if c as int == 13 then Some('r')
    else if c as int == 9 then Some('t')
    else None
  }

  const LOWER: string := "0123456789abcdef"
  const UPPER: string := "0123456789ABCDEF"

  function HexDigit(d: nat, upper: bool): char
    requires d < 16
  {
    if upper then UPPER[d] else LOWER[d]
  }

  /** Which of four digits are written in upper case. */
  datatype Cases = Cases(a: bool, b: bool, c: bool, d: bool)

  const LOWERCASE: Cases := Cases(false, false, false, false)

  function Four(a: nat, b: nat, c: nat, d: nat, upper: Cases): string
    requires a < 16 && b < 16 && c < 16 && d < 16
  {
    [HexDigit(a, upper.a), HexDigit(b, upper.b), HexDigit(c, upper.c), HexDigit(d, upper.d)]
  }

  /** A code unit as four hexadecimal digits. */
  function HexFour(code: nat, upper: Cases): (t: string)
    requires code < 0x10000
    ensures |t| == 4
  {
    Four(code / 4096, code / 256 % 16, code / 16 % 16, code % 16, upper)
  }

  predicate NeedsEscape(c: char) { ShortEscape(c).Some? || c < ' ' }

  /** One byte inside quotes: short escape, \u escape for other control characters, or itself. */
  function EscapedByte(c: char): (t: string)
    ensures t != ""
  {
    if ShortEscape(c).Some? then ['\\'] + [ShortEscape(c).value]
    else if c < ' ' then ['\\'] + (['u'] + HexFour(c as nat, LOWERCASE))
    else [c]
  }

  function Escaped(v: string): string {
    if v == "" then "" else EscapedByte(v[0]) + Escaped(v[1..])
  }

  lemma HexDigitReads(d: nat, upper: bool)
    requires d < 16
    ensures IsHex(HexDigit(d, upper)) && HexValue(HexDigit(d, upper)) == d
  {
    match d
    case 0 => case 1 => case 2 => case 3 => case 4 => case 5 => case 6 => case 7 =>
    case 8 => case 9 => case 10 => case 11 => case 12 => case 13 => case 14 => case 15 =>
  }

  lemma HexRunStep(s: string, p: nat, n: nat, code: nat, d: nat, upper: bool)
    requires p < |s| && n > 0 && d < 16 && s[p] == HexDigit(d, upper)
    ensures HexRun(s, p, n, code) == HexRun(s, p + 1, n - 1, code * 16 + d)
  {
    hide HexDigit;
    HexDigitReads(d, upper);
  }

  lemma FourReads(s: string, p: nat, a: nat, b: nat, c: nat, d: nat, upper: Cases)
    requires a < 16 && b < 16 && c < 16 && d < 16 && Has(s, p, Four(a, b, c, d, upper))
    ensures HexRun(s, p, 4, 0) == Ok(((a * 16 + b) * 16 + c) * 16 + d, p + 4)
  {
    hide HexRun, HexDigit;
    HasChar(s, p, Four(a, b, c, d, upper));
    assert s[p + 0] == HexDigit(a, upper.a) && s[p + 1] == HexDigit(b, upper.b);
    assert s[p + 2] == HexDigit(c, upper.c) && s[p + 3] == HexDigit(d, upper.d);
    HexRunStep(s, p, 4, 0, a, upper.a);
    HexRunStep(s, p + 1, 3, a, b, upper.b);
    HexRunStep(s, p + 2, 2, a * 16 + b, c, upper.c);
    HexRunStep(s, p + 3, 1, (a * 16 + b) * 16 + c, d, upper.d);
    HexRunEnds(s, p + 4, ((a * 16 + b) * 16 + c) * 16 + d);
  }

  lemma HexParts(code: nat)
    requires code < 0x10000
    ensures code / 4096 < 16
    ensures ((code / 4096 * 16 + code / 256 % 16) * 16 + code / 16 % 16) * 16 + code % 16 == code
  {
    assert code / 16 == code / 256 * 16 + code / 16 % 16;
    assert code / 256 == code / 4096 * 16 + code / 256 % 16;
  }

  lemma HexFourReads(s: string, p: nat, code: nat, upper: Cases)
    requires code < 0x10000 && Has(s, p, HexFour(code, upper))
    ensures HexRun(s, p, 4, 0) == Ok(code, p + 4)
  {
    hide HexRun, HexDigit, Has;
    HexParts(code);
    FourReads(s, p, code / 4096, code / 256 % 16, code / 16 % 16, code % 16, upper);
  }

  lemma HexRunEnds(s: string, p: nat, code: nat)
    requires p <= |s|
    ensures HexRun(s, p, 0, code) == Ok(code, p)
  {
  }

  lemma ShortReads(s: string, p: nat, c: char)
    requires ShortEscape(c).Some? && p < |s| && s[p] == ShortEscape(c).value
    ensures Escape(s, p) == Ok([c], p + 1)
  {
    hide HexRun, CodeBytes;
  }

  /** A \u escape is stored as the bytes of its code. */
  lemma UnicodeReads(s: string, p: nat, code: nat, upper: Cases)
    requires code < 0x10000 && Has(s, p, ['u'] + HexFour(code, upper))
    ensures Escape(s, p) == Ok(CodeBytes(code), p + 5)
  {
    hide HexRun, HexFour, CodeBytes, Has;
    HasHead(s, p, 'u', HexFour(code, upper));
    HexFourReads(s, p + 1, code, upper);
  }

  lemma HasOne(s: string, p: nat, c: char)
    requires Has(s, p, [c])
    ensures p < |s| && s[p] == c
  {
    assert s[p..p + 1][0] == s[p];
  }

  /** Reading one escaped byte gives the byte. */
  lemma EscapedByteReads(s: string, p: nat, c: char)
    requires Has(s, p, EscapedByte(c)) && NeedsEscape(c)
    ensures p + 1 < |s| && s[p] == '\\' && Escape(s, p + 1) == Ok([c], p + |EscapedByte(c)|)
  {
    hide Escape, ShortEscape, HexFour, Has;
    if ShortEscape(c).Some? {
      HasHead(s, p, '\\', [ShortEscape(c).value]);
      HasOne(s, p + 1, ShortEscape(c).value);
      ShortReads(s, p + 1, c);
    } else {
      HasHead(s, p, '\\', ['u'] + HexFour(c as nat, LOWERCASE));
      HasHead(s, p + 1, 'u', HexFour(c as nat, LOWERCASE));
      UnicodeReads(s, p + 1, c as nat, LOWERCASE);
    }
  }

  /** Parsing a quoted escaped string gives the string, whatever its bytes. */
  lemma {:induction false} EscapedReads(s: string, p: nat, v: string)
    requires Has(s, p, Escaped(v) + "\"")
    ensures Tail(s, p) == Ok(v, p + |Escaped(v)| + 1)
    decreases |v|
  {
    hide Escape, EscapedByte, Has, Tail, NeedsEscape;
    if v == "" {
      assert Escaped(v) + "\"" == ['"'] + "";
      HasHead(s, p, '"', "");
      TailEnds(s, p);
    } else {
      var first, rest := EscapedByte(v[0]), Escaped(v[1..]) + "\"";
      assert Escaped(v) + "\"" == first + rest;
      HasSplit(s, p, first, rest);
      EscapedReads(s, p + |first|, v[1..]);
      assert [v[0]] + v[1..] == v;
      if NeedsEscape(v[0]) {
        EscapedByteReads(s, p, v[0]);
        TailEscape(s, p);
      } else {
        PlainByte(s, p, v[0]);
        TailPlain(s, p);
      }
    }
  }

  lemma TailEnds(s: string, p: nat)
    requires p < |s| && s[p] == '"'
    ensures Tail(s, p) == Ok("", p + 1)
  {
  }

  lemma TailEscape(s: string, p: nat)
    requires p < |s| && s[p] == '\\' && Escape(s, p + 1).Ok?
    ensures Tail(s, p) == Onto(Escape(s, p + 1).value, Tail(s, Escape(s, p + 1).pos))
  {
    hide Escape;
  }

  lemma TailPlain(s: string, p: nat)
    requires p < |s| && s[p] != '"' && s[p] != '\\'
    ensures Tail(s, p) == Onto([s[p]], Tail(s, p + 1))
  {
  }

  lemma PlainByte(s: string, p: nat, c: char)
    requires Has(s, p, EscapedByte(c)) && !NeedsEscape(c)
    ensures p < |s| && s[p] == c && c != '"' && c != '\\' && EscapedByte(c) == [c]
  {
    HasChar(s, p, [c]);
    assert s[p + 0] == c;
  }

  predicate AnyEscape(v: string) { exists i :: 0 <= i < |v| && NeedsEscape(v[i]) }

  /** The same as a whole token: the value, and whether an escape was met. */
  lemma EscapedToken(s: string, p: nat, v: string)
    requires Has(s, p, Escaped(v) + "\"")
    ensures ParseString(s, p) == Ok(StringToken(v, AnyEscape(v)), p + |Escaped(v)| + 1)
    ensures StringEnd(s, p) == At(p + |Escaped(v)| + 1)
  {
    hide Tail, StringEnd, Escape, Scan;
    EscapedReads(s, p, v);
    FirstSpecial(s, p, v);
    ParseEndsLikeSkip(s, p);
    var q := Scan(StringSpecial, s, p);
    if !AnyEscape(v) {
      NothingEscaped(v);
      HasSplit(s, p, v, "\"");
    }
  }

  lemma {:induction false} NothingEscaped(v: string)
    requires !AnyEscape(v)
    ensures Escaped(v) == v
  {
    hide ShortEscape;
    if v != "" {
      assert !NeedsEscape(v[0]);
      assert forall i :: 0 <= i < |v[1..]| ==> v[1..][i] == v[i + 1];
      NothingEscaped(v[1..]);
    }
  }

  /** The scan stops at the closing quote, or at the first backslash if there is one. */
  lemma {:induction false} FirstSpecial(s: string, p: nat, v: string)
    requires Has(s, p, Escaped(v) + "\"")
    ensures var q := Scan(StringSpecial, s, p);
            q < |s| && if AnyEscape(v) then s[q] == '\\' else s[q] == '"' && q == p + |v|
    decreases |v|
  {
    hide Escape, EscapedByte, ShortEscape;
    if v == "" {
      assert Escaped(v) + "\"" == "\"";
      HasChar(s, p, "\"");
      assert s[p + 0] == '"';
    } else {
      var first, rest := EscapedByte(v[0]), Escaped(v[1..]) + "\"";
      assert Escaped(v) + "\"" == first + rest;
      HasSplit(s, p, first, rest);
      if NeedsEscape(v[0]) {
        EscapedByteReads(s, p, v[0]);
      } else {
        PlainByte(s, p, v[0]);
        FirstSpecial(s, p + 1, v[1..]);
        assert AnyEscape(v) <==> AnyEscape(v[1..]) by {
          if i :| 0 <= i < |v| && NeedsEscape(v[i]) {
            assert v[1..][i - 1] == v[i];
          }
          if i :| 0 <= i < |v[1..]| && NeedsEscape(v[1..][i]) {
            assert v[i + 1] == v[1..][i];
          }
        }
      }
    }
  }

  /* ---- UTF-8 ---- */

  predicate IsContinuation(c: char) { 0x80 <= c as int < 0xC0 }

  /** The code point that a sequence of one to three bytes encodes, as section 3 of RFC 3629 has it:
      the number of bytes from the first, six bits from each further one, and no longer than needed. */
  function Utf8Code(bytes: string): Option<nat> {
    if bytes == "" then None else
    var lead := bytes[0] as int;
    if lead < 0x80 then if |bytes| == 1 then Some(lead) else None
    else if 0xC0 <= lead < 0xE0 && |bytes| == 2 && IsContinuation(bytes[1]) then
      var code := (lead - 0xC0) * 0x40 + (bytes[1] as int - 0x80);
      if code < 0x80 then None else Some(code)
    else if 0xE0 <= lead < 0xF0 && |bytes| == 3 && IsContinuation(bytes[1]) && IsContinuation(bytes[2]) then
      var code := ((lead - 0xE0) * 0x40 + (bytes[1] as int - 0x80)) * 0x40 + (bytes[2] as int - 0x80);
      if code < 0x800 then None else Some(code)
    else None
  }

  /** Every \u escape, whatever the case of its digits, is stored as the UTF-8 encoding of its code unit. */
  lemma StoredIsUtf8(s: string, p: nat, code: nat, upper: Cases)
    requires code < 0x10000 && Has(s, p, ['u'] + HexFour(code, upper))
    ensures Escape(s, p).Ok? && Escape(s, p).pos == p + 5 && Utf8Code(Escape(s, p).value) == Some(code)
  {
    hide Escape;
    UnicodeReads(s, p, code, upper);
    CodeBytesDecode(code);
  }

  lemma CodeBytesDecode(code: nat)
    requires code < 0x10000
    ensures Utf8Code(CodeBytes(code)) == Some(code)
  {
    hide Utf8Code;
    if code < 0x80 {
      OneByte(code);
    } else if code < 0x800 {
      TwoBytes(code / 64, code % 64);
    } else {
      ThreeBytes(code / 4096, code / 64 % 64, code % 64);
      assert code / 64 == code / 4096 * 64 + code / 64 % 64;
    }
  }

  lemma OneByte(code: nat)
    requires code < 0x80
    ensures Utf8Code([code as char]) == Some(code)
  {
  }

  lemma TwoBytes(q: nat, r: nat)
    requires 2 <= q < 32 && r < 64
    ensures Utf8Code([(0xC0 + q) as char, (0x80 + r) as char]) == Some(q * 64 + r)
  {
  }

  lemma ThreeBytes(q: nat, m: nat, r: nat)
    requires q < 16 && m < 64 && r < 64 && q * 64 + m >= 32
    ensures Utf8Code([(0xE0 + q) as char, (0x80 + m) as char, (0x80 + r) as char]) == Some((q * 64 + m) * 64 + r)
  {
  }

  /* ---- writing numbers ---- */

  datatype Power = Power(mark: char, sign: string, digits: string)

  /** A number in its parts: sign, digits before the point, digits behind it, exponent. */
  datatype Form = Form(negative: bool, whole: string, point: bool, fraction: string, power: Option<Power>)

  predicate AllDec(t: string) { forall i :: 0 <= i < |t| ==> IsDec(t[i]) }

  /** Some digit before the exponent, a sign or a digit in front, and digits in the exponent. */
  predicate ProperForm(f: Form) {
    && AllDec(f.whole) && AllDec(f.fraction) && (!f.point ==> f.fraction == "")
    && (f.whole != "" || (f.negative && f.fraction != ""))
    && (f.power.Some? ==> ProperPower(f.power.value))
  }

  predicate ProperPower(e: Power) {
    && (e.mark == 'e' || e.mark == 'E') && (e.sign == "" || e.sign == "+" || e.sign == "-")
    && e.digits != "" && AllDec(e.digits)
  }

  function PowerText(e: Option<Power>): string {
    if e.None? then "" else [e.value.mark] + (e.value.sign + e.value.digits)
  }

  function PointText(f: Form): string { if f.point then ['.'] + f.fraction else "" }

  function FormText(f: Form): string {
    SignText(f) + (f.whole + (PointText(f) + PowerText(f.power)))
  }

  predicate IsNumber(t: string) {
    t != "" && StartsNumber(t[0]) && JsonTokens.Number(t, 0).Ok? && JsonTokens.Number(t, 0).pos == |t|
  }

  lemma {:induction false} DigitsSpan(t: string, p: nat, q: nat)
    requires p <= q <= |t| && (forall i :: p <= i < q ==> IsDec(t[i])) && (q < |t| ==> !IsDec(t[q]))
    ensures Digits(t, p) == q
    decreases q - p
  {
    if p < q {
      DigitsSpan(t, p + 1, q);
    }
  }

  /** A run of digits found at a position is what the digit scan passes. */
  lemma DigitsAt(t: string, p: nat, digits: string)
    requires Has(t, p, digits) && AllDec(digits) && (p + |digits| < |t| ==> !IsDec(t[p + |digits|]))
    ensures Digits(t, p) == p + |digits|
  {
    HasChar(t, p, digits);
    assert forall i :: p <= i < p + |digits| ==> t[i] == digits[i - p];
    DigitsSpan(t, p, p + |digits|);
  }

  /** The exponent, which ends the text. */
  lemma PowerReads(t: string, p: nat, e: Option<Power>, isFloat: bool)
    requires Has(t, p, PowerText(e)) && p + |PowerText(e)| == |t| && (e.Some? ==> ProperPower(e.value))
    ensures Exponent(t, p, isFloat) == Ok(isFloat || e.Some?, |t|)
  {
    hide Digits, Sign, Has, AllDec, IsDec;
    if e.Some? {
      PowerLayout(t, p, e.value);
      DigitsAt(t, p + 1 + |e.value.sign|, e.value.digits);
    }
  }

  lemma PowerLayout(t: string, p: nat, x: Power)
    requires ProperPower(x) && Has(t, p, [x.mark] + (x.sign + x.digits))
    ensures p + 1 + |x.sign| + |x.digits| <= |t| && t[p] == x.mark && Sign(t, p + 1) == p + 1 + |x.sign|
    ensures Has(t, p + 1 + |x.sign|, x.digits)
  {
    HasSplit(t, p, [x.mark], x.sign + x.digits);
    HasSplit(t, p + 1, x.sign, x.digits);
    HasChar(t, p, [x.mark]);
    assert t[p + 0] == x.mark;
    HasChar(t, p + 1, x.sign);
    HasChar(t, p + 1 + |x.sign|, x.digits);
    hide Has;
    if x.sign == "" {
      assert t[p + 1 + 0] == x.digits[0];
    } else {
      assert t[p + 1 + 0] == x.sign[0];
    }
  }

  /** What follows the digits before the point is not a digit. */
  lemma AfterWhole(t: string, b: nat, f: Form)
    requires ProperForm(f) && Has(t, b, PointText(f) + PowerText(f.power))
    requires |t| == b + |PointText(f) + PowerText(f.power)|
    ensures b < |t| ==> !IsDec(t[b]) && (t[b] == '.' <==> f.point)
    ensures b == |t| ==> !f.point
  {
    var rest := PointText(f) + PowerText(f.power);
    HasChar(t, b, rest);
    hide Has;
    assert rest != "" ==> t[b + 0] == rest[0];
  }

  /** What follows the fraction is the exponent or nothing. */
  lemma AfterPoint(t: string, c: nat, f: Form)
    requires ProperForm(f) && Has(t, c, PowerText(f.power)) && |t| == c + |PowerText(f.power)|
    ensures c < |t| ==> !IsDec(t[c])
  {
    var power := PowerText(f.power);
    HasChar(t, c, power);
    hide Has;
    assert power != "" ==> t[c + 0] == power[0];
  }

  lemma PointReads(t: string, b: nat, f: Form)
    requires f.point && AllDec(f.fraction) && Has(t, b, ['.'] + f.fraction)
    requires var c := b + 1 + |f.fraction|; c < |t| ==> !IsDec(t[c])
    ensures b < |t| && Digits(t, b + 1) == b + 1 + |f.fraction|
  {
    hide Digits, Has, AllDec, IsDec;
    HasHead(t, b, '.', f.fraction);
    DigitsAt(t, b + 1, f.fraction);
  }

  function SignText(f: Form): string { if f.negative then "-" else "" }

  /** Where the parts of a form stand in its text. */
  lemma FormLayout(f: Form)
    requires ProperForm(f)
    ensures var t, a := FormText(f), |SignText(f)|;
            var b := a + |f.whole|;
            var rest := PointText(f) + PowerText(f.power);
            && |t| == b + |rest| && t != "" && StartsNumber(t[0])
            && Has(t, a, f.whole) && Has(t, b, rest) && Has(t, b, PointText(f))
            && Has(t, b + |PointText(f)|, PowerText(f.power))
            && Sign(t, 0) == a
  {
    hide PowerText, ProperForm, PointText, Has, SignText, Sign, StartsNumber;
    var t, rest := FormText(f), PointText(f) + PowerText(f.power);
    var sign := SignText(f);
    FormStart(f);
    HasItself(t);
    HasSplit(t, 0, sign, f.whole + rest);
    HasSplit(t, |sign|, f.whole, rest);
    HasSplit(t, |sign| + |f.whole|, PointText(f), PowerText(f.power));
  }

  lemma FormStart(f: Form)
    requires ProperForm(f)
    ensures var t := FormText(f); t != "" && StartsNumber(t[0]) && Sign(t, 0) == |SignText(f)|
  {
    hide PowerText, ProperPower;
    var t, rest := FormText(f), PointText(f) + PowerText(f.power);
    if f.negative {
      assert t[0] == '-';
    } else {
      assert t == f.whole + rest;
      assert t[0] == f.whole[0];
    }
  }

  lemma MantissaOf(f: Form)
    requires ProperForm(f)
    ensures Mantissa(FormText(f), 0) == Ok(f.point, |SignText(f)| + |f.whole| + |PointText(f)|)
  {
    hide Digits, PowerText, ProperPower, Has, FormText, Sign;
    FormLayout(f);
    var t, a := FormText(f), |SignText(f)|;
    var b := a + |f.whole|;
    AfterWhole(t, b, f);
    DigitsAt(t, a, f.whole);
    if f.point {
      AfterPoint(t, b + |PointText(f)|, f);
      PointReads(t, b, f);
    }
  }

  /** Every proper form, exponents included, is one number token, a float exactly with point or exponent. */
  lemma FormReads(f: Form)
    requires ProperForm(f)
    ensures var t := FormText(f);
            IsNumber(t) && JsonTokens.Number(t, 0) == Ok(f.point || f.power.Some?, |t|)
  {
    hide Mantissa, Exponent, PowerText, Has, FormText, PointText, Sign;
    FormLayout(f);
    MantissaOf(f);
    PowerReads(FormText(f), |SignText(f)| + |f.whole| + |PointText(f)|, f.power, f.point);
  }

  lemma Slices(t: string, p: nat, a: nat, b: nat, c: nat, e: nat)
    requires p <= a <= b <= c <= e <= |t|
    ensures t[p..e] == t[p..a] + (t[a..b] + (t[b..c] + t[c..e]))
  {
  }

  /** And every number token, wherever it stands, is a proper form. */
  lemma NumberIsForm(t: string, p: nat) returns (f: Form)
    requires p < |t| && StartsNumber(t[p]) && JsonTokens.Number(t, p).Ok?
    ensures ProperForm(f) && FormText(f) == t[p..JsonTokens.Number(t, p).pos]
  {
    hide Digits, Exponent, ProperPower, PowerText, ProperForm, FormText;
    var a := Sign(t, p);
    var b := Digits(t, a);
    var point := b < |t| && t[b] == '.';
    var c := if point then Digits(t, b + 1) else b;
    assert Mantissa(t, p) == Ok(point, c);
    var power := PowerOf(t, c, point);
    f := FromParts(t, p, a, b, c, JsonTokens.Number(t, p).pos, point, power);
  }

  lemma FromParts(t: string, p: nat, a: nat, b: nat, c: nat, e: nat, point: bool, power: Option<Power>)
      returns (f: Form)
    requires p <= a <= b <= c <= e <= |t| && p < |t| && StartsNumber(t[p]) && a == Sign(t, p) && b == Digits(t, a)
    requires if point then b < c && t[b] == '.' && c == Digits(t, b + 1) else c == b
    requires b > a || c > b + 1
    requires (power.Some? ==> ProperPower(power.value)) && PowerText(power) == t[c..e]
    ensures ProperForm(f) && FormText(f) == t[p..e]
  {
    hide Digits, ProperPower, PowerText, AllDec, FormText;
    var fraction := if point then t[b + 1..c] else "";
    f := Form(a == p + 1, t[a..b], point, fraction, power);
    DigitsSlice(t, a, b);
    if point {
      DigitsSlice(t, b + 1, c);
      assert t[b..c] == ['.'] + fraction;
    } else {
      NoDigits();
      assert t[b..c] == "";
    }
    assert t[p..a] == SignText(f);
    PutTogether(t, p, a, b, c, e, f);
  }

  lemma NoDigits()
    ensures AllDec("")
  {
  }

  lemma PutTogether(t: string, p: nat, a: nat, b: nat, c: nat, e: nat, f: Form)
    requires p <= a <= b <= c <= e <= |t| && SignText(f) == t[p..a] && f.whole == t[a..b]
    requires PointText(f) == t[b..c] && PowerText(f.power) == t[c..e]
    ensures FormText(f) == t[p..e]
  {
    hide SignText, PointText, PowerText;
    Slices(t, p, a, b, c, e);
  }

  lemma DigitsSlice(t: string, p: nat, q: nat)
    requires p <= |t| && Digits(t, p) == q
    ensures AllDec(t[p..q])
  {
    DigitsAreDigits(t, p);
  }

  lemma PowerOf(t: string, c: nat, isFloat: bool) returns (e: Option<Power>)
    requires c <= |t| && Exponent(t, c, isFloat).Ok?
    ensures (e.Some? ==> ProperPower(e.value)) && PowerText(e) == t[c..Exponent(t, c, isFloat).pos]
  {
    hide Digits;
    if c < |t| && IsExponentMark(t[c]) {
      var d, end := Sign(t, c + 1), Exponent(t, c, isFloat).pos;
      DigitsSlice(t, d, end);
      e := Some(Power(t[c], t[c + 1..d], t[d..end]));
      assert t[c..end] == [t[c]] + (t[c + 1..d] + t[d..end]);
    } else {
      e := None;
    }
  }

  /** What a writer of numbers can write. */
  ghost predicate IsForm(t: string) { exists f :: ProperForm(f) && FormText(f) == t }

  /** With a point or an exponent mark in it. */
  predicate IsFloat(t: string) { '.' in t || 'e' in t || 'E' in t }

  /** The numbers the parser takes are exactly the texts of that kind, and floats where they look so. */
  lemma NumberIff(t: string)
    ensures IsNumber(t) <==> IsForm(t)
    ensures IsNumber(t) ==> JsonTokens.Number(t, 0).value == IsFloat(t)
  {
    hide IsNumber, FormText, ProperForm;
    if IsNumber(t) {
      WholeNumberIsForm(t);
    }
    if IsForm(t) {
      var f :| ProperForm(f) && FormText(f) == t;
      FormReads(f);
      FloatMarks(f);
    }
  }

  lemma WholeNumberIsForm(t: string)
    requires IsNumber(t)
    ensures IsForm(t)
  {
    var f := NumberIsForm(t, 0);
    assert t[0..|t|] == t;
  }

  lemma FloatMarks(f: Form)
    requires ProperForm(f)
    ensures IsFloat(FormText(f)) <==> f.point || f.power.Some?
  {
    var t := FormText(f);
    assert forall c :: c in t <==> c in SignText(f) || c in f.whole || c in PointText(f) || c in PowerText(f.power);
    assert forall c :: c in f.whole || c in f.fraction ==> IsDec(c);
    if f.point {
      assert '.' in PointText(f);
    }
    if f.power.Some? {
      assert f.power.value.mark in PowerText(f.power);
    }
  }
}
