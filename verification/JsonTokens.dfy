/** What each token scanner of the JSON cursor recognises, as functions of the text and a position.
    A failed scan carries the error and the position it is reported at. */
module JsonTokens {
  import opened JsonScan

  datatype Err =
    | BadString | BadNumber | BadIdentifier | EndOfJson | EndOfObject | EndOfArray | KeyExpected
    | ColonExpected | ObjectDelimiter | ArrayDelimiter | UnexpectedCharacter | TopLevelObject | TrailingCharacter

  datatype Token<+T> = Ok(value: T, pos: nat) | Bad(why: Err, at: nat)

  /** Result of a scan that only moves the cursor. */
  datatype Skip = At(pos: nat) | Stop(why: Err, at: nat)

  datatype StringToken = StringToken(text: string, escaped: bool)

  function SkipSpaces(s: string, p: nat): nat
    requires p <= |s|
  {
    Scan(NonSpace, s, p)
  }

  lemma SkipSpacesTwice(s: string, p: nat)
    requires p <= |s|
    ensures SkipSpaces(s, SkipSpaces(s, p)) == SkipSpaces(s, p)
    ensures p < |s| && !IsSpace(s[p]) ==> SkipSpaces(s, p) == p
  {
  }

  predicate IsDec(c: char) { '0' <= c <= '9' }

  predicate IsHex(c: char) { IsDec(c) || 'a' <= c <= 'f' || 'A' <= c <= 'F' }

  predicate IsDelimiter(c: char) { c == ',' || c == ':' || c == ']' || c == '}' || IsSpace(c) }

  function HexValue(c: char): (v: nat)
    requires IsHex(c)
    ensures v < 16
  {
    if c >= 'a' then (c - 'a') as nat + 10 else if c >= 'A' then (c - 'A') as nat + 10 else (c - '0') as nat
  }

  /* ---- strings ---- */

  /** `n` hexadecimal digits from `p` on, most significant first, after the digits read so far. */
  function HexRun(s: string, p: nat, n: nat, code: nat): (r: Token<nat>)
    requires p <= |s|
    ensures r.Ok? ==> r.pos == p + n <= |s|
    decreases n
  {
    if n == 0 then Ok(code, p)
    else if p == |s| || !IsHex(s[p]) then Bad(BadString, p)
    else HexRun(s, p + 1, n - 1, code * 16 + HexValue(s[p]))
  }

  /** The bytes a \u escape is stored as: one to three, each code unit on its own. */
  function CodeBytes(code: nat): (r: string)
    ensures 1 <= |r| <= 3
  {
    var code := code % 0x10000;
    if code < 0x80 then [code as char]
    else if code < 0x800 then [(0xC0 + code / 64) as char, (0x80 + code % 64) as char]
    else [(0xE0 + code / 4096) as char, (0x80 + code / 64 % 64) as char, (0x80 + code % 64) as char]
  }

  /** One escape sequence; `p` is just after the backslash. */
  function Escape(s: string, p: nat): (r: Token<string>)
    requires p <= |s|
    ensures r.Ok? ==> p < r.pos <= |s| && 1 <= |r.value| <= r.pos - p
  {
    if p == |s| then Bad(BadString, p) else
    var c := s[p];
    if c == '\\' || c == '"' || c == '/' then Ok([c], p + 1)
    else if c == 'b' then Ok(['\U{08}'], p + 1)
    else if c == 'f' then Ok(['\U{0C}'], p + 1)
    else if c == 'n' then Ok(['\n'], p + 1)
    else if c == 'r' then Ok(['\r'], p + 1)
    else if c == 't' then Ok(['\t'], p + 1)
    else if c == 'u' then
      var h := HexRun(s, p + 1, 4, 0);
      if h.Bad? then Bad(h.why, h.at) else Ok(CodeBytes(h.value), h.pos)
    else Bad(BadString, p + 1)
  }

  /** End of a string whose escapes are checked; `p` is just after the opening quote. */
  function StringEnd(s: string, p: nat): (r: Skip)
    requires p <= |s|
    ensures r.At? ==> p < r.pos <= |s|
    decreases |s| - p
  {
    var q := Scan(StringSpecial, s, p);
    if q == |s| then Stop(BadString, q)
    else if s[q] == '"' then At(q + 1)
    else
      var e := Escape(s, q + 1);
      if e.Bad? then Stop(e.why, e.at) else StringEnd(s, e.pos)
  }

  /** The unescaped bytes up to the closing quote. */
  function Tail(s: string, p: nat): (r: Token<string>)
    requires p <= |s|
    ensures r.Ok? ==> p < r.pos <= |s| && |r.value| < r.pos - p
    decreases |s| - p
  {
    if p == |s| then Bad(BadString, p)
    else if s[p] == '"' then Ok("", p + 1)
    else if s[p] == '\\' then
      var e := Escape(s, p + 1);
      if e.Bad? then e else Onto(e.value, Tail(s, e.pos))
    else Onto([s[p]], Tail(s, p + 1))
  }

  function Onto(prefix: string, t: Token<string>): Token<string> {
    if t.Bad? then t else Ok(prefix + t.value, t.pos)
  }

  /** A string token; `p` is just after the opening quote. */
  function ParseString(s: string, p: nat): (r: Token<StringToken>)
    requires p <= |s|
    ensures r.Ok? ==> p < r.pos <= |s|
  {
    var q := Scan(StringSpecial, s, p);
    if q < |s| && s[q] == '"' then Ok(StringToken(s[p..q], false), q + 1)
    else
      var t := Tail(s, p);
      if t.Bad? then Bad(t.why, t.at) else Ok(StringToken(t.value, true), t.pos)
  }

  /* ---- numbers and literals ---- */

  function Digits(s: string, p: nat): (q: nat)
    requires p <= |s|
    ensures p <= q <= |s|
    ensures q < |s| ==> !IsDec(s[q])
    decreases |s| - p
  {
    if p < |s| && IsDec(s[p]) then Digits(s, p + 1) else p
  }

  lemma {:induction false} DigitsAreDigits(s: string, p: nat)
    requires p <= |s|
    ensures forall i :: p <= i < Digits(s, p) ==> IsDec(s[i])
    decreases |s| - p
  {
    if p < |s| && IsDec(s[p]) {
      DigitsAreDigits(s, p + 1);
    }
  }

  function Sign(s: string, p: nat): (q: nat)
    requires p <= |s|
    ensures p <= q <= |s|
  {
    if p < |s| && (s[p] == '-' || s[p] == '+') then p + 1 else p
  }

  predicate IsExponentMark(c: char) { c == 'e' || c == 'E' }

  /** Sign, digits and fraction; at least one digit is needed. */
  function Mantissa(s: string, p: nat): (r: Token<bool>)
    requires p <= |s|
    ensures r.Ok? ==> p < r.pos <= |s|
    ensures r.Bad? ==> r.at <= |s|
  {
    var a := Sign(s, p);
    var b := Digits(s, a);
    var dot := b < |s| && s[b] == '.';
    var c := if dot then Digits(s, b + 1) else b;
    if b == a && (!dot || c == b + 1) then Bad(BadNumber, c) else Ok(dot, c)
  }

  function Exponent(s: string, p: nat, isFloat: bool): (r: Token<bool>)
    requires p <= |s|
    ensures r.Ok? ==> p <= r.pos <= |s|
    ensures r.Bad? ==> r.at <= |s|
  {
    if p < |s| && IsExponentMark(s[p]) then
      var d := Sign(s, p + 1);
      var e := Digits(s, d);
      if e == d then Bad(BadNumber, e) else Ok(true, e)
    else Ok(isFloat, p)
  }

  /** A number token; the value says whether it has a fraction or an exponent. */
  function Number(s: string, p: nat): (r: Token<bool>)
    requires p <= |s|
    ensures r.Ok? ==> p < r.pos <= |s|
    ensures r.Ok? && r.pos < |s| ==> IsDelimiter(s[r.pos])
  {
    var m := Mantissa(s, p);
    if m.Bad? then m else
    var e := Exponent(s, m.pos, m.value);
    if e.Ok? && e.pos < |s| && !IsDelimiter(s[e.pos]) then Bad(BadNumber, e.pos) else e
  }

  function Literal(s: string, p: nat, word: string): (r: Skip)
    requires p <= |s|
    ensures r.At? ==> r.pos == p + |word| <= |s| && s[p..r.pos] == word
    ensures r.At? && r.pos < |s| ==> IsDelimiter(s[r.pos])
  {
    var q := p + |word|;
    if |s| < q || s[p..q] != word then Stop(BadIdentifier, p)
    else if q < |s| && !IsDelimiter(s[q]) then Stop(BadIdentifier, q)
    else At(q)
  }

  predicate StartsNumber(c: char) { c == '-' || IsDec(c) }

  /* ---- rough skips ---- */

  /** Number of backslashes directly before `q`, not looking back past `p`. */
  function Backslashes(s: string, p: nat, q: nat): (n: nat)
    requires p <= q <= |s|
    ensures n <= q - p
  {
    if q > p && s[q - 1] == '\\' then Backslashes(s, p, q - 1) + 1 else 0
  }

  /** Quote search with backslash parity; `p` is just after the opening quote. */
  function RoughStringEnd(s: string, p: nat): (r: Skip)
    requires p <= |s|
    ensures r.At? ==> p < r.pos <= |s|
    decreases |s| - p
  {
    var q := Scan(Quote, s, p);
    if q == |s| then Stop(BadString, p)
    else if Backslashes(s, p, q) % 2 == 0 then At(q + 1)
    else RoughStringEnd(s, q + 1)
  }

  datatype Depths = Depths(objects: nat, arrays: nat)

  /** The two depth counters after one special byte; a closing byte never takes a counter below zero. */
  function Depth(d: Depths, c: char): Depths {
    if c == '{' then d.(objects := d.objects + 1)
    else if c == '[' then d.(arrays := d.arrays + 1)
    else if c == '}' && d.objects > 0 then d.(objects := d.objects - 1)
    else if c == ']' && d.arrays > 0 then d.(arrays := d.arrays - 1)
    else d
  }

  /** Rough skip of a compound value: brackets are only counted, strings skipped by quote parity. */
  function RoughCompoundEnd(s: string, p: nat, d: Depths, why: Err): (r: Skip)
    requires p <= |s|
    ensures r.At? ==> p < r.pos <= |s|
    decreases |s| - p
  {
    var q := Scan(CompoundSpecial, s, p);
    if q == |s| then Stop(why, q) else
    var e := if s[q] == '"' then RoughStringEnd(s, q + 1) else At(q + 1);
    var d' := Depth(d, s[q]);
    if e.Stop? then e
    else if d' == Depths(0, 0) then e
    else RoughCompoundEnd(s, e.pos, d', why)
  }

  /* ---- strict skips ---- */

  /** End of any value; `strict` chooses between full checking and the rough skips. */
  function SkipValue(s: string, strict: bool, p: nat): (r: Skip)
    requires p <= |s|
    ensures strict && r.At? ==> p < r.pos
    ensures r.At? ==> p <= r.pos <= |s|
    decreases |s| - p, 1
  {
    var q := SkipSpaces(s, p);
    if q == |s| then Stop(EndOfJson, q) else
    var c := s[q];
    if c == '{' then (if strict then SkipObject(s, q + 1) else RoughCompoundEnd(s, q + 1, Depths(1, 0), EndOfObject))
    else if c == '[' then (if strict then SkipArray(s, q + 1) else RoughCompoundEnd(s, q + 1, Depths(0, 1), EndOfArray))
    else if c == '"' then (if strict then StringEnd(s, q + 1) else RoughStringEnd(s, q + 1))
    else if !strict then At(Scan(UnquotedDelimiter, s, q))
    else SkipScalar(s, q)
  }

  /** A number, `true`, `false` or `null`. */
  function SkipScalar(s: string, q: nat): (r: Skip)
    requires q < |s|
    ensures r.At? ==> q < r.pos <= |s|
  {
    var c := s[q];
    if StartsNumber(c) then
      var n := Number(s, q);
      if n.Bad? then Stop(n.why, n.at) else At(n.pos)
    else if c == 't' then Literal(s, q, "true")
    else if c == 'f' then Literal(s, q, "false")
    else if c == 'n' then Literal(s, q, "null")
    else Stop(UnexpectedCharacter, q)
  }

  function SkipObject(s: string, p: nat): (r: Skip)
    requires p <= |s|
    ensures r.At? ==> p < r.pos <= |s|
    decreases |s| - p, 3
  {
    if p < |s| && s[p] == '}' then At(p + 1) else SkipMembers(s, p)
  }

  function SkipMembers(s: string, p: nat): (r: Skip)
    requires p <= |s|
    ensures r.At? ==> p < r.pos <= |s|
    decreases |s| - p, 2
  {
    var q := SkipSpaces(s, p);
    if q == |s| || s[q] != '"' then Stop(KeyExpected, q) else
    var e := StringEnd(s, q + 1);
    if e.Stop? then e else
    var colon := SkipSpaces(s, e.pos);
    if colon == |s| || s[colon] != ':' then Stop(ColonExpected, colon) else
    var v := SkipValue(s, true, colon + 1);
    if v.Stop? then v else
    var w := SkipSpaces(s, v.pos);
    if w == |s| then Stop(EndOfObject, w)
    else if s[w] == '}' then At(w + 1)
    else if s[w] == ',' then SkipMembers(s, w + 1)
    else Stop(ObjectDelimiter, w + 1)
  }

  function SkipArray(s: string, p: nat): (r: Skip)
    requires p <= |s|
    ensures r.At? ==> p < r.pos <= |s|
    decreases |s| - p, 3
  {
    if p < |s| && s[p] == ']' then At(p + 1) else SkipElements(s, p)
  }

  function SkipElements(s: string, p: nat): (r: Skip)
    requires p <= |s|
    ensures r.At? ==> p < r.pos <= |s|
    decreases |s| - p, 2
  {
    var v := SkipValue(s, true, SkipSpaces(s, p));
    if v.Stop? then v else
    var w := SkipSpaces(s, v.pos);
    if w == |s| then Stop(EndOfArray, w)
    else if s[w] == ']' then At(w + 1)
    else if s[w] == ',' then SkipElements(s, w + 1)
    else Stop(ArrayDelimiter, w + 1)
  }

  /* ---- agreement of the string scanners ---- */

  lemma OntoOnto(a: string, b: string, t: Token<string>)
    ensures Onto(a, Onto(b, t)) == Onto(a + b, t)
  {
    assert t.Ok? ==> a + (b + t.value) == a + b + t.value;
  }

  lemma OntoNothing(t: Token<string>)
    ensures Onto("", t) == t
  {
    assert t.Ok? ==> "" + t.value == t.value;
  }

  /** A prefix without special bytes is copied to the tail unchanged. */
  lemma {:induction false} TailSkipsPlain(s: string, p: nat, q: nat)
    requires p <= q <= |s|
    requires forall i :: p <= i < q ==> !Matches(StringSpecial, s[i])
    ensures Tail(s, p) == Onto(s[p..q], Tail(s, q))
    decreases q - p
  {
    if p < q {
      TailSkipsPlain(s, p + 1, q);
      OntoOnto([s[p]], s[p + 1..q], Tail(s, q));
      assert [s[p]] + s[p + 1..q] == s[p..q];
      assert !Matches(StringSpecial, s[p]);
    } else {
      OntoNothing(Tail(s, q));
      assert s[p..q] == "";
    }
  }

  /** The skipping and the unescaping string scanners accept the same strings, end at the same
      place and report the same error at the same position. */
  lemma {:induction false} TailEndsLikeSkip(s: string, p: nat)
    requires p <= |s|
    ensures var e := StringEnd(s, p); var t := Tail(s, p);
            if e.At? then t.Ok? && t.pos == e.pos else t.Bad? && t.why == e.why && t.at == e.at
    decreases |s| - p
  {
    var q := Scan(StringSpecial, s, p);
    ScanMisses(StringSpecial, s, p);
    TailSkipsPlain(s, p, q);
    if q < |s| && s[q] != '"' {
      var e := Escape(s, q + 1);
      if e.Ok? {
        TailEndsLikeSkip(s, e.pos);
      }
    }
  }

  lemma ParseEndsLikeSkip(s: string, p: nat)
    requires p <= |s|
    ensures var e := StringEnd(s, p); var t := ParseString(s, p);
            if e.At? then t.Ok? && t.pos == e.pos else t.Bad? && t.why == e.why && t.at == e.at
  {
    TailEndsLikeSkip(s, p);
  }
}
