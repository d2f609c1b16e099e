/** The cursor of the JSON parser: it moves a position over the text, using the finder of the chosen
    level. A throwing scan is modelled by an error value; the error is reported at the cursor. */
module JsonCursor {
  import opened Common
  import opened JsonScan
  import opened JsonTokens
  import opened JsonIndex

  /** The cursor did what the scan says: it is at the end of the scan, or at the error. */
  predicate Follows(r: Skip, err: Option<Err>, pos: nat) {
    match r
    case At(q) => err.None? && pos == q
    case Stop(why, at) => err == Some(why) && pos == at
  }

  predicate FollowsToken<T(==)>(r: Token<T>, err: Option<Err>, value: T, pos: nat) {
    match r
    case Ok(v, q) => err.None? && value == v && pos == q
    case Bad(why, at) => err == Some(why) && pos == at
  }

  lemma EscapeShape(s: string, p: nat)
    requires p <= |s|
    ensures Escape(s, p).Ok? ==> p < |s|
    ensures Escape(s, p).Bad? ==> Escape(s, p).at <= |s|
  {
    if p < |s| && s[p] == 'u' {
      HexRunErrorInside(s, p + 1, 4, 0);
    }
  }

  lemma {:induction false} HexRunErrorInside(s: string, p: nat, n: nat, code: nat)
    requires p <= |s|
    ensures HexRun(s, p, n, code).Bad? ==> HexRun(s, p, n, code).at <= |s|
    decreases n
  {
    if n > 0 && p < |s| && IsHex(s[p]) {
      HexRunErrorInside(s, p + 1, n - 1, code * 16 + HexValue(s[p]));
    }
  }

  /** One turn of the rough skip of a compound value. */
  lemma RoughTurn(s: string, p: nat, d: Depths, why: Err)
    requires p <= |s|
    ensures var q := Scan(CompoundSpecial, s, p);
            RoughCompoundEnd(s, p, d, why) ==
            if q == |s| then Stop(why, q)
            else
              var e := if s[q] == '"' then RoughStringEnd(s, q + 1) else At(q + 1);
              if e.Stop? || Depth(d, s[q]) == Depths(0, 0) then e
              else RoughCompoundEnd(s, e.pos, Depth(d, s[q]), why)
  {
  }

  lemma ScanAtEnd(s: string)
    ensures Scan(CompoundSpecial, s, |s|) == |s|
  {
  }

  /** One turn of unescaping, with what has been written before. */
  lemma TailTurn(s: string, p: nat, done: string)
    requires p <= |s|
    ensures Onto(done, Tail(s, p)) ==
            if p == |s| then Bad(BadString, p)
            else if s[p] == '"' then Ok(done, p + 1)
            else if s[p] == '\\' then
              var e := Escape(s, p + 1);
              if e.Bad? then e else Onto(done + e.value, Tail(s, e.pos))
            else Onto(done + [s[p]], Tail(s, p + 1))
  {
    if p < |s| && s[p] == '"' {
      assert done + "" == done;
    } else if p < |s| && s[p] == '\\' {
      var e := Escape(s, p + 1);
      if e.Ok? {
        OntoOnto(done, e.value, Tail(s, e.pos));
      }
    } else if p < |s| {
      OntoOnto(done, [s[p]], Tail(s, p + 1));
    }
  }

  /** One turn of skipping a string. */
  lemma StringEndTurn(s: string, p: nat)
    requires p <= |s|
    ensures var q := Scan(StringSpecial, s, p);
            StringEnd(s, p) ==
            if q == |s| then Stop(BadString, q)
            else if s[q] == '"' then At(q + 1)
            else
              var e := Escape(s, q + 1);
              if e.Bad? then Stop(e.why, e.at) else StringEnd(s, e.pos)
  {
  }

  class Cursor {
    const text: string
    const level: Level
    var pos: nat

    ghost predicate Valid()
      reads this
    {
      pos <= |text|
    }

    constructor (text: string, level: Level)
      ensures Valid() && pos == 0 && this.text == text && this.level == level
    {
      this.text, this.level := text, level;
      pos := 0;
    }

    method SkipSpaces()
      requires Valid()
      modifies this
      ensures Valid() && pos == JsonTokens.SkipSpaces(text, old(pos))
    {
      if pos == |text| || !IsSpace(text[pos]) {
        return;
      }
      pos := Find(level, NonSpace, text, pos + 1);
    }

    method Expect(c: char) returns (err: Option<Err>)
      requires Valid()
      modifies this
      ensures Valid()
      ensures if old(pos) < |text| && text[old(pos)] == c then err.None? && pos == old(pos) + 1
              else err == Some(ColonExpected) && pos == old(pos)
    {
      if pos == |text| || text[pos] != c {
        return Some(ColonExpected);
      }
      pos := pos + 1;
      err := None;
    }

    method ConsumeLiteral(word: string) returns (err: Option<Err>)
      requires Valid()
      modifies this
      ensures Valid() && Follows(Literal(text, old(pos), word), err, pos)
    {
      if |text| - pos < |word| || text[pos..pos + |word|] != word {
        return Some(BadIdentifier);
      }
      pos := pos + |word|;
      if pos != |text| && !IsDelimiter(text[pos]) {
        return Some(BadIdentifier);
      }
      err := None;
    }

    /* ---- strings ---- */

    /** Reads the hexadecimal digits of a \u escape. */
    method ParseUnicodeEscape() returns (err: Option<Err>, code: nat)
      requires Valid()
      modifies this
      ensures Valid() && FollowsToken(HexRun(text, old(pos), 4, 0), err, code, pos)
    {
      code, err := 0, None;
      var i := 0;
      while i < 4
        invariant 0 <= i <= 4 && Valid()
        invariant HexRun(text, pos, 4 - i, code) == HexRun(text, old(pos), 4, 0)
      {
        if pos == |text| || !IsHex(text[pos]) {
          return Some(BadString), code;
        }
        code := code * 16 + HexValue(text[pos]);
        pos := pos + 1;
        i := i + 1;
      }
    }

    method SkipEscape() returns (err: Option<Err>)
      requires Valid()
      modifies this
      ensures Valid()
      ensures match Escape(text, old(pos))
              case Ok(_, q) => err.None? && pos == q
              case Bad(why, at) => err == Some(why) && pos == at
    {
      if pos == |text| {
        return Some(BadString);
      }
      var c := text[pos];
      pos := pos + 1;
      if c in ['\\', '"', '/', 'b', 'f', 'n', 'r', 't'] {
        return None;
      }
      if c == 'u' {
        var code;
        err, code := ParseUnicodeEscape();
        return;
      }
      err := Some(BadString);
    }

    /** Writes one unescaped sequence into the output buffer at `n`. The buffer never overflows: an
        escape is at least as long as its bytes. */
    method AppendEscape(out: array<char>, n: nat) returns (err: Option<Err>, m: nat)
      requires Valid() && n + (|text| - pos) <= out.Length
      modifies this, out
      ensures Valid()
      ensures match Escape(text, old(pos))
              case Ok(v, q) =>
                err.None? && pos == q && m == n + |v| && m + (|text| - pos) <= out.Length
                && out[..m] == old(out[..n]) + v
              case Bad(why, at) => err == Some(why) && pos == at
    {
      m := n;
      if pos == |text| {
        return Some(BadString), m;
      }
      var c := text[pos];
      pos := pos + 1;
      err := None;
      var bytes: string;
      if c == '\\' || c == '"' || c == '/' {
        bytes := [c];
      } else if c == 'b' {
        bytes := ['\U{08}'];
      } else if c == 'f' {
        bytes := ['\U{0C}'];
      } else if c == 'n' {
        bytes := ['\n'];
      } else if c == 'r' {
        bytes := ['\r'];
      } else if c == 't' {
        bytes := ['\t'];
      } else if c == 'u' {
        var code;
        err, code := ParseUnicodeEscape();
        if err.Some? {
          return;
        }
        bytes := CodeBytes(code);
      } else {
        return Some(BadString), m;
      }
      assert Escape(text, old(pos)) == Ok(bytes, pos);
      m := Write(out, n, bytes);
    }

    static method Write(out: array<char>, n: nat, bytes: string) returns (m: nat)
      requires n + |bytes| <= out.Length
      modifies out
      ensures m == n + |bytes| && out[..m] == old(out[..n]) + bytes
    {
      m := n;
      var i := 0;
      while i < |bytes|
        invariant 0 <= i <= |bytes| && m == n + i
        invariant out[..m] == old(out[..n]) + bytes[..i]
      {
        out[m] := bytes[i];
        m, i := m + 1, i + 1;
      }
      assert bytes[..i] == bytes;
    }

    /** One character or escape of the rest of a string, appended to the first `n` bytes of the buffer;
        `done` after the closing quote. */
    method UnescapeOne(out: array<char>, n: nat) returns (err: Option<Err>, m: nat, done: bool)
      requires Valid() && pos < |text| && n + (|text| - pos) <= out.Length
      modifies this, out
      ensures Valid() && (err.None? ==> old(pos) < pos && m + (|text| - pos) <= out.Length)
      ensures Onto(old(out[..n]), Tail(text, old(pos))) ==
              match err
              case Some(why) => Bad(why, pos)
              case None => if done then Ok(out[..m], pos) else Onto(out[..m], Tail(text, pos))
    {
      hide Escape, Tail, Onto;
      TailTurn(text, pos, out[..n]);
      EscapeShape(text, pos + 1);
      var c := text[pos];
      pos := pos + 1;
      if c == '"' {
        return None, n, true;
      }
      done := false;
      if c == '\\' {
        err, m := AppendEscape(out, n);
      } else {
        m := Write(out, n, [c]);
        err := None;
      }
    }

    /** The rest of a string after its first backslash, unescaped into a buffer sized for the rest of
        the text. */
    method ParseStringTail(prefix: string) returns (err: Option<Err>, value: string)
      requires Valid() && 0 < pos && text[pos - 1] == '\\'
      modifies this
      ensures Valid()
      ensures FollowsToken(Onto(prefix, Tail(text, old(pos) - 1)), err, value, pos)
    {
      hide Escape, Tail, Onto;
      var out := new char[|prefix| + |text| - pos];
      ghost var target := Onto(prefix, Tail(text, pos - 1));
      TailTurn(text, pos - 1, prefix);
      EscapeShape(text, pos);
      var n: nat := Write(out, 0, prefix);
      assert out[..n] == prefix;
      value := "";
      err, n := AppendEscape(out, n);
      if err.Some? {
        return;
      }
      var done := false;
      while pos != |text|
        invariant Valid() && n + (|text| - pos) <= out.Length && err.None?
        invariant Onto(out[..n], Tail(text, pos)) == target
        decreases |text| - pos
      {
        err, n, done := UnescapeOne(out, n);
        if err.Some? {
          return;
        }
        if done {
          return None, out[..n];
        }
      }
      TailTurn(text, pos, out[..n]);
      err := Some(BadString);
    }

    /** A string value or member name; the cursor is on the opening quote. */
    method ParseString() returns (err: Option<Err>, token: StringToken)
      requires Valid() && pos < |text|
      modifies this
      ensures Valid() && FollowsToken(JsonTokens.ParseString(text, old(pos) + 1), err, token, pos)
    {
      pos := pos + 1;
      var begin := pos;
      var special := Find(level, StringSpecial, text, pos);
      token := StringToken("", false);
      ScanMisses(StringSpecial, text, begin);
      TailSkipsPlain(text, begin, special);
      if special == |text| {
        pos := |text|;
        return Some(BadString), token;
      }
      pos := special + 1;
      if text[special] == '"' {
        return None, StringToken(text[begin..special], false);
      }
      var value;
      err, value := ParseStringTail(text[begin..special]);
      token := StringToken(value, true);
    }

    /** Passes over a string, checking its escapes; the cursor is on the opening quote. */
    method SkipString() returns (err: Option<Err>)
      requires Valid() && pos < |text|
      modifies this
      ensures Valid() && Follows(StringEnd(text, old(pos) + 1), err, pos)
    {
      hide StringEnd, Scan, Escape;
      pos := pos + 1;
      while true
        invariant Valid()
        invariant StringEnd(text, pos) == StringEnd(text, old(pos) + 1)
        decreases |text| - pos
      {
        var special := Find(level, StringSpecial, text, pos);
        StringEndTurn(text, pos);
        if special == |text| {
          pos := |text|;
          return Some(BadString);
        }
        pos := special + 1;
        if text[special] == '"' {
          return None;
        }
        EscapeShape(text, pos);
        err := SkipEscape();
        if err.Some? {
          return;
        }
      }
    }

    /* ---- rough skips ---- */

    /** Backslashes directly before `quote`, looking back to the cursor. */
    method CountBackslashes(quote: nat) returns (n: nat)
      requires pos <= quote <= |text|
      ensures n == Backslashes(text, pos, quote)
    {
      n := 0;
      var it := quote;
      while it > pos && text[it - 1] == '\\'
        invariant pos <= it <= quote
        invariant n + Backslashes(text, pos, it) == Backslashes(text, pos, quote)
      {
        n, it := n + 1, it - 1;
      }
    }

    method SkipStringRoughAfterQuote() returns (err: Option<Err>)
      requires Valid()
      modifies this
      ensures Valid() && Follows(RoughStringEnd(text, old(pos)), err, pos)
    {
      while pos < |text|
        invariant Valid()
        invariant RoughStringEnd(text, pos) == RoughStringEnd(text, old(pos))
        decreases |text| - pos
      {
        var quote := Find(level, Quote, text, pos);
        if quote == |text| {
          break;
        }
        var backslashes := CountBackslashes(quote);
        pos := quote + 1;
        if backslashes % 2 == 0 {
          return None;
        }
      }
      err := Some(BadString);
    }

    method SkipStringRough() returns (err: Option<Err>)
      requires Valid() && pos < |text|
      modifies this
      ensures Valid() && Follows(RoughStringEnd(text, old(pos) + 1), err, pos)
    {
      pos := pos + 1;
      err := SkipStringRoughAfterQuote();
    }

    method SkipUnquotedValueRough()
      requires Valid()
      modifies this
      ensures Valid() && pos == Scan(UnquotedDelimiter, text, old(pos))
    {
      pos := Find(level, UnquotedDelimiter, text, pos);
    }

    /** A closing bracket without an open one is not counted. */
    static method CountBracket(c: char, objects: nat, arrays: nat) returns (o: nat, a: nat)
      ensures Depths(o, a) == Depth(Depths(objects, arrays), c)
    {
      o, a := objects, arrays;
      if c == '{' {
        o := o + 1;
      } else if c == '[' {
        a := a + 1;
      } else if c == '}' && o > 0 {
        o := o - 1;
      } else if c == ']' && a > 0 {
        a := a - 1;
      }
    }

    /** One turn of the bracket counter: the next bracket or string, or the end of the text. */
    method SkipToBracket(objects: nat, arrays: nat, why: Err) returns (err: Option<Err>, o: nat, a: nat)
      requires Valid()
      modifies this
      ensures Valid() && (err.None? ==> old(pos) < pos)
      ensures RoughCompoundEnd(text, old(pos), Depths(objects, arrays), why) ==
              match err
              case Some(e) => Stop(e, pos)
              case None => if o == 0 && a == 0 then At(pos) else RoughCompoundEnd(text, pos, Depths(o, a), why)
    {
      hide Scan, RoughStringEnd, RoughCompoundEnd, Depth;
      var special := Find(level, CompoundSpecial, text, pos);
      RoughTurn(text, pos, Depths(objects, arrays), why);
      o, a := objects, arrays;
      if special == |text| {
        pos := |text|;
        return Some(why), o, a;
      }
      pos := special + 1;
      var c := text[special];
      err := None;
      o, a := CountBracket(c, objects, arrays);
      if c == '"' {
        err := SkipStringRoughAfterQuote();
      }
    }

    /** Counts brackets until both depths are zero; the cursor is on the opening bracket. */
    method SkipCompoundRough(open: char, why: Err) returns (err: Option<Err>)
      requires Valid() && pos < |text|
      requires open == '{' || open == '['
      modifies this
      ensures Valid()
      ensures Follows(RoughCompoundEnd(text, old(pos) + 1, if open == '{' then Depths(1, 0) else Depths(0, 1), why),
                      err, pos)
    {
      hide Scan, RoughCompoundEnd;
      pos := pos + 1;
      var objects: nat := if open == '{' then 1 else 0;
      var arrays: nat := if open == '[' then 1 else 0;
      ghost var target := RoughCompoundEnd(text, pos, Depths(objects, arrays), why);
      while pos != |text|
        invariant Valid() && RoughCompoundEnd(text, pos, Depths(objects, arrays), why) == target
        decreases |text| - pos
      {
        err, objects, arrays := SkipToBracket(objects, arrays, why);
        if err.Some? || (objects == 0 && arrays == 0) {
          return;
        }
      }
      RoughTurn(text, pos, Depths(objects, arrays), why);
      ScanAtEnd(text);
      err := Some(why);
    }

    /* ---- numbers ---- */

    method SkipDigits()
      requires Valid()
      modifies this
      ensures Valid() && pos == Digits(text, old(pos))
    {
      while pos != |text| && IsDec(text[pos])
        invariant Valid() && Digits(text, pos) == Digits(text, old(pos))
        decreases |text| - pos
      {
        pos := pos + 1;
      }
    }

    method ParseMantissa() returns (err: Option<Err>, isFloat: bool)
      requires Valid()
      modifies this
      ensures Valid() && FollowsToken(Mantissa(text, old(pos)), err, isFloat, pos)
    {
      isFloat := false;
      if pos != |text| && (text[pos] == '-' || text[pos] == '+') {
        pos := pos + 1;
      }
      var begin := pos;
      SkipDigits();
      var hasDigits := pos > begin;
      if pos != |text| && text[pos] == '.' {
        isFloat := true;
        pos := pos + 1;
        begin := pos;
        SkipDigits();
        hasDigits := hasDigits || pos > begin;
      }
      err := if hasDigits then None else Some(BadNumber);
    }

    /** A number token; the literal scan of numbers kept as strings differs only in what it returns. */
    method ParseNumber() returns (err: Option<Err>, isFloat: bool)
      requires Valid()
      modifies this
      ensures Valid() && FollowsToken(Number(text, old(pos)), err, isFloat, pos)
    {
      err, isFloat := ParseMantissa();
      if err.Some? {
        return;
      }
      hide Mantissa;
      if pos != |text| && IsExponentMark(text[pos]) {
        isFloat := true;
        pos := pos + 1;
        if pos != |text| && (text[pos] == '-' || text[pos] == '+') {
          pos := pos + 1;
        }
        var begin := pos;
        SkipDigits();
        if pos == begin {
          return Some(BadNumber), isFloat;
        }
      }
      if pos != |text| && !IsDelimiter(text[pos]) {
        return Some(BadNumber), isFloat;
      }
      err := None;
    }
  }
}
