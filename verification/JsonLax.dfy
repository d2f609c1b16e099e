/** The lax parser skips unwanted values by quote parity, bracket counters and delimiter search.
    On every text the strict parser accepts it gives the same result. */
module JsonLax {
  import opened Common
  import opened JsonScan
  import opened JsonTokens
  import opened JsonIndex
  import opened JsonGrammar

  /* ---- strings: parity equals an escape-aware scan ---- */

  /** Reference: walk byte by byte, a backslash taking the next byte with it. */
  function EscapeScan(s: string, p: nat): (r: Option<nat>)
    decreases |s| - p
  {
    if p >= |s| then None
    else if s[p] == '"' then Some(p + 1)
    else if s[p] == '\\' then EscapeScan(s, p + 2)
    else EscapeScan(s, p + 1)
  }

  /** One quote-free stretch: an even run of backslashes before the quote closes the string. */
  lemma {:induction false} ScanToQuote(s: string, p: nat, q: nat)
    requires p <= q < |s| && s[q] == '"'
    requires forall i :: p <= i < q ==> s[i] != '"'
    ensures EscapeScan(s, p) == if Backslashes(s, p, q) % 2 == 0 then Some(q + 1) else EscapeScan(s, q + 1)
    decreases q - p
  {
    BackslashRun(s, p, q);
    if p == q {
    } else if s[p] != '\\' {
      ScanToQuote(s, p + 1, q);
      BackslashesFrom(s, p, p + 1, q);
    } else if p + 1 < q {
      ScanToQuote(s, p + 2, q);
      BackslashesFrom(s, p, p + 2, q);
    }
  }

  lemma {:induction false} BackslashRun(s: string, p: nat, q: nat)
    requires p <= q <= |s|
    ensures forall i :: q - Backslashes(s, p, q) <= i < q ==> s[i] == '\\'
    ensures Backslashes(s, p, q) < q - p ==> s[q - Backslashes(s, p, q) - 1] != '\\'
  {
    if q > p && s[q - 1] == '\\' {
      BackslashRun(s, p, q - 1);
    }
  }

  /** Starting the count later changes it only by the bytes left out of an unbroken run. */
  lemma {:induction false} BackslashesFrom(s: string, p: nat, p': nat, q: nat)
    requires p <= p' <= q <= |s|
    ensures Backslashes(s, p', q) == if Backslashes(s, p, q) > q - p' then q - p' else Backslashes(s, p, q)
    decreases q
  {
    if q > p' && s[q - 1] == '\\' {
      BackslashesFrom(s, p, p', q - 1);
    }
  }

  lemma {:induction false} NoQuoteNoEnd(s: string, p: nat)
    requires forall i :: p <= i < |s| ==> s[i] != '"'
    ensures EscapeScan(s, p) == None
    decreases |s| - p
  {
    if p < |s| {
      NoQuoteNoEnd(s, p + 1);
      NoQuoteNoEnd(s, p + 2);
    }
  }

  /** The rough string skip ends exactly where the escape-aware scan ends. */
  lemma {:induction false} RoughStringIsEscapeScan(s: string, p: nat)
    requires p <= |s|
    ensures RoughStringEnd(s, p).At? <==> EscapeScan(s, p).Some?
    ensures RoughStringEnd(s, p).At? ==> RoughStringEnd(s, p).pos == EscapeScan(s, p).value
    decreases |s| - p
  {
    var q := Scan(Quote, s, p);
    ScanMisses(Quote, s, p);
    if q == |s| {
      NoQuoteNoEnd(s, p);
    } else {
      ScanToQuote(s, p, q);
      RoughStringIsEscapeScan(s, q + 1);
    }
  }

  lemma {:induction false} EscapeScanPlain(s: string, p: nat, q: nat)
    requires p <= q <= |s|
    requires forall i :: p <= i < q ==> !Matches(StringSpecial, s[i])
    ensures EscapeScan(s, p) == EscapeScan(s, q)
    decreases q - p
  {
    if p < q {
      EscapeScanPlain(s, p + 1, q);
    }
  }

  lemma {:induction false} HexRunIsHex(s: string, p: nat, n: nat, code: nat)
    requires p <= |s| && HexRun(s, p, n, code).Ok?
    ensures p + n <= |s| && forall i :: p <= i < p + n ==> IsHex(s[i])
    decreases n
  {
    if n > 0 {
      HexRunIsHex(s, p + 1, n - 1, code * 16 + HexValue(s[p]));
    }
  }

  /** The escape-aware scan passes over a valid escape. */
  lemma EscapeScanPasses(s: string, q: nat)
    requires q < |s| && s[q] == '\\' && Escape(s, q + 1).Ok?
    ensures EscapeScan(s, q) == EscapeScan(s, Escape(s, q + 1).pos)
  {
    hide CodeBytes;
    if s[q + 1] == 'u' {
      hide HexRun;
      HexRunIsHex(s, q + 2, 4, 0);
      EscapeScanPlain(s, q + 2, q + 6);
    }
  }

  lemma EscapeScanAtQuote(s: string, q: nat)
    requires q < |s| && s[q] == '"'
    ensures EscapeScan(s, q) == Some(q + 1)
  {
  }

  /** A string with valid escapes ends where the escape-aware scan says. */
  lemma {:induction false} StrictStringIsEscapeScan(s: string, p: nat)
    requires p <= |s| && StringEnd(s, p).At?
    ensures EscapeScan(s, p) == Some(StringEnd(s, p).pos)
    decreases |s| - p
  {
    hide Scan, Escape, EscapeScan;
    var q := Scan(StringSpecial, s, p);
    ScanMisses(StringSpecial, s, p);
    EscapeScanPlain(s, p, q);
    if s[q] == '"' {
      EscapeScanAtQuote(s, q);
    } else {
      EscapeScanPasses(s, q);
      StrictStringIsEscapeScan(s, Escape(s, q + 1).pos);
    }
  }

  lemma StrictStringIsRough(s: string, p: nat)
    requires p <= |s| && StringEnd(s, p).At?
    ensures RoughStringEnd(s, p) == At(StringEnd(s, p).pos)
  {
    StrictStringIsEscapeScan(s, p);
    RoughStringIsEscapeScan(s, p);
  }

  /* ---- scalars hold no structural byte ---- */

  predicate Inert(c: char) {
    !Matches(CompoundSpecial, c) && !Matches(UnquotedDelimiter, c)
  }

  predicate InertRun(s: string, p: nat, q: nat)
    requires p <= q <= |s|
  {
    forall i :: p <= i < q ==> Inert(s[i])
  }

  lemma MantissaIsInert(s: string, p: nat)
    requires p <= |s| && Mantissa(s, p).Ok?
    ensures InertRun(s, p, Mantissa(s, p).pos)
  {
    var a := Sign(s, p);
    DigitsAreDigits(s, a);
    var b := Digits(s, a);
    if b < |s| && s[b] == '.' {
      DigitsAreDigits(s, b + 1);
    }
  }

  lemma NumberIsInert(s: string, p: nat)
    requires p <= |s| && JsonTokens.Number(s, p).Ok?
    ensures InertRun(s, p, JsonTokens.Number(s, p).pos)
  {
    MantissaIsInert(s, p);
    var e := Mantissa(s, p).pos;
    if e < |s| && IsExponentMark(s[e]) {
      var d := Sign(s, e + 1);
      DigitsAreDigits(s, d);
      assert InertRun(s, e, Digits(s, d));
    }
  }

  lemma LiteralIsInert(s: string, p: nat, word: string)
    requires p <= |s| && Literal(s, p, word).At?
    requires forall i :: 0 <= i < |word| ==> Inert(word[i])
    ensures InertRun(s, p, Literal(s, p, word).pos)
  {
    forall i | p <= i < p + |word|
      ensures Inert(s[i])
    {
      assert s[p..p + |word|][i - p] == s[i];
    }
  }

  lemma ScalarIsInert(s: string, q: nat)
    requires q < |s| && SkipScalar(s, q).At?
    ensures InertRun(s, q, SkipScalar(s, q).pos)
  {
    if StartsNumber(s[q]) {
      NumberIsInert(s, q);
    } else if s[q] == 't' {
      LiteralIsInert(s, q, "true");
    } else if s[q] == 'f' {
      LiteralIsInert(s, q, "false");
    } else {
      LiteralIsInert(s, q, "null");
    }
  }

  /* ---- compounds: the counters come back after every well-formed part ---- */

  /** Bytes that are not structural do not influence the rough compound skip. */
  lemma RoughPlain(s: string, p: nat, q: nat, d: Depths, why: Err)
    requires p <= q <= |s|
    requires forall i :: p <= i < q ==> !Matches(CompoundSpecial, s[i])
    ensures RoughCompoundEnd(s, p, d, why) == RoughCompoundEnd(s, q, d, why)
  {
    ScanFrom(CompoundSpecial, s, p, q);
  }

  lemma RoughSpaces(s: string, p: nat, d: Depths, why: Err)
    requires p <= |s|
    ensures RoughCompoundEnd(s, p, d, why) == RoughCompoundEnd(s, SkipSpaces(s, p), d, why)
  {
    ScanMisses(NonSpace, s, p);
    RoughPlain(s, p, SkipSpaces(s, p), d, why);
  }

  /** The rough skip at one structural byte. */
  lemma RoughBracket(s: string, p: nat, d: Depths, why: Err)
    requires p < |s| && Matches(CompoundSpecial, s[p]) && s[p] != '"'
    ensures RoughCompoundEnd(s, p, d, why) == Closed(s, p + 1, Depth(d, s[p]), why)
  {
  }

  /** A well-formed string inside the compound is passed over. */
  lemma RoughString(s: string, p: nat, d: Depths, why: Err)
    requires p < |s| && s[p] == '"' && d != Depths(0, 0) && StringEnd(s, p + 1).At?
    ensures RoughCompoundEnd(s, p, d, why) == RoughCompoundEnd(s, StringEnd(s, p + 1).pos, d, why)
  {
    StrictStringIsRough(s, p + 1);
  }

  /** The skip is over when both counters are zero, and goes on otherwise. */
  function Closed(s: string, p: nat, d: Depths, why: Err): Skip
    requires p <= |s|
  {
    if d == Depths(0, 0) then At(p) else RoughCompoundEnd(s, p, d, why)
  }

  /** Reference: walk byte by byte over brackets and strings, with `o` objects and `a` arrays open, until
      none is; a closing byte without a partner is passed over. */
  function Balance(s: string, p: nat, o: nat, a: nat): (r: Option<nat>)
    decreases |s| - p
  {
    if o == 0 && a == 0 then Some(p)
    else if p >= |s| then None
    else match s[p]
      case '{' => Balance(s, p + 1, o + 1, a)
      case '[' => Balance(s, p + 1, o, a + 1)
      case '}' => Balance(s, p + 1, if o == 0 then 0 else o - 1, a)
      case ']' => Balance(s, p + 1, o, if a == 0 then 0 else a - 1)
      case '"' =>
        var e := EscapeScan(s, p + 1);
        if e.Some? && p < e.value then Balance(s, e.value, o, a) else None
      case _ => Balance(s, p + 1, o, a)
  }

  lemma {:induction false} BalancePlain(s: string, p: nat, q: nat, o: nat, a: nat)
    requires p <= q <= |s|
    requires forall i :: p <= i < q ==> !Matches(CompoundSpecial, s[i])
    ensures Balance(s, p, o, a) == if o == 0 && a == 0 then Some(p) else Balance(s, q, o, a)
    decreases q - p
  {
    if p < q {
      assert !Matches(CompoundSpecial, s[p]);
      BalancePlain(s, p + 1, q, o, a);
    }
  }

  /** The walk over one bracket moves as the counters do. */
  lemma BalanceBracket(s: string, q: nat, d: Depths)
    requires q < |s| && d != Depths(0, 0) && Matches(CompoundSpecial, s[q]) && s[q] != '"'
    ensures var d' := Depth(d, s[q]);
            Balance(s, q, d.objects, d.arrays) == Balance(s, q + 1, d'.objects, d'.arrays)
  {
  }

  lemma BalanceClosed(s: string, q: nat)
    ensures Balance(s, q, 0, 0) == Some(q)
  {
  }

  lemma BalanceString(s: string, q: nat, d: Depths)
    requires q < |s| && d != Depths(0, 0) && s[q] == '"'
    ensures var e := RoughStringEnd(s, q + 1);
            Balance(s, q, d.objects, d.arrays) == if e.At? then Balance(s, e.pos, d.objects, d.arrays) else None
  {
    hide RoughStringEnd, EscapeScan;
    RoughStringIsEscapeScan(s, q + 1);
  }

  lemma BalanceOver(s: string, d: Depths)
    requires d != Depths(0, 0)
    ensures Balance(s, |s|, d.objects, d.arrays) == None
  {
  }

  /** The rough skip of a container, on every text, ends exactly where that walk ends. */
  lemma {:induction false} RoughIsBalance(s: string, p: nat, d: Depths, why: Err)
    requires p <= |s| && d != Depths(0, 0)
    ensures var r := RoughCompoundEnd(s, p, d, why);
            Balance(s, p, d.objects, d.arrays) == if r.At? then Some(r.pos) else None
    decreases |s| - p
  {
    hide Scan, RoughStringEnd, Balance, Depth;
    var q := Scan(CompoundSpecial, s, p);
    ScanMisses(CompoundSpecial, s, p);
    BalancePlain(s, p, q, d.objects, d.arrays);
    if q == |s| {
      BalanceOver(s, d);
    } else if s[q] == '"' {
      BalanceString(s, q, d);
      QuoteIsNoBracket(d);
      if RoughStringEnd(s, q + 1).At? {
        RoughIsBalance(s, RoughStringEnd(s, q + 1).pos, d, why);
      }
    } else {
      BalanceBracket(s, q, d);
      BalanceClosed(s, q + 1);
      if Depth(d, s[q]) != Depths(0, 0) {
        RoughIsBalance(s, q + 1, Depth(d, s[q]), why);
      }
    }
  }

  lemma QuoteIsNoBracket(d: Depths)
    ensures Depth(d, '"') == d
  {
  }

  /** A value that is neither container nor string is passed over up to the next delimiter, whatever it is. */
  lemma LaxScalarEnds(s: string, p: nat)
    requires p <= |s| && SkipSpaces(s, p) < |s| && s[SkipSpaces(s, p)] !in "{[\""
    ensures var q, r := SkipSpaces(s, p), SkipValue(s, false, p);
            && r.At? && q <= r.pos <= |s|
            && (forall i :: q <= i < r.pos ==> s[i] !in ",]}")
            && (r.pos < |s| ==> s[r.pos] in ",]}")
  {
    var q := SkipSpaces(s, p);
    var r := SkipValue(s, false, p);
    assert s[q] != '{' && s[q] != '[' && s[q] != '"' by {
      assert "{[\""[0] == '{' && "{[\""[1] == '[' && "{[\""[2] == '"';
    }
    hide SkipSpaces;
    ScanMisses(UnquotedDelimiter, s, q);
    forall i | q <= i < r.pos
      ensures s[i] !in ",]}"
    {
      assert !Matches(UnquotedDelimiter, s[i]);
    }
    assert ",]}"[0] == ',' && ",]}"[1] == ']' && ",]}"[2] == '}';
  }

  lemma {:induction false} RoughPassesValue(s: string, p: nat, d: Depths, why: Err)
    requires p <= |s| && d != Depths(0, 0) && SkipValue(s, true, p).At?
    ensures RoughCompoundEnd(s, p, d, why) == RoughCompoundEnd(s, SkipValue(s, true, p).pos, d, why)
    decreases |s| - p, 1
  {
    hide RoughCompoundEnd, RoughStringEnd, StringEnd, Scan, SkipScalar, SkipObject, SkipArray;
    var q := SkipSpaces(s, p);
    RoughSpaces(s, p, d, why);
    if s[q] == '{' {
      RoughBracket(s, q, d, why);
      RoughClosesObject(s, q + 1, Depth(d, '{'), why);
    } else if s[q] == '[' {
      RoughBracket(s, q, d, why);
      RoughClosesArray(s, q + 1, Depth(d, '['), why);
    } else if s[q] == '"' {
      RoughString(s, q, d, why);
    } else {
      ScalarIsInert(s, q);
      RoughPlain(s, q, SkipScalar(s, q).pos, d, why);
    }
  }

  lemma {:induction false} RoughClosesObject(s: string, p: nat, d: Depths, why: Err)
    requires p <= |s| && d.objects > 0 && SkipObject(s, p).At?
    ensures RoughCompoundEnd(s, p, d, why) == Closed(s, SkipObject(s, p).pos, Depth(d, '}'), why)
    decreases |s| - p, 3
  {
    if p < |s| && s[p] == '}' {
      RoughBracket(s, p, d, why);
    } else {
      RoughClosesMembers(s, p, d, why);
    }
  }

  lemma {:induction false} RoughClosesMembers(s: string, p: nat, d: Depths, why: Err)
    requires p <= |s| && d.objects > 0 && SkipMembers(s, p).At?
    ensures RoughCompoundEnd(s, p, d, why) == Closed(s, SkipMembers(s, p).pos, Depth(d, '}'), why)
    decreases |s| - p, 2
  {
    hide RoughCompoundEnd, SkipMembers;
    var w := RoughPassesMember(s, p, d, why);
    if s[w] == '}' {
      RoughBracket(s, w, d, why);
    } else {
      RoughPlain(s, w, w + 1, d, why);
      RoughClosesMembers(s, w + 1, d, why);
    }
  }

  /** The counter passes one member and stands on the brace or comma behind it. */
  lemma {:induction false} RoughPassesMember(s: string, p: nat, d: Depths, why: Err) returns (w: nat)
    requires p <= |s| && d.objects > 0 && SkipMembers(s, p).At?
    ensures p < w < |s| && RoughCompoundEnd(s, p, d, why) == RoughCompoundEnd(s, w, d, why)
    ensures if s[w] == '}' then SkipMembers(s, p) == At(w + 1)
            else s[w] == ',' && SkipMembers(s, p) == SkipMembers(s, w + 1)
    decreases |s| - p, 1
  {
    hide RoughCompoundEnd, RoughStringEnd, StringEnd, Scan, SkipValue;
    var q := SkipSpaces(s, p);
    RoughSpaces(s, p, d, why);
    RoughString(s, q, d, why);
    var e := StringEnd(s, q + 1);
    RoughSpaces(s, e.pos, d, why);
    var colon := SkipSpaces(s, e.pos);
    RoughPlain(s, colon, colon + 1, d, why);
    RoughPassesValue(s, colon + 1, d, why);
    var v := SkipValue(s, true, colon + 1);
    RoughSpaces(s, v.pos, d, why);
    w := SkipSpaces(s, v.pos);
  }

  lemma {:induction false} RoughClosesArray(s: string, p: nat, d: Depths, why: Err)
    requires p <= |s| && d.arrays > 0 && SkipArray(s, p).At?
    ensures RoughCompoundEnd(s, p, d, why) == Closed(s, SkipArray(s, p).pos, Depth(d, ']'), why)
    decreases |s| - p, 3
  {
    if p < |s| && s[p] == ']' {
      RoughBracket(s, p, d, why);
    } else {
      RoughClosesElements(s, p, d, why);
    }
  }

  lemma {:induction false} RoughClosesElements(s: string, p: nat, d: Depths, why: Err)
    requires p <= |s| && d.arrays > 0 && SkipElements(s, p).At?
    ensures RoughCompoundEnd(s, p, d, why) == Closed(s, SkipElements(s, p).pos, Depth(d, ']'), why)
    decreases |s| - p, 2
  {
    hide RoughCompoundEnd, RoughStringEnd, StringEnd, Scan, SkipValue;
    var q := SkipSpaces(s, p);
    RoughSpaces(s, p, d, why);
    RoughPassesValue(s, q, d, why);
    var v := SkipValue(s, true, q);
    RoughSpaces(s, v.pos, d, why);
    var w := SkipSpaces(s, v.pos);
    if s[w] == ']' {
      RoughBracket(s, w, d, why);
    } else {
      RoughPlain(s, w, w + 1, d, why);
      RoughClosesElements(s, w + 1, d, why);
    }
  }

  /* ---- one skipped member value ---- */

  /** If a strictly skipped value is followed by a comma or a closing brace, the lax skip succeeds
      and leaves the cursor in front of the same byte, up to white space. */
  lemma StrictSkipIsLax(s: string, p: nat)
    requires p <= |s| && SkipValue(s, true, p).At?
    requires var w := SkipSpaces(s, SkipValue(s, true, p).pos); w < |s| && (s[w] == ',' || s[w] == '}')
    ensures SkipValue(s, false, p).At?
    ensures SkipSpaces(s, SkipValue(s, false, p).pos) == SkipSpaces(s, SkipValue(s, true, p).pos)
  {
    hide SkipObject, SkipArray, SkipScalar, RoughCompoundEnd, StringEnd, RoughStringEnd, Scan;
    var q := SkipSpaces(s, p);
    if s[q] == '{' {
      RoughClosesObject(s, q + 1, Depths(1, 0), EndOfObject);
    } else if s[q] == '[' {
      RoughClosesArray(s, q + 1, Depths(0, 1), EndOfArray);
    } else if s[q] == '"' {
      StrictStringIsRough(s, q + 1);
    } else {
      ScalarSkipIsLax(s, q);
      SkipSpacesTwice(s, SkipScalar(s, q).pos);
    }
  }

  /** The delimiter search over a scalar stops at the token that follows it. */
  lemma ScalarSkipIsLax(s: string, q: nat)
    requires q < |s| && SkipScalar(s, q).At?
    requires var w := SkipSpaces(s, SkipScalar(s, q).pos); w < |s| && (s[w] == ',' || s[w] == '}')
    ensures Scan(UnquotedDelimiter, s, q) == SkipSpaces(s, SkipScalar(s, q).pos)
  {
    hide SkipScalar;
    ScalarIsInert(s, q);
    var r := SkipScalar(s, q);
    var w := SkipSpaces(s, r.pos);
    ScanMisses(NonSpace, s, r.pos);
    assert forall i :: q <= i < w ==> !Matches(UnquotedDelimiter, s[i]);
    ScanFrom(UnquotedDelimiter, s, q, w);
  }

  /* ---- whole texts ---- */

  lemma {:induction false} ValueStrictIsLax(s: string, node: Processor, p: nat)
    requires p <= |s| && Value(s, true, node, p).Done?
    ensures Value(s, false, node, p) == Value(s, true, node, p)
    decreases |s| - p, 0
  {
    var q := SkipSpaces(s, p);
    if s[q] == '{' {
      MembersStrictIsLax(s, node, q + 1);
    } else if s[q] == '[' {
      ElementsStrictIsLax(s, node, q + 1);
    }
  }

  lemma {:induction false} MembersStrictIsLax(s: string, node: Processor, p: nat)
    requires p <= |s| && Members(s, true, node, p).Done?
    ensures Members(s, false, node, p) == Members(s, true, node, p)
    decreases |s| - p, 1
  {
    hide ParseString, Scan, SkipValue, Value, FindSub;
    var q := SkipSpaces(s, p);
    if s[q] != '}' {
      var key := ParseString(s, q + 1);
      var v0 := SkipSpaces(s, SkipSpaces(s, key.pos) + 1);
      var v := MemberValue(s, true, node, key.value, v0);
      AfterMemberStrictIsLax(s, node, v.pos);
      var child := FindSub(node.children, key.value.text, key.value.escaped);
      if child.Some? {
        ValueStrictIsLax(s, child.value, v0);
      } else {
        StrictSkipIsLax(s, v0);
      }
    }
  }

  lemma {:induction false} AfterMemberStrictIsLax(s: string, node: Processor, p: nat)
    requires p <= |s| && AfterMember(s, true, node, p).Done?
    ensures AfterMember(s, false, node, p) == AfterMember(s, true, node, p)
    decreases |s| - p, 1
  {
    var q := SkipSpaces(s, p);
    if s[q] == ',' {
      MembersStrictIsLax(s, node, q + 1);
    }
  }

  lemma {:induction false} ElementsStrictIsLax(s: string, node: Processor, p: nat)
    requires p <= |s| && Elements(s, true, node, p).Done?
    ensures Elements(s, false, node, p) == Elements(s, true, node, p)
    decreases |s| - p, 1
  {
    var q := SkipSpaces(s, p);
    if s[q] != ']' {
      ValueStrictIsLax(s, node, q);
      var v := Value(s, true, node, q);
      AfterElementStrictIsLax(s, node, v.pos);
    }
  }

  lemma {:induction false} AfterElementStrictIsLax(s: string, node: Processor, p: nat)
    requires p <= |s| && AfterElement(s, true, node, p).Done?
    ensures AfterElement(s, false, node, p) == AfterElement(s, true, node, p)
    decreases |s| - p, 1
  {
    var q := SkipSpaces(s, p);
    if s[q] == ',' {
      ElementsStrictIsLax(s, node, q + 1);
    }
  }

  /** Strict implies lax: whatever the strict parser accepts the lax parser accepts, with the same
      events in the same order. */
  lemma StrictImpliesLax(s: string, root: Processor)
    requires Document(s, true, root).Done?
    ensures Document(s, false, root) == Document(s, true, root)
  {
    MembersStrictIsLax(s, root, SkipSpaces(s, 0) + 1);
  }
}
