/** The texts of the grammar, defined by how they are put together, and the proof that the strict parser
    accepts nothing else: whatever it accepts is one object, well formed down to the last byte, with at most
    a comma left over before a closing bracket. */
module JsonLanguage {
  import opened Common
  import opened JsonScan
  import opened JsonTokens
  import opened JsonIndex
  import opened JsonEscapes
  import JsonGrammar

  /* ---- texts ---- */

  /** A value as written; gaps are the white space between its parts. */
  datatype Text =
    | Scalar(text: string)
    | Object(members: MemberList)
    | Array(elements: ElementList)

  /** Behind '{' or ',': the closing brace, or a member and what follows it. */
  datatype MemberList =
    | NoMember(gap: string)
    | OneMember(gap: string, name: string, gap2: string, gap3: string, value: Text, rest: AfterMember)

  datatype AfterMember =
    | ObjectEnds(gap: string)
    | MoreMembers(gap: string, next: MemberList)

  datatype ElementList =
    | NoElement(gap: string)
    | OneElement(gap: string, value: Text, rest: AfterElement)

  datatype AfterElement =
    | ArrayEnds(gap: string)
    | MoreElements(gap: string, next: ElementList)

  function Spell(t: Text): string {
    match t
    case Scalar(text) => text
    case Object(members) => ['{'] + SpellMembers(members)
    case Array(elements) => ['['] + SpellElements(elements)
  }

  function SpellMembers(m: MemberList): string {
    match m
    case NoMember(gap) => gap + ['}']
    case OneMember(gap, name, gap2, gap3, value, rest) =>
      gap + (InQuotes(name) + (gap2 + ([':'] + (gap3 + (Spell(value) + SpellAfterMember(rest))))))
  }

  function SpellAfterMember(r: AfterMember): string {
    match r
    case ObjectEnds(gap) => gap + ['}']
    case MoreMembers(gap, next) => gap + ([','] + SpellMembers(next))
  }

  function SpellElements(e: ElementList): string {
    match e
    case NoElement(gap) => gap + [']']
    case OneElement(gap, value, rest) => gap + (Spell(value) + SpellAfterElement(rest))
  }

  function SpellAfterElement(r: AfterElement): string {
    match r
    case ArrayEnds(gap) => gap + [']']
    case MoreElements(gap, next) => gap + ([','] + SpellElements(next))
  }

  function InQuotes(body: string): string { ['"'] + (body + ['"']) }

  /* ---- which of them are well formed ---- */

  const BLANKS: string := " \t\n\U{0B}\U{0C}\r"
  const SHORT: string := "\"\\/bfnrt"
  const HEX: string := "0123456789abcdefABCDEF"

  predicate HexChar(c: char) { c in HEX }

  predicate ShortChar(c: char) { c in SHORT }

  predicate Blank(t: string) { forall i :: 0 <= i < |t| ==> t[i] in BLANKS }

  /** Between quotes: plain bytes, escapes of two characters and of six. */
  predicate StringBody(t: string) {
    || t == ""
    || (t[0] != '"' && t[0] != '\\' && StringBody(t[1..]))
    || (|t| >= 2 && t[0] == '\\' && ShortChar(t[1]) && StringBody(t[2..]))
    || (|t| >= 6 && t[0] == '\\' && t[1] == 'u' && (forall i :: 2 <= i < 6 ==> HexChar(t[i])) && StringBody(t[6..]))
  }

  ghost predicate ScalarText(t: string) {
    || t == "true" || t == "false" || t == "null" || IsForm(t)
    || exists body :: t == InQuotes(body) && StringBody(body)
  }

  ghost predicate Well(t: Text) {
    match t
    case Scalar(text) => ScalarText(text)
    case Object(members) => WellMembers(members)
    case Array(elements) => WellElements(elements)
  }

  ghost predicate WellMembers(m: MemberList) {
    match m
    case NoMember(gap) => Blank(gap)
    case OneMember(gap, name, gap2, gap3, value, rest) =>
      Blank(gap) && StringBody(name) && Blank(gap2) && Blank(gap3) && Well(value) && WellAfterMember(rest)
  }

  ghost predicate WellAfterMember(r: AfterMember) {
    match r
    case ObjectEnds(gap) => Blank(gap)
    case MoreMembers(gap, next) => Blank(gap) && WellMembers(next)
  }

  ghost predicate WellElements(e: ElementList) {
    match e
    case NoElement(gap) => Blank(gap)
    case OneElement(gap, value, rest) => Blank(gap) && Well(value) && WellAfterElement(rest)
  }

  ghost predicate WellAfterElement(r: AfterElement) {
    match r
    case ArrayEnds(gap) => Blank(gap)
    case MoreElements(gap, next) => Blank(gap) && WellElements(next)
  }

  /* ---- which of them the strict parser takes ---- */

  /** The byte that a letter behind a backslash stands for. */
  function Meaning(letter: char): (c: char)
    requires ShortChar(letter)
    ensures ShortEscape(c) == Some(letter)
  {
    if letter == 'b' then 8 as char
    else if letter == 't' then 9 as char
    else if letter == 'n' then 10 as char
    else if letter == 'f' then 12 as char
    else if letter == 'r' then 13 as char
    else letter
  }

  /** The bytes a string body stands for. */
  function Unescape(t: string): string {
    if t == "" then ""
    else if t[0] != '\\' || |t| == 1 then [t[0]] + Unescape(t[1..])
    else if ShortChar(t[1]) then [Meaning(t[1])] + Unescape(t[2..])
    else if |t| >= 6 && HexRun(t, 2, 4, 0).Ok? then CodeBytes(HexRun(t, 2, 4, 0).value) + Unescape(t[6..])
    else ""
  }

  /** As written in a value that is skipped: no white space in an empty container, no comma left over. */
  predicate Tight(t: Text) {
    match t
    case Scalar(_) => true
    case Object(members) => members == NoMember("") || TightMembers(members)
    case Array(elements) => elements == NoElement("") || TightElements(elements)
  }

  predicate TightMembers(m: MemberList) {
    m.OneMember? && Tight(m.value) && (m.rest.MoreMembers? ==> TightMembers(m.rest.next))
  }

  predicate TightElements(e: ElementList) {
    e.OneElement? && Tight(e.value) && (e.rest.MoreElements? ==> TightElements(e.rest.next))
  }

  function ChildFor(node: Processor, name: string): Option<Processor> {
    FindSub(node.children, Unescape(name), '\\' in name)
  }

  /** Every value below a name that is not registered is tight. */
  predicate Fits(node: Processor, t: Text)
    decreases t, 0
  {
    match t
    case Scalar(_) => true
    case Object(members) => FitsMembers(node, members)
    case Array(elements) => FitsElements(node, elements)
  }

  predicate FitsMember(node: Processor, name: string, value: Text)
    decreases value, 1
  {
    match ChildFor(node, name)
    case Some(child) => Fits(child, value)
    case None => Tight(value)
  }

  predicate FitsMembers(node: Processor, m: MemberList)
    decreases m, 0
  {
    m.OneMember? ==> FitsMember(node, m.name, m.value) && FitsAfterMember(node, m.rest)
  }

  predicate FitsAfterMember(node: Processor, r: AfterMember)
    decreases r, 0
  {
    r.MoreMembers? ==> FitsMembers(node, r.next)
  }

  predicate FitsElements(node: Processor, e: ElementList)
    decreases e, 0
  {
    e.OneElement? ==> Fits(node, e.value) && FitsAfterElement(node, e.rest)
  }

  predicate FitsAfterElement(node: Processor, r: AfterElement)
    decreases r, 0
  {
    r.MoreElements? ==> FitsElements(node, r.next)
  }

  /* ---- stretches of the text ---- */

  /** The text from p to e. */
  predicate Is(s: string, p: nat, e: nat, t: string) { p <= e <= |s| && s[p..e] == t }

  lemma Cat(s: string, p: nat, m: nat, e: nat, a: string, b: string)
    requires Is(s, p, m, a) && Is(s, m, e, b)
    ensures Is(s, p, e, a + b)
  {
    assert s[p..e] == s[p..m] + s[m..e];
  }

  lemma One(s: string, p: nat)
    requires p < |s|
    ensures Is(s, p, p + 1, [s[p]])
  {
  }

  lemma GapIs(s: string, p: nat) returns (gap: string)
    requires p <= |s|
    ensures Is(s, p, SkipSpaces(s, p), gap) && Blank(gap)
  {
    var q := SkipSpaces(s, p);
    ScanMisses(NonSpace, s, p);
    gap := s[p..q];
    forall i | 0 <= i < |gap|
      ensures gap[i] in BLANKS
    {
      assert !Matches(NonSpace, s[p + i]);
      SpaceIsBlank(s[p + i]);
    }
  }

  lemma SpaceIsBlank(c: char)
    requires !Matches(NonSpace, c)
    ensures c in BLANKS
  {
    assert BLANKS[0] == ' ' && BLANKS[1] == '\t' && BLANKS[2] == '\n';
    assert BLANKS[3] == '\U{0B}' && BLANKS[4] == '\U{0C}' && BLANKS[5] == '\r';
  }

  lemma BlankAppend(a: string, b: string)
    requires Blank(a) && Blank(b)
    ensures Blank(a + b)
  {
  }

  /* ---- strings ---- */

  lemma UnicodeIsNotShort()
    ensures !ShortChar('u')
  {
  }

  lemma {:induction false} BodyAppend(a: string, b: string)
    requires StringBody(a) && StringBody(b)
    ensures StringBody(a + b)
    decreases |a|
  {
    hide HexChar, ShortChar;
    UnicodeIsNotShort();
    if a == "" {
      assert a + b == b;
    } else if a[0] != '"' && a[0] != '\\' {
      BodyAppend(a[1..], b);
      Behind(a, b, 1);
    } else if a[1] == 'u' {
      BodyAppend(a[6..], b);
      Behind(a, b, 6);
    } else {
      BodyAppend(a[2..], b);
      Behind(a, b, 2);
    }
  }

  lemma Behind(a: string, b: string, n: nat)
    requires n <= |a|
    ensures (a + b)[n..] == a[n..] + b && forall i :: 0 <= i < n ==> (a + b)[i] == a[i]
  {
  }

  lemma {:induction false} PlainBody(t: string)
    requires forall i :: 0 <= i < |t| ==> t[i] != '"' && t[i] != '\\'
    ensures StringBody(t)
  {
    if t != "" {
      PlainBody(t[1..]);
    }
  }

  lemma HexIsHex(c: char)
    requires IsHex(c)
    ensures HexChar(c)
  {
    var d := HexValue(c);
    if IsDec(c) {
      assert HEX[d] == c by { DigitHere(c); }
    } else if 'a' <= c {
      assert HEX[d] == c by { LowerHere(c); }
    } else {
      assert HEX[d + 6] == c by { UpperHere(c); }
    }
  }

  lemma DigitHere(c: char)
    requires IsDec(c)
    ensures HEX[(c - '0') as int] == c
  {
    match (c - '0') as int
    case 0 => case 1 => case 2 => case 3 => case 4 => case 5 => case 6 => case 7 => case 8 => case 9 =>
  }

  lemma LowerHere(c: char)
    requires 'a' <= c <= 'f'
    ensures HEX[(c - 'a') as int + 10] == c
  {
    match (c - 'a') as int
    case 0 => case 1 => case 2 => case 3 => case 4 => case 5 =>
  }

  lemma UpperHere(c: char)
    requires 'A' <= c <= 'F'
    ensures HEX[(c - 'A') as int + 16] == c
  {
    match (c - 'A') as int
    case 0 => case 1 => case 2 => case 3 => case 4 => case 5 =>
  }

  lemma {:induction false} HexRunHex(s: string, p: nat, n: nat, code: nat)
    requires p <= |s| && HexRun(s, p, n, code).Ok?
    ensures p + n <= |s| && forall i :: p <= i < p + n ==> HexChar(s[i])
    decreases n
  {
    hide HexChar, HexValue;
    if n > 0 {
      HexIsHex(s[p]);
      HexRunHex(s, p + 1, n - 1, code * 16 + HexValue(s[p]));
    }
  }

  /** A valid escape is one of those a string may contain. */
  lemma EscapeBody(s: string, q: nat)
    requires q < |s| && s[q] == '\\' && Escape(s, q + 1).Ok?
    ensures StringBody(s[q..Escape(s, q + 1).pos])
  {
    hide HexRun, CodeBytes, HexChar, ShortChar;
    var e := Escape(s, q + 1).pos;
    var t := s[q..e];
    if s[q + 1] == 'u' {
      HexRunHex(s, q + 2, 4, 0);
      assert e == q + 6 && |t| == 6 && t[1] == 'u';
      assert forall i :: 2 <= i < 6 ==> t[i] == s[q + i];
      assert t[6..] == "";
    } else {
      assert e == q + 2 && |t| == 2 && t[2..] == "";
      ShortIsShort(s[q + 1]);
      assert t[1] == s[q + 1];
    }
  }

  lemma ShortIsShort(c: char)
    requires c == '\\' || c == '"' || c == '/' || c == 'b' || c == 'f' || c == 'n' || c == 'r' || c == 't'
    ensures ShortChar(c)
  {
    assert SHORT[0] == '"' && SHORT[1] == '\\' && SHORT[2] == '/' && SHORT[3] == 'b';
    assert SHORT[4] == 'f' && SHORT[5] == 'n' && SHORT[6] == 'r' && SHORT[7] == 't';
  }

  /** A string accepted ends with its quote, and what is before it is a proper body. */
  lemma {:induction false} StringIs(s: string, p: nat) returns (body: string)
    requires p <= |s| && StringEnd(s, p).At?
    ensures Is(s, p, StringEnd(s, p).pos, body + ['"']) && StringBody(body)
    decreases |s| - p
  {
    hide Escape, Scan, StringBody;
    var q := Scan(StringSpecial, s, p);
    ScanMisses(StringSpecial, s, p);
    assert forall i :: 0 <= i < q - p ==> s[p..q][i] == s[p + i] && !Matches(StringSpecial, s[p + i]);
    PlainBody(s[p..q]);
    assert Is(s, p, q, s[p..q]);
    if s[q] == '"' {
      body := s[p..q];
      One(s, q);
      Cat(s, p, q, q + 1, body, ['"']);
    } else {
      var e := Escape(s, q + 1).pos;
      EscapeBody(s, q);
      var rest := StringIs(s, e);
      BodyAppend(s[q..e], rest);
      BodyAppend(s[p..q], s[q..e] + rest);
      body := s[p..q] + (s[q..e] + rest);
      assert Is(s, q, e, s[q..e]);
      Cat(s, q, e, StringEnd(s, e).pos, s[q..e], rest + ['"']);
      Cat(s, p, q, StringEnd(s, e).pos, s[p..q], s[q..e] + (rest + ['"']));
      assert s[p..q] + (s[q..e] + (rest + ['"'])) == body + ['"'];
    }
  }

  /** A quoted string from its opening quote on. */
  lemma QuotedIs(s: string, q: nat) returns (body: string)
    requires q < |s| && s[q] == '"' && StringEnd(s, q + 1).At?
    ensures Is(s, q, StringEnd(s, q + 1).pos, InQuotes(body)) && StringBody(body)
  {
    hide StringEnd, StringBody;
    body := StringIs(s, q + 1);
    One(s, q);
    Cat(s, q, q + 1, StringEnd(s, q + 1).pos, ['"'], body + ['"']);
  }

  /* ---- what a string stands for ---- */

  lemma HexCharIsHex(c: char)
    requires HexChar(c)
    ensures IsHex(c)
  {
    var i :| 0 <= i < |HEX| && HEX[i] == c;
    assert |HEX| == 22;
    if i < 16 {
      assert HEX[i] == LOWER[i] == HexDigit(i, false);
      HexDigitReads(i, false);
    } else {
      assert HEX[i] == UPPER[i - 6] == HexDigit(i - 6, true);
      HexDigitReads(i - 6, true);
    }
  }

  lemma {:induction false} HexRunSame(s: string, p: nat, t: string, q: nat, n: nat, code: nat)
    requires p + n <= |s| && q + n <= |t| && s[p..p + n] == t[q..q + n]
    requires forall i :: q <= i < q + n ==> HexChar(t[i])
    ensures HexRun(t, q, n, code).Ok? && HexRun(s, p, n, code) == Ok(HexRun(t, q, n, code).value, p + n)
    decreases n
  {
    hide HexChar, HexValue;
    if n > 0 {
      assert s[p] == s[p..p + n][0] == t[q..q + n][0] == t[q];
      HexCharIsHex(t[q]);
      assert s[p + 1..p + n] == s[p..p + n][1..] == t[q..q + n][1..] == t[q + 1..q + n];
      HexRunSame(s, p + 1, t, q + 1, n - 1, code * 16 + HexValue(s[p]));
    }
  }

  /** The first element of a body: a plain byte, a short escape or a \u escape. */
  function HeadLength(t: string): nat
    requires t != "" && StringBody(t)
  {
    if t[0] != '\\' then 1 else if t[1] == 'u' then 6 else 2
  }

  /** Reading the first element of a body. */
  lemma HeadReads(s: string, p: nat, t: string)
    requires t != "" && StringBody(t) && Has(s, p, t)
    ensures p < |s| && s[p] == t[0] != '"' && HeadLength(t) <= |t| && StringBody(t[HeadLength(t)..])
    ensures t[0] == '\\' ==> Escape(s, p + 1).Ok? && Escape(s, p + 1).pos == p + HeadLength(t)
    ensures var v := if t[0] == '\\' then Escape(s, p + 1).value else [t[0]];
            Unescape(t) == v + Unescape(t[HeadLength(t)..])
  {
    hide HexChar, ShortChar, HexRun, CodeBytes, ShortEscape, Escape, Unescape;
    UnicodeIsNotShort();
    HasChar(s, p, t);
    assert s[p + 0] == t[0];
    if t[0] != '\\' {
      PlainHead(t);
    } else if t[1] == 'u' {
      UnicodeHead(s, p, t);
    } else {
      ShortHead(s, p, t);
    }
  }

  lemma PlainHead(t: string)
    requires t != "" && t[0] != '\\'
    ensures Unescape(t) == [t[0]] + Unescape(t[1..])
  {
  }

  lemma ShortHead(s: string, p: nat, t: string)
    requires |t| >= 2 && t[0] == '\\' && ShortChar(t[1]) && Has(s, p, t)
    ensures p + 1 < |s| && Escape(s, p + 1) == Ok([Meaning(t[1])], p + 2)
    ensures Unescape(t) == [Meaning(t[1])] + Unescape(t[2..])
  {
    hide HexRun, CodeBytes, ShortChar, ShortEscape, Escape;
    HasChar(s, p, t);
    assert s[p + 1] == t[1];
    ShortReads(s, p + 1, Meaning(t[1]));
  }

  lemma UnicodeHead(s: string, p: nat, t: string)
    requires |t| >= 6 && t[0] == '\\' && t[1] == 'u' && (forall i :: 2 <= i < 6 ==> HexChar(t[i])) && Has(s, p, t)
    ensures p + 1 < |s| && Escape(s, p + 1).Ok? && Escape(s, p + 1).pos == p + 6
    ensures Unescape(t) == Escape(s, p + 1).value + Unescape(t[6..])
  {
    hide HexChar, ShortChar, HexRun, CodeBytes, Escape;
    UnicodeIsNotShort();
    HasChar(s, p, t);
    assert s[p + 1] == t[1];
    assert s[p + 2..p + 6] == t[2..6];
    HexRunSame(s, p + 2, t, 2, 4, 0);
    UnicodeEscape(s, p + 1);
  }

  lemma UnicodeEscape(s: string, p: nat)
    requires p < |s| && s[p] == 'u' && HexRun(s, p + 1, 4, 0).Ok?
    ensures Escape(s, p) == Ok(CodeBytes(HexRun(s, p + 1, 4, 0).value), HexRun(s, p + 1, 4, 0).pos)
  {
    hide HexRun, CodeBytes;
  }

  /** Unescaping in place gives what the body stands for. */
  lemma {:induction false} BodyReads(s: string, p: nat, t: string)
    requires StringBody(t) && Has(s, p, t + "\"")
    ensures Tail(s, p) == Ok(Unescape(t), p + |t| + 1)
    decreases |t|
  {
    hide Escape, StringBody, HeadLength, Unescape, Tail, Has;
    HasSplit(s, p, t, "\"");
    if t == "" {
      HasHead(s, p, '"', "");
      NothingStands();
      TailEnds(s, p);
    } else {
      HeadReads(s, p, t);
      var n := HeadLength(t);
      HeadIsOne(t);
      assert t + "\"" == t[..n] + (t[n..] + "\"");
      HasSplit(s, p, t[..n], t[n..] + "\"");
      BodyReads(s, p + n, t[n..]);
      if t[0] == '\\' {
        TailEscape(s, p);
      } else {
        TailPlain(s, p);
      }
    }
  }

  lemma NothingStands()
    ensures Unescape("") == ""
  {
  }

  lemma HeadIsOne(t: string)
    requires t != "" && StringBody(t)
    ensures HeadLength(t) > 0 && (t[0] != '\\' ==> HeadLength(t) == 1)
  {
  }

  lemma {:induction false} PlainStands(t: string)
    requires '\\' !in t
    ensures Unescape(t) == t
  {
    if t != "" {
      PlainStands(t[1..]);
      assert [t[0]] + t[1..] == t;
    }
  }

  /** The scan stops at the first backslash, or else at the closing quote. */
  lemma {:induction false} ScanStops(s: string, p: nat, t: string)
    requires StringBody(t) && Has(s, p, t + "\"")
    ensures var q := Scan(StringSpecial, s, p);
            q < |s| && if '\\' in t then s[q] == '\\' else s[q] == '"' && q == p + |t|
    decreases |t|
  {
    hide StringBody, HeadLength, Unescape, Escape, HexChar, ShortChar;
    HasSplit(s, p, t, "\"");
    if t == "" {
      HasHead(s, p, '"', "");
    } else {
      HeadReads(s, p, t);
      HeadIsOne(t);
      if t[0] != '\\' {
        assert t + "\"" == [t[0]] + (t[1..] + "\"");
        HasHead(s, p, t[0], t[1..] + "\"");
        ScanStops(s, p + 1, t[1..]);
        assert t == [t[0]] + t[1..];
      }
    }
  }

  /** The whole token: what the body stands for, and whether there is a backslash in it. */
  lemma TokenReads(s: string, q: nat, e: nat, t: string)
    requires StringBody(t) && Is(s, q, e, InQuotes(t))
    ensures q < e && s[q] == '"'
    ensures ParseString(s, q + 1) == Ok(StringToken(Unescape(t), '\\' in t), e)
    ensures StringEnd(s, q + 1) == At(e)
  {
    hide StringBody, Unescape, Tail, Scan, StringEnd;
    assert Has(s, q, InQuotes(t));
    HasHead(s, q, '"', t + "\"");
    BodyReads(s, q + 1, t);
    ScanStops(s, q + 1, t);
    ParseEndsLikeSkip(s, q + 1);
    if '\\' !in t {
      PlainStands(t);
      HasSplit(s, q + 1, t, "\"");
    }
  }

  /* ---- scalars ---- */

  lemma NumberIs(s: string, q: nat)
    requires q < |s| && StartsNumber(s[q]) && Number(s, q).Ok?
    ensures ScalarText(s[q..Number(s, q).pos])
  {
    hide Number;
    var f := NumberIsForm(s, q);
    assert IsForm(s[q..Number(s, q).pos]);
  }

  lemma SkippedScalarIs(s: string, q: nat)
    requires q < |s| && SkipScalar(s, q).At?
    ensures ScalarText(s[q..SkipScalar(s, q).pos])
  {
    hide Number, ScalarText;
    if StartsNumber(s[q]) {
      NumberIs(s, q);
    } else {
      WordsAreScalars();
    }
  }

  lemma WordsAreScalars()
    ensures ScalarText("true") && ScalarText("false") && ScalarText("null")
  {
  }

  lemma BodyIsScalar(body: string)
    requires StringBody(body)
    ensures ScalarText(InQuotes(body))
  {
  }

  /** A scalar the parser accepts. */
  lemma ScalarIs(s: string, node: Processor, q: nat) returns (t: Text)
    requires q < |s| && JsonGrammar.ScalarValue(s, node, q).Done?
    ensures t.Scalar? && Well(t) && Is(s, q, JsonGrammar.ScalarValue(s, node, q).pos, Spell(t))
  {
    hide Number, ScalarText, ParseString, StringEnd, Literal, StringBody;
    var e := JsonGrammar.ScalarValue(s, node, q).pos;
    if s[q] == '"' {
      ParseEndsLikeSkip(s, q + 1);
      var body := QuotedIs(s, q);
      BodyIsScalar(body);
      t := Text.Scalar(InQuotes(body));
    } else {
      assert SkipScalar(s, q) == At(e);
      SkippedScalarIs(s, q);
      t := Text.Scalar(s[q..e]);
    }
  }

  /* ---- values that are parsed or skipped ---- */

  /** The parts of one member, put together. */
  lemma MemberIs(s: string, p: nat, q: nat, k: nat, colon: nat, v: nat, e: nat, end: nat, m: MemberList)
    requires m.OneMember? && Is(s, p, q, m.gap) && Is(s, q, k, InQuotes(m.name)) && Is(s, k, colon, m.gap2)
    requires colon < |s| && s[colon] == ':' && Is(s, colon + 1, v, m.gap3) && Is(s, v, e, Spell(m.value))
    requires Is(s, e, end, SpellAfterMember(m.rest))
    ensures Is(s, p, end, SpellMembers(m))
  {
    hide Is, Spell, SpellAfterMember, InQuotes;
    var value, rest := Spell(m.value), SpellAfterMember(m.rest);
    Cat(s, v, e, end, value, rest);
    Cat(s, colon + 1, v, end, m.gap3, value + rest);
    One(s, colon);
    Cat(s, colon, colon + 1, end, [':'], m.gap3 + (value + rest));
    Cat(s, k, colon, end, m.gap2, [':'] + (m.gap3 + (value + rest)));
    Cat(s, q, k, end, InQuotes(m.name), m.gap2 + ([':'] + (m.gap3 + (value + rest))));
    Cat(s, p, q, end, m.gap, InQuotes(m.name) + (m.gap2 + ([':'] + (m.gap3 + (value + rest)))));
  }

  lemma EndIs(s: string, p: nat, q: nat, gap: string, close: char)
    requires Is(s, p, q, gap) && q < |s| && s[q] == close
    ensures Is(s, p, q + 1, gap + [close])
  {
    One(s, q);
    Cat(s, p, q, q + 1, gap, [close]);
  }

  /** A gap, one byte, and what follows. */
  lemma ThenIs(s: string, p: nat, q: nat, e: nat, gap: string, c: char, rest: string)
    requires Is(s, p, q, gap) && q < |s| && s[q] == c && Is(s, q + 1, e, rest)
    ensures Is(s, p, e, gap + ([c] + rest))
  {
    One(s, q);
    Cat(s, q, q + 1, e, [c], rest);
    Cat(s, p, q, e, gap, [c] + rest);
  }

  /** The white space before a value is split in two when it was skipped twice. */
  lemma GapTwice(s: string, a: nat, b: nat, c: nat, gap: string, more: string)
    requires Is(s, a, b, gap) && Is(s, b, c, more) && Blank(gap) && Blank(more)
    ensures Is(s, a, c, gap + more) && Blank(gap + more)
  {
    Cat(s, a, b, c, gap, more);
    BlankAppend(gap, more);
  }

  lemma {:induction false} SkippedValueIs(s: string, p: nat) returns (q: nat, gap: string, t: Text)
    requires p <= |s| && SkipValue(s, true, p).At?
    ensures q <= |s| && Is(s, p, q, gap) && Blank(gap) && Is(s, q, SkipValue(s, true, p).pos, Spell(t))
    ensures Well(t) && Tight(t)
    decreases |s| - p, 1
  {
    hide Is, StringEnd, SkipScalar, SkipSpaces, StringBody, ScalarText, Blank, InQuotes, SkipMembers, SkipElements,
      WellMembers, WellElements, SpellMembers, SpellElements, TightMembers, TightElements;
    q := SkipSpaces(s, p);
    gap := GapIs(s, p);
    var e := SkipValue(s, true, p).pos;
    GapBounds(s, p);
    if s[q] == '{' {
      var m := SkippedObjectIs(s, q + 1);
      One(s, q);
      Cat(s, q, q + 1, e, ['{'], SpellMembers(m));
      t := Object(m);
    } else if s[q] == '[' {
      var m := SkippedArrayIs(s, q + 1);
      One(s, q);
      Cat(s, q, q + 1, e, ['['], SpellElements(m));
      t := Array(m);
    } else if s[q] == '"' {
      var body := QuotedIs(s, q);
      BodyIsScalar(body);
      t := Text.Scalar(InQuotes(body));
    } else {
      SkippedScalarIs(s, q);
      t := Text.Scalar(s[q..e]);
      SliceIs(s, q, e);
    }
  }

  lemma SliceIs(s: string, p: nat, e: nat)
    requires p <= e <= |s|
    ensures Is(s, p, e, s[p..e])
  {
  }

  lemma GapBounds(s: string, p: nat)
    requires p <= |s|
    ensures p <= SkipSpaces(s, p) <= |s|
  {
  }

  lemma {:induction false} SkippedObjectIs(s: string, p: nat) returns (m: MemberList)
    requires p <= |s| && SkipObject(s, p).At?
    ensures WellMembers(m) && Is(s, p, SkipObject(s, p).pos, SpellMembers(m)) && Tight(Object(m))
    decreases |s| - p, 3
  {
    hide SkipMembers, TightMembers;
    if p < |s| && s[p] == '}' {
      m := NoMember("");
      EndIs(s, p, p, "", '}');
    } else {
      m := SkippedMembersIs(s, p);
    }
  }

  lemma {:induction false} SkippedMembersIs(s: string, p: nat) returns (m: MemberList)
    requires p <= |s| && SkipMembers(s, p).At?
    ensures WellMembers(m) && Is(s, p, SkipMembers(s, p).pos, SpellMembers(m)) && TightMembers(m)
    decreases |s| - p, 2
  {
    hide Is, StringEnd, SkipValue, SkipSpaces, StringBody, Blank, InQuotes, SpellMembers, SpellAfterMember, Spell, Well,
      Tight;
    var q := SkipSpaces(s, p);
    GapBounds(s, p);
    var gap := GapIs(s, p);
    var name := QuotedIs(s, q);
    var k := StringEnd(s, q + 1).pos;
    var colon := SkipSpaces(s, k);
    GapBounds(s, k);
    var gap2 := GapIs(s, k);
    var v, gap3, value := SkippedValueIs(s, colon + 1);
    var e := SkipValue(s, true, colon + 1).pos;
    var rest := SkippedAfterMemberIs(s, p, e);
    m := OneMember(gap, name, gap2, gap3, value, rest);
    MemberIs(s, p, q, k, colon, v, e, SkipMembers(s, p).pos, m);
  }

  /** Behind a skipped member; `from` is where the member list began. */
  lemma {:induction false} SkippedAfterMemberIs(s: string, from: nat, e: nat) returns (r: AfterMember)
    requires from < e <= |s|
    requires var w := SkipSpaces(s, e);
             w < |s| && (s[w] == '}' || (s[w] == ',' && SkipMembers(s, w + 1).At?))
    ensures WellAfterMember(r) && (r.MoreMembers? ==> TightMembers(r.next))
    ensures var w := SkipSpaces(s, e);
            Is(s, e, if s[w] == '}' then w + 1 else SkipMembers(s, w + 1).pos, SpellAfterMember(r))
    decreases |s| - from, 1
  {
    hide Is, SkipMembers, SkipSpaces, Blank, SpellMembers, WellMembers, TightMembers;
    var w := SkipSpaces(s, e);
    GapBounds(s, e);
    var gap := GapIs(s, e);
    if s[w] == '}' {
      r := ObjectEnds(gap);
      EndIs(s, e, w, gap, '}');
    } else {
      var next := SkippedMembersIs(s, w + 1);
      r := MoreMembers(gap, next);
      ThenIs(s, e, w, SkipMembers(s, w + 1).pos, gap, ',', SpellMembers(next));
    }
  }

  lemma {:induction false} SkippedArrayIs(s: string, p: nat) returns (m: ElementList)
    requires p <= |s| && SkipArray(s, p).At?
    ensures WellElements(m) && Is(s, p, SkipArray(s, p).pos, SpellElements(m)) && Tight(Array(m))
    decreases |s| - p, 3
  {
    hide SkipElements, TightElements;
    if p < |s| && s[p] == ']' {
      m := NoElement("");
      EndIs(s, p, p, "", ']');
    } else {
      m := SkippedElementsIs(s, p);
    }
  }

  lemma ElementIs(s: string, p: nat, v: nat, e: nat, end: nat, m: ElementList)
    requires m.OneElement? && Is(s, p, v, m.gap) && Is(s, v, e, Spell(m.value))
    requires Is(s, e, end, SpellAfterElement(m.rest))
    ensures Is(s, p, end, SpellElements(m))
  {
    hide Is, Spell, SpellAfterElement;
    Cat(s, v, e, end, Spell(m.value), SpellAfterElement(m.rest));
    Cat(s, p, v, end, m.gap, Spell(m.value) + SpellAfterElement(m.rest));
  }

  lemma {:induction false} SkippedElementsIs(s: string, p: nat) returns (m: ElementList)
    requires p <= |s| && SkipElements(s, p).At?
    ensures WellElements(m) && Is(s, p, SkipElements(s, p).pos, SpellElements(m)) && TightElements(m)
    decreases |s| - p, 2
  {
    hide Is, SkipValue, SkipSpaces, Blank, SpellElements, SpellAfterElement, Spell, Well, Tight;
    var q := SkipSpaces(s, p);
    GapBounds(s, p);
    var gap := GapIs(s, p);
    var v, more, value := SkippedValueIs(s, q);
    GapTwice(s, p, q, v, gap, more);
    var e := SkipValue(s, true, q).pos;
    var rest := SkippedAfterElementIs(s, p, e);
    m := OneElement(gap + more, value, rest);
    ElementIs(s, p, v, e, SkipElements(s, p).pos, m);
  }

  lemma {:induction false} SkippedAfterElementIs(s: string, from: nat, e: nat) returns (r: AfterElement)
    requires from < e <= |s|
    requires var w := SkipSpaces(s, e);
             w < |s| && (s[w] == ']' || (s[w] == ',' && SkipElements(s, w + 1).At?))
    ensures WellAfterElement(r) && (r.MoreElements? ==> TightElements(r.next))
    ensures var w := SkipSpaces(s, e);
            Is(s, e, if s[w] == ']' then w + 1 else SkipElements(s, w + 1).pos, SpellAfterElement(r))
    decreases |s| - from, 1
  {
    hide Is, SkipElements, SkipSpaces, Blank, SpellElements, WellElements, TightElements;
    var w := SkipSpaces(s, e);
    GapBounds(s, e);
    var gap := GapIs(s, e);
    if s[w] == ']' {
      r := ArrayEnds(gap);
      EndIs(s, e, w, gap, ']');
    } else {
      var next := SkippedElementsIs(s, w + 1);
      r := MoreElements(gap, next);
      ThenIs(s, e, w, SkipElements(s, w + 1).pos, gap, ',', SpellElements(next));
    }
  }

  /* ---- values that are parsed ---- */

  lemma {:induction false} ValueIs(s: string, node: Processor, p: nat) returns (q: nat, gap: string, t: Text)
    requires p <= |s| && JsonGrammar.Value(s, true, node, p).Done?
    ensures q <= |s| && Is(s, p, q, gap) && Blank(gap) && Well(t) && Fits(node, t)
    ensures Is(s, q, JsonGrammar.Value(s, true, node, p).pos, Spell(t))
    decreases |s| - p, 0
  {
    hide Is, SkipSpaces, Blank, JsonGrammar.Members, JsonGrammar.Elements, JsonGrammar.ScalarValue, WellMembers,
      WellElements, SpellMembers, SpellElements, ScalarText, FitsMembers, FitsElements;
    q := SkipSpaces(s, p);
    GapBounds(s, p);
    gap := GapIs(s, p);
    var e := JsonGrammar.Value(s, true, node, p).pos;
    if s[q] == '{' {
      var m := MembersIs(s, node, q + 1);
      One(s, q);
      Cat(s, q, q + 1, e, ['{'], SpellMembers(m));
      t := Object(m);
    } else if s[q] == '[' {
      var m := ElementsIs(s, node, q + 1);
      One(s, q);
      Cat(s, q, q + 1, e, ['['], SpellElements(m));
      t := Array(m);
    } else {
      t := ScalarIs(s, node, q);
    }
  }

  lemma {:induction false} MemberValueIs(s: string, node: Processor, name: string, key: StringToken, p: nat)
      returns (q: nat, gap: string, t: Text)
    requires p <= |s| && key == StringToken(Unescape(name), '\\' in name)
    requires JsonGrammar.MemberValue(s, true, node, key, p).Done?
    ensures q <= |s| && Is(s, p, q, gap) && Blank(gap) && Well(t) && FitsMember(node, name, t)
    ensures Is(s, q, JsonGrammar.MemberValue(s, true, node, key, p).pos, Spell(t))
    decreases |s| - p, 1
  {
    hide Is, Blank, Well, Spell, JsonGrammar.Value, SkipValue, FindSub, Fits, Tight, Unescape;
    var child := FindSub(node.children, key.text, key.escaped);
    if child.Some? {
      q, gap, t := ValueIs(s, child.value, p);
    } else {
      q, gap, t := SkippedValueIs(s, p);
    }
  }

  lemma {:induction false} MembersIs(s: string, node: Processor, p: nat) returns (m: MemberList)
    requires p <= |s| && JsonGrammar.Members(s, true, node, p).Done?
    ensures WellMembers(m) && Is(s, p, JsonGrammar.Members(s, true, node, p).pos, SpellMembers(m))
    ensures FitsMembers(node, m)
    decreases |s| - p, 2
  {
    hide Is, StringEnd, ParseString, SkipSpaces, StringBody, Blank, InQuotes, SpellAfterMember, Spell, Well,
      JsonGrammar.MemberValue, JsonGrammar.AfterMember, WellAfterMember, Unescape, FitsMember, FitsAfterMember;
    var q := SkipSpaces(s, p);
    GapBounds(s, p);
    var gap := GapIs(s, p);
    if s[q] == '}' {
      m := NoMember(gap);
      EndIs(s, p, q, gap, '}');
    } else {
      ParseEndsLikeSkip(s, q + 1);
      var key := ParseString(s, q + 1);
      var name := QuotedIs(s, q);
      TokenReads(s, q, key.pos, name);
      var colon := SkipSpaces(s, key.pos);
      GapBounds(s, key.pos);
      var gap2 := GapIs(s, key.pos);
      var v0 := SkipSpaces(s, colon + 1);
      GapBounds(s, colon + 1);
      var gap3 := GapIs(s, colon + 1);
      var v, more, value := MemberValueIs(s, node, name, key.value, v0);
      GapTwice(s, colon + 1, v0, v, gap3, more);
      var e := JsonGrammar.MemberValue(s, true, node, key.value, v0).pos;
      var rest := AfterMemberIs(s, node, e);
      m := OneMember(gap, name, gap2, gap3 + more, value, rest);
      hide SpellMembers;
      MemberIs(s, p, q, key.pos, colon, v, e, JsonGrammar.AfterMember(s, true, node, e).pos, m);
    }
  }

  lemma {:induction false} AfterMemberIs(s: string, node: Processor, p: nat) returns (r: AfterMember)
    requires p <= |s| && JsonGrammar.AfterMember(s, true, node, p).Done?
    ensures WellAfterMember(r) && Is(s, p, JsonGrammar.AfterMember(s, true, node, p).pos, SpellAfterMember(r))
    ensures FitsAfterMember(node, r)
    decreases |s| - p, 1
  {
    hide Is, SkipSpaces, Blank, SpellMembers, WellMembers, JsonGrammar.Members, FitsMembers;
    var q := SkipSpaces(s, p);
    GapBounds(s, p);
    var gap := GapIs(s, p);
    if s[q] == '}' {
      r := ObjectEnds(gap);
      EndIs(s, p, q, gap, '}');
    } else {
      var next := MembersIs(s, node, q + 1);
      r := MoreMembers(gap, next);
      ThenIs(s, p, q, JsonGrammar.Members(s, true, node, q + 1).pos, gap, ',', SpellMembers(next));
    }
  }

  lemma {:induction false} ElementsIs(s: string, node: Processor, p: nat) returns (m: ElementList)
    requires p <= |s| && JsonGrammar.Elements(s, true, node, p).Done?
    ensures WellElements(m) && Is(s, p, JsonGrammar.Elements(s, true, node, p).pos, SpellElements(m))
    ensures FitsElements(node, m)
    decreases |s| - p, 2
  {
    hide Is, SkipSpaces, Blank, SpellAfterElement, Spell, Well, JsonGrammar.Value, JsonGrammar.AfterElement,
      WellAfterElement, Fits, FitsAfterElement;
    var q := SkipSpaces(s, p);
    GapBounds(s, p);
    var gap := GapIs(s, p);
    if s[q] == ']' {
      m := NoElement(gap);
      EndIs(s, p, q, gap, ']');
    } else {
      var v, more, value := ValueIs(s, node, q);
      GapTwice(s, p, q, v, gap, more);
      var e := JsonGrammar.Value(s, true, node, q).pos;
      var rest := AfterElementIs(s, node, e);
      m := OneElement(gap + more, value, rest);
      hide SpellElements;
      ElementIs(s, p, v, e, JsonGrammar.AfterElement(s, true, node, e).pos, m);
    }
  }

  lemma {:induction false} AfterElementIs(s: string, node: Processor, p: nat) returns (r: AfterElement)
    requires p <= |s| && JsonGrammar.AfterElement(s, true, node, p).Done?
    ensures WellAfterElement(r) && Is(s, p, JsonGrammar.AfterElement(s, true, node, p).pos, SpellAfterElement(r))
    ensures FitsAfterElement(node, r)
    decreases |s| - p, 1
  {
    hide Is, SkipSpaces, Blank, SpellElements, WellElements, JsonGrammar.Elements, FitsElements;
    var q := SkipSpaces(s, p);
    GapBounds(s, p);
    var gap := GapIs(s, p);
    if s[q] == ']' {
      r := ArrayEnds(gap);
      EndIs(s, p, q, gap, ']');
    } else {
      var next := ElementsIs(s, node, q + 1);
      r := MoreElements(gap, next);
      ThenIs(s, p, q, JsonGrammar.Elements(s, true, node, q + 1).pos, gap, ',', SpellElements(next));
    }
  }

  /* ---- whole texts ---- */

  /** One object between white space that fits the registered processors. */
  ghost predicate InLanguage(s: string, root: Processor) {
    exists before, members, after ::
      Blank(before) && WellMembers(members) && FitsMembers(root, members) && Blank(after) &&
      s == before + (Spell(Object(members)) + after)
  }

  /** The strict parser accepts nothing but those texts. */
  lemma AcceptedIsInLanguage(s: string, root: Processor)
    requires JsonGrammar.Document(s, true, root).Done?
    ensures InLanguage(s, root)
  {
    hide Is, SkipSpaces, Blank, SpellMembers, WellMembers, JsonGrammar.Members, FitsMembers;
    var q := SkipSpaces(s, 0);
    GapBounds(s, 0);
    var before := GapIs(s, 0);
    var members := MembersIs(s, root, q + 1);
    var e := JsonGrammar.Members(s, true, root, q + 1).pos;
    var after := GapIs(s, e);
    Cat(s, q + 1, e, |s|, SpellMembers(members), after);
    WholeText(s, q, before, SpellMembers(members), after);
  }

  lemma WholeText(s: string, q: nat, before: string, members: string, after: string)
    requires Is(s, 0, q, before) && q < |s| && s[q] == '{' && Is(s, q + 1, |s|, members + after)
    ensures s == before + (['{'] + members + after)
  {
    ThenIs(s, 0, q, |s|, before, '{', members + after);
    assert s[0..|s|] == s;
    assert ['{'] + (members + after) == ['{'] + members + after;
  }
}
