/** The strict parser accepts every text of the grammar that fits the registered processors, and reports
    exactly the values written in it: with `JsonLanguage`, an exact description of what it accepts. */
module JsonAcceptance {
  import opened Common
  import opened JsonScan
  import opened JsonTokens
  import opened JsonIndex
  import opened JsonEscapes
  import opened JsonLanguage
  import Grammar = JsonGrammar
  import JsonRoundTrip
  import JsonLax

  type Event = Grammar.Event

  /* ---- the events of a text ---- */

  function ScalarEvent(node: Processor, text: string): Event {
    if |text| >= 2 && text[0] == '"' then Event.Text(node.path, Unescape(text[1..|text| - 1]))
    else if node.asString then Event.Text(node.path, text)
    else if text == "true" then Event.Bool(node.path, true)
    else if text == "false" then Event.Bool(node.path, false)
    else if text == "null" then Event.Null(node.path)
    else Event.Number(node.path, text, IsFloat(text))
  }

  function TextEvents(node: Processor, t: Text): seq<Event>
    decreases t, 0
  {
    match t
    case Scalar(text) => Grammar.Started(node, ScalarEvent(node, text))
    case Object(members) => Grammar.Started(node, Event.ObjectStarted(node.path)) + MemberEvents(node, members)
    case Array(elements) => Grammar.Started(node, Event.ArrayStarted(node.path)) + ElementEvents(node, elements)
  }

  function ChildEvents(node: Processor, name: string, value: Text): seq<Event>
    decreases value, 1
  {
    match ChildFor(node, name)
    case Some(child) => TextEvents(child, value)
    case None => []
  }

  function MemberEvents(node: Processor, m: MemberList): seq<Event>
    decreases m, 0
  {
    if m.NoMember? then [] else ChildEvents(node, m.name, m.value) + AfterMemberEvents(node, m.rest)
  }

  function AfterMemberEvents(node: Processor, r: AfterMember): seq<Event>
    decreases r, 0
  {
    if r.ObjectEnds? then [] else MemberEvents(node, r.next)
  }

  function ElementEvents(node: Processor, e: ElementList): seq<Event>
    decreases e, 0
  {
    if e.NoElement? then [] else TextEvents(node, e.value) + AfterElementEvents(node, e.rest)
  }

  function AfterElementEvents(node: Processor, r: AfterElement): seq<Event>
    decreases r, 0
  {
    if r.ArrayEnds? then [] else ElementEvents(node, r.next)
  }

  /* ---- taking stretches apart ---- */

  lemma Uncat(s: string, p: nat, e: nat, a: string, b: string)
    requires Is(s, p, e, a + b)
    ensures p + |a| <= e && Is(s, p, p + |a|, a) && Is(s, p + |a|, e, b)
  {
    var t := s[p..e];
    assert s[p..p + |a|] == t[..|a|] == a;
    assert s[p + |a|..e] == t[|a|..] == b;
  }

  lemma Head(s: string, p: nat, e: nat, c: char, rest: string)
    requires Is(s, p, e, [c] + rest)
    ensures p < e && s[p] == c && Is(s, p + 1, e, rest)
  {
    Uncat(s, p, e, [c], rest);
    assert s[p..p + 1][0] == s[p];
  }

  lemma BlankIsSpace(c: char)
    requires c in BLANKS
    ensures IsSpace(c)
  {
    var i :| 0 <= i < |BLANKS| && BLANKS[i] == c;
    match i
    case 0 => case 1 => case 2 => case 3 => case 4 => case 5 =>
  }

  lemma GapSkipped(s: string, p: nat, q: nat, gap: string)
    requires Is(s, p, q, gap) && Blank(gap) && (q == |s| || !IsSpace(s[q]))
    ensures SkipSpaces(s, p) == q
  {
    forall i | p <= i < q
      ensures !Matches(NonSpace, s[i])
    {
      assert s[i] == gap[i - p];
      BlankIsSpace(gap[i - p]);
    }
    ScanFrom(NonSpace, s, p, q);
  }

  /** A number or word may end at e. */
  predicate Bounded(s: string, e: nat) { e < |s| && IsDelimiter(s[e]) }

  /** A gap and a delimiter bound what is before them. */
  lemma GapBounded(s: string, e: nat, w: nat, gap: string)
    requires Is(s, e, w, gap) && Blank(gap) && Bounded(s, w)
    ensures Bounded(s, e)
  {
    if gap != "" {
      assert s[e] == gap[0];
      BlankIsSpace(gap[0]);
    }
  }

  /* ---- scalars ---- */

  predicate OpensScalar(c: char) { c == '"' || StartsNumber(c) || c == 't' || c == 'f' || c == 'n' }

  /** The scalar at q is read as `text`, and skipped to the same end. */
  ghost predicate ScalarTaken(s: string, node: Processor, q: nat, e: nat, text: string) {
    && q < e <= |s| && OpensScalar(s[q])
    && Grammar.ScalarValue(s, node, q) == Grammar.Done(Grammar.Started(node, ScalarEvent(node, text)), e)
    && (if s[q] == '"' then StringEnd(s, q + 1) == At(e) else SkipScalar(s, q) == At(e))
  }

  lemma QuotedTaken(s: string, node: Processor, q: nat, e: nat, body: string)
    requires StringBody(body) && Is(s, q, e, InQuotes(body))
    ensures ScalarTaken(s, node, q, e, InQuotes(body))
  {
    hide StringBody, Unescape, ParseString, StringEnd, SkipScalar, JsonTokens.Number, Literal;
    TokenReads(s, q, e, body);
    var t := InQuotes(body);
    assert t[1..|t| - 1] == body;
  }

  lemma WordTaken(s: string, node: Processor, q: nat, e: nat, word: string)
    requires word == "true" || word == "false" || word == "null"
    requires Is(s, q, e, word) && Bounded(s, e)
    ensures ScalarTaken(s, node, q, e, word)
  {
    hide Unescape, ParseString, StringEnd, JsonTokens.Number;
    assert s[q] == s[q..e][0] == word[0];
  }

  lemma NumberTaken(s: string, node: Processor, q: nat, e: nat, text: string)
    requires IsForm(text) && Is(s, q, e, text) && Bounded(s, e)
    ensures ScalarTaken(s, node, q, e, text)
  {
    hide Unescape, ParseString, StringEnd, JsonTokens.Number, Literal, IsForm, IsFloat;
    NumberIff(text);
    JsonRoundTrip.NumberStarts(s, q, text);
    JsonRoundTrip.NumberLocal(s, q, text);
    assert s[q] == s[q..e][0] == text[0];
  }

  lemma ScalarRead(s: string, node: Processor, q: nat, e: nat, text: string)
    requires ScalarText(text) && Is(s, q, e, text) && Bounded(s, e)
    ensures ScalarTaken(s, node, q, e, text)
  {
    hide ScalarTaken, IsForm, StringBody, Is, InQuotes;
    if text == "true" || text == "false" || text == "null" {
      WordTaken(s, node, q, e, text);
    } else if IsForm(text) {
      NumberTaken(s, node, q, e, text);
    } else {
      var body :| text == InQuotes(body) && StringBody(body);
      QuotedTaken(s, node, q, e, body);
    }
  }

  /** The first byte of a value is none of the bytes around values. */
  lemma FirstByte(s: string, q: nat, e: nat, t: Text)
    requires Well(t) && Is(s, q, e, Spell(t)) && Bounded(s, e)
    ensures q < e && !IsSpace(s[q]) && s[q] != ']'
  {
    hide ScalarText, Is;
    match t
    case Scalar(text) => ScalarRead(s, Blind(), q, e, text);
    case Object(members) => Head(s, q, e, '{', SpellMembers(members));
    case Array(elements) => Head(s, q, e, '[', SpellElements(elements));
  }

  /** A node with nothing registered. */
  function Blind(): Processor { Processor("", false, false, []) }

  /* ---- the parts of a list ---- */

  /** Where the parts of a member are. */
  datatype Parts = Parts(q: nat, k: nat, colon: nat, v: nat, e: nat)

  ghost predicate MemberAt(s: string, p: nat, end: nat, m: MemberList, at: Parts) {
    && m.OneMember? && Is(s, p, at.q, m.gap) && Is(s, at.q, at.k, InQuotes(m.name)) && Is(s, at.k, at.colon, m.gap2)
    && at.colon < |s| && s[at.colon] == ':' && Is(s, at.colon + 1, at.v, m.gap3)
    && Is(s, at.v, at.e, Spell(m.value)) && Is(s, at.e, end, SpellAfterMember(m.rest))
  }

  lemma MemberParts(s: string, p: nat, end: nat, m: MemberList) returns (at: Parts)
    requires m.OneMember? && Is(s, p, end, SpellMembers(m))
    ensures MemberAt(s, p, end, m, at)
  {
    hide Is, Spell, SpellAfterMember, InQuotes;
    var value, rest, name := Spell(m.value), SpellAfterMember(m.rest), InQuotes(m.name);
    var q := p + |m.gap|;
    Uncat(s, p, end, m.gap, name + (m.gap2 + ([':'] + (m.gap3 + (value + rest)))));
    var k := q + |name|;
    Uncat(s, q, end, name, m.gap2 + ([':'] + (m.gap3 + (value + rest))));
    var colon := k + |m.gap2|;
    Uncat(s, k, end, m.gap2, [':'] + (m.gap3 + (value + rest)));
    Head(s, colon, end, ':', m.gap3 + (value + rest));
    Inside(s, colon, end, m.gap3 + (value + rest));
    var v := colon + 1 + |m.gap3|;
    Uncat(s, colon + 1, end, m.gap3, value + rest);
    Uncat(s, v, end, value, rest);
    at := Parts(q, k, colon, v, v + |value|);
  }

  lemma Inside(s: string, p: nat, e: nat, t: string)
    requires p < e && Is(s, p + 1, e, t)
    ensures p < |s|
  {
  }

  /** Behind a list item: white space, then the closing bracket or a comma. */
  lemma AfterMemberStarts(s: string, p: nat, end: nat, r: AfterMember) returns (w: nat)
    requires WellAfterMember(r) && Is(s, p, end, SpellAfterMember(r))
    ensures SkipSpaces(s, p) == w < |s| && Bounded(s, p)
    ensures r.ObjectEnds? ==> s[w] == '}' && end == w + 1
    ensures r.MoreMembers? ==> s[w] == ',' && Is(s, w + 1, end, SpellMembers(r.next))
  {
    hide SkipSpaces, Blank, SpellMembers, WellMembers, Is;
    w := p + |r.gap|;
    var c, rest := if r.ObjectEnds? then '}' else ',', if r.ObjectEnds? then "" else SpellMembers(r.next);
    assert SpellAfterMember(r) == r.gap + ([c] + rest);
    DelimiterAt(s, p, w, end, r.gap, c, rest);
  }

  lemma AfterElementStarts(s: string, p: nat, end: nat, r: AfterElement) returns (w: nat)
    requires WellAfterElement(r) && Is(s, p, end, SpellAfterElement(r))
    ensures SkipSpaces(s, p) == w < |s| && Bounded(s, p)
    ensures r.ArrayEnds? ==> s[w] == ']' && end == w + 1
    ensures r.MoreElements? ==> s[w] == ',' && Is(s, w + 1, end, SpellElements(r.next))
  {
    hide SkipSpaces, Blank, SpellElements, WellElements, Is;
    w := p + |r.gap|;
    var c, rest := if r.ArrayEnds? then ']' else ',', if r.ArrayEnds? then "" else SpellElements(r.next);
    assert SpellAfterElement(r) == r.gap + ([c] + rest);
    DelimiterAt(s, p, w, end, r.gap, c, rest);
  }

  lemma DelimiterAt(s: string, p: nat, w: nat, end: nat, gap: string, c: char, rest: string)
    requires Is(s, p, end, gap + ([c] + rest)) && Blank(gap) && w == p + |gap| && (c == ',' || c == '}' || c == ']')
    ensures SkipSpaces(s, p) == w < |s| && s[w] == c && Bounded(s, p) && Is(s, w + 1, end, rest)
    ensures rest == "" ==> end == w + 1
  {
    hide SkipSpaces, Blank;
    Uncat(s, p, end, gap, [c] + rest);
    Head(s, w, end, c, rest);
    GapSkipped(s, p, w, gap);
    GapBounded(s, p, w, gap);
  }

  lemma CloserAt(s: string, p: nat, end: nat, gap: string, c: char)
    requires Is(s, p, end, gap + [c]) && Blank(gap) && (c == '}' || c == ']')
    ensures SkipSpaces(s, p) == end - 1 < |s| && s[end - 1] == c
  {
    hide SkipSpaces, Blank;
    assert [c] + "" == [c];
    DelimiterAt(s, p, p + |gap|, end, gap, c, "");
  }

  /* ---- values that are skipped ---- */

  /** White space before a skipped value does not matter. */
  lemma SkipFrom(s: string, p: nat, q: nat)
    requires p <= |s| && q <= |s| && SkipSpaces(s, p) == q
    ensures SkipValue(s, true, p) == SkipValue(s, true, q)
  {
    hide SkipObject, SkipArray, SkipScalar, StringEnd;
    SkipSpacesTwice(s, p);
  }

  lemma {:induction false} ValueSkipped(s: string, q: nat, e: nat, t: Text)
    requires Well(t) && Tight(t) && Is(s, q, e, Spell(t)) && Bounded(s, e)
    ensures SkipValue(s, true, q) == At(e)
    decreases t, 0
  {
    hide Is, SpellMembers, SpellElements, WellMembers, WellElements, TightMembers, TightElements, ScalarText, StringEnd,
      SkipScalar, SkipMembers, SkipElements, Scan, ScalarEvent, Grammar.ScalarValue;
    FirstByte(s, q, e, t);
    SkipSpacesTwice(s, q);
    match t
    case Scalar(text) => ScalarRead(s, Blind(), q, e, text);
    case Object(members) =>
      Head(s, q, e, '{', SpellMembers(members));
      if members == NoMember("") {
        EmptyObject(s, q + 1, e);
      } else {
        MembersSkipped(s, q + 1, e, members);
        NotClosed(s, q + 1, e, members);
      }
    case Array(elements) =>
      Head(s, q, e, '[', SpellElements(elements));
      if elements == NoElement("") {
        EmptyArray(s, q + 1, e);
      } else {
        ElementsSkipped(s, q + 1, e, elements);
        NotClosedArray(s, q + 1, e, elements);
      }
  }

  lemma EmptyObject(s: string, p: nat, e: nat)
    requires Is(s, p, e, SpellMembers(NoMember("")))
    ensures SkipObject(s, p) == At(e)
  {
    CloserAt(s, p, e, "", '}');
  }

  lemma EmptyArray(s: string, p: nat, e: nat)
    requires Is(s, p, e, SpellElements(NoElement("")))
    ensures SkipArray(s, p) == At(e)
  {
    CloserAt(s, p, e, "", ']');
  }

  /** A list with a member does not start with the closing brace. */
  lemma NotClosed(s: string, p: nat, e: nat, m: MemberList)
    requires m.OneMember? && WellMembers(m) && Is(s, p, e, SpellMembers(m))
    ensures SkipObject(s, p) == SkipMembers(s, p)
  {
    hide SkipMembers, Well, StringBody;
    var at := MemberParts(s, p, e, m);
    assert InQuotes(m.name)[0] == '"';
    assert s[at.q] == s[at.q..at.k][0];
    FirstNot(s, p, at.q, m.gap, '}');
  }

  lemma FirstNot(s: string, p: nat, q: nat, gap: string, c: char)
    requires Is(s, p, q, gap) && Blank(gap) && q < |s| && s[q] != c && !IsSpace(c)
    ensures p < |s| && s[p] != c
  {
    if gap != "" {
      assert s[p] == gap[0];
      BlankIsSpace(gap[0]);
    }
  }

  lemma NotClosedArray(s: string, p: nat, e: nat, m: ElementList)
    requires m.OneElement? && WellElements(m) && Is(s, p, e, SpellElements(m))
    ensures SkipArray(s, p) == SkipElements(s, p)
  {
    hide SkipElements, Well;
    var v, _ := ElementParts(s, p, e, m);
    FirstNot(s, p, v, m.gap, ']');
  }

  lemma {:induction false} MembersSkipped(s: string, p: nat, end: nat, m: MemberList)
    requires WellMembers(m) && TightMembers(m) && Is(s, p, end, SpellMembers(m))
    ensures m.OneMember? && SkipMembers(s, p) == At(end)
    decreases m, 0
  {
    hide Is, Spell, SpellMembers, SpellAfterMember, Well, Tight, StringEnd, SkipValue, SkipSpaces, InQuotes, StringBody,
      ParseString, Unescape, Blank, Bounded;
    var at := MemberParts(s, p, end, m);
    var w := AfterMemberStarts(s, at.e, end, m.rest);
    MemberGaps(s, p, end, m, at);
    TokenReads(s, at.q, at.k, m.name);
    SkipFrom(s, at.colon + 1, at.v);
    ValueSkipped(s, at.v, at.e, m.value);
    if m.rest.MoreMembers? {
      MembersSkipped(s, w + 1, end, m.rest.next);
    }
  }

  /** The white space inside a member is skipped. */
  lemma MemberGaps(s: string, p: nat, end: nat, m: MemberList, at: Parts)
    requires WellMembers(m) && MemberAt(s, p, end, m, at) && Bounded(s, at.e)
    ensures p <= at.q < at.k <= at.colon < at.v < at.e < |s|
    ensures SkipSpaces(s, p) == at.q && s[at.q] == '"' && SkipSpaces(s, at.k) == at.colon
    ensures SkipSpaces(s, at.colon + 1) == at.v && SkipSpaces(s, at.v) == at.v
  {
    hide Spell, SpellAfterMember, Well, StringBody, SkipSpaces, Blank;
    assert s[at.q] == s[at.q..at.k][0] == InQuotes(m.name)[0] == '"';
    FirstByte(s, at.v, at.e, m.value);
    GapSkipped(s, p, at.q, m.gap);
    GapSkipped(s, at.k, at.colon, m.gap2);
    GapSkipped(s, at.colon + 1, at.v, m.gap3);
    SkipSpacesTwice(s, at.v);
  }

  lemma ElementParts(s: string, p: nat, end: nat, m: ElementList) returns (v: nat, e: nat)
    requires m.OneElement? && WellElements(m) && Is(s, p, end, SpellElements(m))
    ensures p <= v < e < |s| && Is(s, p, v, m.gap) && Is(s, v, e, Spell(m.value)) && Bounded(s, e)
    ensures Is(s, e, end, SpellAfterElement(m.rest))
    ensures SkipSpaces(s, p) == v && SkipSpaces(s, v) == v && s[v] != ']'
  {
    hide Spell, SpellAfterElement, Well, SkipSpaces, WellAfterElement, Blank;
    v := p + |m.gap|;
    e := v + |Spell(m.value)|;
    Uncat(s, p, end, m.gap, Spell(m.value) + SpellAfterElement(m.rest));
    Uncat(s, v, end, Spell(m.value), SpellAfterElement(m.rest));
    var _ := AfterElementStarts(s, e, end, m.rest);
    FirstByte(s, v, e, m.value);
    GapSkipped(s, p, v, m.gap);
    SkipSpacesTwice(s, v);
  }

  lemma {:induction false} ElementsSkipped(s: string, p: nat, end: nat, m: ElementList)
    requires WellElements(m) && TightElements(m) && Is(s, p, end, SpellElements(m))
    ensures m.OneElement? && SkipElements(s, p) == At(end)
    decreases m, 0
  {
    hide Is, Spell, SpellElements, SpellAfterElement, Well, Tight, SkipValue, SkipSpaces, Blank, Bounded;
    var v, e := ElementParts(s, p, end, m);
    var w := AfterElementStarts(s, e, end, m.rest);
    ValueSkipped(s, v, e, m.value);
    if m.rest.MoreElements? {
      ElementsSkipped(s, w + 1, end, m.rest.next);
    }
  }

  /* ---- values that are parsed ---- */

  lemma {:induction false} ValueRead(s: string, node: Processor, q: nat, e: nat, t: Text)
    requires Well(t) && Fits(node, t) && Is(s, q, e, Spell(t)) && Bounded(s, e)
    ensures Grammar.Value(s, true, node, q) == Grammar.Done(TextEvents(node, t), e)
    decreases t, 0
  {
    hide Is, SpellMembers, SpellElements, WellMembers, WellElements, FitsMembers, FitsElements, ScalarText, StringEnd,
      SkipScalar, Scan, ScalarEvent, Grammar.ScalarValue, Grammar.Members, Grammar.Elements, MemberEvents,
      ElementEvents, Grammar.Started;
    FirstByte(s, q, e, t);
    SkipSpacesTwice(s, q);
    match t
    case Scalar(text) => ScalarRead(s, node, q, e, text);
    case Object(members) =>
      Head(s, q, e, '{', SpellMembers(members));
      MembersRead(s, node, q + 1, e, members);
    case Array(elements) =>
      Head(s, q, e, '[', SpellElements(elements));
      ElementsRead(s, node, q + 1, e, elements);
  }

  lemma {:induction false} MemberRead(s: string, node: Processor, name: string, v: nat, e: nat, t: Text)
    requires Well(t) && FitsMember(node, name, t) && Is(s, v, e, Spell(t)) && Bounded(s, e)
    ensures Grammar.MemberValue(s, true, node, StringToken(Unescape(name), '\\' in name), v)
         == Grammar.Done(ChildEvents(node, name, t), e)
    decreases t, 1
  {
    hide Well, Fits, Tight, Spell, SkipValue, Grammar.Value, TextEvents, FindSub, Unescape, Bounded;
    match ChildFor(node, name)
    case Some(child) => ValueRead(s, child, v, e, t);
    case None => ValueSkipped(s, v, e, t);
  }

  lemma {:induction false} MembersRead(s: string, node: Processor, p: nat, end: nat, m: MemberList)
    requires WellMembers(m) && FitsMembers(node, m) && Is(s, p, end, SpellMembers(m))
    ensures Grammar.Members(s, true, node, p) == Grammar.Done(MemberEvents(node, m), end)
    decreases m, 0
  {
    hide Is, Spell, SpellAfterMember, Well, SkipSpaces, InQuotes, StringBody, ParseString, Unescape,
      WellAfterMember, Blank, Bounded, FitsMember, FitsAfterMember, Grammar.MemberValue, Grammar.AfterMember,
      ChildEvents, AfterMemberEvents, StringEnd;
    if m.NoMember? {
      CloserAt(s, p, end, m.gap, '}');
    } else {
      var at := MemberParts(s, p, end, m);
      var w := AfterMemberStarts(s, at.e, end, m.rest);
      MemberGaps(s, p, end, m, at);
      TokenReads(s, at.q, at.k, m.name);
      MemberRead(s, node, m.name, at.v, at.e, m.value);
      AfterMemberRead(s, node, at.e, end, m.rest);
    }
  }

  lemma {:induction false} AfterMemberRead(s: string, node: Processor, p: nat, end: nat, r: AfterMember)
    requires p <= |s| && WellAfterMember(r) && FitsAfterMember(node, r) && Is(s, p, end, SpellAfterMember(r))
    ensures Grammar.AfterMember(s, true, node, p) == Grammar.Done(AfterMemberEvents(node, r), end)
    decreases r, 0
  {
    hide Is, SpellMembers, SpellAfterMember, WellMembers, SkipSpaces, Blank, Bounded, FitsMembers, Grammar.Members,
      MemberEvents;
    var w := AfterMemberStarts(s, p, end, r);
    if r.MoreMembers? {
      MembersRead(s, node, w + 1, end, r.next);
    }
  }

  lemma {:induction false} ElementsRead(s: string, node: Processor, p: nat, end: nat, m: ElementList)
    requires WellElements(m) && FitsElements(node, m) && Is(s, p, end, SpellElements(m))
    ensures Grammar.Elements(s, true, node, p) == Grammar.Done(ElementEvents(node, m), end)
    decreases m, 0
  {
    hide Is, Spell, SpellAfterElement, Well, SkipSpaces, WellAfterElement, Blank, Bounded, Fits, FitsAfterElement,
      Grammar.Value, Grammar.AfterElement, TextEvents, AfterElementEvents;
    if m.NoElement? {
      CloserAt(s, p, end, m.gap, ']');
    } else {
      var v, e := ElementParts(s, p, end, m);
      ValueRead(s, node, v, e, m.value);
      AfterElementRead(s, node, e, end, m.rest);
    }
  }

  lemma {:induction false} AfterElementRead(s: string, node: Processor, p: nat, end: nat, r: AfterElement)
    requires p <= |s| && WellAfterElement(r) && FitsAfterElement(node, r) && Is(s, p, end, SpellAfterElement(r))
    ensures Grammar.AfterElement(s, true, node, p) == Grammar.Done(AfterElementEvents(node, r), end)
    decreases r, 0
  {
    hide Is, SpellElements, SpellAfterElement, WellElements, SkipSpaces, Blank, Bounded, FitsElements, Grammar.Elements,
      ElementEvents;
    var w := AfterElementStarts(s, p, end, r);
    if r.MoreElements? {
      ElementsRead(s, node, w + 1, end, r.next);
    }
  }

  /* ---- whole texts ---- */

  /** A fitting text is accepted in both modes, and what is reported is what is written in it. */
  lemma TextReads(before: string, members: MemberList, after: string, strict: bool, root: Processor)
    requires Blank(before) && WellMembers(members) && FitsMembers(root, members) && Blank(after)
    ensures var s := before + (Spell(Object(members)) + after);
            Grammar.Document(s, strict, root) == Grammar.Done(MemberEvents(root, members), |s|)
  {
    hide Blank, WellMembers, FitsMembers, SpellMembers, SkipSpaces, Grammar.Members, MemberEvents;
    var text := Spell(Object(members));
    var s, q := before + (text + after), |before|;
    var e := q + |text|;
    assert Is(s, 0, |s|, s);
    Uncat(s, 0, |s|, before, text + after);
    Uncat(s, q, |s|, text, after);
    hide Is;
    Head(s, q, e, '{', SpellMembers(members));
    MembersRead(s, root, q + 1, e, members);
    GapSkipped(s, 0, q, before);
    GapSkipped(s, e, |s|, after);
    if !strict {
      JsonLax.StrictImpliesLax(s, root);
    }
  }

  /** What the strict parser accepts, exactly. */
  lemma AcceptedIff(s: string, root: Processor)
    ensures Grammar.Document(s, true, root).Done? <==> InLanguage(s, root)
  {
    hide Grammar.Document, Blank, WellMembers, FitsMembers, Spell;
    if Grammar.Document(s, true, root).Done? {
      AcceptedIsInLanguage(s, root);
    }
    if InLanguage(s, root) {
      var before, members, after :|
        Blank(before) && WellMembers(members) && FitsMembers(root, members) && Blank(after) &&
        s == before + (Spell(Object(members)) + after);
      TextReads(before, members, after, true, root);
    }
  }

  /* ---- acceptance depends on what is registered ---- */

  lemma {:induction false} TightFits(node: Processor, t: Text)
    requires Tight(t)
    ensures Fits(node, t)
    decreases t, 0
  {
    match t
    case Scalar(_) =>
    case Object(members) =>
      if members.OneMember? {
        TightMembersFit(node, members);
      }
    case Array(elements) =>
      if elements.OneElement? {
        TightElementsFit(node, elements);
      }
  }

  lemma {:induction false} TightMembersFit(node: Processor, m: MemberList)
    requires TightMembers(m)
    ensures FitsMembers(node, m)
    decreases m, 0
  {
    hide ChildFor, Fits, Tight;
    var child := ChildFor(node, m.name);
    if child.Some? {
      TightFits(child.value, m.value);
    }
    if m.rest.MoreMembers? {
      TightMembersFit(node, m.rest.next);
    }
  }

  lemma {:induction false} TightElementsFit(node: Processor, m: ElementList)
    requires TightElements(m)
    ensures FitsElements(node, m)
    decreases m, 0
  {
    hide Fits, Tight;
    TightFits(node, m.value);
    if m.rest.MoreElements? {
      TightElementsFit(node, m.rest.next);
    }
  }

  lemma {:induction false} BlindFits(root: Processor, m: MemberList)
    requires FitsMembers(Blind(), m)
    ensures FitsMembers(root, m)
    decreases m, 0
  {
    hide Fits, Tight, Unescape;
    if m.OneMember? {
      NobodyFound(m.name);
      if ChildFor(root, m.name).Some? {
        TightFits(ChildFor(root, m.name).value, m.value);
      }
      if m.rest.MoreMembers? {
        BlindFits(root, m.rest.next);
      }
    }
  }

  lemma NobodyFound(name: string)
    ensures ChildFor(Blind(), name) == None
  {
    hide Unescape;
  }

  /** Registering processors never makes the strict parser refuse a text: it accepts one whatever is
      registered exactly when it accepts it with nothing registered. */
  lemma BlindIsStrictest(s: string, root: Processor)
    requires Grammar.Document(s, true, Blind()).Done?
    ensures Grammar.Document(s, true, root).Done?
  {
    hide Grammar.Document, Blank, WellMembers, FitsMembers, Spell;
    AcceptedIff(s, Blind());
    var before, members, after :|
      Blank(before) && WellMembers(members) && FitsMembers(Blind(), members) && Blank(after) &&
      s == before + (Spell(Object(members)) + after);
    BlindFits(root, members);
    AcceptedIff(s, root);
  }

  const BLANK_INSIDE: string := "{\"a\":{ }}"

  /** The same text, with its parts. */
  function BlankInside(): MemberList {
    OneMember("", "a", "", "", Object(NoMember(" ")), ObjectEnds(""))
  }

  lemma PartsOfExample()
    ensures Spell(Object(BlankInside())) == BLANK_INSIDE && WellMembers(BlankInside())
  {
    hide StringBody;
    NameOfExample();
    assert SpellMembers(NoMember(" ")) == " }";
    assert Spell(Object(NoMember(" "))) == "{ }";
    assert SpellAfterMember(ObjectEnds("")) == "}";
    assert InQuotes("a") == "\"a\"";
    assert " "[0] == BLANKS[0];
  }

  lemma NameOfExample()
    ensures Is(BLANK_INSIDE, 1, 4, InQuotes("a")) && StringBody("a")
  {
    assert InQuotes("a") == "\"a\"";
    assert BLANK_INSIDE[1..4] == "\"a\"";
  }

  lemma SkippingRefusesExample()
    ensures SkipValue(BLANK_INSIDE, true, 5) == Stop(KeyExpected, 7)
  {
    hide Scan, StringEnd;
    var s := BLANK_INSIDE;
    SkipSpacesTwice(s, 5);
    assert s[5] == '{' && s[6] == ' ' && s[7] == '}';
    assert s[6..7] == " " && " "[0] == BLANKS[0];
    GapSkipped(s, 6, 7, " ");
  }

  lemma MemberRefused()
    ensures Grammar.Members(BLANK_INSIDE, true, Blind(), 1) == Grammar.Failed([], KeyExpected, 7)
  {
    hide SkipValue, FindSub, ParseString, StringEnd, StringBody, WellMembers, Scan, Spell, Unescape,
      Grammar.AfterMember;
    var s := BLANK_INSIDE;
    NameOfExample();
    assert s[1] == '"' && s[4] == ':' && s[5] == '{';
    SkipSpacesTwice(s, 1);
    SkipSpacesTwice(s, 4);
    SkipSpacesTwice(s, 5);
    TokenReads(s, 1, 4, "a");
    NobodyFound("a");
    SkippingRefusesExample();
  }

  function OnlyA(): Processor { Processor("", false, false, [Child("a", Blind())]) }

  lemma FindsA()
    ensures ChildFor(OnlyA(), "a") == Some(Blind())
  {
    PlainStands("a");
    var index := ShortIndex(OnlyA().children);
    assert index == [(PackedKey("a"), Blind())];
  }

  lemma ExampleTaken()
    ensures Grammar.Document(BLANK_INSIDE, true, OnlyA()) == Grammar.Done([], 9)
  {
    hide Grammar.Document, ChildFor, WellMembers, Spell, StringBody, InQuotes, Is;
    var text := Spell(Object(BlankInside()));
    PartsOfExample();
    assert "" + (text + "") == text;
    FindsA();
    TextReads("", BlankInside(), "", true, OnlyA());
  }

  /** The converse fails: an empty object with a blank inside is refused where it is skipped and
      accepted where a processor is registered for it. */
  lemma SkippedBlankExample()
    ensures Grammar.Document(BLANK_INSIDE, true, Blind()) == Grammar.Failed([], KeyExpected, 7)
    ensures Grammar.Document(BLANK_INSIDE, true, OnlyA()) == Grammar.Done([], 9)
  {
    hide Grammar.Members, Scan;
    ExampleTaken();
    assert BLANK_INSIDE[0] == '{';
    SkipSpacesTwice(BLANK_INSIDE, 0);
    MemberRefused();
  }
}
