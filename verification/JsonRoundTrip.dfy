/** What a completed call sequence printed is read back by the parser, in both modes, as events for
    the added values in the order they were added. */
module JsonRoundTrip {
  import opened Common
  import opened JsonScan
  import opened JsonTokens
  import opened JsonIndex
  import opened JsonGrammar
  import opened JsonFormatter
  import opened JsonEscapes
  import JsonLax

  /* ---- the document a call sequence describes ---- */

  /** Whether a string stands between its quotes as it is or with escapes. The printer writes strings as
      they are; other writers escape. */
  datatype Spelling = Raw | WithEscapes

  datatype Json =
    | Null
    | Flag(flag: bool)
    | Str(text: string, spelling: Spelling)
    | Num(digits: string)
    | Obj(members: seq<Member>)
    | Arr(items: seq<Json>)

  datatype Member = Member(name: string, spelling: Spelling, value: Json)

  /** A container under construction; `name` is the member name of the child being built in it. */
  datatype Partial =
    | PartObj(members: seq<Member>, name: string)
    | PartArr(items: seq<Json>)

  function Attach(part: Partial, name: string, j: Json): Partial {
    match part
    case PartObj(members, _) => PartObj(members + [Member(name, Raw, j)], "")
    case PartArr(items) => PartArr(items + [j])
  }

  function Whole(part: Partial): Json {
    match part
    case PartObj(members, _) => Obj(members)
    case PartArr(items) => Arr(items)
  }

  function Naming(part: Partial, name: string): Partial {
    if part.PartObj? then part.(name := name) else part
  }

  function NameOf(part: Partial): string {
    if part.PartObj? then part.name else ""
  }

  datatype Builder = Building(open: seq<Partial>) | Built(doc: Json)

  /** The same calls read as tree construction; only used on calls the printer accepts. */
  function Grow(open: seq<Partial>, c: Call): Builder
    requires open != []
  {
    var top, below := Last(open), Init(open);
    match c
    case AddBoolean(name, flag) => Building(below + [Attach(top, name, Flag(flag))])
    case AddString(name, value) => Building(below + [Attach(top, name, Str(value, Raw))])
    case AddNumber(name, digits) => Building(below + [Attach(top, name, Num(digits))])
    case AddObject(name) => Building(below + [Naming(top, name), PartObj([], "")])
    case AddArray(name) => Building(below + [Naming(top, name), PartArr([])])
    case PushString(value) => Building(below + [Attach(top, "", Str(value, Raw))])
    case PushNumber(digits) => Building(below + [Attach(top, "", Num(digits))])
    case PushObject => Building(below + [top, PartObj([], "")])
    case Finish =>
      if below == [] then Built(Whole(top))
      else Building(Init(below) + [Attach(Last(below), NameOf(Last(below)), Whole(top))])
  }

  function Build(calls: seq<Call>): Builder {
    if calls == [] then Building([PartObj([], "")])
    else
      var b := Build(Init(calls));
      if b.Built? || b.open == [] then b else Grow(b.open, Last(calls))
  }

  /* ---- rendering ---- */

  function Spelled(text: string, spelling: Spelling): string {
    if spelling.Raw? then text else Escaped(text)
  }

  function Render(j: Json): string {
    match j
    case Null => "null"
    case Flag(flag) => BoolText(flag)
    case Str(text, spelling) => Quoted(Spelled(text, spelling))
    case Num(digits) => digits
    case Obj(members) => "{" + RenderMembers(members) + "}"
    case Arr(items) => "[" + RenderItems(items) + "]"
  }

  function RenderMember(m: Member): string { NameText(Spelled(m.name, m.spelling)) + Render(m.value) }

  function RenderMembers(ms: seq<Member>): string {
    if ms == [] then "" else RenderMember(ms[0]) + Then(ms[1..] == [], RenderMembers(ms[1..]))
  }

  function RenderItems(js: seq<Json>): string {
    if js == [] then "" else Render(js[0]) + Then(js[1..] == [], RenderItems(js[1..]))
  }

  function Then(last: bool, rest: string): string { if last then "" else ", " + rest }

  function Separator(first: bool): string { if first then "" else ", " }

  lemma Assoc(a: string, b: string, c: string)
    ensures a + b + c == a + (b + c)
  {
  }

  /** Appending to a joined list: `head` followed by the joined `rest`, then one more piece. */
  lemma JoinAppend(head: string, last: bool, rest: string, more: string)
    requires last ==> rest == ""
    ensures head + (", " + (rest + Separator(last) + more)) == head + Then(last, rest) + ", " + more
  {
    if last {
      assert rest + Separator(last) + more == more;
      assert head + Then(last, rest) == head;
      Assoc(head, ", ", more);
    } else {
      Assoc(rest, ", ", more);
      Assoc(", ", rest, ", " + more);
      Assoc(head, ", " + rest, ", " + more);
      Assoc(head + (", " + rest), ", ", more);
    }
  }

  lemma {:induction false} RenderMembersAppend(ms: seq<Member>, m: Member)
    ensures RenderMembers(ms + [m]) == RenderMembers(ms) + Separator(ms == []) + RenderMember(m)
  {
    if ms == [] {
      assert ms + [m] == [m];
      assert RenderMember(m) + "" == RenderMember(m);
    } else {
      RenderMembersAppend(ms[1..], m);
      assert (ms + [m])[1..] == ms[1..] + [m];
      JoinAppend(RenderMember(ms[0]), ms[1..] == [], RenderMembers(ms[1..]), RenderMember(m));
    }
  }

  lemma {:induction false} RenderItemsAppend(js: seq<Json>, j: Json)
    ensures RenderItems(js + [j]) == RenderItems(js) + Separator(js == []) + Render(j)
  {
    if js == [] {
      assert js + [j] == [j];
      assert Render(j) + "" == Render(j);
    } else {
      RenderItemsAppend(js[1..], j);
      assert (js + [j])[1..] == js[1..] + [j];
      JoinAppend(Render(js[0]), js[1..] == [], RenderItems(js[1..]), Render(j));
    }
  }

  function Inside(part: Partial): string {
    match part
    case PartObj(members, _) => "{" + RenderMembers(members)
    case PartArr(items) => "[" + RenderItems(items)
  }

  function IsFresh(part: Partial): bool {
    if part.PartObj? then part.members == [] else part.items == []
  }

  /** A container whose next child is about to be written. */
  function Waiting(part: Partial): string {
    Inside(part) + Lead(part, NameOf(part))
  }

  /** What is written before a child: the comma, and the name in an object. */
  function Lead(part: Partial, name: string): string {
    Separator(IsFresh(part)) + if part.PartObj? then NameText(name) else ""
  }

  /** The output while a stack of containers is open. */
  function OpenedText(open: seq<Partial>): string
    requires open != []
  {
    AllWaiting(Init(open)) + Inside(Last(open))
  }

  function AllWaiting(open: seq<Partial>): string {
    if open == [] then "" else AllWaiting(Init(open)) + Waiting(Last(open))
  }

  lemma AttachRenders(part: Partial, name: string, j: Json)
    ensures Inside(Attach(part, name, j)) ==
            Inside(part) + (Lead(part, name) + Render(j))
  {
    match part
    case PartObj(members, _) =>
      var m, ms, sep := Member(name, Raw, j), RenderMembers(members), Separator(members == []);
      RenderMembersAppend(members, m);
      hide RenderMembers, Render;
      Assoc(ms, sep, RenderMember(m));
      Assoc("{", ms, sep + RenderMember(m));
      Assoc(sep, NameText(name), Render(j));
    case PartArr(items) =>
      var js, sep := RenderItems(items), Separator(items == []);
      RenderItemsAppend(items, j);
      hide RenderItems, Render;
      Assoc(js, sep, Render(j));
      Assoc("[", js, sep + Render(j));
      assert sep + "" == sep;
  }

  /* ---- printing follows the document ---- */

  /** A writer describes a partial container. */
  predicate Describes(w: Writer, part: Partial) {
    (w.kind == SimpleObject <==> part.PartObj?) && (w.empty <==> IsFresh(part))
  }

  /** As `Describes`, for a writer that has already printed the name of the child in it. */
  predicate Holds(w: Writer, part: Partial) {
    (w.kind == SimpleObject <==> part.PartObj?) && !w.empty
  }

  /** The writers describe the open containers one by one. */
  predicate Shaped(ws: seq<Writer>, open: seq<Partial>) {
    && open != [] && |ws| == |open| && Describes(Last(ws), Last(open))
    && forall i :: 0 <= i < |open| - 1 ==> Holds(ws[i], open[i])
  }

  lemma ShapedTop(ws: seq<Writer>, open: seq<Partial>, w: Writer, part: Partial)
    requires Shaped(ws, open) && Describes(w, part)
    ensures Shaped(Init(ws) + [w], Init(open) + [part])
  {
  }

  lemma ShapedPush(ws: seq<Writer>, open: seq<Partial>, w: Writer, part: Partial, w': Writer, child: Partial)
    requires Shaped(ws, open) && Holds(w, part) && Describes(w', child)
    ensures Shaped(Init(ws) + [w, w'], Init(open) + [part, child])
  {
    var ws', open' := Init(ws) + [w, w'], Init(open) + [part, child];
    assert forall i :: 0 <= i < |open'| - 2 ==> ws'[i] == ws[i] && open'[i] == open[i];
  }

  lemma ShapedPop(ws: seq<Writer>, open: seq<Partial>, w: Writer, part: Partial)
    requires Shaped(ws, open) && |open| > 1 && Describes(w, part)
    ensures Shaped(Init(Init(ws)) + [w], Init(Init(open)) + [part])
  {
  }

  predicate Tracks(st: State, b: Builder) {
    match b
    case Building(open) => Shaped(st.open, open) && st.text == OpenedText(open)
    case Built(doc) => st.open == [] && doc.Obj? && st.text == Render(doc)
  }

  lemma StepTracks(st: State, open: seq<Partial>, c: Call)
    requires Tracks(st, Building(open)) && Nested(st.open) && Step(st, c).Some?
    requires open[0].PartObj?
    ensures Tracks(Step(st, c).value, Grow(open, c))
    ensures Grow(open, c).Building? ==> Grow(open, c).open[0].PartObj?
  {
    if c.Finish? {
      FinishTracks(st, open);
    } else if Opens(c) {
      OpenTracks(st, open, c);
    } else {
      AddTracks(st, open, c);
    }
  }

  /** What an adding call attaches. */
  function Leaf(c: Call): Json
    requires !c.Finish? && !Opens(c)
  {
    match c
    case AddBoolean(_, flag) => Flag(flag)
    case AddString(_, value) => Str(value, Raw)
    case AddNumber(_, digits) => Num(digits)
    case PushString(value) => Str(value, Raw)
    case PushNumber(digits) => Num(digits)
  }

  function CallName(c: Call): string {
    match c
    case AddBoolean(name, _) => name
    case AddString(name, _) => name
    case AddNumber(name, _) => name
    case AddObject(name) => name
    case AddArray(name) => name
    case _ => ""
  }

  lemma EffectText(w: Writer, part: Partial, c: Call)
    requires Describes(w, part) && !c.Finish? && Effect(w, c).Some?
    ensures Effect(w, c).value.1 ==
            if Opens(c) then Lead(part, CallName(c)) else Lead(part, CallName(c)) + Render(Leaf(c))
    ensures Holds(Effect(w, c).value.0, part)
    ensures part.PartArr? ==> CallName(c) == ""
    ensures c.PushObject? ==> part.PartArr?
  {
  }

  lemma AddTracks(st: State, open: seq<Partial>, c: Call)
    requires Tracks(st, Building(open)) && Step(st, c).Some? && !c.Finish? && !Opens(c)
    ensures Tracks(Step(st, c).value, Grow(open, c))
    ensures open[0].PartObj? ==> Grow(open, c).open[0].PartObj?
  {
    var top, e := Last(open), Effect(Last(st.open), c).value;
    EffectText(Last(st.open), top, c);
    GrowLeaf(open, c);
    var top' := Attach(top, CallName(c), Leaf(c));
    AttachDescribes(e.0, top, CallName(c), Leaf(c));
    ShapedTop(st.open, open, e.0, top');
    AttachRenders(top, CallName(c), Leaf(c));
    ReplaceText(open, top', e.1);
    hide Effect, Shaped, OpenedText, Grow, Attach, Leaf, CallName, Lead, Inside, Render;
  }

  lemma ReplaceText(open: seq<Partial>, top': Partial, more: string)
    requires open != [] && Inside(top') == Inside(Last(open)) + more
    ensures OpenedText(Init(open) + [top']) == OpenedText(open) + more
  {
    hide Inside, AllWaiting;
    assert Init(Init(open) + [top']) == Init(open);
    Assoc(AllWaiting(Init(open)), Inside(Last(open)), more);
  }

  lemma PushText(open: seq<Partial>, named: Partial, child: Partial, lead: string)
    requires open != [] && Waiting(named) == Inside(Last(open)) + lead
    ensures OpenedText(Init(open) + [named, child]) == OpenedText(open) + lead + Inside(child)
  {
    hide Inside, Waiting;
    var open' := Init(open) + [named, child];
    assert Init(open') == Init(open) + [named];
    assert Init(Init(open) + [named]) == Init(open);
    Assoc(AllWaiting(Init(open)), Inside(Last(open)), lead);
  }

  lemma GrowLeaf(open: seq<Partial>, c: Call)
    requires open != [] && !c.Finish? && !Opens(c)
    ensures Grow(open, c) == Building(Init(open) + [Attach(Last(open), CallName(c), Leaf(c))])
  {
  }

  lemma AttachDescribes(w: Writer, part: Partial, name: string, j: Json)
    requires Holds(w, part)
    ensures Describes(w, Attach(part, name, j))
    ensures part.PartObj? <==> Attach(part, name, j).PartObj?
  {
  }

  lemma OpenTracks(st: State, open: seq<Partial>, c: Call)
    requires Tracks(st, Building(open)) && Step(st, c).Some? && Opens(c)
    ensures Tracks(Step(st, c).value, Grow(open, c))
    ensures open[0].PartObj? ==> Grow(open, c).open[0].PartObj?
  {
    hide Inside, OpenedText, Waiting, Effect, Grow, Lead;
    var top, e := Last(open), Effect(Last(st.open), c).value;
    EffectText(Last(st.open), top, c);
    hide Shaped;
    GrowOpen(open, c);
    NamedWaits(top, CallName(c));
    hide CallName, Naming;
    var named := Naming(top, CallName(c));
    var child := if c.AddArray? then PartArr([]) else PartObj([], "");
    NewInside(c.AddArray?);
    var w := e.0.(openChildren := e.0.openChildren + 1);
    assert Holds(w, named);
    hide NewWriter, Describes, Holds;
    ShapedPush(st.open, open, w, named, NewWriter(c.AddArray?), child);
    PushText(open, named, child, e.1);
  }

  lemma NamedWaits(part: Partial, name: string)
    requires part.PartArr? ==> name == ""
    ensures Waiting(Naming(part, name)) == Inside(part) + Lead(part, name)
    ensures part.PartObj? <==> Naming(part, name).PartObj?
    ensures forall w :: Holds(w, part) ==> Holds(w, Naming(part, name))
  {
  }

  lemma NewInside(asArray: bool)
    ensures var child := if asArray then PartArr([]) else PartObj([], "");
            Inside(child) == OpenText(asArray) && Describes(NewWriter(asArray), child)
  {
  }

  lemma GrowOpen(open: seq<Partial>, c: Call)
    requires open != [] && Opens(c) && (c.PushObject? ==> Last(open).PartArr?)
    ensures Grow(open, c) == Building(Init(open) + [Naming(Last(open), CallName(c)),
                                                    if c.AddArray? then PartArr([]) else PartObj([], "")])
  {
  }

  lemma FinishTracks(st: State, open: seq<Partial>)
    requires Tracks(st, Building(open)) && open[0].PartObj?
    ensures Tracks(Step(st, Finish).value, Grow(open, Finish))
    ensures Grow(open, Finish).Building? ==> Grow(open, Finish).open[0].PartObj?
  {
    WholeRenders(Last(open), Last(st.open));
    hide Inside, Render, RenderMembers, RenderItems;
    if |open| == 1 {
      assert AllWaiting(Init(open)) == "" && st.text == Inside(Last(open));
      assert Whole(Last(open)).Obj?;
    } else {
      FinishChildTracks(st, open);
    }
  }

  lemma FinishChildTracks(st: State, open: seq<Partial>)
    requires Tracks(st, Building(open)) && |open| > 1
    requires Render(Whole(Last(open))) == Inside(Last(open)) + CloseText(Last(st.open))
    ensures Tracks(Step(st, Finish).value, Grow(open, Finish))
    ensures open[0].PartObj? ==> Grow(open, Finish).Building? && Grow(open, Finish).open[0].PartObj?
  {
    hide Inside, Render, RenderMembers, RenderItems, AllWaiting, Whole;
    var top, below, close := Last(open), Init(open), CloseText(Last(st.open));
    FinishInner(st.text, below, top, close);
    hide OpenedText, CloseText;
    var p, w := Last(below), Last(Released(Init(st.open)));
    assert Holds(w, p);
    var p' := Attach(p, NameOf(p), Whole(top));
    AttachDescribes(w, p, NameOf(p), Whole(top));
    hide Attach, NameOf, Describes, Holds;
    ShapedPop(st.open, open, w, p');
    hide Shaped;
    assert Released(Init(st.open)) == Init(Init(st.open)) + [w];
  }

  lemma WholeRenders(part: Partial, w: Writer)
    requires Describes(w, part)
    ensures Render(Whole(part)) == Inside(part) + CloseText(w)
  {
  }

  /** Closing a nested container: the text is the one of its parent with the container attached. */
  lemma FinishInner(text: string, below: seq<Partial>, top: Partial, close: string)
    requires below != [] && text == AllWaiting(below) + Inside(top)
    requires Render(Whole(top)) == Inside(top) + close
    ensures text + close == OpenedText(Init(below) + [Attach(Last(below), NameOf(Last(below)), Whole(top))])
  {
    var p, r, aw := Last(below), Render(Whole(top)), AllWaiting(Init(below));
    var p' := Attach(p, NameOf(p), Whole(top));
    AttachRenders(p, NameOf(p), Whole(top));
    assert Init(Init(below) + [p']) == Init(below);
    hide Inside, Render, Whole, RenderMembers, RenderItems, Lead, Attach, NameOf;
    Assoc(Inside(p), Lead(p, NameOf(p)), r);
    Assoc(AllWaiting(below), Inside(top), close);
    Assoc(aw, Waiting(p), r);
  }

  lemma {:induction false} RunTracks(calls: seq<Call>)
    requires Run(calls).Some?
    ensures Tracks(Run(calls).value, Build(calls))
    ensures Build(calls).Building? ==> Build(calls).open != [] && Build(calls).open[0].PartObj?
  {
    if calls != [] {
      RunTracks(Init(calls));
      RunNested(Init(calls));
      var st, b := Run(Init(calls)).value, Build(Init(calls));
      StepTracks(st, b.open, Last(calls));
    }
  }

  /** A sequence that prints a text has built a document, and the text is its rendering. */
  lemma PrintedIsRendered(calls: seq<Call>)
    requires Printed(calls).Some?
    ensures Build(calls).Built? && Build(calls).doc.Obj?
    ensures Printed(calls).value == Render(Build(calls).doc)
  {
    RunTracks(calls);
  }

  /* ---- reading a rendering back ---- */

  /** A text the printer may put between quotes without escaping. */
  predicate Plain(t: string) {
    forall i :: 0 <= i < |t| ==> t[i] != '"' && t[i] != '\\'
  }

  /** A string can be spelled so: as it is only without quote and backslash, with escapes always. */
  predicate Spells(text: string, spelling: Spelling) { spelling.Raw? ==> Plain(text) }

  ghost predicate Clean(j: Json) {
    match j
    case Null => true
    case Flag(_) => true
    case Str(text, spelling) => Spells(text, spelling)
    case Num(digits) => IsForm(digits)
    case Obj(members) => forall m :: m in members ==> Spells(m.name, m.spelling) && Clean(m.value)
    case Arr(items) => forall i :: i in items ==> Clean(i)
  }

  ghost predicate CleanCall(c: Call) {
    match c
    case AddBoolean(name, _) => Plain(name)
    case AddString(name, value) => Plain(name) && Plain(value)
    case AddNumber(name, digits) => Plain(name) && IsForm(digits)
    case AddObject(name) => Plain(name)
    case AddArray(name) => Plain(name)
    case PushString(value) => Plain(value)
    case PushNumber(digits) => IsForm(digits)
    case PushObject => true
    case Finish => true
  }

  ghost predicate CleanPart(part: Partial) {
    Clean(Whole(part)) && (part.PartObj? ==> Plain(part.name))
  }

  lemma AttachClean(part: Partial, name: string, j: Json)
    requires CleanPart(part) && Plain(name) && Clean(j)
    ensures CleanPart(Attach(part, name, j))
  {
  }

  lemma {:induction false} CallsBuildClean(calls: seq<Call>)
    requires forall c :: c in calls ==> CleanCall(c)
    ensures match Build(calls)
            case Building(open) => forall p :: p in open ==> CleanPart(p)
            case Built(doc) => Clean(doc)
  {
    if calls != [] {
      assert forall c :: c in Init(calls) ==> c in calls;
      assert Last(calls) in calls;
      CallsBuildClean(Init(calls));
      var b := Build(Init(calls));
      if b.Building? && b.open != [] {
        GrowClean(b.open, Last(calls));
      }
    }
  }

  lemma GrowClean(open: seq<Partial>, c: Call)
    requires open != [] && CleanCall(c) && forall p :: p in open ==> CleanPart(p)
    ensures match Grow(open, c)
            case Building(open') => forall p :: p in open' ==> CleanPart(p)
            case Built(doc) => Clean(doc)
  {
    var top, below := Last(open), Init(open);
    assert top in open && forall p :: p in below ==> p in open;
    if c.Finish? {
      if below != [] {
        var q := Last(below);
        assert q in below && forall p :: p in Init(below) ==> p in below;
        AttachClean(q, NameOf(q), Whole(top));
      }
    } else if !Opens(c) {
      AttachClean(top, CallName(c), Leaf(c));
      GrowLeaf(open, c);
    }
  }

  lemma PlainString(s: string, p: nat, t: string)
    requires Has(s, p, t + "\"") && Plain(t)
    ensures ParseString(s, p) == Ok(StringToken(t, false), p + |t| + 1)
    ensures StringEnd(s, p) == At(p + |t| + 1)
  {
    HasSplit(s, p, t, "\"");
    HasChar(s, p, t);
    HasChar(s, p + |t|, "\"");
    var q := p + |t|;
    assert forall i :: p <= i < q ==> s[i] == t[i - p];
    ScanFrom(StringSpecial, s, p, q);
  }

  /** A string is read back however it was spelled. */
  lemma SpelledString(s: string, p: nat, t: string, spelling: Spelling)
    requires Has(s, p, Spelled(t, spelling) + "\"") && Spells(t, spelling)
    ensures ParseString(s, p) ==
            Ok(StringToken(t, spelling.WithEscapes? && AnyEscape(t)), p + |Spelled(t, spelling)| + 1)
    ensures StringEnd(s, p) == At(p + |Spelled(t, spelling)| + 1)
  {
    hide ParseString, StringEnd, Has;
    if spelling.Raw? {
      PlainString(s, p, t);
    } else {
      EscapedToken(s, p, t);
    }
  }

  lemma {:induction false} DigitsLocal(s: string, p: nat, t: string, i: nat)
    requires Has(s, p, t) && i <= |t|
    requires p + |t| < |s| && IsDelimiter(s[p + |t|])
    ensures Digits(s, p + i) == p + Digits(t, i)
    decreases |t| - i
  {
    HasChar(s, p, t);
    if i < |t| {
      assert s[p + i] == t[i];
      DigitsLocal(s, p, t, i + 1);
    }
  }

  lemma SignLocal(s: string, p: nat, t: string, i: nat)
    requires Has(s, p, t) && i <= |t|
    requires p + |t| < |s| && IsDelimiter(s[p + |t|])
    ensures Sign(s, p + i) == p + Sign(t, i)
  {
    HasChar(s, p, t);
    if i < |t| {
      assert s[p + i] == t[i];
    }
  }

  lemma MantissaLocal(s: string, p: nat, t: string)
    requires Has(s, p, t) && Mantissa(t, 0).Ok?
    requires p + |t| < |s| && IsDelimiter(s[p + |t|])
    ensures Mantissa(s, p) == Ok(Mantissa(t, 0).value, p + Mantissa(t, 0).pos)
  {
    hide Digits, Sign;
    SignLocal(s, p, t, 0);
    var a := Sign(t, 0);
    DigitsLocal(s, p, t, a);
    var b := Digits(t, a);
    HasChar(s, p, t);
    hide Has;
    if b < |t| {
      assert s[p + b] == t[b];
      if t[b] == '.' {
        DigitsLocal(s, p, t, b + 1);
      }
    }
  }

  lemma ExponentLocal(s: string, p: nat, t: string, c: nat, isFloat: bool)
    requires Has(s, p, t) && c <= |t| && Exponent(t, c, isFloat).Ok?
    requires p + |t| < |s| && IsDelimiter(s[p + |t|])
    ensures Exponent(s, p + c, isFloat)
         == Ok(Exponent(t, c, isFloat).value, p + Exponent(t, c, isFloat).pos)
  {
    hide Digits, Sign;
    HasChar(s, p, t);
    if c < |t| {
      assert s[p + c] == t[c];
      if IsExponentMark(t[c]) {
        SignLocal(s, p, t, c + 1);
        DigitsLocal(s, p, t, Sign(t, c + 1));
      }
    }
  }

  lemma NumberLocal(s: string, p: nat, t: string)
    requires Has(s, p, t) && IsNumber(t)
    requires p + |t| < |s| && IsDelimiter(s[p + |t|])
    ensures JsonTokens.Number(s, p) == Ok(JsonTokens.Number(t, 0).value, p + |t|)
  {
    hide Mantissa, Exponent, Has, IsDelimiter;
    MantissaLocal(s, p, t);
    ExponentLocal(s, p, t, Mantissa(t, 0).pos, Mantissa(t, 0).value);
  }

  /* ---- printed integers ---- */

  function DigitChar(d: nat): (c: char)
    requires d < 10
    ensures IsDec(c)
  {
    '0' + d as char
  }

  function Decimal(n: nat): (t: string)
    ensures t != "" && forall i :: 0 <= i < |t| ==> IsDec(t[i])
  {
    if n < 10 then [DigitChar(n)] else Decimal(n / 10) + [DigitChar(n % 10)]
  }

  /** The decimal text of an integer, as the printer writes it. */
  function IntText(n: int): string { if n < 0 then "-" + Decimal(-n) else Decimal(n) }

  /** Every printed integer is a number, and not a float. */
  lemma IntIsNumber(n: int)
    ensures IsForm(IntText(n)) && !IsFloat(IntText(n))
  {
    hide Decimal;
    var f := Form(n < 0, Decimal(if n < 0 then -n else n), false, "", None);
    assert FormText(f) == IntText(n);
    FloatMarks(f);
  }

  /* ---- expected events ---- */

  function Events(node: Processor, j: Json): seq<Event>
    decreases j
  {
    match j
    case Null => Started(node, if node.asString then Text(node.path, "null") else Event.Null(node.path))
    case Flag(flag) => Started(node, if node.asString then Text(node.path, BoolText(flag)) else Bool(node.path, flag))
    case Str(text, _) => Started(node, Text(node.path, text))
    case Num(digits) =>
      Started(node, if node.asString then Text(node.path, digits)
                    else Event.Number(node.path, digits, IsFloat(digits)))
    case Obj(members) => Started(node, ObjectStarted(node.path)) + MemberEvents(node, members)
    case Arr(items) => Started(node, ArrayStarted(node.path)) + ItemEvents(node, items)
  }

  /** Members whose name has no processor are silent. */
  function MemberEvents(node: Processor, ms: seq<Member>): seq<Event>
    decreases ms
  {
    if ms == [] then [] else OneMember(node, ms[0]) + MemberEvents(node, ms[1..])
  }

  function OneMember(node: Processor, m: Member): seq<Event>
    decreases m
  {
    var child := ChildOf(node, m);
    if child.Some? then Events(child.value, m.value) else []
  }

  /** An escape in the name means a lookup by the whole name. */
  function ChildOf(node: Processor, m: Member): Option<Processor> {
    FindSub(node.children, m.name, m.spelling.WithEscapes? && AnyEscape(m.name))
  }

  function ItemEvents(node: Processor, js: seq<Json>): seq<Event>
    decreases js
  {
    if js == [] then [] else Events(node, js[0]) + ItemEvents(node, js[1..])
  }

  /** The parser is just before the rendering of `j`, which is followed by a delimiter. */
  predicate Before(s: string, p: nat, j: Json) {
    Has(s, p, Render(j)) && p + |Render(j)| < |s| && IsDelimiter(s[p + |Render(j)|])
  }

  predicate Reads(s: string, node: Processor, p: nat, j: Json)
    requires Before(s, p, j)
  {
    && Value(s, true, node, p) == Done(Events(node, j), p + |Render(j)|)
    && SkipValue(s, true, p) == At(p + |Render(j)|)
  }

  lemma FlagReads(s: string, node: Processor, p: nat, j: Json)
    requires j.Flag? && Before(s, p, j)
    ensures Reads(s, node, p, j)
  {
    HasChar(s, p, Render(j));
    assert s[p] == (if j.flag then 't' else 'f');
    SkipSpacesTwice(s, p);
    assert Literal(s, p, BoolText(j.flag)) == At(p + |BoolText(j.flag)|);
  }

  lemma NullReads(s: string, node: Processor, p: nat)
    requires Before(s, p, Json.Null)
    ensures Reads(s, node, p, Json.Null)
  {
    HasChar(s, p, "null");
    assert s[p + 0] == 'n';
    SkipSpacesTwice(s, p);
    assert Literal(s, p, "null") == At(p + 4);
  }

  lemma StrReads(s: string, node: Processor, p: nat, j: Json)
    requires j.Str? && Clean(j) && Before(s, p, j)
    ensures Reads(s, node, p, j)
  {
    hide SkipSpaces, Members, Elements, SkipObject, SkipArray, StringEnd, ParseString, JsonTokens.Number, Literal;
    HasChar(s, p, Render(j));
    assert s[p + 0] == '"';
    SkipSpacesTwice(s, p);
    var inside := Spelled(j.text, j.spelling);
    assert Render(j) == "\"" + (inside + "\"");
    HasSplit(s, p, "\"", inside + "\"");
    SpelledString(s, p + 1, j.text, j.spelling);
  }

  lemma NumReads(s: string, node: Processor, p: nat, j: Json)
    requires j.Num? && Clean(j) && Before(s, p, j)
    ensures Reads(s, node, p, j)
  {
    hide JsonTokens.Number, SkipSpaces, Members, Elements, SkipObject, SkipArray, StringEnd, ParseString, Literal,
      IsForm, IsFloat;
    NumberIff(j.digits);
    NumberStarts(s, p, j.digits);
    SkipSpacesTwice(s, p);
    NumberLocal(s, p, j.digits);
  }

  lemma NumberStarts(s: string, p: nat, t: string)
    requires IsNumber(t) && Has(s, p, t)
    ensures p < |s| && StartsNumber(s[p]) && !IsSpace(s[p]) && s[p..p + |t|] == t
  {
    hide JsonTokens.Number;
    HasChar(s, p, t);
    assert s[p + 0] == t[0];
  }

  /** After '{': the members, then the closing brace. */
  predicate BeforeMembers(s: string, p: nat, ms: seq<Member>) {
    Has(s, p, RenderMembers(ms) + "}")
  }

  predicate BeforeItems(s: string, p: nat, js: seq<Json>) {
    Has(s, p, RenderItems(js) + "]")
  }

  lemma {:induction false} ValueReads(s: string, node: Processor, p: nat, j: Json)
    requires Clean(j) && Before(s, p, j)
    ensures Reads(s, node, p, j)
    decreases j, 0
  {
    hide Value, SkipValue, Members, SkipMembers, MemberEvents, Elements, SkipElements, ItemEvents;
    match j
    case Null => NullReads(s, node, p);
    case Flag(_) => FlagReads(s, node, p, j);
    case Str(_, _) => StrReads(s, node, p, j);
    case Num(_) => NumReads(s, node, p, j);
    case Obj(members) =>
      Opening(s, p, "{", RenderMembers(members), "}");
      MembersRead(s, node, p + 1, members);
      ObjectValue(s, node, p, p + |Render(j)|, MemberEvents(node, members));
      ObjectSkip(s, p, p + |Render(j)|);
    case Arr(items) =>
      Opening(s, p, "[", RenderItems(items), "]");
      ItemsRead(s, node, p + 1, items);
      ArrayValue(s, node, p, p + |Render(j)|, ItemEvents(node, items));
      ArraySkip(s, p, p + |Render(j)|);
  }

  lemma Opening(s: string, p: nat, open: string, inside: string, close: string)
    requires Has(s, p, open + inside + close) && |open| == 1 == |close|
    ensures s[p] == open[0] && Has(s, p + 1, inside + close)
    ensures s[p + 1 + |inside|] == close[0]
  {
    Assoc(open, inside, close);
    HasSplit(s, p, open, inside + close);
    HasSplit(s, p + 1, inside, close);
    HasChar(s, p, open);
    HasChar(s, p + 1 + |inside|, close);
  }

  lemma ObjectValue(s: string, node: Processor, p: nat, e: nat, ev: seq<Event>)
    requires p < e <= |s| && s[p] == '{' && Members(s, true, node, p + 1) == Done(ev, e)
    ensures Value(s, true, node, p) == Done(Started(node, ObjectStarted(node.path)) + ev, e)
  {
    hide Members, Elements, ScalarValue, SkipSpaces;
    SkipSpacesTwice(s, p);
  }

  lemma ObjectSkip(s: string, p: nat, e: nat)
    requires p + 1 < |s| && s[p] == '{'
    requires if s[p + 1] == '}' then e == p + 2 else SkipMembers(s, p + 1) == At(e)
    ensures SkipValue(s, true, p) == At(e)
  {
    hide SkipMembers, SkipArray, SkipScalar, StringEnd, SkipSpaces;
    SkipSpacesTwice(s, p);
  }

  lemma ArrayValue(s: string, node: Processor, p: nat, e: nat, ev: seq<Event>)
    requires p < e <= |s| && s[p] == '[' && Elements(s, true, node, p + 1) == Done(ev, e)
    ensures Value(s, true, node, p) == Done(Started(node, ArrayStarted(node.path)) + ev, e)
  {
    hide Members, Elements, ScalarValue, SkipSpaces;
    SkipSpacesTwice(s, p);
  }

  lemma ArraySkip(s: string, p: nat, e: nat)
    requires p + 1 < |s| && s[p] == '['
    requires if s[p + 1] == ']' then e == p + 2 else SkipElements(s, p + 1) == At(e)
    ensures SkipValue(s, true, p) == At(e)
  {
    hide SkipElements, SkipObject, SkipScalar, StringEnd, SkipSpaces;
    SkipSpacesTwice(s, p);
  }

  lemma RenderStart(j: Json)
    requires Clean(j)
    ensures Render(j) != "" && !IsSpace(Render(j)[0]) && Render(j)[0] != ']'
  {
  }

  /** White space before a value or a list does not matter. */
  lemma BlankSkipped(s: string, p: nat)
    requires p < |s| && IsSpace(s[p])
    ensures SkipSpaces(s, p) == SkipSpaces(s, p + 1)
  {
  }

  lemma BlankBeforeMembers(s: string, node: Processor, p: nat)
    requires p < |s| && IsSpace(s[p])
    ensures Members(s, true, node, p) == Members(s, true, node, p + 1)
  {
    hide SkipSpaces, ParseString, MemberValue, AfterMember;
    BlankSkipped(s, p);
  }

  lemma BlankBeforeSkippedMembers(s: string, p: nat)
    requires p < |s| && IsSpace(s[p])
    ensures SkipMembers(s, p) == SkipMembers(s, p + 1)
  {
    hide SkipSpaces, StringEnd, SkipValue;
    BlankSkipped(s, p);
  }

  lemma BlankBeforeElements(s: string, node: Processor, p: nat)
    requires p < |s| && IsSpace(s[p])
    ensures Elements(s, true, node, p) == Elements(s, true, node, p + 1)
    ensures SkipElements(s, p) == SkipElements(s, p + 1)
  {
    hide SkipSpaces, AfterElement, Value, SkipValue;
    BlankSkipped(s, p);
  }

  lemma BlankBeforeValue(s: string, p: nat)
    requires p < |s| && IsSpace(s[p])
    ensures SkipValue(s, true, p) == SkipValue(s, true, p + 1)
  {
    hide SkipSpaces, SkipObject, SkipArray, SkipScalar, StringEnd;
    BlankSkipped(s, p);
  }

  /** Positions of the parts of one member: opening quote, end of name, colon, blank, value, and what
      follows it. */
  lemma MemberLayout(s: string, p: nat, m: Member, tail: string)
    requires Spells(m.name, m.spelling) && Has(s, p, RenderMember(m) + tail)
    ensures var name := Spelled(m.name, m.spelling);
            var k := p + 2 + |name|;
            && s[p] == '"' && k + 2 + |Render(m.value)| + |tail| <= |s|
            && ParseString(s, p + 1) == Ok(NameToken(m), k) && StringEnd(s, p + 1) == At(k)
            && s[k] == ':' && s[k + 1] == ' '
            && Has(s, k + 2, Render(m.value)) && Has(s, k + 2 + |Render(m.value)|, tail)
            && |RenderMember(m)| == |name| + 4 + |Render(m.value)|
  {
    hide Render, ParseString, StringEnd, Spelled;
    var name := Spelled(m.name, m.spelling);
    var k := p + 2 + |name|;
    HasSplit(s, p, RenderMember(m), tail);
    HasSplit(s, p, NameText(name), Render(m.value));
    HasSplit(s, p, Quoted(name), ": ");
    HasChar(s, k, ": ");
    assert Quoted(name) == "\"" + (name + "\"");
    HasSplit(s, p, "\"", name + "\"");
    HasChar(s, p, "\"");
    SpelledString(s, p + 1, m.name, m.spelling);
  }

  function NameToken(m: Member): StringToken {
    StringToken(m.name, m.spelling.WithEscapes? && AnyEscape(m.name))
  }

  /** One member is read, and the parser is behind its value. */
  lemma MemberReads(s: string, node: Processor, p: nat, m: Member, k: nat, e: nat)
    requires p < k && k + 2 < e < |s| && s[p] == '"' && s[k] == ':' && s[k + 1] == ' ' && !IsSpace(s[k + 2])
    requires ParseString(s, p + 1) == Ok(NameToken(m), k) && StringEnd(s, p + 1) == At(k)
    requires ChildOf(node, m).Some? ==>
               Value(s, true, ChildOf(node, m).value, k + 2) == Done(OneMember(node, m), e)
    requires SkipValue(s, true, k + 2) == At(e)
    ensures Members(s, true, node, p) == Prepend(OneMember(node, m), AfterMember(s, true, node, e))
    ensures s[e] == '}' ==> SkipMembers(s, p) == At(e + 1)
    ensures s[e] == ',' ==> SkipMembers(s, p) == SkipMembers(s, e + 1)
  {
    hide SkipSpaces, ParseString, StringEnd, Value, SkipValue, AfterMember, FindSub, Events, SkipMembers;
    SkipSpacesTwice(s, p);
    SkipSpacesTwice(s, k);
    SkipSpacesTwice(s, k + 2);
    SkipSpacesTwice(s, e);
    BlankSkipped(s, k + 1);
    BlankBeforeValue(s, k + 1);
    MemberSkipped(s, p, k, e);
  }

  lemma MemberSkipped(s: string, p: nat, k: nat, e: nat)
    requires p < k < e < |s| && s[p] == '"' && s[k] == ':' && StringEnd(s, p + 1) == At(k)
    requires SkipValue(s, true, k + 1) == At(e) && SkipSpaces(s, p) == p && SkipSpaces(s, k) == k
    requires !IsSpace(s[e]) ==> SkipSpaces(s, e) == e
    ensures s[e] == '}' ==> SkipMembers(s, p) == At(e + 1)
    ensures s[e] == ',' ==> SkipMembers(s, p) == SkipMembers(s, e + 1)
  {
    hide SkipSpaces, StringEnd, SkipValue;
  }

  /** What reading a list of members comes to. */
  predicate ReadsMembers(s: string, node: Processor, p: nat, ms: seq<Member>) {
    && p < |s| && Members(s, true, node, p) == Done(MemberEvents(node, ms), p + |RenderMembers(ms)| + 1)
    && if ms == [] then s[p] == '}'
       else s[p] == '"' && SkipMembers(s, p) == At(p + |RenderMembers(ms)| + 1)
  }

  lemma {:induction false} MembersRead(s: string, node: Processor, p: nat, ms: seq<Member>)
    requires Clean(Obj(ms)) && BeforeMembers(s, p, ms)
    ensures ReadsMembers(s, node, p, ms)
    decreases ms, 1
  {
    hide Members, SkipMembers, AfterMember, Value, SkipValue, ParseString, StringEnd, FindSub, Events, Render,
      RenderMember, Has, IsSpace, MemberEvents, ReadsMembers, RenderMembers, OneMember, Then, Spelled, Spells,
      AnyEscape, ChildOf, NameToken;
    if ms == [] {
      NoMembers(s, node, p);
    } else {
      var m, rest := ms[0], ms[1..];
      assert m in ms && forall x :: x in rest ==> x in ms;
      var tail := Then(rest == [], RenderMembers(rest)) + "}";
      FirstMember(ms);
      MemberLayout(s, p, m, tail);
      var k := p + 2 + |Spelled(m.name, m.spelling)|;
      var e := k + 2 + |Render(m.value)|;
      TailLayout(s, e, rest == [], RenderMembers(rest), "}");
      NextChar(s, k + 2, m.value, tail);
      var child := ChildOf(node, m);
      ValueReads(s, if child.Some? then child.value else node, k + 2, m.value);
      OneMemberIs(node, m);
      MemberReads(s, node, p, m, k, e);
      if rest == [] {
        LastMember(s, node, p, ms, e);
      } else {
        MembersRead(s, node, e + 2, rest);
        MoreMembers(s, node, p, ms, e);
      }
    }
  }

  lemma OneMemberIs(node: Processor, m: Member)
    ensures var child := ChildOf(node, m);
            OneMember(node, m) == if child.Some? then Events(child.value, m.value) else []
  {
  }

  lemma NoMembers(s: string, node: Processor, p: nat)
    requires BeforeMembers(s, p, [])
    ensures ReadsMembers(s, node, p, [])
  {
    hide Members, SkipMembers, AfterMember;
    assert RenderMembers([]) + "}" == "}";
    HasChar(s, p, "}");
    EndOfMembers(s, node, p);
  }

  lemma FirstMember(ms: seq<Member>)
    requires ms != []
    ensures RenderMembers(ms) + "}" == RenderMember(ms[0]) + (Then(ms[1..] == [], RenderMembers(ms[1..])) + "}")
  {
    Assoc(RenderMember(ms[0]), Then(ms[1..] == [], RenderMembers(ms[1..])), "}");
  }

  lemma FirstItem(js: seq<Json>)
    requires js != []
    ensures RenderItems(js) + "]" == Render(js[0]) + (Then(js[1..] == [], RenderItems(js[1..])) + "]")
  {
    Assoc(Render(js[0]), Then(js[1..] == [], RenderItems(js[1..])), "]");
  }

  /** Behind an entry: the closing bracket, or a comma, a blank and the other entries. */
  lemma TailLayout(s: string, e: nat, last: bool, rest: string, close: string)
    requires Has(s, e, Then(last, rest) + close) && |close| == 1 && (close[0] == '}' || close[0] == ']')
    ensures e < |s| && |Then(last, rest) + close| > 0 && (Then(last, rest) + close)[0] == s[e]
    ensures last ==> s[e] == close[0]
    ensures !last ==> s[e] == ',' && e + 1 < |s| && s[e + 1] == ' ' && Has(s, e + 2, rest + close)
  {
    var tail := Then(last, rest) + close;
    HasChar(s, e, tail);
    assert s[e + 0] == tail[0];
    if last {
      assert tail == close;
    } else {
      Assoc(", ", rest, close);
      HasSplit(s, e, ", ", rest + close);
      assert s[e + 1] == tail[1];
    }
  }

  lemma LastMember(s: string, node: Processor, p: nat, ms: seq<Member>, e: nat)
    requires |ms| == 1 && BeforeMembers(s, p, ms) && s[p] == '"'
    requires e == p + |RenderMember(ms[0])| < |s| && s[e] == '}'
    requires Members(s, true, node, p) == Prepend(OneMember(node, ms[0]), AfterMember(s, true, node, e))
    requires SkipMembers(s, p) == At(e + 1)
    ensures ReadsMembers(s, node, p, ms)
  {
    hide Members, SkipMembers, AfterMember, RenderMember, OneMember, Has;
    EndOfMembers(s, node, e);
    assert ms[1..] == [];
    assert RenderMembers(ms) == RenderMember(ms[0]) + "";
    assert MemberEvents(node, ms) == OneMember(node, ms[0]) + [];
  }

  lemma MoreMembers(s: string, node: Processor, p: nat, ms: seq<Member>, e: nat)
    requires |ms| > 1 && p <= e && e + 1 < |s| && s[p] == '"'
    requires e == p + |RenderMember(ms[0])| && s[e] == ',' && s[e + 1] == ' '
    requires Members(s, true, node, p) == Prepend(OneMember(node, ms[0]), AfterMember(s, true, node, e))
    requires SkipMembers(s, p) == SkipMembers(s, e + 1)
    requires ReadsMembers(s, node, e + 2, ms[1..])
    ensures ReadsMembers(s, node, p, ms)
  {
    hide Members, SkipMembers, AfterMember, RenderMember, OneMember, Has, RenderMembers, MemberEvents, IsSpace;
    AnyBlank(s, e + 1);
    BlankBeforeMembers(s, node, e + 1);
    BlankBeforeSkippedMembers(s, e + 1);
    CommaNext(s, node, e);
    FirstOfMoreMembers(node, ms);
  }

  lemma AnyBlank(s: string, p: nat)
    requires p < |s| && s[p] == ' '
    ensures IsSpace(s[p])
  {
  }

  lemma FirstOfMoreMembers(node: Processor, ms: seq<Member>)
    requires |ms| > 1
    ensures |RenderMembers(ms)| == |RenderMember(ms[0])| + 2 + |RenderMembers(ms[1..])|
    ensures MemberEvents(node, ms) == OneMember(node, ms[0]) + MemberEvents(node, ms[1..])
  {
    hide RenderMember, OneMember;
    assert RenderMembers(ms) == RenderMember(ms[0]) + (", " + RenderMembers(ms[1..]));
  }

  /** The first byte of a value, and the delimiter that the text puts behind it. */
  lemma NextChar(s: string, p: nat, j: Json, tail: string)
    requires Clean(j) && Has(s, p, Render(j)) && tail != "" && Has(s, p + |Render(j)|, tail)
    requires tail[0] == ',' || tail[0] == '}' || tail[0] == ']'
    ensures Before(s, p, j) && |Render(j)| > 0 && !IsSpace(s[p]) && s[p] != ']'
    ensures s[p + |Render(j)|] == tail[0]
  {
    hide Render, Clean;
    RenderStart(j);
    HasChar(s, p, Render(j));
    HasChar(s, p + |Render(j)|, tail);
    assert s[p + 0] == Render(j)[0] && s[p + |Render(j)| + 0] == tail[0];
  }

  lemma EndOfMembers(s: string, node: Processor, p: nat)
    requires p < |s| && s[p] == '}'
    ensures Members(s, true, node, p) == Done([], p + 1) == AfterMember(s, true, node, p)
  {
    SkipSpacesTwice(s, p);
  }

  lemma CommaNext(s: string, node: Processor, p: nat)
    requires p < |s| && s[p] == ','
    ensures AfterMember(s, true, node, p) == Members(s, true, node, p + 1)
    ensures AfterElement(s, true, node, p) == Elements(s, true, node, p + 1)
  {
    hide Members, Elements, SkipSpaces, Value, MemberValue;
    CommaIsNoSpace(s, p);
  }

  lemma CommaIsNoSpace(s: string, p: nat)
    requires p < |s| && s[p] == ','
    ensures SkipSpaces(s, p) == p
  {
    SkipSpacesTwice(s, p);
  }

  lemma EndOfItems(s: string, node: Processor, p: nat)
    requires p < |s| && s[p] == ']'
    ensures Elements(s, true, node, p) == Done([], p + 1) == AfterElement(s, true, node, p)
  {
    SkipSpacesTwice(s, p);
  }

  /** One element is read, and the parser is behind it. */
  lemma ItemReads(s: string, node: Processor, p: nat, j: Json, e: nat)
    requires p < e < |s| && !IsSpace(s[p]) && s[p] != ']'
    requires Value(s, true, node, p) == Done(Events(node, j), e) && SkipValue(s, true, p) == At(e)
    ensures Elements(s, true, node, p) == Prepend(Events(node, j), AfterElement(s, true, node, e))
    ensures s[e] == ']' ==> SkipElements(s, p) == At(e + 1)
    ensures s[e] == ',' ==> SkipElements(s, p) == SkipElements(s, e + 1)
  {
    hide SkipSpaces, Value, SkipValue, AfterElement, Events;
    SkipSpacesTwice(s, p);
    SkipSpacesTwice(s, e);
  }

  predicate ReadsItems(s: string, node: Processor, p: nat, js: seq<Json>) {
    && p < |s| && Elements(s, true, node, p) == Done(ItemEvents(node, js), p + |RenderItems(js)| + 1)
    && if js == [] then s[p] == ']'
       else s[p] != ']' && SkipElements(s, p) == At(p + |RenderItems(js)| + 1)
  }

  lemma NoItems(s: string, node: Processor, p: nat)
    requires BeforeItems(s, p, [])
    ensures ReadsItems(s, node, p, [])
  {
    hide Elements, SkipElements, AfterElement;
    assert RenderItems([]) + "]" == "]";
    HasChar(s, p, "]");
    EndOfItems(s, node, p);
  }

  lemma {:induction false} ItemsRead(s: string, node: Processor, p: nat, js: seq<Json>)
    requires Clean(Arr(js)) && BeforeItems(s, p, js)
    ensures ReadsItems(s, node, p, js)
    decreases js, 1
  {
    hide Elements, SkipElements, AfterElement, Value, SkipValue, Events, Render, Has, IsSpace, ItemEvents, ReadsItems,
      RenderItems, Then;
    if js == [] {
      NoItems(s, node, p);
    } else {
      var j, rest := js[0], js[1..];
      assert j in js && forall x :: x in rest ==> x in js;
      var tail := Then(rest == [], RenderItems(rest)) + "]";
      FirstItem(js);
      HasSplit(s, p, Render(j), tail);
      var e := p + |Render(j)|;
      TailLayout(s, e, rest == [], RenderItems(rest), "]");
      NextChar(s, p, j, tail);
      ValueReads(s, node, p, j);
      ItemReads(s, node, p, j, e);
      if rest == [] {
        LastItem(s, node, p, js, e);
      } else {
        ItemsRead(s, node, e + 2, rest);
        MoreItems(s, node, p, js, e);
      }
    }
  }

  lemma LastItem(s: string, node: Processor, p: nat, js: seq<Json>, e: nat)
    requires |js| == 1 && BeforeItems(s, p, js) && s[p] != ']'
    requires e == p + |Render(js[0])| < |s| && s[e] == ']'
    requires Elements(s, true, node, p) == Prepend(Events(node, js[0]), AfterElement(s, true, node, e))
    requires SkipElements(s, p) == At(e + 1)
    ensures ReadsItems(s, node, p, js)
  {
    hide Elements, SkipElements, AfterElement, Render, Events, Has;
    EndOfItems(s, node, e);
    assert js[1..] == [];
    assert RenderItems(js) == Render(js[0]) + "";
    assert ItemEvents(node, js) == Events(node, js[0]) + [];
  }

  lemma MoreItems(s: string, node: Processor, p: nat, js: seq<Json>, e: nat)
    requires |js| > 1 && p <= e && e + 1 < |s| && s[p] != ']'
    requires e == p + |Render(js[0])| && s[e] == ',' && s[e + 1] == ' '
    requires Elements(s, true, node, p) == Prepend(Events(node, js[0]), AfterElement(s, true, node, e))
    requires SkipElements(s, p) == SkipElements(s, e + 1)
    requires ReadsItems(s, node, e + 2, js[1..])
    ensures ReadsItems(s, node, p, js)
  {
    hide Elements, SkipElements, AfterElement, Render, Events, Has, RenderItems, ItemEvents;
    BlankBeforeElements(s, node, e + 1);
    CommaNext(s, node, e);
    FirstOfMore(node, js);
  }

  lemma FirstOfMore(node: Processor, js: seq<Json>)
    requires |js| > 1
    ensures |RenderItems(js)| == |Render(js[0])| + 2 + |RenderItems(js[1..])|
    ensures ItemEvents(node, js) == Events(node, js[0]) + ItemEvents(node, js[1..])
  {
    hide Render, Events;
    assert RenderItems(js) == Render(js[0]) + (", " + RenderItems(js[1..]));
  }

  /** Reading any document back: for every object whose strings are spelled properly and whose numbers
      are written in some form, with null, escapes and exponents, the parser accepts the text in both
      modes and reports exactly its values. */
  lemma DocumentReads(ms: seq<Member>, strict: bool, root: Processor)
    requires Clean(Obj(ms))
    ensures var s := Render(Obj(ms));
            Document(s, strict, root) == Done(MemberEvents(root, ms), |s|)
  {
    hide Members, MemberEvents, RenderMembers, SkipMembers;
    var s := Render(Obj(ms));
    assert s[0..0 + |s|] == s;
    assert s == "{" + RenderMembers(ms) + "}";
    hide Clean, Render;
    Opening(s, 0, "{", RenderMembers(ms), "}");
    MembersRead(s, root, 1, ms);
    SkipSpacesTwice(s, 0);
    hide Scan;
    SpacesAtEnd(s);
    if !strict {
      JsonLax.StrictImpliesLax(s, root);
    }
  }

  /** Printing and reading back: for every sequence of calls that throws nowhere, closes everything,
      and passes names and strings without quote or backslash and numbers in the parser's notation,
      the parser accepts the printed text in both modes and reports exactly the added values. */
  lemma RoundTrip(calls: seq<Call>, strict: bool, root: Processor)
    requires Printed(calls).Some?
    requires forall c :: c in calls ==> CleanCall(c)
    ensures Build(calls).Built? && Build(calls).doc.Obj?
    ensures Document(Printed(calls).value, strict, root)
         == Done(MemberEvents(root, Build(calls).doc.members), |Printed(calls).value|)
  {
    hide Document, MemberEvents, Printed, Build, CleanCall, Render, Clean;
    PrintedIsRendered(calls);
    CallsBuildClean(calls);
    DocumentReads(Build(calls).doc.members, strict, root);
  }

  lemma SpacesAtEnd(s: string)
    ensures SkipSpaces(s, |s|) == |s|
  {
  }
}
