/** What the printer accepts: every document that it has calls for can be printed, and a call is refused
    exactly when the container being built cannot take it. */
module JsonPrinting {
  import opened Common
  import opened JsonFormatter
  import opened JsonRoundTrip

  /* ---- documents the printer has calls for ---- */

  /** Strings as they are; arrays of strings, of numbers or of objects. */
  predicate Printable(j: Json) {
    match j
    case Null => false
    case Flag(_) => true
    case Str(_, spelling) => spelling.Raw?
    case Num(_) => true
    case Obj(members) => forall m :: m in members ==> m.spelling.Raw? && Printable(m.value)
    case Arr(items) =>
      && (forall i :: i in items ==> Printable(i))
      && (AllOf(items, StringArray) || AllOf(items, NumberArray) || AllOf(items, ObjectArray))
  }

  predicate IsKind(j: Json, kind: Kind) {
    match kind
    case StringArray => j.Str?
    case NumberArray => j.Num?
    case ObjectArray => j.Obj?
    case _ => false
  }

  predicate AllOf(items: seq<Json>, kind: Kind) { forall i :: 0 <= i < |items| ==> IsKind(items[i], kind) }

  /** The calls that add one member, or one element, and those that add a list of them. */
  function MemberCalls(m: Member): seq<Call>
    decreases m
  {
    match m.value
    case Null => []
    case Flag(flag) => [AddBoolean(m.name, flag)]
    case Str(text, _) => [AddString(m.name, text)]
    case Num(digits) => [AddNumber(m.name, digits)]
    case Obj(members) => [AddObject(m.name)] + (MembersCalls(members) + [Finish])
    case Arr(items) => [AddArray(m.name)] + (ItemsCalls(items) + [Finish])
  }

  function MembersCalls(ms: seq<Member>): seq<Call>
    decreases ms
  {
    if ms == [] then [] else MemberCalls(ms[0]) + MembersCalls(ms[1..])
  }

  function ItemCalls(j: Json): seq<Call>
    decreases j
  {
    match j
    case Str(text, _) => [PushString(text)]
    case Num(digits) => [PushNumber(digits)]
    case Obj(members) => [PushObject] + (MembersCalls(members) + [Finish])
    case _ => []
  }

  function ItemsCalls(js: seq<Json>): seq<Call>
    decreases js
  {
    if js == [] then [] else ItemCalls(js[0]) + ItemsCalls(js[1..])
  }

  /* ---- running from any state ---- */

  function RunFrom(st: State, calls: seq<Call>): Option<State>
    decreases |calls|
  {
    if calls == [] then Some(st)
    else
      var next := Step(st, calls[0]);
      if next.None? then None else RunFrom(next.value, calls[1..])
  }

  function Bind(st: Option<State>, calls: seq<Call>): Option<State> {
    if st.None? then None else RunFrom(st.value, calls)
  }

  lemma {:induction false} RunFromAppend(st: State, a: seq<Call>, b: seq<Call>)
    ensures RunFrom(st, a + b) == Bind(RunFrom(st, a), b)
    decreases |a|
  {
    hide Step;
    if a == [] {
      assert a + b == b;
    } else {
      assert (a + b)[1..] == a[1..] + b;
      if Step(st, a[0]).Some? {
        RunFromAppend(Step(st, a[0]).value, a[1..], b);
      }
    }
  }

  lemma {:induction false} RunIsRunFrom(calls: seq<Call>)
    ensures Run(calls) == RunFrom(INITIAL, calls)
    decreases |calls|
  {
    hide Step;
    if calls != [] {
      RunIsRunFrom(Init(calls));
      assert calls == Init(calls) + [Last(calls)];
      RunFromAppend(INITIAL, Init(calls), [Last(calls)]);
      if Run(calls).Some? || Run(Init(calls)).Some? {
        RunOne(Run(Init(calls)).value, Last(calls));
      }
    }
  }

  lemma RunOne(st: State, c: Call)
    ensures RunFrom(st, [c]) == Step(st, c)
  {
    hide Step;
    if Step(st, c).Some? {
      assert [c][1..] == [];
    }
  }

  lemma RunCons(st: State, c: Call, more: seq<Call>)
    ensures RunFrom(st, [c] + more) == Bind(Step(st, c), more)
  {
    hide Step;
    assert ([c] + more)[0] == c && ([c] + more)[1..] == more;
  }

  /* ---- one call on the innermost writer ---- */

  /** A state by its innermost writer. */
  function At(below: seq<Writer>, w: Writer, text: string): State { State(below + [w], text) }

  predicate ObjectWriter(w: Writer) { w.kind == SimpleObject && w.openChildren == 0 }

  /** An array that has no elements yet or has those of the given kind. */
  predicate ArrayWriter(w: Writer, kind: Kind) {
    w.openChildren == 0 && (w.kind == AnyArray || w.kind == kind) && kind != SimpleObject
  }

  /** What a call writes: the comma, if any, and the text. */
  function Added(w: Writer, body: string): string { Comma(w) + body }

  lemma LeafMember(below: seq<Writer>, w: Writer, text: string, m: Member)
    requires ObjectWriter(w) && m.spelling.Raw? && (m.value.Flag? || m.value.Str? || m.value.Num?)
    requires Printable(m.value)
    ensures |MemberCalls(m)| == 1
    ensures Step(At(below, w, text), MemberCalls(m)[0])
         == Some(At(below, w.(empty := false), text + Added(w, RenderMember(m))))
  {
    hide Quoted, BoolText;
    var body := Render(m.value);
    Assoc(Comma(w), NameText(m.name), body);
    assert Init(below + [w]) == below;
  }

  lemma OpenMember(below: seq<Writer>, w: Writer, text: string, name: string, asArray: bool)
    requires ObjectWriter(w)
    ensures Step(At(below, w, text), if asArray then AddArray(name) else AddObject(name))
         == Some(At(below + [w.(empty := false, openChildren := 1)], NewWriter(asArray),
                    text + Added(w, NameText(name)) + OpenText(asArray)))
  {
    hide NameText, NewWriter, OpenText;
    var w' := w.(empty := false, openChildren := 1);
    assert Init(below + [w]) == below && below + [w', NewWriter(asArray)] == below + [w'] + [NewWriter(asArray)];
    assert Comma(w) + NameText(name) + "" == Comma(w) + NameText(name);
  }

  lemma CloseChild(below: seq<Writer>, w: Writer, child: Writer, text: string)
    requires w.openChildren == 1
    ensures Step(At(below + [w], child, text), Finish)
         == Some(At(below, w.(openChildren := 0), text + CloseText(child)))
  {
    assert Init(below + [w] + [child]) == below + [w] && Init(below + [w]) == below;
  }

  /* ---- printing documents ---- */

  /** A container opened, filled and closed: the rendering of the whole. */
  lemma ContainerText(text: string, lead: string, open: string, inside: string, close: string)
    ensures text + lead + open + inside + close == text + (lead + (open + inside + close))
  {
    Assoc(open, inside, close);
    Assoc(lead, open, inside + close);
    Assoc(text, lead, open);
    Assoc(text + lead, open, inside);
    Assoc(text + lead, open + inside, close);
    Assoc(text, lead, open + inside + close);
  }

  lemma {:induction false} MemberPrints(below: seq<Writer>, w: Writer, text: string, m: Member)
    requires ObjectWriter(w) && m.spelling.Raw? && Printable(m.value)
    ensures RunFrom(At(below, w, text), MemberCalls(m))
         == Some(At(below, w.(empty := false), text + Added(w, RenderMember(m))))
    decreases m, 0
  {
    hide Step, At, RunFrom, RenderMember, MembersCalls, ItemsCalls;
    var st := At(below, w, text);
    if m.value.Obj? {
      OpenMember(below, w, text, m.name, false);
      RunCons(st, AddObject(m.name), MembersCalls(m.value.members) + [Finish]);
      ObjectPrints(below, w, text, m, m.value.members);
    } else if m.value.Arr? {
      OpenMember(below, w, text, m.name, true);
      RunCons(st, AddArray(m.name), ItemsCalls(m.value.items) + [Finish]);
      ArrayPrints(below, w, text, m, m.value.items);
    } else {
      LeafMember(below, w, text, m);
      RunOne(st, MemberCalls(m)[0]);
      assert MemberCalls(m) == [MemberCalls(m)[0]];
    }
  }

  /** The members and the closing brace of a nested object. */
  lemma {:induction false} ObjectPrints(below: seq<Writer>, w: Writer, text: string, m: Member, members: seq<Member>)
    requires ObjectWriter(w) && m.spelling.Raw? && Printable(m.value) && m.value == Obj(members)
    ensures RunFrom(At(below + [w.(empty := false, openChildren := 1)], NewWriter(false),
                       text + Added(w, NameText(m.name)) + OpenText(false)), MembersCalls(members) + [Finish])
         == Some(At(below, w.(empty := false), text + Added(w, RenderMember(m))))
    decreases members, 2
  {
    hide Step, At, RunFrom, MembersCalls, RenderMembers;
    var w', child := w.(empty := false, openChildren := 1), NewWriter(false);
    var text' := text + Added(w, NameText(m.name)) + OpenText(false);
    MembersPrint(below + [w'], child, text', members);
    RunFromAppend(At(below + [w'], child, text'), MembersCalls(members), [Finish]);
    var inside := Listed(child, members == [], RenderMembers(members));
    var child' := Filled(child, members == []);
    RunOne(At(below + [w'], child', text' + inside), Finish);
    CloseChild(below, w', child', text' + inside);
    RenderNothing();
    FreshList(child, members == [], RenderMembers(members));
    ContainerText(text, Added(w, NameText(m.name)), "{", inside, "}");
    Assoc(Comma(w), NameText(m.name), Render(m.value));
  }

  lemma {:induction false} ArrayPrints(below: seq<Writer>, w: Writer, text: string, m: Member, items: seq<Json>)
    requires ObjectWriter(w) && m.spelling.Raw? && Printable(m.value) && m.value == Arr(items)
    ensures RunFrom(At(below + [w.(empty := false, openChildren := 1)], NewWriter(true),
                       text + Added(w, NameText(m.name)) + OpenText(true)), ItemsCalls(items) + [Finish])
         == Some(At(below, w.(empty := false), text + Added(w, RenderMember(m))))
    decreases items, 2
  {
    hide Step, At, RunFrom, ItemsCalls, RenderItems;
    var w', child := w.(empty := false, openChildren := 1), NewWriter(true);
    var text' := text + Added(w, NameText(m.name)) + OpenText(true);
    var kind := if AllOf(items, StringArray) then StringArray
                else if AllOf(items, NumberArray) then NumberArray else ObjectArray;
    ItemsPrint(below + [w'], child, text', items, kind);
    RunFromAppend(At(below + [w'], child, text'), ItemsCalls(items), [Finish]);
    var inside := Listed(child, items == [], RenderItems(items));
    var child' := Typed(child, items == [], kind);
    RunOne(At(below + [w'], child', text' + inside), Finish);
    CloseChild(below, w', child', text' + inside);
    RenderNothing();
    FreshList(child, items == [], RenderItems(items));
    ContainerText(text, Added(w, NameText(m.name)), "[", inside, "]");
    Assoc(Comma(w), NameText(m.name), Render(m.value));
  }

  function Filled(w: Writer, nothing: bool): Writer { if nothing then w else w.(empty := false) }

  function Typed(w: Writer, nothing: bool, kind: Kind): Writer {
    if nothing then w else w.(empty := false, kind := kind)
  }

  /** What adding a list of members or elements writes. */
  function Listed(w: Writer, nothing: bool, list: string): string { if nothing then "" else Added(w, list) }

  lemma RenderNothing()
    ensures RenderMembers([]) == RenderItems([]) == ""
  {
  }

  /** The first list in a container follows no comma. */
  lemma FreshList(w: Writer, nothing: bool, list: string)
    requires w.empty && (nothing ==> list == "")
    ensures Listed(w, nothing, list) == list
  {
  }

  lemma {:induction false} MembersPrint(below: seq<Writer>, w: Writer, text: string, ms: seq<Member>)
    requires ObjectWriter(w) && Printable(Obj(ms))
    ensures RunFrom(At(below, w, text), MembersCalls(ms))
         == Some(At(below, Filled(w, ms == []), text + Listed(w, ms == [], RenderMembers(ms))))
    decreases ms, 1
  {
    hide At, MemberCalls, RenderMember, Step;
    if ms == [] {
      assert text + "" == text;
    } else {
      var m, rest := ms[0], ms[1..];
      assert m in ms && forall x :: x in rest ==> x in ms;
      MemberPrints(below, w, text, m);
      var w' := w.(empty := false);
      var text' := text + Added(w, RenderMember(m));
      RunFromAppend(At(below, w, text), MemberCalls(m), MembersCalls(rest));
      MembersPrint(below, w', text', rest);
      hide RunFrom;
      ListText(text, w, RenderMember(m), rest == [], RenderMembers(rest));
    }
  }

  lemma ListText(text: string, w: Writer, first: string, last: bool, rest: string)
    ensures text + Added(w, first) + Listed(w.(empty := false), last, rest)
         == text + Added(w, first + Then(last, rest))
  {
    var c := Comma(w);
    if last {
      assert first + Then(last, rest) == first;
      assert text + Added(w, first) + "" == text + Added(w, first);
    } else {
      Assoc(c, first, ", " + rest);
      Assoc(text, c + first, ", " + rest);
    }
  }

  lemma {:induction false} ItemPrints(below: seq<Writer>, w: Writer, text: string, j: Json, kind: Kind)
    requires ArrayWriter(w, kind) && IsKind(j, kind) && Printable(j)
    ensures RunFrom(At(below, w, text), ItemCalls(j))
         == Some(At(below, w.(empty := false, kind := kind), text + Added(w, Render(j))))
    decreases j, 0
  {
    hide Step, At, RunFrom, MembersCalls;
    var st := At(below, w, text);
    if j.Obj? {
      OpenItem(below, w, text);
      RunCons(st, PushObject, MembersCalls(j.members) + [Finish]);
      ItemObjectPrints(below, w, text, j.members);
    } else {
      LeafItem(below, w, text, j, kind);
      RunOne(st, ItemCalls(j)[0]);
      assert ItemCalls(j) == [ItemCalls(j)[0]];
    }
  }

  lemma LeafItem(below: seq<Writer>, w: Writer, text: string, j: Json, kind: Kind)
    requires ArrayWriter(w, kind) && IsKind(j, kind) && Printable(j) && !j.Obj?
    ensures |ItemCalls(j)| == 1
    ensures Step(At(below, w, text), ItemCalls(j)[0])
         == Some(At(below, w.(empty := false, kind := kind), text + Added(w, Render(j))))
  {
    hide Quoted;
    assert Init(below + [w]) == below;
  }

  lemma OpenItem(below: seq<Writer>, w: Writer, text: string)
    requires ArrayWriter(w, ObjectArray)
    ensures Step(At(below, w, text), PushObject)
         == Some(At(below + [w.(empty := false, kind := ObjectArray, openChildren := 1)], NewWriter(false),
                    text + Added(w, "") + OpenText(false)))
  {
    hide NewWriter, OpenText;
    var w' := w.(empty := false, kind := ObjectArray, openChildren := 1);
    assert Init(below + [w]) == below && below + [w', NewWriter(false)] == below + [w'] + [NewWriter(false)];
  }

  lemma {:induction false} ItemObjectPrints(below: seq<Writer>, w: Writer, text: string, members: seq<Member>)
    requires ArrayWriter(w, ObjectArray) && Printable(Obj(members))
    ensures RunFrom(At(below + [w.(empty := false, kind := ObjectArray, openChildren := 1)], NewWriter(false),
                       text + Added(w, "") + OpenText(false)), MembersCalls(members) + [Finish])
         == Some(At(below, w.(empty := false, kind := ObjectArray), text + Added(w, Render(Obj(members)))))
    decreases members, 2
  {
    hide Step, At, RunFrom, MembersCalls, RenderMembers;
    var w', child := w.(empty := false, kind := ObjectArray, openChildren := 1), NewWriter(false);
    var text' := text + Added(w, "") + OpenText(false);
    MembersPrint(below + [w'], child, text', members);
    RunFromAppend(At(below + [w'], child, text'), MembersCalls(members), [Finish]);
    var inside := Listed(child, members == [], RenderMembers(members));
    var child' := Filled(child, members == []);
    RunOne(At(below + [w'], child', text' + inside), Finish);
    CloseChild(below, w', child', text' + inside);
    RenderNothing();
    FreshList(child, members == [], RenderMembers(members));
    ContainerText(text, Added(w, ""), "{", inside, "}");
    assert Added(w, "") == Comma(w);
  }

  lemma {:induction false} ItemsPrint(below: seq<Writer>, w: Writer, text: string, js: seq<Json>, kind: Kind)
    requires ArrayWriter(w, kind) && AllOf(js, kind) && Printable(Arr(js))
    ensures RunFrom(At(below, w, text), ItemsCalls(js))
         == Some(At(below, Typed(w, js == [], kind), text + Listed(w, js == [], RenderItems(js))))
    decreases js, 1
  {
    hide At, ItemCalls, Render, Step;
    if js == [] {
      assert text + "" == text;
    } else {
      var j, rest := js[0], js[1..];
      assert j in js && forall x :: x in rest ==> x in js;
      assert AllOf(rest, kind);
      ItemPrints(below, w, text, j, kind);
      var w' := w.(empty := false, kind := kind);
      var text' := text + Added(w, Render(j));
      RunFromAppend(At(below, w, text), ItemCalls(j), ItemsCalls(rest));
      RestPrintable(js);
      ItemsPrint(below, w', text', rest, kind);
      hide RunFrom;
      ListText(text, w, Render(j), rest == [], RenderItems(rest));
    }
  }

  lemma RestPrintable(js: seq<Json>)
    requires js != [] && Printable(Arr(js))
    ensures Printable(Arr(js[1..])) && Printable(js[0])
  {
    var rest := js[1..];
    assert forall x :: x in rest ==> x in js;
    assert forall k :: AllOf(js, k) ==> AllOf(rest, k);
  }

  /** Every printable object is printed by some calls, as its rendering. */
  lemma EveryDocumentPrints(ms: seq<Member>)
    requires Printable(Obj(ms))
    ensures Printed(MembersCalls(ms) + [Finish]) == Some(Render(Obj(ms)))
  {
    hide Step, RunFrom, MembersCalls, RenderMembers, Run, Printable;
    var w, calls := NewWriter(false), MembersCalls(ms) + [Finish];
    RunIsRunFrom(calls);
    assert INITIAL == At([], w, "{");
    MembersPrint([], w, "{", ms);
    RunFromAppend(INITIAL, MembersCalls(ms), [Finish]);
    var w' := Filled(w, ms == []);
    var inside := Listed(w, ms == [], RenderMembers(ms));
    RunOne(At([], w', "{" + inside), Finish);
    RenderNothing();
    FreshList(w, ms == [], RenderMembers(ms));
    CloseRoot(w', "{" + inside);
  }

  lemma CloseRoot(w: Writer, text: string)
    requires w.kind == SimpleObject
    ensures Step(At([], w, text), Finish) == Some(State([], text + "}"))
  {
    assert Init([] + [w]) == [];
  }

  /* ---- which calls are refused ---- */

  /** The container being built can take what the call adds: members go into objects, and an array takes
      only elements of the kind it has. */
  predicate Takes(part: Partial, c: Call) {
    match c
    case Finish => true
    case PushString(_) => part.PartArr? && AllOf(part.items, StringArray)
    case PushNumber(_) => part.PartArr? && AllOf(part.items, NumberArray)
    case PushObject => part.PartArr? && AllOf(part.items, ObjectArray)
    case _ => part.PartObj?
  }

  /** The writer's kind against the elements; `waiting` while a child of the container is open. */
  predicate Fits(w: Writer, part: Partial, waiting: bool) {
    if part.PartObj? then w.kind == SimpleObject
    else if waiting then w.kind == ObjectArray && AllOf(part.items, ObjectArray)
    else if part.items == [] then w.kind == AnyArray
    else w.kind != AnyArray && AllOf(part.items, w.kind)
  }

  /** All open containers, and only objects inside arrays. */
  predicate Kinds(ws: seq<Writer>, open: seq<Partial>) {
    && open != [] && |ws| == |open| && Fits(Last(ws), Last(open), false)
    && (forall i :: 0 <= i < |open| - 1 ==> Fits(ws[i], open[i], true))
    && (forall i {:trigger open[i].PartArr?} :: 0 <= i < |open| - 1 && open[i].PartArr? ==> open[i + 1].PartObj?)
  }

  /** With no child open, the call is accepted exactly when the container can take it. */
  lemma EffectIff(w: Writer, part: Partial, c: Call)
    requires Fits(w, part, false) && w.openChildren == 0 && !c.Finish?
    ensures Effect(w, c).Some? <==> Takes(part, c)
  {
    if part.PartArr? && part.items != [] {
      assert IsKind(part.items[0], w.kind);
      assert forall k :: AllOf(part.items, k) ==> IsKind(part.items[0], k);
    }
  }

  lemma AllOfMore(items: seq<Json>, j: Json, kind: Kind)
    requires AllOf(items, kind) && IsKind(j, kind)
    ensures AllOf(items + [j], kind)
  {
  }

  lemma LeafFits(w: Writer, part: Partial, c: Call)
    requires Fits(w, part, false) && w.openChildren == 0 && !c.Finish? && !Opens(c) && Effect(w, c).Some?
    ensures Fits(Effect(w, c).value.0, Attach(part, CallName(c), Leaf(c)), false)
  {
    EffectIff(w, part, c);
    if part.PartArr? {
      AllOfMore(part.items, Leaf(c), if c.PushString? then StringArray else NumberArray);
    }
  }

  lemma OpenFits(w: Writer, part: Partial, c: Call)
    requires Fits(w, part, false) && w.openChildren == 0 && Opens(c) && Effect(w, c).Some?
    ensures var w' := Effect(w, c).value.0;
            Fits(w'.(openChildren := w'.openChildren + 1), Naming(part, CallName(c)), true)
    ensures c.PushObject? <==> part.PartArr?
  {
    EffectIff(w, part, c);
  }

  lemma KindsStep(st: State, open: seq<Partial>, c: Call)
    requires Kinds(st.open, open) && Nested(st.open) && Step(st, c).Some? && Grow(open, c).Building?
    ensures Kinds(Step(st, c).value.open, Grow(open, c).open)
  {
    hide Effect, Fits, Attach, AllOf;
    var ws, n := st.open, |open|;
    var w, part := Last(ws), Last(open);
    if c.Finish? {
      ParentFits(ws, open);
    } else if Opens(c) {
      OpenFits(w, part, c);
      GrowOpen(open, c);
      KindsPush(st, open, c);
    } else {
      LeafFits(w, part, c);
      GrowLeaf(open, c);
      AttachShape(part, CallName(c), Leaf(c));
    }
  }

  lemma AttachShape(part: Partial, name: string, j: Json)
    ensures Attach(part, name, j).PartObj? <==> part.PartObj?
  {
  }

  lemma KindsPush(st: State, open: seq<Partial>, c: Call)
    requires Kinds(st.open, open) && Opens(c) && Effect(Last(st.open), c).Some?
    requires var e := Effect(Last(st.open), c).value.0;
             Fits(e.(openChildren := e.openChildren + 1), Naming(Last(open), CallName(c)), true)
    requires c.PushObject? <==> Last(open).PartArr?
    ensures var e := Effect(Last(st.open), c).value.0;
            Kinds(Init(st.open) + [e.(openChildren := e.openChildren + 1), NewWriter(c.AddArray?)],
                  Init(open) + [Naming(Last(open), CallName(c)), if c.AddArray? then PartArr([]) else PartObj([], "")])
  {
    hide Effect, AllOf;
    var e := Effect(Last(st.open), c).value.0;
    var ws' := Init(st.open) + [e.(openChildren := e.openChildren + 1), NewWriter(c.AddArray?)];
    var named, child := Naming(Last(open), CallName(c)), if c.AddArray? then PartArr([]) else PartObj([], "");
    var open' := Init(open) + [named, child];
    assert named.PartObj? <==> Last(open).PartObj?;
    forall i | 0 <= i < |open'| - 1
      ensures Fits(ws'[i], open'[i], true) && (open'[i].PartArr? ==> open'[i + 1].PartObj?)
    {
      if i < |open| - 1 {
        assert ws'[i] == st.open[i] && open'[i] == open[i];
        assert Fits(st.open[i], open[i], true) && (open[i].PartArr? ==> open[i + 1].PartObj?);
        assert open'[i + 1].PartObj? <==> open[i + 1].PartObj?;
      }
    }
  }

  /** A finished child becomes an element or member of its parent, which fits as before. */
  lemma ParentFits(ws: seq<Writer>, open: seq<Partial>)
    requires Kinds(ws, open) && |open| > 1
    ensures Kinds(Released(Init(ws)),
                  Init(Init(open)) + [Attach(Last(Init(open)), NameOf(Last(Init(open))), Whole(Last(open)))])
  {
    var below, parent := Init(open), open[|open| - 2];
    var whole := Whole(Last(open));
    var parent' := Attach(parent, NameOf(parent), whole);
    assert Fits(ws[|ws| - 2], parent, true) && (parent.PartArr? ==> open[|open| - 2 + 1].PartObj?);
    if parent.PartArr? {
      AllOfMore(parent.items, whole, ObjectArray);
    }
    var w' := Last(Released(Init(ws)));
    assert Fits(w', parent', false);
    hide Fits, Attach;
    AttachShape(parent, NameOf(parent), whole);
    var ws', open' := Released(Init(ws)), Init(below) + [parent'];
    forall i | 0 <= i < |open'| - 1
      ensures Fits(ws'[i], open'[i], true) && (open'[i].PartArr? ==> open'[i + 1].PartObj?)
    {
      assert ws'[i] == ws[i] && open'[i] == open[i];
      assert Fits(ws[i], open[i], true) && (open[i].PartArr? ==> open[i + 1].PartObj?);
      assert open'[i + 1].PartObj? <==> open[i + 1].PartObj?;
    }
  }

  lemma {:induction false} RunKinds(calls: seq<Call>)
    requires Run(calls).Some?
    ensures Build(calls).Building? ==> Kinds(Run(calls).value.open, Build(calls).open)
    ensures Build(calls).Built? ==> Run(calls).value.open == []
  {
    hide Kinds, Step, Grow, Tracks;
    if calls == [] {
      InitialKinds();
    } else {
      RunKinds(Init(calls));
      RunNested(Init(calls));
      RunTracks(Init(calls));
      RunTracks(calls);
      if Build(calls).Building? {
        KindsStep(Run(Init(calls)).value, Build(Init(calls)).open, Last(calls));
      } else {
        BuiltIsClosed(Run(calls).value, Build(calls));
      }
    }
  }

  lemma InitialKinds()
    ensures Kinds(INITIAL.open, [PartObj([], "")])
  {
  }

  lemma BuiltIsClosed(st: State, b: Builder)
    requires Tracks(st, b) && b.Built?
    ensures st.open == []
  {
  }

  /** Nothing is open any more, or the innermost container cannot take it. */
  predicate Refuses(b: Builder, c: Call) { b.Built? || b.open == [] || !Takes(Last(b.open), c) }

  /** After an accepted sequence, a further call throws exactly when the document is closed or the
      container being built cannot take what it adds. */
  lemma ThrowsIff(calls: seq<Call>, c: Call)
    requires Run(calls).Some?
    ensures Run(calls + [c]).None? <==> Refuses(Build(calls), c)
  {
    hide Kinds, Takes, Effect;
    RunKinds(calls);
    RunNested(calls);
    RunTracks(calls);
    assert Init(calls + [c]) == calls;
    if Build(calls).Building? {
      var st, open := Run(calls).value, Build(calls).open;
      TopFits(st.open, open);
      if c.Finish? {
        FinishTaken(Last(open));
      } else {
        EffectIff(Last(st.open), Last(open), c);
      }
    }
  }

  lemma TopFits(ws: seq<Writer>, open: seq<Partial>)
    requires Kinds(ws, open)
    ensures ws != [] && open != [] && Fits(Last(ws), Last(open), false)
  {
  }

  lemma FinishTaken(part: Partial)
    ensures Takes(part, Finish)
  {
  }
}
