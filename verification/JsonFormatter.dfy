/** The JSON printer: objects and arrays under construction that append to one shared output string,
    and the call sequences a user can make on them. */
module JsonFormatter {
  import opened Common
  import opened JsonIndex

  datatype Kind = SimpleObject | AnyArray | NumberArray | ObjectArray | StringArray

  /** The fields of one object under construction. */
  datatype Writer = Writer(kind: Kind, empty: bool, openChildren: nat)

  /* ---- effect of one call on one writer ---- */

  function Comma(w: Writer): string { if w.empty then "" else ", " }

  function Quoted(t: string): string { "\"" + t + "\"" }

  function NameText(name: string): string { Quoted(name) + ": " }

  /** Adding under a name: refused while a child is open and in arrays. */
  function Named(w: Writer, name: string, body: string): Option<(Writer, string)> {
    if w.openChildren != 0 || w.kind != SimpleObject then None
    else Some((w.(empty := false), Comma(w) + NameText(name) + body))
  }

  /** Adding an array element: the first element fixes the element type. */
  function Element(w: Writer, required: Kind, body: string): Option<(Writer, string)> {
    if w.openChildren != 0 || w.kind == SimpleObject then None
    else if w.kind != AnyArray && w.kind != required then None
    else Some((w.(kind := required, empty := false), Comma(w) + body))
  }

  function OpenText(asArray: bool): string { if asArray then "[" else "{" }

  function CloseText(w: Writer): string { if w.kind == SimpleObject then "}" else "]" }

  function NewWriter(asArray: bool): Writer { Writer(if asArray then AnyArray else SimpleObject, true, 0) }

  class Sink {
    var text: string

    constructor ()
      ensures text == ""
    {
      text := "";
    }
  }

  class JsonObject {
    const out: Sink
    const parent: JsonObject?
    var kind: Kind
    var empty: bool
    var openChildren: nat

    function View(): Writer
      reads this
    {
      Writer(kind, empty, openChildren)
    }

    constructor Root(out: Sink)
      modifies out
      ensures this.out == out && parent == null && View() == NewWriter(false)
      ensures out.text == old(out.text) + OpenText(false)
    {
      this.out, parent := out, null;
      kind, empty, openChildren := SimpleObject, true, 0;
      new;
      out.text := out.text + "{";
    }

    /** Consumes the delegate returned by an add call of the parent. */
    constructor Child(parent: JsonObject, asArray: bool)
      modifies parent`openChildren, parent.out
      ensures out == parent.out && this.parent == parent && View() == NewWriter(asArray)
      ensures parent.View() == old(parent.View()).(openChildren := old(parent.openChildren) + 1)
      ensures out.text == old(parent.out.text) + OpenText(asArray)
    {
      out, this.parent := parent.out, parent;
      kind, empty, openChildren := if asArray then AnyArray else SimpleObject, true, 0;
      new;
      parent.openChildren := parent.openChildren + 1;
      out.text := out.text + (if kind == SimpleObject then "{" else "[");
    }

    /** The destructor. */
    method Close()
      requires parent != null ==> parent.openChildren > 0
      modifies out
      modifies if parent == null then {} else {parent}
      ensures parent != null ==> parent.View() == old(parent.View()).(openChildren := old(parent.openChildren) - 1)
      ensures out.text == old(out.text) + CloseText(old(View()))
    {
      var close := if kind == SimpleObject then "}" else "]";
      if parent != null {
        parent.openChildren := parent.openChildren - 1;
      }
      out.text := out.text + close;
    }

    /** The result of a call: either it throws and nothing has changed, or the fields and the output
        have moved as the effect says. */
    twostate predicate Applied(effect: Option<(Writer, string)>, ok: bool)
      reads this, out
    {
      if effect.None? then !ok && View() == old(View()) && out.text == old(out.text)
      else ok && View() == effect.value.0 && out.text == old(out.text) + effect.value.1
    }

    method AddNamed(name: string, body: string) returns (ok: bool)
      modifies this, out
      ensures Applied(Named(old(View()), name, body), ok)
    {
      if openChildren != 0 || kind != SimpleObject {
        return false;
      }
      var text := out.text;
      if !empty {
        text := text + ", ";
      }
      empty := false;
      assert text == old(out.text) + Comma(old(View()));
      text := text + "\"" + name + "\": ";
      assert text == old(out.text) + (Comma(old(View())) + NameText(name));
      out.text := text + body;
      return true;
    }

    method AddElement(required: Kind, body: string) returns (ok: bool)
      modifies this, out
      ensures Applied(Element(old(View()), required, body), ok)
    {
      if openChildren != 0 || kind == SimpleObject {
        return false;
      }
      if kind == AnyArray {
        kind := required;
      } else if kind != required {
        return false;
      }
      var text := out.text;
      if !empty {
        text := text + ", ";
      }
      empty := false;
      assert text == old(out.text) + Comma(old(View()));
      out.text := text + body;
      return true;
    }
  }

  /* ---- call sequences ---- */

  /** One call on the innermost open object; a delegate is consumed at once. */
  datatype Call =
    | AddBoolean(name: string, flag: bool)
    | AddString(name: string, value: string)
    | AddNumber(name: string, digits: string)
    | AddObject(name: string)
    | AddArray(name: string)
    | PushString(value: string)
    | PushNumber(digits: string)
    | PushObject
    | Finish

  function BoolText(flag: bool): string { if flag then "true" else "false" }

  function Effect(w: Writer, c: Call): Option<(Writer, string)>
    requires !c.Finish?
  {
    match c
    case AddBoolean(name, flag) => Named(w, name, BoolText(flag))
    case AddString(name, value) => Named(w, name, Quoted(value))
    case AddNumber(name, digits) => Named(w, name, digits)
    case AddObject(name) => Named(w, name, "")
    case AddArray(name) => Named(w, name, "")
    case PushString(value) => Element(w, StringArray, Quoted(value))
    case PushNumber(digits) => Element(w, NumberArray, digits)
    case PushObject => Element(w, ObjectArray, "")
  }

  predicate Opens(c: Call) { c.AddObject? || c.AddArray? || c.PushObject? }

  /** The open writers, innermost last, and the output so far. */
  datatype State = State(open: seq<Writer>, text: string)

  const INITIAL := State([NewWriter(false)], "{")

  function Last<T>(s: seq<T>): T
    requires s != []
  {
    s[|s| - 1]
  }

  function Init<T>(s: seq<T>): seq<T>
    requires s != []
  {
    s[..|s| - 1]
  }

  /** The writers left when the innermost one is destroyed: its parent has one open child less. */
  function Released(below: seq<Writer>): (r: seq<Writer>)
    ensures |r| == |below|
  {
    if below == [] then []
    else
      var w := Last(below);
      Init(below) + [w.(openChildren := if w.openChildren > 0 then w.openChildren - 1 else 0)]
  }

  /** `None` when the call throws or nothing is open. */
  function Step(st: State, c: Call): Option<State> {
    if st.open == [] then None else
    var w, below := Last(st.open), Init(st.open);
    if c.Finish? then Some(State(Released(below), st.text + CloseText(w)))
    else
      var e := Effect(w, c);
      if e.None? then None
      else if Opens(c) then
        Some(State(below + [e.value.0.(openChildren := e.value.0.openChildren + 1), NewWriter(c.AddArray?)],
                   st.text + e.value.1 + OpenText(c.AddArray?)))
      else Some(State(below + [e.value.0], st.text + e.value.1))
  }

  function Run(calls: seq<Call>): Option<State> {
    if calls == [] then Some(INITIAL)
    else
      var st := Run(Init(calls));
      if st.None? then None else Step(st.value, Last(calls))
  }

  /** The text printed by a sequence that throws nowhere and closes everything it opened. */
  function Printed(calls: seq<Call>): Option<string> {
    var st := Run(calls);
    if st.Some? && st.value.open == [] then Some(st.value.text) else None
  }

  /** Every open writer but the innermost has exactly one open child. */
  predicate Nested(open: seq<Writer>) {
    forall i :: 0 <= i < |open| ==> open[i].openChildren == if i == |open| - 1 then 0 else 1
  }

  lemma {:induction false} RunNested(calls: seq<Call>)
    ensures Run(calls).Some? ==> Nested(Run(calls).value.open)
  {
    hide Step, Nested;
    if calls == [] {
      InitiallyNested();
    } else {
      RunNested(Init(calls));
      if Run(calls).Some? {
        StepNested(Run(Init(calls)).value, Last(calls));
      }
    }
  }

  lemma InitiallyNested()
    ensures Nested(INITIAL.open)
  {
  }

  lemma EffectKeepsChildren(w: Writer, c: Call)
    requires !c.Finish? && Effect(w, c).Some?
    ensures Effect(w, c).value.0.openChildren == w.openChildren == 0
  {
  }

  lemma StepNested(st: State, c: Call)
    requires Nested(st.open) && Step(st, c).Some?
    ensures Nested(Step(st, c).value.open)
  {
    hide Effect, CloseText, OpenText;
    if !c.Finish? {
      EffectKeepsChildren(Last(st.open), c);
    }
  }

  /* ---- the calls made on real objects ---- */

  ghost predicate Mirrors(open: seq<JsonObject>, sink: Sink, st: State)
    reads sink, open
  {
    && |open| == |st.open| && sink.text == st.text
    && (forall i :: 0 <= i < |open| ==>
          open[i].out == sink && open[i].View() == st.open[i])
    && (forall i {:trigger open[i].parent} :: 0 <= i < |open| ==>
          open[i].parent == if i == 0 then null else open[i - 1])
    && (forall i, j :: 0 <= i < j < |open| ==> open[i] != open[j])
  }

  /** Destroys the innermost object. */
  method Retire(open: seq<JsonObject>, sink: Sink, ghost st: State) returns (open': seq<JsonObject>)
    requires Mirrors(open, sink, st) && Nested(st.open) && open != []
    modifies sink, open
    ensures Mirrors(open', sink, State(Released(Init(st.open)), st.text + CloseText(Last(st.open))))
    ensures forall o :: o in open' ==> o in open
  {
    hide Effect, Step;
    var n := |open| - 1;
    var top := open[n];
    assert top.View() == st.open[n] && open[n].parent == if n == 0 then null else open[n - 1];
    open' := open[..n];
    if n == 0 {
      top.Close();
    } else {
      var below := open[n - 1];
      assert below.View() == st.open[n - 1];
      top.Close();
      assert forall i :: 0 <= i < n - 1 ==> open[i].View() == st.open[i];
      assert below.View() == Released(st.open[..n])[n - 1];
    }
  }

  /** Makes one call; the objects follow the state machine. */
  method Perform(open: seq<JsonObject>, sink: Sink, c: Call, ghost st: State)
    returns (ok: bool, open': seq<JsonObject>)
    requires Mirrors(open, sink, st) && Nested(st.open)
    modifies sink, open
    ensures ok <==> Step(st, c).Some?
    ensures ok ==> Mirrors(open', sink, Step(st, c).value)
    ensures ok ==> forall o :: o in open' ==> o in open || fresh(o)
  {
    hide Effect, Released, Opens;
    open' := open;
    if open == [] {
      return false, open;
    }
    var top := Last(open);
    assert top.View() == Last(st.open);
    if c.Finish? {
      open' := Retire(open, sink, st);
      return true, open';
    }
    ok := Add(top, c);
    if ok {
      ghost var e := Effect(Last(st.open), c).value;
      ghost var st' := State(Init(st.open) + [e.0], st.text + e.1);
      assert Mirrors(open, sink, st');
      if Opens(c) {
        open' := OpenChild(open, sink, c.AddArray?, st');
        assert Init(st'.open) == Init(st.open) && Last(st'.open) == e.0;
      }
    }
  }

  /** Consumes a delegate: the innermost object gets an open child. */
  method OpenChild(open: seq<JsonObject>, sink: Sink, asArray: bool, ghost st: State) returns (open': seq<JsonObject>)
    requires Mirrors(open, sink, st) && open != []
    modifies sink, Last(open)
    ensures var w := Last(st.open);
            Mirrors(open', sink, State(Init(st.open) + [w.(openChildren := w.openChildren + 1), NewWriter(asArray)],
                                       st.text + OpenText(asArray)))
    ensures forall o :: o in open' ==> o in open || fresh(o)
  {
    hide NewWriter, OpenText;
    var n := |open| - 1;
    var top := open[n];
    assert top.View() == st.open[n];
    var child := new JsonObject.Child(top, asArray);
    open' := open + [child];
    assert forall i :: 0 <= i < n ==> open[i] != top && open[i].View() == st.open[i];
  }

  /** The appending part of a call. */
  method Add(top: JsonObject, c: Call) returns (ok: bool)
    requires !c.Finish?
    modifies top, top.out
    ensures top.Applied(Effect(old(top.View()), c), ok)
  {
    match c {
      case AddBoolean(name, flag) => ok := top.AddNamed(name, BoolText(flag));
      case AddString(name, value) => ok := top.AddNamed(name, Quoted(value));
      case AddNumber(name, digits) => ok := top.AddNamed(name, digits);
      case AddObject(name) => ok := top.AddNamed(name, "");
      case AddArray(name) => ok := top.AddNamed(name, "");
      case PushString(value) => ok := top.AddElement(StringArray, Quoted(value));
      case PushNumber(digits) => ok := top.AddElement(NumberArray, digits);
      case PushObject => ok := top.AddElement(ObjectArray, "");
    }
  }

  /** Runs a whole sequence of calls on the printer objects. */
  method Play(calls: seq<Call>) returns (text: Option<string>)
    ensures text == Printed(calls)
  {
    var sink := new Sink();
    var root := new JsonObject.Root(sink);
    var open := [root];
    var i := 0;
    assert calls[..0] == [];
    while i < |calls|
      invariant 0 <= i <= |calls| && fresh(sink) && (forall o :: o in open ==> fresh(o))
      invariant Run(calls[..i]).Some? && Mirrors(open, sink, Run(calls[..i]).value)
    {
      RunNested(calls[..i]);
      assert Init(calls[..i + 1]) == calls[..i];
      var ok;
      ok, open := Perform(open, sink, calls[i], Run(calls[..i]).value);
      if !ok {
        StaysThrown(calls, i + 1);
        return None;
      }
      i := i + 1;
    }
    assert calls[..i] == calls;
    text := if open == [] then Some(sink.text) else None;
  }

  lemma {:induction false} StaysThrown(calls: seq<Call>, i: nat)
    requires i <= |calls| && Run(calls[..i]).None?
    ensures Run(calls).None?
    decreases |calls|
  {
    if i == |calls| {
      assert calls[..i] == calls;
    } else {
      assert Init(calls)[..i] == calls[..i];
      StaysThrown(Init(calls), i);
    }
  }
}
