/** The parser proper: a loop over an explicit stack of frames, with recursive skips of unwanted
    values. It is proved to do what the recursive-descent grammar says. */
module JsonParser {
  import opened Common
  import opened JsonScan
  import opened JsonTokens
  import opened JsonIndex
  import opened JsonGrammar
  import opened JsonCursor

  datatype FrameKind = ObjectFrame | ArrayFrame

  datatype FrameState = ValueOrEnd | DelimiterOrEnd

  datatype Frame = Frame(kind: FrameKind, state: FrameState, node: Processor)

  /* ---- what a stack of frames still has to read ---- */

  ghost function Rest(s: string, strict: bool, f: Frame, p: nat): (o: Outcome)
    requires p <= |s|
    ensures o.Done? ==> p < o.pos <= |s|
  {
    match (f.kind, f.state)
    case (ObjectFrame, ValueOrEnd) => Members(s, strict, f.node, p)
    case (ObjectFrame, DelimiterOrEnd) => AfterMember(s, strict, f.node, p)
    case (ArrayFrame, ValueOrEnd) => Elements(s, strict, f.node, p)
    case (ArrayFrame, DelimiterOrEnd) => AfterElement(s, strict, f.node, p)
  }

  /** The meaning of the stack at a position: finish the top frame, then the ones below. */
  ghost function Resume(s: string, strict: bool, frames: seq<Frame>, p: nat): Outcome
    requires p <= |s|
    decreases |frames|, 0
  {
    if frames == [] then Done([], p)
    else ResumeAfter(s, strict, Below(frames), Rest(s, strict, Top(frames), p))
  }

  ghost function ResumeAfter(s: string, strict: bool, frames: seq<Frame>, o: Outcome): Outcome
    requires o.Done? ==> o.pos <= |s|
    decreases |frames|, 1
  {
    if o.Failed? then o else Prepend(o.events, Resume(s, strict, frames, o.pos))
  }

  function Top(frames: seq<Frame>): Frame
    requires frames != []
  {
    frames[|frames| - 1]
  }

  function Below(frames: seq<Frame>): (r: seq<Frame>)
    requires frames != []
    ensures |r| == |frames| - 1
  {
    frames[..|frames| - 1]
  }

  lemma PrependTwice(a: seq<Event>, b: seq<Event>, o: Outcome)
    ensures Prepend(a, Prepend(b, o)) == Prepend(a + b, o)
  {
    assert a + (b + o.events) == a + b + o.events;
  }

  lemma PrependNothing(o: Outcome)
    ensures Prepend([], o) == o
  {
    assert [] + o.events == o.events;
  }

  lemma ResumeAfterPrepend(s: string, strict: bool, frames: seq<Frame>, ev: seq<Event>, o: Outcome)
    requires o.Done? ==> o.pos <= |s|
    ensures ResumeAfter(s, strict, frames, Prepend(ev, o)) == Prepend(ev, ResumeAfter(s, strict, frames, o))
  {
    if o.Done? {
      PrependTwice(ev, o.events, Resume(s, strict, frames, o.pos));
    }
  }

  /** Popping: a finished top frame leaves the frames below. */
  lemma ResumePop(s: string, strict: bool, frames: seq<Frame>, p: nat, q: nat)
    requires frames != [] && p <= |s| && q <= |s|
    requires Rest(s, strict, Top(frames), p) == Done([], q)
    ensures Resume(s, strict, frames, p) == Resume(s, strict, Below(frames), q)
  {
    PrependNothing(Resume(s, strict, Below(frames), q));
  }

  /** Pushing: parsing a container is a pushed frame on top of the same stack. */
  lemma ResumePush(s: string, strict: bool, frames: seq<Frame>, f: Frame, p: nat)
    requires p <= |s|
    ensures Resume(s, strict, frames + [f], p) == ResumeAfter(s, strict, frames, Rest(s, strict, f, p))
  {
    assert Top(frames + [f]) == f && Below(frames + [f]) == frames;
  }

  function Delimited(f: Frame): Frame { f.(state := DelimiterOrEnd) }

  /** After a value has been read, the frame that holds it waits for a delimiter. */
  lemma ResumeValue(s: string, strict: bool, frames: seq<Frame>, p: nat, v: Outcome)
    requires frames != [] && p <= |s| && (v.Done? ==> v.pos <= |s|)
    requires Rest(s, strict, Top(frames), p) ==
             if v.Failed? then v else Prepend(v.events, Rest(s, strict, Delimited(Top(frames)), v.pos))
    ensures Resume(s, strict, frames, p) == ResumeAfter(s, strict, Below(frames) + [Delimited(Top(frames))], v)
  {
    if v.Done? {
      ResumePush(s, strict, Below(frames), Delimited(Top(frames)), v.pos);
      ResumeAfterPrepend(s, strict, Below(frames), v.events, Rest(s, strict, Delimited(Top(frames)), v.pos));
    }
  }

  /** `whole` is explained by the events delivered so far and either the error raised now or what the
      frames still read. */
  ghost predicate Explains(s: string, strict: bool, whole: Outcome, delivered: seq<Event>,
                           err: Option<Err>, frames: seq<Frame>, pos: nat)
    requires pos <= |s|
  {
    match err
    case Some(why) => whole == Failed(delivered, why, pos)
    case None => whole == Prepend(delivered, Resume(s, strict, frames, pos))
  }

  class Parser {
    const cursor: Cursor
    const strict: bool
    const root: Processor
    var events: seq<Event>

    constructor (text: string, level: Level, strict: bool, root: Processor)
      ensures fresh(cursor) && cursor.Valid() && cursor.pos == 0 && cursor.text == text
      ensures this.strict == strict && this.root == root && events == []
    {
      cursor := new Cursor(text, level);
      this.strict, this.root, events := strict, root, [];
    }

    /* ---- skipping ---- */

    method SkipObject() returns (err: Option<Err>)
      requires cursor.Valid() && cursor.pos < |cursor.text| && cursor.text[cursor.pos] == '{'
      modifies cursor
      ensures cursor.Valid()
      ensures Follows(if strict then JsonTokens.SkipObject(cursor.text, old(cursor.pos) + 1)
                      else RoughCompoundEnd(cursor.text, old(cursor.pos) + 1, Depths(1, 0), EndOfObject),
                      err, cursor.pos)
      decreases |cursor.text| - cursor.pos, 0
    {
      if !strict {
        err := cursor.SkipCompoundRough('{', EndOfObject);
        return;
      }
      hide SkipMembers;
      var s := cursor.text;
      cursor.pos := cursor.pos + 1;
      if cursor.pos != |s| && s[cursor.pos] == '}' {
        cursor.pos := cursor.pos + 1;
        return None;
      }
      ghost var target := SkipMembers(s, cursor.pos);
      var done := false;
      while !done
        invariant cursor.Valid() && old(cursor.pos) < cursor.pos
        invariant target == if done then At(cursor.pos) else SkipMembers(s, cursor.pos)
        decreases |s| - cursor.pos
      {
        err, done := SkipMember();
        if err.Some? {
          return;
        }
      }
      err := None;
    }

    /** One turn of the strict object skip. */
    method SkipMember() returns (err: Option<Err>, done: bool)
      requires strict && cursor.Valid()
      modifies cursor
      ensures cursor.Valid() && (err.None? ==> old(cursor.pos) < cursor.pos)
      ensures SkipMembers(cursor.text, old(cursor.pos)) ==
              match err
              case Some(why) => Stop(why, cursor.pos)
              case None => if done then At(cursor.pos) else SkipMembers(cursor.text, cursor.pos)
      decreases |cursor.text| - cursor.pos, 2
    {
      hide StringEnd, Scan, JsonTokens.SkipValue;
      var s := cursor.text;
      done := false;
      cursor.SkipSpaces();
      if cursor.pos == |s| || s[cursor.pos] != '"' {
        return Some(KeyExpected), done;
      }
      err := cursor.SkipString();
      if err.Some? {
        return;
      }
      cursor.SkipSpaces();
      err := cursor.Expect(':');
      if err.Some? {
        return;
      }
      err := SkipValue();
      if err.Some? {
        return;
      }
      cursor.SkipSpaces();
      if cursor.pos == |s| {
        return Some(EndOfObject), done;
      }
      var delimiter := s[cursor.pos];
      cursor.pos := cursor.pos + 1;
      if delimiter != '}' && delimiter != ',' {
        return Some(ObjectDelimiter), done;
      }
      done := delimiter == '}';
    }

    method SkipArray() returns (err: Option<Err>)
      requires cursor.Valid() && cursor.pos < |cursor.text| && cursor.text[cursor.pos] == '['
      modifies cursor
      ensures cursor.Valid()
      ensures Follows(if strict then JsonTokens.SkipArray(cursor.text, old(cursor.pos) + 1)
                      else RoughCompoundEnd(cursor.text, old(cursor.pos) + 1, Depths(0, 1), EndOfArray),
                      err, cursor.pos)
      decreases |cursor.text| - cursor.pos, 0
    {
      if !strict {
        err := cursor.SkipCompoundRough('[', EndOfArray);
        return;
      }
      hide SkipElements;
      var s := cursor.text;
      cursor.pos := cursor.pos + 1;
      if cursor.pos != |s| && s[cursor.pos] == ']' {
        cursor.pos := cursor.pos + 1;
        return None;
      }
      ghost var target := SkipElements(s, cursor.pos);
      var done := false;
      while !done
        invariant cursor.Valid() && old(cursor.pos) < cursor.pos
        invariant target == if done then At(cursor.pos) else SkipElements(s, cursor.pos)
        decreases |s| - cursor.pos
      {
        err, done := SkipElement();
        if err.Some? {
          return;
        }
      }
      err := None;
    }

    /** One turn of the strict array skip. */
    method SkipElement() returns (err: Option<Err>, done: bool)
      requires strict && cursor.Valid()
      modifies cursor
      ensures cursor.Valid() && (err.None? ==> old(cursor.pos) < cursor.pos)
      ensures SkipElements(cursor.text, old(cursor.pos)) ==
              match err
              case Some(why) => Stop(why, cursor.pos)
              case None => if done then At(cursor.pos) else SkipElements(cursor.text, cursor.pos)
      decreases |cursor.text| - cursor.pos, 2
    {
      hide Scan, JsonTokens.SkipValue;
      var s := cursor.text;
      done := false;
      cursor.SkipSpaces();
      err := SkipValue();
      if err.Some? {
        return;
      }
      cursor.SkipSpaces();
      if cursor.pos == |s| {
        return Some(EndOfArray), done;
      }
      var delimiter := s[cursor.pos];
      cursor.pos := cursor.pos + 1;
      if delimiter != ']' && delimiter != ',' {
        return Some(ArrayDelimiter), done;
      }
      done := delimiter == ']';
    }

    method SkipScalar() returns (err: Option<Err>)
      requires cursor.Valid() && cursor.pos < |cursor.text|
      modifies cursor
      ensures cursor.Valid() && Follows(JsonTokens.SkipScalar(cursor.text, old(cursor.pos)), err, cursor.pos)
    {
      var c := cursor.text[cursor.pos];
      if StartsNumber(c) {
        var isFloat;
        err, isFloat := cursor.ParseNumber();
      } else if c == 't' {
        err := cursor.ConsumeLiteral("true");
      } else if c == 'f' {
        err := cursor.ConsumeLiteral("false");
      } else if c == 'n' {
        err := cursor.ConsumeLiteral("null");
      } else {
        err := Some(UnexpectedCharacter);
      }
    }

    method SkipValue() returns (err: Option<Err>)
      requires cursor.Valid()
      modifies cursor
      ensures cursor.Valid() && Follows(JsonTokens.SkipValue(cursor.text, strict, old(cursor.pos)), err, cursor.pos)
      decreases |cursor.text| - cursor.pos, 1
    {
      hide Scan, RoughStringEnd, StringEnd, RoughCompoundEnd, JsonTokens.SkipScalar,
        JsonTokens.SkipObject, JsonTokens.SkipArray;
      cursor.SkipSpaces();
      if cursor.pos == |cursor.text| {
        return Some(EndOfJson);
      }
      var c := cursor.text[cursor.pos];
      if c == '{' {
        err := SkipObject();
      } else if c == '[' {
        err := SkipArray();
      } else if c == '"' {
        if strict {
          err := cursor.SkipString();
        } else {
          err := cursor.SkipStringRough();
        }
      } else if !strict {
        cursor.SkipUnquotedValueRough();
        err := None;
      } else {
        err := SkipScalar();
      }
    }

    /* ---- parsing ---- */

    method Deliver(node: Processor, e: Event)
      modifies this
      ensures events == old(events) + Started(node, e)
    {
      if node.handled {
        events := events + [e];
      } else {
        assert events == events + [];
      }
    }

    /** The scalar cases of a parsed value. */
    method ParseScalar(node: Processor) returns (err: Option<Err>)
      requires cursor.Valid() && cursor.pos < |cursor.text|
      modifies this, cursor
      ensures cursor.Valid()
      ensures match ScalarValue(cursor.text, node, old(cursor.pos))
              case Done(ev, q) => err.None? && cursor.pos == q && events == old(events) + ev
              case Failed(ev, why, at) => err == Some(why) && cursor.pos == at && events == old(events) && ev == []
    {
      hide JsonTokens.ParseString, StringEnd, JsonTokens.Number, Literal;
      var s, q := cursor.text, cursor.pos;
      var c := s[q];
      if c == '"' {
        if node.handled {
          var token;
          err, token := cursor.ParseString();
          if err.None? {
            events := events + [Text(node.path, token.text)];
          }
        } else {
          err := cursor.SkipString();
          assert events == events + [];
        }
      } else if StartsNumber(c) {
        var isFloat;
        err, isFloat := cursor.ParseNumber();
        if err.None? {
          var digits := s[q..cursor.pos];
          Deliver(node, if node.asString then Text(node.path, digits) else Event.Number(node.path, digits, isFloat));
        }
      } else if c == 't' {
        err := cursor.ConsumeLiteral("true");
        if err.None? {
          Deliver(node, if node.asString then Text(node.path, "true") else Bool(node.path, true));
        }
      } else if c == 'f' {
        err := cursor.ConsumeLiteral("false");
        if err.None? {
          Deliver(node, if node.asString then Text(node.path, "false") else Bool(node.path, false));
        }
      } else if c == 'n' {
        err := cursor.ConsumeLiteral("null");
        if err.None? {
          Deliver(node, if node.asString then Text(node.path, "null") else Null(node.path));
        }
      } else {
        err := Some(UnexpectedCharacter);
      }
    }

    /** Reads a scalar, or the opening bracket of a container, for which it pushes a frame. */
    method ParseValueIterative(node: Processor, frames: seq<Frame>)
      returns (err: Option<Err>, frames': seq<Frame>, ghost delivered: seq<Event>)
      requires cursor.Valid()
      modifies this, cursor
      ensures cursor.Valid() && events == old(events) + delivered
      ensures err.None? ==> old(cursor.pos) < cursor.pos
      ensures Explains(cursor.text, strict, ResumeAfter(cursor.text, strict, frames,
                       Value(cursor.text, strict, node, old(cursor.pos))), delivered, err, frames', cursor.pos)
    {
      hide Scan, ScalarValue, Members, Elements, AfterMember, AfterElement, Resume;
      var s := cursor.text;
      frames', delivered := frames, [];
      ghost var begin := cursor.pos;
      cursor.SkipSpaces();
      if cursor.pos == |s| {
        return Some(EndOfJson), frames, [];
      }
      var c := s[cursor.pos];
      if c == '{' {
        cursor.pos := cursor.pos + 1;
        delivered := Started(node, ObjectStarted(node.path));
        Deliver(node, ObjectStarted(node.path));
        frames' := frames + [Frame(ObjectFrame, ValueOrEnd, node)];
        ResumePush(s, strict, frames, Top(frames'), cursor.pos);
        ResumeAfterPrepend(s, strict, frames, delivered, Members(s, strict, node, cursor.pos));
        err := None;
      } else if c == '[' {
        cursor.pos := cursor.pos + 1;
        delivered := Started(node, ArrayStarted(node.path));
        Deliver(node, ArrayStarted(node.path));
        frames' := frames + [Frame(ArrayFrame, ValueOrEnd, node)];
        ResumePush(s, strict, frames, Top(frames'), cursor.pos);
        ResumeAfterPrepend(s, strict, frames, delivered, Elements(s, strict, node, cursor.pos));
        err := None;
      } else {
        ghost var o := ScalarValue(s, node, cursor.pos);
        err := ParseScalar(node);
        delivered := o.events;
        if err.Some? {
          assert events == old(events) + [];
        }
      }
    }

    /** Looks a member name up in the node's two indexes. */
    method FindChild(node: Processor, key: StringToken) returns (child: Option<Processor>)
      ensures child == FindSub(node.children, key.text, key.escaped)
    {
      var index := new SubProcessors(node.children);
      child := index.FindSubProcessor(key.text, key.escaped, node.children);
    }

    /** One turn of the parser loop in an object frame that expects a member. */
    method ParseMember(frames: seq<Frame>)
      returns (err: Option<Err>, frames': seq<Frame>, ghost delivered: seq<Event>)
      requires cursor.Valid() && cursor.pos < |cursor.text| && cursor.text[cursor.pos] == '"'
      requires frames != [] && Top(frames).kind == ObjectFrame && Top(frames).state == ValueOrEnd
      modifies this, cursor
      ensures cursor.Valid() && events == old(events) + delivered
      ensures err.None? ==> old(cursor.pos) < cursor.pos
      ensures Explains(cursor.text, strict, Resume(cursor.text, strict, frames, old(cursor.pos)),
                       delivered, err, frames', cursor.pos)
    {
      hide Scan, JsonTokens.ParseString, FindSub, AfterMember, Value, JsonTokens.SkipValue, Resume;
      var s, frame := cursor.text, Top(frames);
      frames', delivered := frames, [];
      ghost var begin := cursor.pos;
      SkipSpacesTwice(s, begin);
      var key;
      err, key := cursor.ParseString();
      if err.Some? {
        FailsNow(s, strict, frames, begin, err.value, cursor.pos);
        return;
      }
      cursor.SkipSpaces();
      if cursor.pos == |s| || s[cursor.pos] != ':' {
        FailsNow(s, strict, frames, begin, ColonExpected, cursor.pos);
        return Some(ColonExpected), frames, [];
      }
      cursor.pos := cursor.pos + 1;
      cursor.SkipSpaces();
      ghost var v := MemberValue(s, strict, frame.node, key, cursor.pos);
      ResumeValue(s, strict, frames, begin, v);
      var child := FindChild(frame.node, key);
      frames' := Below(frames) + [Delimited(frame)];
      if child.Some? {
        err, frames', delivered := ParseValueIterative(child.value, frames');
      } else {
        err := SkipValue();
        assert events == old(events) + [];
      }
    }

    /** The grammar fails here before any event. */
    lemma FailsNow(s: string, strict: bool, frames: seq<Frame>, p: nat, why: Err, at: nat)
      requires frames != [] && p <= |s| && at <= |s|
      requires Rest(s, strict, Top(frames), p) == Failed([], why, at)
      ensures Resume(s, strict, frames, p) == Failed([], why, at)
    {
    }

    /** One turn of the parser loop in a frame that expects a delimiter. */
    method ParseDelimiter(frames: seq<Frame>) returns (err: Option<Err>, frames': seq<Frame>)
      requires cursor.Valid() && cursor.pos < |cursor.text| && !IsSpace(cursor.text[cursor.pos])
      requires frames != [] && Top(frames).state == DelimiterOrEnd
      modifies cursor
      ensures cursor.Valid() && old(cursor.pos) < cursor.pos
      ensures Explains(cursor.text, strict, Resume(cursor.text, strict, frames, old(cursor.pos)),
                       [], err, frames', cursor.pos)
    {
      hide Members, Elements, Resume;
      var s, frame := cursor.text, Top(frames);
      ghost var begin := cursor.pos;
      var close := if frame.kind == ObjectFrame then '}' else ']';
      var delimiter := s[cursor.pos];
      cursor.pos := cursor.pos + 1;
      frames' := frames;
      if delimiter == close {
        ResumePop(s, strict, frames, begin, cursor.pos);
        frames' := Below(frames);
      } else if delimiter != ',' {
        err := Some(if frame.kind == ObjectFrame then ObjectDelimiter else ArrayDelimiter);
        FailsNow(s, strict, frames, begin, err.value, cursor.pos);
        return;
      } else {
        frames' := Below(frames) + [frame.(state := ValueOrEnd)];
        ResumePush(s, strict, Below(frames), frame.(state := ValueOrEnd), cursor.pos);
        ResumePush(s, strict, Below(frames), frame, begin);
        assert frames == Below(frames) + [frame];
      }
      err := None;
      PrependNothing(Resume(s, strict, frames', cursor.pos));
    }

    /** The parser loop. Every turn consumes input or fails. */
    method ParseIterative() returns (err: Option<Err>)
      requires cursor.Valid() && cursor.pos < |cursor.text|
      modifies this, cursor
      ensures cursor.Valid()
      ensures match Members(cursor.text, strict, root, old(cursor.pos) + 1)
              case Done(ev, q) => err.None? && cursor.pos == q && events == old(events) + ev
              case Failed(ev, why, at) => err == Some(why) && cursor.pos == at && events == old(events) + ev
    {
      hide Members, AfterMember, Elements, AfterElement, Value, Scan;
      var s := cursor.text;
      cursor.pos := cursor.pos + 1;
      var frames := [Frame(ObjectFrame, ValueOrEnd, root)];
      ghost var whole := Members(s, strict, root, cursor.pos);
      ghost var delivered: seq<Event> := [];
      StartStack(s, strict, root, cursor.pos);
      while frames != []
        invariant cursor.Valid() && events == old(events) + delivered
        invariant whole == Prepend(delivered, Resume(s, strict, frames, cursor.pos))
        decreases |s| - cursor.pos, |frames|
      {
        ghost var begin := cursor.pos;
        ghost var more: seq<Event> := [];
        ghost var before := frames;
        cursor.SkipSpaces();
        ResumeSpaces(s, strict, frames, begin);
        SkipSpacesTwice(s, begin);
        err, frames, more := Turn(frames);
        Chain(s, strict, whole, delivered, before, begin, more, err, frames, cursor.pos);
        delivered := delivered + more;
        if err.Some? {
          return;
        }
      }
      err := None;
      assert delivered + [] == delivered;
    }

    /** Frames on top of nothing: one object frame reads the members of the top-level object. */
    lemma StartStack(s: string, strict: bool, root: Processor, p: nat)
      requires p <= |s|
      ensures Members(s, strict, root, p)
           == Prepend([], Resume(s, strict, [Frame(ObjectFrame, ValueOrEnd, root)], p))
    {
      hide Members;
      var o := Members(s, strict, root, p);
      var frames := [Frame(ObjectFrame, ValueOrEnd, root)];
      assert Below(frames) == [];
      assert o.events + [] == o.events;
      PrependNothing(o);
    }

    /** Leading white space does not matter to any frame. */
    lemma ResumeSpaces(s: string, strict: bool, frames: seq<Frame>, p: nat)
      requires frames != [] && p <= |s|
      ensures Resume(s, strict, frames, p) == Resume(s, strict, frames, SkipSpaces(s, p))
    {
      var q := SkipSpaces(s, p);
      assert SkipSpaces(s, q) == q;
      RestSpaces(s, strict, Top(frames), p);
    }

    lemma RestSpaces(s: string, strict: bool, f: Frame, p: nat)
      requires p <= |s|
      ensures Rest(s, strict, f, p) == Rest(s, strict, f, SkipSpaces(s, p))
    {
      assert SkipSpaces(s, SkipSpaces(s, p)) == SkipSpaces(s, p);
    }

    lemma Chain(s: string, strict: bool, whole: Outcome, delivered: seq<Event>, before: seq<Frame>, begin: nat,
                more: seq<Event>, err: Option<Err>, frames: seq<Frame>, pos: nat)
      requires begin <= |s| && pos <= |s|
      requires whole == Prepend(delivered, Resume(s, strict, before, begin))
      requires Explains(s, strict, Resume(s, strict, before, begin), more, err, frames, pos)
      ensures Explains(s, strict, whole, delivered + more, err, frames, pos)
    {
      if err.None? {
        PrependTwice(delivered, more, Resume(s, strict, frames, pos));
      }
    }

    /** One turn of the loop: the cursor is past white space. */
    method Turn(frames: seq<Frame>) returns (err: Option<Err>, frames': seq<Frame>, ghost delivered: seq<Event>)
      requires cursor.Valid() && cursor.pos == SkipSpaces(cursor.text, cursor.pos) && frames != []
      modifies this, cursor
      ensures cursor.Valid() && events == old(events) + delivered
      ensures err.None? ==> old(cursor.pos) < cursor.pos
      ensures Explains(cursor.text, strict, Resume(cursor.text, strict, frames, old(cursor.pos)),
                       delivered, err, frames', cursor.pos)
    {
      hide Scan, Value, Resume, MemberValue, JsonTokens.ParseString;
      var s, frame := cursor.text, Top(frames);
      frames', delivered := frames, [];
      ghost var begin := cursor.pos;
      assert events == old(events) + [];
      if cursor.pos == |s| {
        err := Some(if frame.kind == ObjectFrame then EndOfObject else EndOfArray);
        FailsNow(s, strict, frames, begin, err.value, cursor.pos);
        return;
      }
      if frame.state == DelimiterOrEnd {
        err, frames' := ParseDelimiter(frames);
        return;
      }
      if frame.kind == ObjectFrame && s[cursor.pos] != '}' && s[cursor.pos] != '"' {
        FailsNow(s, strict, frames, begin, KeyExpected, cursor.pos);
        return Some(KeyExpected), frames, [];
      }
      if s[cursor.pos] == (if frame.kind == ObjectFrame then '}' else ']') {
        cursor.pos := cursor.pos + 1;
        ResumePop(s, strict, frames, begin, cursor.pos);
        PrependNothing(Resume(s, strict, Below(frames), cursor.pos));
        return None, Below(frames), [];
      }
      if frame.kind == ObjectFrame {
        err, frames', delivered := ParseMember(frames);
      } else {
        ResumeValue(s, strict, frames, begin, Value(s, strict, frame.node, begin));
        err, frames', delivered := ParseValueIterative(frame.node, Below(frames) + [Delimited(frame)]);
      }
    }

    /** The whole text, in the chosen mode and at the chosen level. */
    method Parse() returns (err: Option<Err>)
      requires cursor.Valid() && cursor.pos == 0 && events == []
      modifies this, cursor
      ensures match Document(cursor.text, strict, root)
              case Done(ev, q) => err.None? && cursor.pos == q && events == ev
              case Failed(ev, why, at) => err == Some(why) && cursor.pos == at && events == ev
    {
      hide Members, Scan;
      cursor.SkipSpaces();
      if cursor.pos == |cursor.text| || cursor.text[cursor.pos] != '{' {
        return Some(TopLevelObject);
      }
      err := ParseIterative();
      if err.Some? {
        return;
      }
      cursor.SkipSpaces();
      if cursor.pos != |cursor.text| {
        return Some(TrailingCharacter);
      }
    }
  }

  /** Parsing a text gives what the grammar says, whichever finder level is chosen. */
  method ParseText(text: string, level: Level, strict: bool, root: Processor) returns (outcome: Outcome)
    ensures outcome == Document(text, strict, root)
  {
    hide Document;
    var parser := new Parser(text, level, strict, root);
    var err := parser.Parse();
    outcome := if err.Some? then Failed(parser.events, err.value, parser.cursor.pos)
               else Done(parser.events, parser.cursor.pos);
  }
}
