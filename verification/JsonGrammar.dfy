/** The grammar the JSON parser accepts, as a recursive-descent parser that also says which events
    reach the value processors. Containers may end with a comma before the closing bracket. */
module JsonGrammar {
  import opened Common
  import opened JsonScan
  import opened JsonTokens
  import opened JsonIndex

  datatype Event =
    | ObjectStarted(path: string)
    | ArrayStarted(path: string)
    | Text(path: string, value: string)
    | Number(path: string, digits: string, isFloat: bool)
    | Bool(path: string, flag: bool)
    | Null(path: string)

  /** Events delivered, then either the position reached or the error raised. */
  datatype Outcome =
    | Done(events: seq<Event>, pos: nat)
    | Failed(events: seq<Event>, why: Err, at: nat)

  function Prepend(ev: seq<Event>, o: Outcome): Outcome {
    match o
    case Done(events, pos) => Done(ev + events, pos)
    case Failed(events, why, at) => Failed(ev + events, why, at)
  }

  function Silent(r: Skip): Outcome {
    if r.At? then Done([], r.pos) else Failed([], r.why, r.at)
  }

  function Say(node: Processor, r: Skip, e: Event): Outcome {
    if r.Stop? then Failed([], r.why, r.at) else Done(if node.handled then [e] else [], r.pos)
  }

  /** A value that is not a container, at a position that holds its first byte. */
  function ScalarValue(s: string, node: Processor, q: nat): (o: Outcome)
    requires q < |s|
    ensures o.Done? ==> q < o.pos <= |s|
  {
    var c := s[q];
    if c == '"' then
      if node.handled then
        var t := ParseString(s, q + 1);
        if t.Bad? then Failed([], t.why, t.at) else Done([Text(node.path, t.value.text)], t.pos)
      else Silent(StringEnd(s, q + 1))
    else if StartsNumber(c) then
      var n := JsonTokens.Number(s, q);
      if n.Bad? then Failed([], n.why, n.at) else
      var digits := s[q..n.pos];
      Say(node, At(n.pos),
          if node.asString then Text(node.path, digits) else Event.Number(node.path, digits, n.value))
    else if c == 't' then
      Say(node, Literal(s, q, "true"), if node.asString then Text(node.path, "true") else Bool(node.path, true))
    else if c == 'f' then
      Say(node, Literal(s, q, "false"), if node.asString then Text(node.path, "false") else Bool(node.path, false))
    else if c == 'n' then
      Say(node, Literal(s, q, "null"), if node.asString then Text(node.path, "null") else Null(node.path))
    else Failed([], UnexpectedCharacter, q)
  }

  function Started(node: Processor, e: Event): seq<Event> {
    if node.handled then [e] else []
  }

  function Value(s: string, strict: bool, node: Processor, p: nat): (o: Outcome)
    requires p <= |s|
    ensures o.Done? ==> p < o.pos <= |s|
    decreases |s| - p, 0
  {
    var q := SkipSpaces(s, p);
    if q == |s| then Failed([], EndOfJson, q)
    else if s[q] == '{' then
      Prepend(Started(node, ObjectStarted(node.path)), Members(s, strict, node, q + 1))
    else if s[q] == '[' then
      Prepend(Started(node, ArrayStarted(node.path)), Elements(s, strict, node, q + 1))
    else ScalarValue(s, node, q)
  }

  /** After '{' or ',': a member or the closing brace. */
  function Members(s: string, strict: bool, node: Processor, p: nat): (o: Outcome)
    requires p <= |s|
    ensures o.Done? ==> p < o.pos <= |s|
    decreases |s| - p, 1
  {
    var q := SkipSpaces(s, p);
    if q == |s| then Failed([], EndOfObject, q)
    else if s[q] == '}' then Done([], q + 1)
    else if s[q] != '"' then Failed([], KeyExpected, q)
    else
      var key := ParseString(s, q + 1);
      if key.Bad? then Failed([], key.why, key.at) else
      var colon := SkipSpaces(s, key.pos);
      if colon == |s| || s[colon] != ':' then Failed([], ColonExpected, colon) else
      var v := MemberValue(s, strict, node, key.value, SkipSpaces(s, colon + 1));
      if v.Failed? then v else Prepend(v.events, AfterMember(s, strict, node, v.pos))
  }

  /** The value of one member: parsed when a processor is registered below this name, skipped otherwise. */
  function MemberValue(s: string, strict: bool, node: Processor, key: StringToken, p: nat): (o: Outcome)
    requires p <= |s|
    ensures o.Done? ==> p <= o.pos <= |s|
    decreases |s| - p, 1
  {
    var child := FindSub(node.children, key.text, key.escaped);
    if child.Some? then Value(s, strict, child.value, p) else Silent(SkipValue(s, strict, p))
  }

  /** After a member: a comma or the closing brace. */
  function AfterMember(s: string, strict: bool, node: Processor, p: nat): (o: Outcome)
    requires p <= |s|
    ensures o.Done? ==> p < o.pos <= |s|
    decreases |s| - p, 1
  {
    var q := SkipSpaces(s, p);
    if q == |s| then Failed([], EndOfObject, q)
    else if s[q] == '}' then Done([], q + 1)
    else if s[q] == ',' then Members(s, strict, node, q + 1)
    else Failed([], ObjectDelimiter, q + 1)
  }

  /** After '[' or ',': an element or the closing bracket; elements share the node of the array. */
  function Elements(s: string, strict: bool, node: Processor, p: nat): (o: Outcome)
    requires p <= |s|
    ensures o.Done? ==> p < o.pos <= |s|
    decreases |s| - p, 1
  {
    var q := SkipSpaces(s, p);
    if q == |s| then Failed([], EndOfArray, q)
    else if s[q] == ']' then Done([], q + 1)
    else
      var v := Value(s, strict, node, q);
      if v.Failed? then v else Prepend(v.events, AfterElement(s, strict, node, v.pos))
  }

  function AfterElement(s: string, strict: bool, node: Processor, p: nat): (o: Outcome)
    requires p <= |s|
    ensures o.Done? ==> p < o.pos <= |s|
    decreases |s| - p, 1
  {
    var q := SkipSpaces(s, p);
    if q == |s| then Failed([], EndOfArray, q)
    else if s[q] == ']' then Done([], q + 1)
    else if s[q] == ',' then Elements(s, strict, node, q + 1)
    else Failed([], ArrayDelimiter, q + 1)
  }

  /** A whole text: one object with nothing but white space around it. */
  function Document(s: string, strict: bool, root: Processor): Outcome {
    var q := SkipSpaces(s, 0);
    if q == |s| || s[q] != '{' then Failed([], TopLevelObject, q) else
    Ended(s, Members(s, strict, root, q + 1))
  }

  function Ended(s: string, o: Outcome): Outcome
    requires o.Done? ==> o.pos <= |s|
  {
    if o.Failed? then o else
    var e := SkipSpaces(s, o.pos);
    if e == |s| then Done(o.events, e) else Failed(o.events, TrailingCharacter, e)
  }
}
