/** Path normalisation: a scan from the right that counts the components to skip, against the usual
    left-to-right stack of components. */
module PathManip {
  import opened Common

  const SLASH := '/'

  /** Index of the last slash, or the length when there is none. */
  function LastSlash(s: string): (i: nat)
    ensures i <= |s| && (i < |s| ==> s[i] == SLASH)
    ensures forall j :: (if i < |s| then i + 1 else 0) <= j < |s| ==> s[j] != SLASH
  {
    if s == [] then 0
    else if s[|s| - 1] == SLASH then |s| - 1
    else
      var i := LastSlash(s[..|s| - 1]);
      if i == |s| - 1 then |s| else i
  }

  /** The components between slashes, empty ones included. */
  function Components(s: string): (c: seq<string>)
    ensures |c| > 0
  {
    var i := LastSlash(s);
    if i == |s| then [s] else Components(s[..i]) + [s[i + 1..]]
  }

  function Join(c: seq<string>): string
    requires |c| > 0
  {
    if |c| == 1 then c[0] else Join(c[..|c| - 1]) + [SLASH] + c[|c| - 1]
  }

  predicate SlashFree(s: string) { forall i :: 0 <= i < |s| ==> s[i] != SLASH }

  /** Splitting is right: the components have no slash and joined by slashes they give the path. */
  lemma {:induction false} ComponentsJoin(s: string)
    ensures Join(Components(s)) == s
    ensures forall i :: 0 <= i < |Components(s)| ==> SlashFree(Components(s)[i])
  {
    var i := LastSlash(s);
    if i < |s| {
      ComponentsJoin(s[..i]);
      var c := Components(s);
      assert c[..|c| - 1] == Components(s[..i]);
      assert s == s[..i] + [SLASH] + s[i + 1..];
    }
  }

  /* ---- the stack of components ---- */

  predicate Ignored(x: string) { x == "" || x == "." }

  predicate Named(x: string) { !Ignored(x) && x != ".." }

  /** Left to right: a name is pushed, ".." pops and fails on an empty stack. */
  function Forward(c: seq<string>, stack: seq<string>): Option<seq<string>> {
    if c == [] then Some(stack)
    else if Ignored(c[0]) then Forward(c[1..], stack)
    else if c[0] != ".." then Forward(c[1..], stack + [c[0]])
    else if stack == [] then None
    else Forward(c[1..], stack[..|stack| - 1])
  }

  /* ---- the scan from the right ---- */

  datatype Scanned = Scanned(skip: nat, kept: seq<string>)

  /** One component of the scan. */
  function Update(x: string, after: Scanned): Scanned {
    if Ignored(x) then after
    else if x == ".." then after.(skip := after.skip + 1)
    else if after.skip > 0 then after.(skip := after.skip - 1)
    else after.(kept := [x] + after.kept)
  }

  function Scan(c: seq<string>): Scanned {
    if c == [] then Scanned(0, []) else Update(c[0], Scan(c[1..]))
  }

  /** The scan of a suffix says what the stack does over it, whatever the stack was before: it loses
      `skip` components, failing if it has fewer, and gains `kept`. */
  lemma {:induction false} ScanIsForward(c: seq<string>, stack: seq<string>)
    ensures Forward(c, stack) == Applied(Scan(c), stack)
  {
    hide Ignored, Applied, Update;
    if c == [] {
      AppliedNothing(stack);
    } else if Ignored(c[0]) {
      ScanIsForward(c[1..], stack);
      AppliedUpdate(c[0], Scan(c[1..]), stack);
    } else if c[0] != ".." {
      ScanIsForward(c[1..], stack + [c[0]]);
      AppliedUpdate(c[0], Scan(c[1..]), stack);
    } else {
      AppliedUpdate(c[0], Scan(c[1..]), stack);
      if stack != [] {
        ScanIsForward(c[1..], stack[..|stack| - 1]);
      }
    }
  }

  /** A stack that loses the components to skip, if it has them, and gains those kept. */
  function Applied(s: Scanned, stack: seq<string>): Option<seq<string>> {
    if s.skip <= |stack| then Some(stack[..|stack| - s.skip] + s.kept) else None
  }

  lemma AppliedNothing(stack: seq<string>)
    ensures Applied(Scanned(0, []), stack) == Some(stack)
  {
    assert stack[..|stack|] + [] == stack;
  }

  /** One component more on the left of the scan is that component met first by the stack. */
  lemma AppliedUpdate(x: string, s: Scanned, stack: seq<string>)
    ensures Applied(Update(x, s), stack) ==
            if Ignored(x) then Applied(s, stack)
            else if x != ".." then Applied(s, stack + [x])
            else if stack == [] then None
            else Applied(s, stack[..|stack| - 1])
  {
    hide Ignored;
    if !Ignored(x) && x != ".." {
      if s.skip == 0 {
        assert (stack + [x])[..|stack| + 1] + s.kept == stack[..|stack|] + ([x] + s.kept);
      } else if s.skip <= |stack| + 1 {
        assert (stack + [x])[..|stack| + 1 - s.skip] == stack[..|stack| + 1 - s.skip];
      }
    } else if !Ignored(x) && 0 < s.skip + 1 <= |stack| {
      assert stack[..|stack| - 1][..|stack| - 1 - s.skip] == stack[..|stack| - 1 - s.skip];
    }
  }

  /* ---- results ---- */

  function Slashed(names: seq<string>): string {
    if names == [] then "" else [SLASH] + names[0] + Slashed(names[1..])
  }

  /** The first component of a relative path is kept: nothing after it pops it. */
  predicate FirstSurvives(c: seq<string>) {
    c != [] && Named(c[0]) && Forward(c[1..], []).Some?
  }

  /** What the code computes, told by the stack. A relative path whose first component is dropped comes
      out with a leading slash. */
  function Normalized(path: string): Option<string> {
    if path == "" || path == "/" then Some(path)
    else
      var c := Components(path);
      match Forward(c, [])
      case None => None
      case Some(stack) =>
        if path[0] == SLASH then Some(if stack == [] then "/" else Slashed(stack))
        else if FirstSurvives(c) then Some(c[0] + Slashed(Forward(c[1..], []).value))
        else Some(Slashed(stack))
  }

  /* ---- absolute and relative ---- */

  lemma {:induction false} ComponentsFirst(s: string)
    ensures Components(s)[0] == "" <==> s == "" || s[0] == SLASH
  {
    var i := LastSlash(s);
    if i < |s| {
      ComponentsFirst(s[..i]);
    }
  }

  /** The first component kept is the bottom of the stack. */
  lemma SurvivorIsBottom(c: seq<string>)
    requires FirstSurvives(c)
    ensures Forward(c, []) == Some([c[0]] + Forward(c[1..], []).value)
  {
    var s, bottom := Scan(c[1..]), [c[0]];
    ScanIsForward(c[1..], []);
    ScanIsForward(c[1..], bottom);
    assert [] + bottom == bottom && bottom[..1] == bottom;
    assert s.skip == 0 && [][..0] + s.kept == s.kept;
    assert Forward(c, []) == Forward(c[1..], bottom);
  }

  /** Names minus "..": what the components add to the depth. */
  function Balance(c: seq<string>): int {
    if c == [] then 0
    else (if Ignored(c[0]) then 0 else if c[0] == ".." then -1 else 1) + Balance(c[1..])
  }

  /** No prefix has more ".." than names and the depth it started from. */
  predicate Enough(c: seq<string>, depth: int) {
    forall n :: 0 <= n <= |c| ==> 0 <= depth + Balance(c[..n])
  }

  lemma BalanceCons(c: seq<string>, n: nat)
    requires 0 < n <= |c|
    ensures Balance(c[..n]) == Balance(c[..1]) + Balance(c[1..][..n - 1])
    ensures Balance(c[..1]) == if Ignored(c[0]) then 0 else if c[0] == ".." then -1 else 1
  {
    assert c[..n][1..] == c[1..][..n - 1] && c[..1][1..] == [];
  }

  lemma EnoughCons(c: seq<string>, depth: nat)
    requires c != []
    ensures Enough(c, depth) <==> Enough(c[1..], depth + Balance(c[..1]))
  {
    hide Balance;
    if Enough(c, depth) {
      forall n | 0 <= n <= |c[1..]|
        ensures 0 <= depth + Balance(c[..1]) + Balance(c[1..][..n])
      {
        BalanceCons(c, n + 1);
        assert 0 <= depth + Balance(c[..n + 1]);
      }
    }
    if Enough(c[1..], depth + Balance(c[..1])) {
      forall n | 0 <= n <= |c|
        ensures 0 <= depth + Balance(c[..n])
      {
        if n == 0 {
          BalanceOfNothing(c);
        } else {
          BalanceCons(c, n);
          assert 0 <= depth + Balance(c[..1]) + Balance(c[1..][..n - 1]);
        }
      }
    }
  }

  lemma BalanceOfNothing(c: seq<string>)
    ensures Balance(c[..0]) == 0
  {
  }

  /** The stack runs through exactly when no prefix pops too much, and ends at the depth so computed. */
  lemma {:induction false} ForwardDepth(c: seq<string>, stack: seq<string>)
    ensures Forward(c, stack).Some? <==> Enough(c, |stack|)
    ensures Forward(c, stack).Some? ==> |Forward(c, stack).value| == |stack| + Balance(c)
  {
    hide Enough, Ignored;
    if c == [] {
      EnoughNothing(|stack|);
    } else {
      EnoughCons(c, |stack|);
      BalanceCons(c, 1);
      if Ignored(c[0]) {
        ForwardDepth(c[1..], stack);
      } else if c[0] != ".." {
        ForwardDepth(c[1..], stack + [c[0]]);
      } else if stack != [] {
        ForwardDepth(c[1..], stack[..|stack| - 1]);
      } else {
        NotEnough(c[1..]);
      }
    }
  }

  lemma EnoughNothing(depth: nat)
    ensures Enough([], depth)
  {
    var c: seq<string> := [];
    assert c[..0] == [];
  }

  lemma NotEnough(c: seq<string>)
    ensures !Enough(c, -1)
  {
    BalanceOfNothing(c);
  }

  /** A path is accepted exactly when none of its prefixes has more ".." than names. */
  lemma AcceptedIff(path: string)
    ensures Normalized(path).Some? <==> Enough(Components(path), 0)
  {
    hide Enough;
    ForwardDepth(Components(path), []);
    NothingAccepted();
  }

  lemma NothingAccepted()
    ensures Forward(Components(""), []) == Forward(Components("/"), []) == Some([])
  {
    assert Components("") == [""];
    assert "/"[..0] == "" && "/"[1..] == "";
    var c: seq<string> := ["", ""];
    assert Components("/") == c;
    assert c[1..] == [""] && [""][1..] == [];
  }

  /** An accepted relative path stays relative exactly when its first component is a name that the rest
      never pops, or it has as many ".." as names, so that nothing is left. */
  lemma StaysRelativeIff(path: string)
    requires path != "" && path[0] != SLASH && Normalized(path).Some?
    ensures var r := Normalized(path).value;
            var c := Components(path);
            r == "" || r[0] != SLASH <==> (Named(c[0]) && Enough(c[1..], 0)) || Balance(c) == 0
  {
    hide Enough, Balance;
    var c := Components(path);
    ComponentsJoin(path);
    assert SlashFree(c[0]);
    ForwardDepth(c, []);
    ForwardDepth(c[1..], []);
  }

  /** A relative path that comes out absolute. */
  lemma LeadingSlashExample()
    ensures Normalized("./b") == Some("/b")
  {
    LastSlashAt(".", "b");
    assert "." + [SLASH] + "b" == "./b" && "./b"[..1] == "." && "./b"[2..] == "b";
    assert Components(".") == ["."];
    var c: seq<string> := [".", "b"];
    assert Components("./b") == c;
    var names: seq<string> := ["b"];
    assert c[1..] == names && Named("b") && SlashFree("b");
    ForwardOfClean(names, []);
    assert [] + names == names && names[1..] == [];
    assert Slashed(names) == "/b";
  }

  /* ---- idempotence ---- */

  predicate Clean(names: seq<string>) { forall i :: 0 <= i < |names| ==> Named(names[i]) && SlashFree(names[i]) }

  lemma {:induction false} ForwardClean(c: seq<string>, stack: seq<string>)
    requires Clean(stack) && forall i :: 0 <= i < |c| ==> SlashFree(c[i])
    ensures Forward(c, stack).Some? ==> Clean(Forward(c, stack).value)
  {
    if c != [] {
      if Ignored(c[0]) {
        ForwardClean(c[1..], stack);
      } else if c[0] != ".." {
        ForwardClean(c[1..], stack + [c[0]]);
      } else if stack != [] {
        ForwardClean(c[1..], stack[..|stack| - 1]);
      }
    }
  }

  lemma {:induction false} ForwardOfClean(names: seq<string>, stack: seq<string>)
    requires Clean(names)
    ensures Forward(names, stack) == Some(stack + names)
  {
    if names == [] {
      assert stack + names == stack;
    } else {
      ForwardOfClean(names[1..], stack + [names[0]]);
      assert stack + [names[0]] + names[1..] == stack + names;
    }
  }

  lemma {:induction false} LastSlashAt(a: string, b: string)
    requires SlashFree(b)
    ensures LastSlash(a + [SLASH] + b) == |a| && LastSlash(b) == |b|
    decreases |b|
  {
    var s := a + [SLASH] + b;
    if b == [] {
      assert s == a + [SLASH];
    } else {
      LastSlashAt(a, b[..|b| - 1]);
      assert s[..|s| - 1] == a + [SLASH] + b[..|b| - 1] && s[|s| - 1] == b[|b| - 1];
    }
  }

  /** Appending slash-prefixed names appends components. */
  lemma {:induction false} ComponentsAppend(first: string, names: seq<string>)
    requires SlashFree(first) && Clean(names)
    ensures Components(first + Slashed(names)) == [first] + names
  {
    hide Slashed, Components, Named;
    if names == [] {
      NothingSlashed(first);
      NoSlashes(first);
    } else {
      var front, last := names[..|names| - 1], names[|names| - 1];
      ComponentsAppend(first, front);
      SlashedAppend(first, names);
      ComponentsLast(first + Slashed(front), last);
      assert names == front + [last];
      assert [first] + front + [last] == [first] + names;
    }
  }

  lemma NothingSlashed(first: string)
    ensures first + Slashed([]) == first
  {
  }

  lemma SlashedAppend(first: string, names: seq<string>)
    requires names != []
    ensures first + Slashed(names) == first + Slashed(names[..|names| - 1]) + [SLASH] + names[|names| - 1]
  {
    hide Slashed;
    SlashedLast(names);
    Reassociate(first, Slashed(names[..|names| - 1]), names[|names| - 1]);
  }

  lemma Reassociate(a: string, b: string, c: string)
    ensures a + (b + [SLASH] + c) == a + b + [SLASH] + c
  {
  }

  lemma ComponentsLast(head: string, last: string)
    requires SlashFree(last)
    ensures Components(head + [SLASH] + last) == Components(head) + [last]
  {
    hide LastSlash;
    var s := head + [SLASH] + last;
    LastSlashAt(head, last);
    assert s[..|head|] == head && s[|head| + 1..] == last;
  }

  lemma {:induction false} SlashedLast(names: seq<string>)
    requires names != []
    ensures Slashed(names) == Slashed(names[..|names| - 1]) + [SLASH] + names[|names| - 1]
  {
    if |names| > 1 {
      SlashedLast(names[1..]);
      assert names[1..][..|names| - 2] == names[..|names| - 1][1..];
    }
  }

  /** Normalising twice is normalising once, for every path that is accepted. */
  lemma Idempotent(path: string)
    requires Normalized(path).Some?
    ensures Normalized(Normalized(path).value) == Normalized(path)
  {
    if path != "" && path != "/" {
      var c := Components(path);
      ComponentsJoin(path);
      ForwardClean(c, []);
      var stack := Forward(c, []).value;
      if path[0] != SLASH && FirstSurvives(c) {
        ForwardClean(c[1..], []);
        RelativeFixed(c[0], Forward(c[1..], []).value);
      } else if stack != [] {
        AbsoluteFixed(stack);
      }
    }
  }

  lemma AbsoluteFixed(stack: seq<string>)
    requires Clean(stack) && stack != []
    ensures Normalized(Slashed(stack)) == Some(Slashed(stack))
  {
    var q := Slashed(stack);
    ComponentsAppend("", stack);
    assert "" + q == q;
    assert ([""] + stack)[1..] == stack;
    ForwardOfClean(stack, []);
    assert [] + stack == stack;
  }

  lemma RelativeFixed(first: string, rest: seq<string>)
    requires Named(first) && SlashFree(first) && Clean(rest)
    ensures Normalized(first + Slashed(rest)) == Some(first + Slashed(rest))
  {
    var q := first + Slashed(rest);
    var c := [first] + rest;
    ComponentsAppend(first, rest);
    assert c[1..] == rest;
    ForwardOfClean(c, []);
    ForwardOfClean(rest, []);
    assert [] + rest == rest;
  }

  /* ---- the code ---- */

  function Concat(parts: seq<string>): string {
    if parts == [] then "" else parts[0] + Concat(parts[1..])
  }

  function Pieces(names: seq<string>): (p: seq<string>)
    ensures |p| == |names|
  {
    seq(|names|, i requires 0 <= i < |names| => [SLASH] + names[i])
  }

  lemma {:induction false} ConcatPieces(names: seq<string>)
    ensures Concat(Pieces(names)) == Slashed(names)
  {
    if names != [] {
      ConcatPieces(names[1..]);
      assert Pieces(names)[1..] == Pieces(names[1..]);
    }
  }

  /** All pieces carry their slash. */
  predicate Plain(done: seq<string>, parts: seq<string>) { parts == Pieces(Scan(done).kept) }

  /** The first component of a relative path, if kept, has no slash before it. */
  predicate Bare(done: seq<string>, parts: seq<string>) {
    done != [] &&
    if Named(done[0]) && Scan(done[1..]).skip == 0 then parts == [done[0]] + Pieces(Scan(done[1..]).kept)
    else Plain(done, parts)
  }

  /** The state of the loop when `done` are the components scanned. */
  predicate Progress(path: string, endPos: int, done: seq<string>, skip: nat, parts: seq<string>) {
    0 <= endPos <= |path| && path != "" && Scan(done).skip == skip &&
    if endPos > 0 then Components(path) == Components(path[..endPos]) + done && Plain(done, parts)
    else if path[0] == SLASH then Components(path) == [""] + done && Plain(done, parts)
    else Components(path) == done && Bare(done, parts)
  }

  /** `rfind('/', end - 1)`. */
  method FindSlash(path: string, end: nat) returns (found: bool, at: nat)
    requires 0 < end <= |path|
    ensures found == (LastSlash(path[..end]) < end) && (found ==> at == LastSlash(path[..end]))
  {
    at := end;
    while at > 0
      invariant at <= end && forall j :: at <= j < end ==> path[j] != SLASH
    {
      at := at - 1;
      if path[at] == SLASH {
        assert path[..end][at] == SLASH;
        return true, at;
      }
    }
    found := false;
  }

  /** The tests on the characters of a component. */
  lemma Classify(path: string, from: nat, to: nat)
    requires from <= to <= |path|
    ensures Ignored(path[from..to]) <==> !(to - from != 0 && (to - from != 1 || path[from] != '.'))
    ensures path[from..to] == ".." <==> to - from == 2 && path[from] == '.' && path[from + 1] == '.'
  {
    var x := path[from..to];
    assert to - from >= 1 ==> x[0] == path[from];
    assert to - from >= 2 ==> x[1] == path[from + 1];
  }

  /** `normalize_path`. */
  method NormalizePath(path: string) returns (ok: bool, result: string)
    ensures ok == Normalized(path).Some?
    ensures result == if ok then Normalized(path).value else path
  {
    if path == "" || path == "/" {
      return true, path;
    }
    var skip, parts := ScanPath(path);
    if skip != 0 {
      return false, path;
    }
    result := Concatenate(parts);
    if result == "" && path[0] == SLASH {
      result := "/";
    }
    ok := true;
  }

  /** The loop over the components, from the right. */
  method ScanPath(path: string) returns (skip: nat, parts: seq<string>)
    requires path != "" && path != "/"
    ensures skip == 0 <==> Normalized(path).Some?
    ensures skip == 0 ==>
              Normalized(path).value == if Concat(parts) == "" && path[0] == SLASH then "/" else Concat(parts)
  {
    hide Progress, Components, Scan, LastSlash, Normalized, Ignored, Concat;
    var endPos: nat := |path| - if path[|path| - 1] == SLASH then 1 else 0;
    skip, parts := 0, [];
    ghost var done: seq<string> := if endPos < |path| then [""] else [];
    Started(path, endPos);
    while endPos != 0
      invariant endPos <= |path| && Progress(path, endPos, done, skip, parts)
      decreases endPos
    {
      var found, startPos := FindSlash(path, endPos);
      var partStart := startPos + 1;
      if !found {
        partStart, startPos := 0, 0;
      }
      ghost var x := path[partStart..endPos];
      Turn(path, endPos, done, skip, parts, found, startPos);
      Classify(path, partStart, endPos);
      if endPos - partStart != 0 && (endPos - partStart != 1 || path[partStart] != '.') {
        if endPos - partStart == 2 && path[partStart] == '.' && path[partStart + 1] == '.' {
          skip := skip + 1;
        } else if skip != 0 {
          skip := skip - 1;
        } else {
          parts := [path[startPos..endPos]] + parts;
        }
      }
      done := [x] + done;
      endPos := startPos;
    }
    Ended(path, done, skip, parts);
  }

  method Concatenate(parts: seq<string>) returns (text: string)
    ensures text == Concat(parts)
  {
    text := "";
    var i := 0;
    while i < |parts|
      invariant i <= |parts| && text + Concat(parts[i..]) == Concat(parts)
    {
      assert parts[i..][1..] == parts[i + 1..];
      text := text + parts[i];
      i := i + 1;
    }
  }

  lemma Started(path: string, endPos: nat)
    requires path != "" && path != "/"
    requires endPos == |path| - if path[|path| - 1] == SLASH then 1 else 0
    ensures endPos > 0 && Progress(path, endPos, if endPos < |path| then [""] else [], 0, [])
  {
    assert path[..|path|] == path;
    if endPos < |path| {
      LastSlashAt(path[..endPos], "");
      assert path == path[..endPos] + [SLASH] + "";
      assert [""][1..] == [];
    } else {
      assert Components(path) + [] == Components(path);
    }
  }

  function After(skip: nat, parts: seq<string>, x: string, piece: string): (nat, seq<string>) {
    if Ignored(x) then (skip, parts)
    else if x == ".." then (skip + 1, parts)
    else if skip > 0 then (skip - 1, parts)
    else (skip, [piece] + parts)
  }

  /** One more component on the left of the scan. */
  lemma ScanTurn(done: seq<string>, parts: seq<string>, x: string)
    requires Plain(done, parts)
    ensures Scan([x] + done) == Update(x, Scan(done))
    ensures var next := After(Scan(done).skip, parts, x, [SLASH] + x);
            next.0 == Scan([x] + done).skip && Plain([x] + done, next.1)
    ensures Bare([x] + done, After(Scan(done).skip, parts, x, x).1)
  {
    assert ([x] + done)[1..] == done;
    assert Pieces([x] + Scan(done).kept) == [[SLASH] + x] + Pieces(Scan(done).kept);
  }

  lemma Turn(path: string, endPos: nat, done: seq<string>, skip: nat, parts: seq<string>, found: bool, startPos: nat)
    requires 0 < endPos <= |path| && Progress(path, endPos, done, skip, parts)
    requires found == (LastSlash(path[..endPos]) < endPos)
    requires startPos == if found then LastSlash(path[..endPos]) else 0
    ensures var x := path[if found then startPos + 1 else 0..endPos];
            var next := After(skip, parts, x, path[startPos..endPos]);
            startPos < endPos && Progress(path, startPos, [x] + done, next.0, next.1)
  {
    hide Scan, Plain, Bare, Pieces, LastSlash;
    var prefix := path[..endPos];
    var x := path[if found then startPos + 1 else 0..endPos];
    ScanTurn(done, parts, x);
    if found {
      assert prefix[..startPos] == path[..startPos] && prefix[startPos + 1..] == x;
      assert path[startPos..endPos] == [SLASH] + x;
      assert Components(path) == Components(path[..startPos]) + ([x] + done);
      if startPos == 0 {
        NoSlashes("");
        assert path[..0] == "" && path[0] == SLASH;
      }
    } else {
      assert prefix == x && path[0..endPos] == x;
      assert path[0] == prefix[0] && path[0] != SLASH;
      assert Components(prefix) == [x];
    }
  }

  lemma NoSlashes(s: string)
    requires SlashFree(s)
    ensures Components(s) == [s]
  {
    LastSlashAt("", s);
  }

  lemma ScanFromEmpty(c: seq<string>)
    ensures Forward(c, []) == if Scan(c).skip == 0 then Some(Scan(c).kept) else None
  {
    ScanIsForward(c, []);
    assert [][..0] + Scan(c).kept == Scan(c).kept;
  }

  lemma Ended(path: string, done: seq<string>, skip: nat, parts: seq<string>)
    requires path != "" && path != "/" && Progress(path, 0, done, skip, parts)
    ensures skip == 0 <==> Normalized(path).Some?
    ensures skip == 0 ==>
              Normalized(path).value == if Concat(parts) == "" && path[0] == SLASH then "/" else Concat(parts)
  {
    hide Components, Scan, Pieces;
    ScanFromEmpty(done);
    ConcatPieces(Scan(done).kept);
    if path[0] == SLASH {
      assert ([""] + done)[1..] == done;
    } else {
      ScanFromEmpty(done[1..]);
      ConcatPieces(Scan(done[1..]).kept);
      var rest := Pieces(Scan(done[1..]).kept);
      assert ([done[0]] + rest)[1..] == rest;
    }
  }
}
