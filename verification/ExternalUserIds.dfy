/** External user identifiers packed into a DNS name: comma escaping, joining, base 32 and division into
    labels, and the way back. */
module ExternalUserIds {
  import opened Base32

  type Text = seq<Byte>

  const COMMA: Byte := 44
  const DOT: Byte := 46
  const MARK: Byte := 120       // 'x'
  const MAX_LABEL: nat := 63    // section 2.3.4 of RFC 1035

  /* ---- escaping and joining ---- */

  function Escape(id: Text): Text {
    if id == [] then [] else (if id[0] == COMMA then [COMMA, COMMA] else [id[0]]) + Escape(id[1..])
  }

  /** The identifiers after the first, each behind its separator. */
  function More(ids: seq<Text>): Text {
    if ids == [] then [] else [COMMA] + (Escape(ids[0]) + More(ids[1..]))
  }

  function Union(ids: seq<Text>): Text {
    if ids == [] then [] else Escape(ids[0]) + More(ids[1..])
  }

  datatype Outcome =
    | Listed(ids: seq<Text>)
    | PastEnd    // an unpaired comma at the end moves the iterator past the end: undefined

  function Push(ids: seq<Text>, cur: Text): seq<Text> { if cur == [] then ids else ids + [cur] }

  /** The scanner that takes the union apart again. */
  function Split(s: Text, cur: Text, ids: seq<Text>): Outcome
    decreases |s|
  {
    if s == [] then Listed(Push(ids, cur))
    else if s[0] != COMMA then Split(s[1..], cur + [s[0]], ids)
    else if |s| == 1 then PastEnd
    else if s[1] == COMMA then Split(s[2..], cur + [COMMA], ids)
    else Split(s[2..], [s[1]], Push(ids, cur))
  }

  lemma SplitPlain(c: Byte, rest: Text, cur: Text, ids: seq<Text>)
    requires c != COMMA
    ensures Split([c] + rest, cur, ids) == Split(rest, cur + [c], ids)
  {
    assert ([c] + rest)[1..] == rest;
  }

  lemma SplitPair(rest: Text, cur: Text, ids: seq<Text>)
    ensures Split([COMMA, COMMA] + rest, cur, ids) == Split(rest, cur + [COMMA], ids)
  {
    assert ([COMMA, COMMA] + rest)[2..] == rest;
  }

  lemma SplitSeparator(c: Byte, rest: Text, cur: Text, ids: seq<Text>)
    requires c != COMMA
    ensures Split([COMMA, c] + rest, cur, ids) == Split(rest, [c], Push(ids, cur))
  {
    assert ([COMMA, c] + rest)[2..] == rest;
  }

  /** An escaped identifier is read back into the current block. */
  lemma {:induction false} SplitEscaped(id: Text, rest: Text, cur: Text, ids: seq<Text>)
    ensures Split(Escape(id) + rest, cur, ids) == Split(rest, cur + id, ids)
  {
    hide Split;
    if id == [] {
      assert Escape(id) + rest == rest && cur + id == cur;
    } else {
      var tail := Escape(id[1..]) + rest;
      SplitEscaped(id[1..], rest, cur + [id[0]], ids);
      assert cur + [id[0]] + id[1..] == cur + id;
      if id[0] == COMMA {
        assert Escape(id) + rest == [COMMA, COMMA] + tail;
        SplitPair(tail, cur, ids);
      } else {
        assert Escape(id) + rest == [id[0]] + tail;
        SplitPlain(id[0], tail, cur, ids);
      }
    }
  }

  /** A separator followed by an identifier that does not start with a comma ends the current block. */
  lemma SplitNext(id: Text, rest: Text, cur: Text, ids: seq<Text>)
    requires id != [] && id[0] != COMMA
    ensures Split([COMMA] + (Escape(id) + rest), cur, ids) == Split(rest, id, Push(ids, cur))
  {
    hide Split;
    var tail := Escape(id[1..]) + rest;
    assert [COMMA] + (Escape(id) + rest) == [COMMA, id[0]] + tail;
    SplitSeparator(id[0], tail, cur, ids);
    SplitEscaped(id[1..], rest, [id[0]], Push(ids, cur));
    assert [id[0]] + id[1..] == id;
  }

  /** A separator followed by a comma is taken for an escaped comma. */
  lemma SplitConfused(id: Text, rest: Text, cur: Text, ids: seq<Text>)
    requires id != [] && id[0] == COMMA
    ensures Split([COMMA] + (Escape(id) + rest), cur, ids)
            == Split([COMMA] + (Escape(id[1..]) + rest), cur + [COMMA], ids)
  {
    hide Split;
    var tail := [COMMA] + (Escape(id[1..]) + rest);
    assert [COMMA] + (Escape(id) + rest) == [COMMA, COMMA] + tail;
    SplitPair(tail, cur, ids);
  }

  predicate NoneEmpty(ids: seq<Text>) { forall i :: 0 <= i < |ids| ==> ids[i] != [] }

  predicate NoneStartsWithComma(ids: seq<Text>) { forall i :: 0 <= i < |ids| && ids[i] != [] ==> ids[i][0] != COMMA }

  /** What a caller has to check: no identifier is empty, and none but the first starts with a comma. */
  predicate Safe(ids: seq<Text>) { NoneEmpty(ids) && (ids != [] ==> NoneStartsWithComma(ids[1..])) }

  lemma {:induction false} SplitMore(more: seq<Text>, cur: Text, ids: seq<Text>)
    requires cur != [] && NoneEmpty(more) && NoneStartsWithComma(more)
    ensures Split(More(more), cur, ids) == Listed(ids + [cur] + more)
  {
    hide Escape;
    if more == [] {
      assert ids + [cur] + more == ids + [cur];
    } else {
      SplitNext(more[0], More(more[1..]), cur, ids);
      SplitMore(more[1..], more[0], ids + [cur]);
      assert ids + [cur] + [more[0]] + more[1..] == ids + [cur] + more;
    }
  }

  /** The scanner only appends, never appends an empty identifier, and what it appends first extends the
      block it was in. */
  lemma {:induction false} SplitAppends(s: Text, cur: Text, ids: seq<Text>)
    requires Split(s, cur, ids).Listed?
    ensures var r := Split(s, cur, ids).ids;
            |ids| <= |r| && r[..|ids|] == ids && NoneEmpty(r[|ids|..]) &&
            (cur != [] ==> |ids| < |r| && cur <= r[|ids|])
    decreases |s|
  {
    if s == [] {
      assert Push(ids, cur)[..|ids|] == ids;
    } else if s[0] != COMMA {
      SplitAppends(s[1..], cur + [s[0]], ids);
    } else if s[1] == COMMA {
      SplitAppends(s[2..], cur + [COMMA], ids);
    } else {
      SplitAppends(s[2..], [s[1]], Push(ids, cur));
      SplitPushed(Split(s, cur, ids).ids, cur, ids);
    }
  }

  lemma SplitPushed(r: seq<Text>, cur: Text, ids: seq<Text>)
    requires var p := Push(ids, cur); |p| <= |r| && r[..|p|] == p && NoneEmpty(r[|p|..])
    ensures |ids| <= |r| && r[..|ids|] == ids && NoneEmpty(r[|ids|..])
    ensures cur != [] ==> |ids| < |r| && cur <= r[|ids|]
  {
    var p := Push(ids, cur);
    assert p[..|ids|] == ids;
    assert r[..|p|][..|ids|] == r[..|ids|];
    if cur != [] {
      assert r[|ids|] == r[..|p|][|ids|] == cur;
      assert r[|ids|..] == [cur] + r[|p|..];
    }
  }

  /** One identifier that starts with a comma spoils the list. */
  lemma {:induction false} SplitSpoiled(more: seq<Text>, cur: Text, ids: seq<Text>)
    requires cur != [] && NoneEmpty(more) && !NoneStartsWithComma(more)
    ensures Split(More(more), cur, ids) != Listed(ids + [cur] + more)
  {
    hide Split, Escape;
    var rest := More(more[1..]);
    if more[0][0] == COMMA {
      var tail := [COMMA] + (Escape(more[0][1..]) + rest);
      SplitConfused(more[0], rest, cur, ids);
      var outcome := Split(tail, cur + [COMMA], ids);
      if outcome.Listed? {
        SplitAppends(tail, cur + [COMMA], ids);
        assert (ids + [cur] + more)[|ids|] == cur;
        assert |outcome.ids[|ids|]| > |cur|;
      }
    } else {
      SplitNext(more[0], rest, cur, ids);
      assert NoneEmpty(more[1..]);
      SplitSpoiled(more[1..], more[0], ids + [cur]);
      assert ids + [cur] + [more[0]] + more[1..] == ids + [cur] + more;
    }
  }

  /** Taking the union apart gives the identifiers back exactly when the list is safe. */
  lemma UnionRoundTripIff(ids: seq<Text>, before: seq<Text>)
    ensures Split(Union(ids), [], before) == Listed(before + ids) <==> Safe(ids)
  {
    hide Split, Escape, More;
    var s := Union(ids);
    if ids == [] {
      SplitNothing(before);
    } else if !NoneEmpty(ids) {
      if Split(s, [], before) == Listed(before + ids) {
        ListedNoneEmpty(s, ids, before);
      }
    } else {
      var more := ids[1..];
      SplitEscaped(ids[0], More(more), [], before);
      assert [] + ids[0] == ids[0];
      assert before + ids == before + [ids[0]] + more;
      assert NoneEmpty(more);
      if NoneStartsWithComma(more) {
        SplitMore(more, ids[0], before);
      } else {
        SplitSpoiled(more, ids[0], before);
      }
    }
  }

  lemma ListedNoneEmpty(s: Text, ids: seq<Text>, before: seq<Text>)
    requires Split(s, [], before) == Listed(before + ids)
    ensures NoneEmpty(ids)
  {
    hide Split;
    SplitAppends(s, [], before);
    assert (before + ids)[|before|..] == ids;
  }

  lemma SplitNothing(before: seq<Text>)
    ensures Split([], [], before) == Listed(before) && before + [] == before
  {
  }

  /* ---- labels ---- */

  function Div(s: Text): (r: Text) {
    if |s| <= MAX_LABEL - 1 then [MARK] + s else [MARK] + s[..MAX_LABEL - 1] + [DOT] + Div(s[MAX_LABEL - 1..])
  }

  function FirstDot(s: Text): (i: nat)
    ensures i <= |s|
  {
    if s == [] || s[0] == DOT then 0 else 1 + FirstDot(s[1..])
  }

  /** Drops each dot and the character after it. */
  function Undiv(s: Text): Text {
    var i := FirstDot(s);
    if i == |s| then s else s[..i] + if i + 2 >= |s| then [] else Undiv(s[i + 2..])
  }

  function Labels(s: Text): (labels: seq<Text>) {
    var i := FirstDot(s);
    if i == |s| then [s] else [s[..i]] + Labels(s[i + 1..])
  }

  lemma {:induction false} FirstDotAt(s: Text, i: nat)
    requires i <= |s| && (forall j :: 0 <= j < i ==> s[j] != DOT) && (i < |s| ==> s[i] == DOT)
    ensures FirstDot(s) == i
  {
    if i > 0 {
      FirstDotAt(s[1..], i - 1);
    }
  }

  predicate Dotless(s: Text) { forall i :: 0 <= i < |s| ==> s[i] != DOT }

  lemma {:induction false} DivMarked(s: Text)
    ensures Div(s) != [] && Div(s)[0] == MARK
  {
  }

  lemma {:induction false} UndivDiv(s: Text)
    requires Dotless(s)
    ensures Undiv(Div(s)[1..]) == s
  {
    var n := MAX_LABEL - 1;
    if |s| <= n {
      assert Div(s)[1..] == s;
      FirstDotAt(s, |s|);
    } else {
      UndivDiv(s[n..]);
      DivMarked(s[n..]);
      var rest := Div(s[n..]);
      var t := Div(s)[1..];
      assert t == s[..n] + [DOT] + rest;
      UndivStep(s[..n], rest);
      assert s == s[..n] + s[n..];
    }
  }

  /** Up to the first dot, then behind the character after it. */
  lemma UndivAt(s: Text, i: nat)
    requires i < |s| && (forall j :: 0 <= j < i ==> s[j] != DOT) && s[i] == DOT
    ensures Undiv(s) == s[..i] + if i + 2 >= |s| then [] else Undiv(s[i + 2..])
  {
    hide FirstDot, Undiv;
    FirstDotAt(s, i);
    UndivOnce(s);
  }

  lemma UndivOnce(s: Text)
    ensures var i := FirstDot(s);
            Undiv(s) == if i == |s| then s else s[..i] + if i + 2 >= |s| then [] else Undiv(s[i + 2..])
  {
    hide FirstDot;
  }

  lemma UndivDotless(s: Text)
    requires forall j :: 0 <= j < |s| ==> s[j] != DOT
    ensures Undiv(s) == s
  {
    hide FirstDot, Undiv;
    FirstDotAt(s, |s|);
    UndivOnce(s);
  }

  lemma UndivStep(head: Text, rest: Text)
    requires Dotless(head) && rest != []
    ensures Undiv(head + [DOT] + rest) == head + Undiv(rest[1..])
  {
    hide Undiv;
    var t := head + [DOT] + rest;
    UndivAt(t, |head|);
    assert t[..|head|] == head && t[|head| + 2..] == rest[1..];
    if |rest| == 1 {
      UndivDotless(rest[1..]);
    }
  }

  /** Every label is the mark and at most 62 characters more, never longer than DNS allows, and all but the
      last use the limit fully. */
  lemma {:induction false} LabelsOfDiv(s: Text)
    requires Dotless(s)
    ensures Labels(Div(s)) != []
    ensures forall i :: 0 <= i < |Labels(Div(s))| ==>
              && 1 <= |Labels(Div(s))[i]| <= 63 && Labels(Div(s))[i][0] == MARK
              && (i < |Labels(Div(s))| - 1 ==> |Labels(Div(s))[i]| == 63)
  {
    hide FirstDot;
    var n := MAX_LABEL - 1;
    if |s| <= n {
      FirstDotAt([MARK] + s, |s| + 1);
    } else {
      LabelsOfDiv(s[n..]);
      var head, rest := [MARK] + s[..n], Div(s[n..]);
      assert Div(s) == head + [DOT] + rest;
      FirstDotAt(Div(s), |head|);
      assert Div(s)[..|head|] == head && Div(s)[|head| + 1..] == rest;
      assert Labels(Div(s)) == [head] + Labels(rest);
    }
  }

  /* ---- the codec ---- */

  function EncodeIds(ids: seq<Text>): Text { Div(Encode(Union(ids))) }

  function DecodeIds(before: seq<Text>, src: Text): Outcome {
    if src == [] then Listed(before) else Split(Decode(Undiv(src[1..])).bytes, [], before)
  }

  lemma EncodedDotless(s: Text)
    ensures Dotless(Encode(s))
  {
    hide Encode;
    EncodeAlphabet(s);
    forall i | 0 <= i < |Encode(s)|
      ensures Encode(s)[i] != DOT
    {
      assert Encode(s)[i] in Encode(s);
    }
  }

  /** The stages below the comma escaping cancel out. */
  lemma CodecIsSplit(ids: seq<Text>, before: seq<Text>)
    ensures DecodeIds(before, EncodeIds(ids)) == Split(Union(ids), [], before)
  {
    hide Encode, Decode, Div, Undiv, Split, Union;
    var u := Union(ids);
    EncodedDotless(u);
    UndivDiv(Encode(u));
    DivMarked(Encode(u));
    RoundTrip(u);
  }

  /** The list comes back, appended to what was there before, exactly when it is safe. */
  lemma RoundTripIff(ids: seq<Text>, before: seq<Text>)
    ensures DecodeIds(before, EncodeIds(ids)) == Listed(before + ids) <==> Safe(ids)
  {
    hide DecodeIds, EncodeIds, Split, Union;
    CodecIsSplit(ids, before);
    UnionRoundTripIff(ids, before);
  }

  /** Whatever is encoded, the name consists of labels that start with 'x' and have at most 63 characters,
      all but the last exactly 63. */
  lemma EncodedLabels(ids: seq<Text>, i: nat)
    requires i < |Labels(EncodeIds(ids))|
    ensures var part := Labels(EncodeIds(ids))[i];
            && 1 <= |part| <= 63 && part[0] as char == 'x'
            && (i < |Labels(EncodeIds(ids))| - 1 ==> |part| == 63)
  {
    EncodedDotless(Union(ids));
    LabelsOfDiv(Encode(Union(ids)));
  }

  /** Two separate identifiers become two others when the second starts with a comma. */
  lemma LeadingCommaExample()
    ensures DecodeIds([], EncodeIds([[97], [COMMA, 98]])) == Listed([[97, COMMA], [98]])
  {
    hide DecodeIds, EncodeIds;
    var ids: seq<Text> := [[97], [COMMA, 98]];
    CodecIsSplit(ids, []);
    var more: seq<Text> := [[COMMA, 98]];
    assert ids[1..] == more && more[1..] == [];
    assert Escape([]) == [] && More([]) == [];
    assert Escape([98]) == [98] by { assert [98][1..] == []; }
    assert Escape([97]) == [97] by { assert [97][1..] == []; }
    assert Escape([COMMA, 98]) == [COMMA, COMMA, 98] by { assert [COMMA, 98][1..] == [98]; }
    assert More(more) == [COMMA, COMMA, COMMA, 98];
    SplitPlain(97, More(more), [], []);
    SplitPair([COMMA, 98], [97], []);
    SplitSeparator(98, [], [97, COMMA], []);
    assert [COMMA, COMMA] + [COMMA, 98] == More(more) && [COMMA, 98] + [] == [COMMA, 98];
    assert [] + [97] == [97] && [97] + [COMMA] == [97, COMMA];
    SplitEnds([], [98], [[97, COMMA]]);
    assert Push([], [97, COMMA]) == [[97, COMMA]] && Push([[97, COMMA]], [98]) == [[97, COMMA], [98]];
  }

  /** An empty identifier at the end leaves an unpaired comma, past which the decoder runs. */
  lemma EmptyLastExample()
    ensures DecodeIds([], EncodeIds([[97], []])) == PastEnd
  {
    hide DecodeIds, EncodeIds;
    var ids: seq<Text> := [[97], []];
    var more: seq<Text> := [[]];
    CodecIsSplit(ids, []);
    assert ids[1..] == more && more[1..] == [];
    assert Escape([]) == [] && More([]) == [];
    assert Escape([97]) == [97] by { assert [97][1..] == []; }
    assert More(more) == [COMMA];
    SplitPlain(97, [COMMA], [], []);
  }

  /* ---- the code's loops ---- */

  /** `escape_char`, with both characters the comma. */
  method EscapeComma(id: Text) returns (r: Text)
    ensures r == Escape(id)
  {
    hide Escape;
    r := [];
    var i := 0;
    assert id[0..] == id;
    while i < |id|
      invariant i <= |id| && r + Escape(id[i..]) == Escape(id)
    {
      EscapeTurn(id, i);
      if id[i] == COMMA {
        r := r + [COMMA];
      }
      r := r + [id[i]];
      i := i + 1;
    }
    EscapeNothing(id[i..]);
  }

  lemma EscapeTurn(id: Text, i: nat)
    requires i < |id|
    ensures Escape(id[i..]) == (if id[i] == COMMA then [COMMA] else []) + [id[i]] + Escape(id[i + 1..])
  {
    assert id[i..][1..] == id[i + 1..];
  }

  lemma EscapeNothing(id: Text)
    requires id == []
    ensures Escape(id) == []
  {
  }

  /** What is written before the next label. */
  function Dotted(res: Text): Text { if res == [] then [] else res + [DOT] }

  /** `dns_div`. */
  method DnsDiv(src: Text) returns (res: Text)
    ensures res == Div(src)
  {
    hide Div;
    res := [];
    var blockLen, prev, it := 0, 0, 0;
    assert src[0..] == src;
    while it < |src|
      invariant prev <= it <= |src| && blockLen == it - prev <= MAX_LABEL - 1
      invariant Dotted(res) + Div(src[prev..]) == Div(src)
    {
      if blockLen >= MAX_LABEL - 1 {
        DivTurn(src, prev, it, res);
        if res != [] {
          res := res + [DOT];
        }
        res := res + [MARK];
        res := res + src[prev..it];
        prev := it;
        blockLen := 0;
      }
      it := it + 1;
      blockLen := blockLen + 1;
    }
    DivLast(src[prev..]);
    if res != [] {
      res := res + [DOT];
    }
    res := res + [MARK];
    res := res + src[prev..];
  }

  lemma DivLast(s: Text)
    requires |s| <= MAX_LABEL - 1
    ensures Div(s) == [MARK] + s
  {
  }

  lemma DivTurn(src: Text, prev: nat, it: nat, res: Text)
    requires prev + MAX_LABEL - 1 == it < |src|
    ensures Dotted(Dotted(res) + [MARK] + src[prev..it]) + Div(src[it..]) == Dotted(res) + Div(src[prev..])
  {
    var s := src[prev..];
    assert s[..MAX_LABEL - 1] == src[prev..it] && s[MAX_LABEL - 1..] == src[it..];
    assert Div(s) == [MARK] + src[prev..it] + [DOT] + Div(src[it..]);
  }

  /** `dns_undiv`. */
  method DnsUndiv(src: Text) returns (res: Text)
    ensures res == Undiv(src)
  {
    hide Undiv, FirstDot;
    res := [];
    var prev, it := 0, 0;
    assert src[0..] == src;
    while it < |src|
      invariant prev <= it <= |src| && (forall j :: prev <= j < it ==> src[j] != DOT)
      invariant res + Undiv(src[prev..]) == Undiv(src)
      decreases |src| - it
    {
      if src[it] == DOT {
        UndivTurn(src, prev, it);
        res := res + src[prev..it];
        prev := |src|;
        it := it + 1;
        if it == |src| {
          return;
        }
        it := it + 1;
        if it == |src| {
          return;
        }
        prev := it;
      } else {
        it := it + 1;
      }
    }
    UndivTurn(src, prev, it);
    res := res + src[prev..];
  }

  lemma UndivTurn(src: Text, prev: nat, it: nat)
    requires prev <= it <= |src| && (forall j :: prev <= j < it ==> src[j] != DOT)
    requires it < |src| ==> src[it] == DOT
    ensures Undiv(src[prev..]) == src[prev..it] + if it + 2 >= |src| then [] else Undiv(src[it + 2..])
  {
    hide Undiv;
    var s := src[prev..];
    if it < |src| {
      UndivAt(s, it - prev);
      assert s[..it - prev] == src[prev..it];
      if it + 2 < |src| {
        assert s[it - prev + 2..] == src[it + 2..];
      }
    } else {
      UndivDotless(s);
      assert s == src[prev..it];
    }
  }

  /** `dns_encode_external_user_ids`. */
  method EncodeExternalUserIds(ids: seq<Text>) returns (res: Text)
    ensures res == EncodeIds(ids)
  {
    hide Union, Encode, Div;
    var union := JoinIds(ids);
    var encoded := EncodeText([], union);
    assert encoded == Encode(Union(ids));
    res := DnsDiv(encoded);
  }

  method JoinIds(ids: seq<Text>) returns (union: Text)
    ensures union == Union(ids)
  {
    hide Escape, More, Union, Unread;
    union := [];
    var i := 0;
    NoMore(ids);
    AllUnread(ids);
    while i < |ids|
      invariant i <= |ids|
      invariant union + Unread(ids, i) == Union(ids)
    {
      UnreadTurn(ids, i);
      ghost var separator := if i == 0 then [] else [COMMA];
      Reassociate(union, separator, Escape(ids[i]), Unread(ids, i + 1));
      if i != 0 {
        union := union + [COMMA];
      }
      var escaped := EscapeComma(ids[i]);
      union := union + escaped;
      i := i + 1;
    }
  }

  lemma Reassociate(a: Text, b: Text, c: Text, d: Text)
    ensures a + (b + c + d) == a + b + c + d && (b == [] ==> a + b == a)
  {
  }

  lemma AllUnread(ids: seq<Text>)
    ensures [] + Unread(ids, 0) == Union(ids)
  {
  }

  /** What joining still has to append before the i-th identifier. */
  function Unread(ids: seq<Text>, i: nat): Text
    requires i <= |ids|
  {
    if i == 0 then Union(ids) else More(ids[i..])
  }

  lemma UnreadTurn(ids: seq<Text>, i: nat)
    requires i < |ids|
    ensures Unread(ids, i) == (if i == 0 then [] else [COMMA]) + Escape(ids[i]) + Unread(ids, i + 1)
  {
    hide Escape, More;
    MoreTurn(ids, i);
    assert [COMMA] + (Escape(ids[i]) + More(ids[i + 1..])) == [COMMA] + Escape(ids[i]) + More(ids[i + 1..]);
  }

  lemma NoMore(ids: seq<Text>)
    ensures Unread(ids, |ids|) == []
  {
  }

  lemma MoreTurn(ids: seq<Text>, i: nat)
    requires i < |ids|
    ensures More(ids[i..]) == [COMMA] + (Escape(ids[i]) + More(ids[i + 1..]))
  {
    hide Escape;
    assert ids[i..][1..] == ids[i + 1..];
  }

  /** `dns_decode_external_user_ids`: appends to the caller's list; whether base 32 decoding succeeded is
      not looked at. */
  method DecodeExternalUserIds(before: seq<Text>, src: Text) returns (outcome: Outcome)
    ensures outcome == DecodeIds(before, src)
  {
    if src == [] {
      return Listed(before);
    }
    var undotted := DnsUndiv(src[1..]);
    var ok, bytes := DecodeText([], undotted);
    assert bytes == Decode(undotted).bytes;
    outcome := SplitIds(before, bytes);
  }

  lemma SplitEnds(s: Text, cur: Text, ids: seq<Text>)
    ensures Split([], cur, ids) == Listed(Push(ids, cur))
    ensures |s| == 1 && s[0] == COMMA ==> Split(s, cur, ids) == PastEnd
  {
  }

  method SplitIds(before: seq<Text>, bytes: Text) returns (outcome: Outcome)
    ensures outcome == Split(bytes, [], before)
  {
    hide Split;
    var ids, cur: Text := before, [];
    var it := 0;
    assert bytes[0..] == bytes;
    while it < |bytes|
      invariant it <= |bytes| && Split(bytes[it..], cur, ids) == Split(bytes, [], before)
      decreases |bytes| - it
    {
      var s := bytes[it..];
      if bytes[it] == COMMA {
        it := it + 1;
        if it != |bytes| && bytes[it] == COMMA {
          assert s == [COMMA, COMMA] + bytes[it + 1..];
          SplitPair(bytes[it + 1..], cur, ids);
          cur := cur + [COMMA];
        } else {
          SplitEnds(s, cur, ids);
          if it != |bytes| {
            assert s == [COMMA, bytes[it]] + bytes[it + 1..];
            SplitSeparator(bytes[it], bytes[it + 1..], cur, ids);
          }
          if cur != [] {
            ids := ids + [cur];
          }
          cur := [];
          if it == |bytes| {
            return PastEnd;
          }
          cur := cur + [bytes[it]];
          assert cur == [bytes[it]];
        }
      } else {
        assert s == [bytes[it]] + bytes[it + 1..];
        SplitPlain(bytes[it], bytes[it + 1..], cur, ids);
        cur := cur + [bytes[it]];
      }
      it := it + 1;
    }
    assert bytes[it..] == [];
    SplitEnds([], cur, ids);
    if cur != [] {
      ids := ids + [cur];
    }
    outcome := Listed(ids);
  }
}
