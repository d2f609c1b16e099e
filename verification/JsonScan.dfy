/** Byte classes of the JSON scanner, the scalar finder that specifies each of them, and the
    SSE2 / AVX2 / AVX-512 finders that work on chunks with a lane mask and a trailing-zero count.

    A text is a `string` whose characters stand for bytes. */
module JsonScan {

  datatype ByteClass = NonSpace | StringSpecial | Quote | CompoundSpecial | UnquotedDelimiter

  datatype Level = Scalar | Sse2 | Avx2 | Avx512bw

  predicate IsSpace(c: char) {
    c == ' ' || '\t' <= c <= '\r'
  }

  predicate Matches(cls: ByteClass, c: char) {
    match cls
    case NonSpace => !IsSpace(c)
    case StringSpecial => c == '"' || c == '\\'
    case Quote => c == '"'
    case CompoundSpecial => c == '"' || c == '{' || c == '}' || c == '[' || c == ']'
    case UnquotedDelimiter => c == ',' || c == ']' || c == '}'
  }

  /** The scalar finder: the first position at or after `p` whose byte is in the class. */
  function Scan(cls: ByteClass, s: string, p: nat): (q: nat)
    requires p <= |s|
    ensures p <= q <= |s|
    ensures q < |s| ==> Matches(cls, s[q])
    decreases |s| - p
  {
    if p == |s| || Matches(cls, s[p]) then p else Scan(cls, s, p + 1)
  }

  lemma {:induction false} ScanMisses(cls: ByteClass, s: string, p: nat)
    requires p <= |s|
    ensures forall i :: p <= i < Scan(cls, s, p) ==> !Matches(cls, s[i])
    decreases |s| - p
  {
    if p < |s| && !Matches(cls, s[p]) {
      ScanMisses(cls, s, p + 1);
    }
  }

  lemma {:induction false} ScanFrom(cls: ByteClass, s: string, p: nat, q: nat)
    requires p <= q <= |s|
    requires forall i :: p <= i < q ==> !Matches(cls, s[i])
    ensures Scan(cls, s, p) == Scan(cls, s, q)
    decreases q - p
  {
    if p < q {
      ScanFrom(cls, s, p + 1, q);
    }
  }

  /* ---- lane masks ---- */

  /** Bytes each vector compare looks for; for `NonSpace` the mask is complemented afterwards. */
  function Needles(cls: ByteClass): (n: seq<char>)
    ensures |n| > 0
  {
    match cls
    case NonSpace => [' ', '\t', '\n', '\U{0B}', '\U{0C}', '\r']
    case StringSpecial => ['"', '\\']
    case Quote => ['"']
    case CompoundSpecial => ['"', '{', '}', '[', ']']
    case UnquotedDelimiter => [',', ']', '}']
  }

  function EqLanes(chunk: string, c: char): (lanes: seq<bool>)
    ensures |lanes| == |chunk|
  {
    seq(|chunk|, i requires 0 <= i < |chunk| => chunk[i] == c)
  }

  function OrLanes(a: seq<bool>, b: seq<bool>): (lanes: seq<bool>)
    requires |a| == |b|
    ensures |lanes| == |a|
  {
    seq(|a|, i requires 0 <= i < |a| => a[i] || b[i])
  }

  /** Lane i becomes bit i of an unsigned mask. */
  function Movemask(lanes: seq<bool>): nat {
    if lanes == [] then 0 else (if lanes[0] then 1 else 0) + 2 * Movemask(lanes[1..])
  }

  /** Bitwise or of two masks. */
  function BitOr(a: nat, b: nat): nat {
    if a == 0 && b == 0 then 0
    else (if a % 2 == 1 || b % 2 == 1 then 1 else 0) + 2 * BitOr(a / 2, b / 2)
  }

  function Ones(width: nat): nat {
    if width == 0 then 0 else 1 + 2 * Ones(width - 1)
  }

  /** Count of trailing zero bits. */
  function Ctz(mask: nat): nat
    requires mask > 0
  {
    if mask % 2 == 1 then 0 else 1 + Ctz(mask / 2)
  }

  /** SSE2 and AVX2: the compare results are or-ed as vectors, then moved to a mask. */
  function VectorLanes(chunk: string, needles: seq<char>): (lanes: seq<bool>)
    requires |needles| > 0
    ensures |lanes| == |chunk|
    ensures forall i :: 0 <= i < |chunk| ==> (lanes[i] <==> chunk[i] in needles)
  {
    if |needles| == 1 then EqLanes(chunk, needles[0])
    else OrLanes(EqLanes(chunk, needles[0]), VectorLanes(chunk, needles[1..]))
  }

  /** AVX-512: every compare gives a mask, and the masks are or-ed. */
  function OrOfMasks(chunk: string, needles: seq<char>): nat
    requires |needles| > 0
  {
    var m := Movemask(EqLanes(chunk, needles[0]));
    if |needles| == 1 then m else BitOr(m, OrOfMasks(chunk, needles[1..]))
  }

  lemma {:induction false} MaskIsZero(lanes: seq<bool>)
    ensures Movemask(lanes) == 0 <==> forall i :: 0 <= i < |lanes| ==> !lanes[i]
  {
    if lanes != [] {
      MaskIsZero(lanes[1..]);
      assert forall i :: 1 <= i < |lanes| ==> lanes[i] == lanes[1..][i - 1];
    }
  }

  lemma {:induction false} CtzIsFirstLane(lanes: seq<bool>)
    requires Movemask(lanes) > 0
    ensures var k := Ctz(Movemask(lanes));
            k < |lanes| && lanes[k] && forall i :: 0 <= i < k ==> !lanes[i]
  {
    if !lanes[0] {
      CtzIsFirstLane(lanes[1..]);
      assert Movemask(lanes) / 2 == Movemask(lanes[1..]);
    }
  }

  lemma {:induction false} OrOfMovemasks(a: seq<bool>, b: seq<bool>)
    requires |a| == |b|
    ensures BitOr(Movemask(a), Movemask(b)) == Movemask(OrLanes(a, b))
  {
    if a == [] {
    } else {
      OrOfMovemasks(a[1..], b[1..]);
      assert OrLanes(a, b)[1..] == OrLanes(a[1..], b[1..]);
      assert Movemask(a) / 2 == Movemask(a[1..]) && Movemask(b) / 2 == Movemask(b[1..]);
    }
  }

  /** Or-ing masks is the same as or-ing vectors. */
  lemma {:induction false} MaskForms(chunk: string, needles: seq<char>)
    requires |needles| > 0
    ensures OrOfMasks(chunk, needles) == Movemask(VectorLanes(chunk, needles))
  {
    if |needles| > 1 {
      MaskForms(chunk, needles[1..]);
      OrOfMovemasks(EqLanes(chunk, needles[0]), VectorLanes(chunk, needles[1..]));
    }
  }

  function NotLanes(lanes: seq<bool>): (r: seq<bool>)
    ensures |r| == |lanes|
  {
    seq(|lanes|, i requires 0 <= i < |lanes| => !lanes[i])
  }

  lemma {:induction false} ComplementMask(lanes: seq<bool>)
    ensures Movemask(lanes) <= Ones(|lanes|)
    ensures Ones(|lanes|) - Movemask(lanes) == Movemask(NotLanes(lanes))
  {
    if lanes != [] {
      ComplementMask(lanes[1..]);
      assert NotLanes(lanes)[1..] == NotLanes(lanes[1..]);
    }
  }

  /** The mask a chunk finder tests against zero. */
  function ChunkMask(cls: ByteClass, chunk: string, perMask: bool): nat {
    var m := if perMask then OrOfMasks(chunk, Needles(cls)) else Movemask(VectorLanes(chunk, Needles(cls)));
    if cls.NonSpace? then
      ComplementMask(VectorLanes(chunk, Needles(cls)));
      MaskForms(chunk, Needles(cls));
      Ones(|chunk|) - m
    else m
  }

  /** A non-zero chunk mask points at the first byte of the class; a zero mask says there is none. */
  lemma ChunkMaskFinds(cls: ByteClass, chunk: string, perMask: bool)
    ensures var m := ChunkMask(cls, chunk, perMask);
            && (m == 0 ==> forall i :: 0 <= i < |chunk| ==> !Matches(cls, chunk[i]))
            && (m > 0 ==> var k := Ctz(m);
                          k < |chunk| && Matches(cls, chunk[k]) && forall i :: 0 <= i < k ==> !Matches(cls, chunk[i]))
  {
    hide VectorLanes, Movemask, OrOfMasks, Ones, Ctz, Needles, Matches, NotLanes;
    var lanes := VectorLanes(chunk, Needles(cls));
    MaskForms(chunk, Needles(cls));
    ComplementMask(lanes);
    var hits := if cls.NonSpace? then NotLanes(lanes) else lanes;
    HitsMatch(cls, chunk);
    MaskIsZero(hits);
    if Movemask(hits) > 0 {
      CtzIsFirstLane(hits);
    }
  }

  lemma HitsMatch(cls: ByteClass, chunk: string)
    ensures var lanes := VectorLanes(chunk, Needles(cls));
            var hits := if cls.NonSpace? then NotLanes(lanes) else lanes;
            forall i :: 0 <= i < |chunk| ==> (hits[i] <==> Matches(cls, chunk[i]))
  {
    hide VectorLanes, Needles, Matches;
    forall i | 0 <= i < |chunk|
      ensures chunk[i] in Needles(cls) <==> Matches(cls, chunk[i]) != cls.NonSpace?
    {
      NeedlesAre(cls, chunk[i]);
    }
  }

  /** The bytes compared with are those of the class, or for `NonSpace` all the others. */
  lemma NeedlesAre(cls: ByteClass, c: char)
    ensures c in Needles(cls) <==> Matches(cls, c) != cls.NonSpace?
  {
    match cls
    case NonSpace =>
    case StringSpecial =>
    case Quote =>
    case CompoundSpecial =>
    case UnquotedDelimiter =>
  }

  /* ---- the finders ---- */

  /** The loop shared by the vector finders: whole chunks only, stopping at the first hit. */
  method ScanChunks(cls: ByteClass, width: nat, perMask: bool, s: string, pos: nat) returns (found: bool, q: nat)
    requires width > 0 && pos <= |s|
    ensures pos <= q <= |s|
    ensures Scan(cls, s, q) == Scan(cls, s, pos)
    ensures found ==> q == Scan(cls, s, pos)
    ensures !found ==> |s| - q < width
  {
    hide ChunkMask, Ctz;
    q := pos;
    while |s| - q >= width
      invariant pos <= q <= |s|
      invariant Scan(cls, s, q) == Scan(cls, s, pos)
    {
      var chunk := s[q..q + width];
      var mask := ChunkMask(cls, chunk, perMask);
      ChunkMaskFinds(cls, chunk, perMask);
      if mask != 0 {
        var hit := q + Ctz(mask);
        assert forall i :: q <= i < hit ==> s[i] == chunk[i - q];
        ScanFrom(cls, s, q, hit);
        return true, hit;
      }
      assert forall i :: q <= i < q + width ==> s[i] == chunk[i - q];
      ScanFrom(cls, s, q, q + width);
      q := q + width;
    }
    found := false;
  }

  method FindScalar(cls: ByteClass, s: string, pos: nat) returns (q: nat)
    requires pos <= |s|
    ensures q == Scan(cls, s, pos)
  {
    q := pos;
    while q != |s| && !Matches(cls, s[q])
      invariant pos <= q <= |s|
      invariant Scan(cls, s, q) == Scan(cls, s, pos)
    {
      q := q + 1;
    }
  }

  method FindSse2(cls: ByteClass, s: string, pos: nat) returns (q: nat)
    requires pos <= |s|
    ensures q == Scan(cls, s, pos)
  {
    var found;
    found, q := ScanChunks(cls, 16, false, s, pos);
    if !found {
      q := FindScalar(cls, s, q);
    }
  }

  method FindAvx2(cls: ByteClass, s: string, pos: nat) returns (q: nat)
    requires pos <= |s|
    ensures q == Scan(cls, s, pos)
  {
    var found;
    found, q := ScanChunks(cls, 32, false, s, pos);
    if !found {
      q := FindSse2(cls, s, q);
    }
  }

  method FindAvx512bw(cls: ByteClass, s: string, pos: nat) returns (q: nat)
    requires pos <= |s|
    ensures q == Scan(cls, s, pos)
  {
    var found;
    found, q := ScanChunks(cls, 64, true, s, pos);
    if !found {
      q := FindAvx2(cls, s, q);
    }
  }

  /** Dispatch on the level and on the number of bytes left. */
  method Find(level: Level, cls: ByteClass, s: string, pos: nat) returns (q: nat)
    requires pos <= |s|
    ensures q == Scan(cls, s, pos)
  {
    var size := |s| - pos;
    if level == Avx512bw && size >= 64 {
      q := FindAvx512bw(cls, s, pos);
    } else if (level == Avx512bw || level == Avx2) && size >= 32 {
      q := FindAvx2(cls, s, pos);
    } else if level != Scalar && size >= 16 {
      q := FindSse2(cls, s, pos);
    } else {
      q := FindScalar(cls, s, pos);
    }
  }
}
