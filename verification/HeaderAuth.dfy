/**
 Masking the values of authorization headers to the end of their line. The pass is stated for any list of
 plain header prefixes: each ends with its only space and holds no line end and no angle bracket.
 */
module HeaderAuth {
  import opened Text

  const PREFIXES := ["Authorization: ", "authorization: ", "Proxy-Authorization: ", "proxy-authorization: "]

  predicate LineEnd(c: char) { c == '\n' || c == '\r' }

  predicate PlainPrefix(p: string) {
    && p != ""
    && forall i :: 0 <= i < |p| ==> (p[i] == ' ' <==> i == |p| - 1) && p[i] != '<' && p[i] != '>' && !LineEnd(p[i])
  }

  predicate Plain(ps: seq<string>) {
    forall i :: 0 <= i < |ps| ==> PlainPrefix(ps[i])
  }

  lemma PrefixesArePlain()
    ensures Plain(PREFIXES)
  {
    assert PlainPrefix("Authorization: ");
    assert PlainPrefix("authorization: ");
    assert PlainPrefix("Proxy-Authorization: ");
    assert PlainPrefix("proxy-authorization: ");
  }

  // ---- finding headers ----

  /** The length of the header prefix that starts at a position, or zero. */
  function HeaderAt(ps: seq<string>, t: string, k: int): (n: nat)
    ensures n > 0 ==> 0 <= k && k + n <= |t|
  {
    if ps == [] then 0
    else if Occurs(t, ps[0], k) && ps[0] != "" then |ps[0]|
    else HeaderAt(ps[1..], t, k)
  }

  lemma {:induction false} HeaderFound(ps: seq<string>, t: string, k: int) returns (j: nat)
    requires HeaderAt(ps, t, k) > 0
    ensures j < |ps| && Occurs(t, ps[j], k) && |ps[j]| == HeaderAt(ps, t, k)
  {
    if Occurs(t, ps[0], k) && ps[0] != "" {
      j := 0;
    } else {
      j := HeaderFound(ps[1..], t, k);
      j := j + 1;
    }
  }

  lemma {:induction false} HeaderKnown(ps: seq<string>, t: string, k: int, j: nat)
    requires j < |ps| && ps[j] != "" && Occurs(t, ps[j], k)
    ensures HeaderAt(ps, t, k) > 0
  {
    if j > 0 {
      HeaderKnown(ps[1..], t, k, j - 1);
    }
  }

  /** The header's only space is its last character. */
  lemma SpaceEndsHeader(ps: seq<string>, t: string, k: int)
    requires Plain(ps) && HeaderAt(ps, t, k) > 0
    ensures forall i :: k <= i < k + HeaderAt(ps, t, k) ==>
              (t[i] == ' ' <==> i == k + HeaderAt(ps, t, k) - 1) && t[i] != '<' && t[i] != '>' && !LineEnd(t[i])
  {
    var n := HeaderAt(ps, t, k);
    var j := HeaderFound(ps, t, k);
    assert PlainPrefix(ps[j]);
    forall i | k <= i < k + n ensures t[i] == ps[j][i - k] {
      OccursChar(t, ps[j], k, i);
    }
  }

  /** At most one length fits at a position. */
  lemma HeaderIs(ps: seq<string>, t: string, k: int, j: nat)
    requires Plain(ps) && j < |ps| && Occurs(t, ps[j], k)
    ensures HeaderAt(ps, t, k) == |ps[j]|
  {
    var p := ps[j];
    assert PlainPrefix(p);
    HeaderKnown(ps, t, k, j);
    SpaceEndsHeader(ps, t, k);
    forall i | k <= i < k + |p| ensures t[i] == p[i - k] {
      OccursChar(t, p, k, i);
    }
    assert t[k + |p| - 1] == ' ';
    assert t[k + HeaderAt(ps, t, k) - 1] == ' ';
  }

  lemma HeaderInPrefix(ps: seq<string>, a: string, b: string, k: int)
    requires Plain(ps)
    ensures HeaderAt(ps, a, k) > 0 ==> HeaderAt(ps, a + b, k) == HeaderAt(ps, a, k)
    ensures k + HeaderAt(ps, a + b, k) <= |a| ==> HeaderAt(ps, a, k) == HeaderAt(ps, a + b, k)
  {
    if HeaderAt(ps, a, k) > 0 {
      var j := HeaderFound(ps, a, k);
      OccursInPrefix(a, b, ps[j], k);
      HeaderIs(ps, a + b, k, j);
    } else if HeaderAt(ps, a + b, k) > 0 && k + HeaderAt(ps, a + b, k) <= |a| {
      var j := HeaderFound(ps, a + b, k);
      OccursInPrefix(a, b, ps[j], k);
      HeaderKnown(ps, a, k, j);
    }
  }

  lemma {:induction false} HeaderInSuffix(ps: seq<string>, a: string, b: string, k: int)
    requires |a| <= k
    ensures HeaderAt(ps, a + b, k) == HeaderAt(ps, b, k - |a|)
  {
    if ps != [] {
      OccursInSuffix(a, b, ps[0], k);
      HeaderInSuffix(ps[1..], a, b, k);
    }
  }

  /** No header crosses into text that starts with a character no prefix holds. */
  lemma NotAcross(ps: seq<string>, a: string, b: string, k: int)
    requires Plain(ps) && k < |a| && (b == "" || LineEnd(b[0]) || b[0] == '<')
    ensures HeaderAt(ps, a + b, k) == HeaderAt(ps, a, k)
  {
    HeaderInPrefix(ps, a, b, k);
    if b == "" {
      assert a + b == a;
    } else {
      assert (a + b)[|a|] == b[0];
      if HeaderAt(ps, a + b, k) > 0 {
        SpaceEndsHeader(ps, a + b, k);
      }
    }
  }

  /** The earliest header prefix from a position on, or -1. */
  function HeaderFrom(ps: seq<string>, t: string, i: nat): (k: int)
    requires i <= |t|
    ensures k == -1 || (i <= k && HeaderAt(ps, t, k) > 0)
    ensures forall j :: i <= j && (k == -1 || j < k) ==> HeaderAt(ps, t, j) == 0
    decreases |t| - i
  {
    if HeaderAt(ps, t, i) > 0 then i
    else if i == |t| then -1
    else HeaderFrom(ps, t, i + 1)
  }

  /** The position of the first header of a text, or -1. */
  function FirstAt(ps: seq<string>, t: string): (k: int)
    ensures k == -1 || (0 <= k && HeaderAt(ps, t, k) > 0)
    ensures forall j :: 0 <= j && (k == -1 || j < k) ==> HeaderAt(ps, t, j) == 0
  {
    HeaderFrom(ps, t, 0)
  }

  lemma FirstAtIs(ps: seq<string>, t: string, k: nat)
    requires HeaderAt(ps, t, k) > 0 && forall j :: 0 <= j < k ==> HeaderAt(ps, t, j) == 0
    ensures FirstAt(ps, t) == k
  {
  }

  lemma NoneAt(ps: seq<string>, t: string)
    requires forall j :: 0 <= j ==> HeaderAt(ps, t, j) == 0
    ensures FirstAt(ps, t) == -1
  {
  }

  /** Where the first header ends, or -1. */
  function HeadEnd(ps: seq<string>, t: string): (end: int)
    ensures end == -1 || 0 < end <= |t|
    ensures end == -1 <==> FirstAt(ps, t) == -1
  {
    if FirstAt(ps, t) < 0 then -1 else FirstAt(ps, t) + HeaderAt(ps, t, FirstAt(ps, t))
  }

  /** The head ends with a header prefix, and it is the first one. */
  predicate EndsWithHeader(ps: seq<string>, head: string) {
    head != "" && HeadEnd(ps, head) == |head|
  }

  /** Whatever header starts in a head also ends where the head ends. */
  lemma LastHeaderEnds(ps: seq<string>, head: string, k: nat)
    requires Plain(ps) && EndsWithHeader(ps, head) && HeaderAt(ps, head, k) > 0
    ensures k + HeaderAt(ps, head, k) == |head|
  {
    var first := FirstAt(ps, head);
    SpaceEndsHeader(ps, head, first);
    SpaceEndsHeader(ps, head, k);
    assert first <= k;
    assert head[k + HeaderAt(ps, head, k) - 1] == ' ';
  }

  /** The first header of a head stays the first one, whatever follows. */
  lemma HeadEndInPrefix(ps: seq<string>, head: string, b: string)
    requires Plain(ps) && EndsWithHeader(ps, head)
    ensures HeadEnd(ps, head + b) == |head|
  {
    var t, k, last := head + b, FirstAt(ps, head), |head| - 1;
    HeaderInPrefix(ps, head, b, k);
    SpaceEndsHeader(ps, head, k);
    assert t[last] == head[last] == ' ';
    forall j | 0 <= j < k ensures HeaderAt(ps, t, j) == 0 {
      HeaderInPrefix(ps, head, b, j);
      if HeaderAt(ps, t, j) > 0 {
        SpaceEndsHeader(ps, t, j);
      }
    }
    FirstAtIs(ps, t, k);
  }

  lemma HeadOfText(ps: seq<string>, head: string, rest: string)
    requires Plain(ps) && HeadEnd(ps, head + rest) == |head| && head != ""
    ensures EndsWithHeader(ps, head)
  {
    var t := head + rest;
    var k := FirstAt(ps, t);
    forall j | 0 <= j <= k ensures HeaderAt(ps, head, j) == HeaderAt(ps, t, j) {
      HeaderInPrefix(ps, head, rest, j);
    }
    FirstAtIs(ps, head, k);
  }

  // ---- one header and its value ----

  function LineEndFrom(t: string, from: nat): (end: nat)
    requires from <= |t|
    ensures from <= end <= |t| && (end < |t| ==> LineEnd(t[end]))
    ensures forall k :: from <= k < end ==> !LineEnd(t[k])
    decreases |t| - from
  {
    if from == |t| || LineEnd(t[from]) then from else LineEndFrom(t, from + 1)
  }

  lemma LineEndIs(t: string, from: nat, end: nat)
    requires from <= end <= |t| && (end < |t| ==> LineEnd(t[end]))
    requires forall k :: from <= k < end ==> !LineEnd(t[k])
    ensures LineEndFrom(t, from) == end
  {
  }

  lemma EndOfValue(head: string, value: string, rest: string)
    requires (forall i :: 0 <= i < |value| ==> !LineEnd(value[i])) && (rest == "" || LineEnd(rest[0]))
    ensures LineEndFrom(head + value + rest, |head|) == |head| + |value|
  {
    var t := head + value + rest;
    forall k | |head| <= k < |head| + |value| ensures !LineEnd(t[k]) {
      assert t[k] == value[k - |head|];
    }
    LineEndIs(t, |head|, |head| + |value|);
  }

  /** A text up to the end of its first header prefix, the value behind it, and the rest. */
  datatype Scan = NoHeader | Header(head: string, value: string, rest: string)

  predicate IsHeader(ps: seq<string>, head: string, value: string, rest: string) {
    && EndsWithHeader(ps, head) && (forall i :: 0 <= i < |value| ==> !LineEnd(value[i]))
    && (rest == "" || LineEnd(rest[0]))
  }

  function First(ps: seq<string>, t: string): (scan: Scan)
    ensures scan.NoHeader? <==> HeadEnd(ps, t) == -1
    ensures scan.Header? ==> t == scan.head + scan.value + scan.rest && scan.head != ""
  {
    var from := HeadEnd(ps, t);
    if from < 0 then NoHeader
    else
      var end := LineEndFrom(t, from);
      Header(t[..from], t[from..end], t[end..])
  }

  lemma FirstShape(ps: seq<string>, t: string)
    requires Plain(ps) && First(ps, t).Header?
    ensures IsHeader(ps, First(ps, t).head, First(ps, t).value, First(ps, t).rest)
  {
    var from := HeadEnd(ps, t);
    assert t == t[..from] + t[from..];
    HeadOfText(ps, t[..from], t[from..]);
  }

  /** A text can be read in only one such way. */
  lemma FirstIs(ps: seq<string>, head: string, value: string, rest: string)
    requires Plain(ps) && IsHeader(ps, head, value, rest)
    ensures First(ps, head + value + rest) == Header(head, value, rest)
  {
    var t, end := head + value + rest, |head| + |value|;
    assert HeadEnd(ps, t) == |head| by {
      assert t == head + (value + rest);
      HeadEndInPrefix(ps, head, value + rest);
    }
    assert LineEndFrom(t, |head|) == end by { EndOfValue(head, value, rest); }
    assert t[..|head|] == head && t[|head|..end] == value && t[end..] == rest;
  }

  // ---- masking ----

  /** `redactHeaderAuth`. */
  function Masked(ps: seq<string>, t: string): string
    decreases |t|
  {
    match First(ps, t)
    case NoHeader => t
    case Header(head, _, rest) => head + MASK + Masked(ps, rest)
  }

  lemma MaskedKeepsFirst(ps: seq<string>, t: string)
    ensures Masked(ps, t) == "" <==> t == ""
    ensures t != "" ==> Masked(ps, t)[0] == t[0]
  {
  }

  lemma MaskedOf(ps: seq<string>, head: string, value: string, rest: string)
    requires Plain(ps) && IsHeader(ps, head, value, rest)
    ensures Masked(ps, head + value + rest) == head + MASK + Masked(ps, rest)
  {
    FirstIs(ps, head, value, rest);
  }

  lemma MaskIsValue(ps: seq<string>, head: string, value: string, rest: string, after: string)
    requires IsHeader(ps, head, value, rest) && (after == "" <==> rest == "") && (rest != "" ==> after[0] == rest[0])
    ensures IsHeader(ps, head, MASK, after)
  {
  }

  /** A masked value is masked again to itself. */
  lemma {:induction false} MaskedIdempotent(ps: seq<string>, t: string)
    requires Plain(ps)
    ensures Masked(ps, Masked(ps, t)) == Masked(ps, t)
    decreases |t|
  {
    match First(ps, t)
    case NoHeader =>
    case Header(head, value, rest) =>
      MaskedIdempotent(ps, rest);
      var after := Masked(ps, rest);
      assert IsHeader(ps, head, MASK, after) by {
        FirstShape(ps, t);
        MaskedKeepsFirst(ps, rest);
        MaskIsValue(ps, head, value, rest, after);
      }
      MaskedOf(ps, head, MASK, after);
  }

  // ---- line by line ----

  /** Text without headers that no header can start in belongs to the head of what follows. */
  lemma HeaderGrows(ps: seq<string>, a: string, head: string, value: string, rest: string)
    requires Plain(ps) && IsHeader(ps, head, value, rest)
    requires forall j :: 0 <= j < |a| ==> HeaderAt(ps, a + (head + value + rest), j) == 0
    ensures IsHeader(ps, a + head, value, rest)
  {
    var tail := value + rest;
    Associate(head, value, rest);
    HeadEndAfter(ps, a, head + tail);
    HeadEndInPrefix(ps, head, tail);
    Associate(a, head, tail);
    HeadOfText(ps, a + head, tail);
  }

  lemma HeadEndAfter(ps: seq<string>, a: string, b: string)
    requires forall j :: 0 <= j < |a| ==> HeaderAt(ps, a + b, j) == 0
    ensures HeadEnd(ps, a + b) == if HeadEnd(ps, b) == -1 then -1 else |a| + HeadEnd(ps, b)
  {
    var k := FirstAt(ps, b);
    forall j | |a| <= j ensures HeaderAt(ps, a + b, j) == HeaderAt(ps, b, j - |a|) {
      HeaderInSuffix(ps, a, b, j);
    }
    if k >= 0 {
      FirstAtIs(ps, a + b, |a| + k);
    } else {
      NoneAt(ps, a + b);
    }
  }

  /** Masking starts afresh at the end of a line. */
  lemma {:induction false} MaskedSplits(ps: seq<string>, a: string, b: string)
    requires Plain(ps) && (b == "" || LineEnd(b[0]))
    ensures Masked(ps, a + b) == Masked(ps, a) + Masked(ps, b)
    decreases |a|
  {
    match First(ps, a)
    case NoHeader =>
      forall j | 0 <= j < |a| ensures HeaderAt(ps, a + b, j) == 0 { NotAcross(ps, a, b, j); }
      MaskedBehind(ps, a, b);
    case Header(head, value, rest) =>
      FirstShape(ps, a);
      MaskedSplits(ps, rest, b);
      MaskedOf(ps, head, value, rest + b);
      Associate(head + value, rest, b);
      Associate(head + MASK, Masked(ps, rest), Masked(ps, b));
  }

  lemma MaskedBehind(ps: seq<string>, a: string, b: string)
    requires Plain(ps) && forall j :: 0 <= j < |a| ==> HeaderAt(ps, a + b, j) == 0
    ensures Masked(ps, a + b) == a + Masked(ps, b)
  {
    match First(ps, b)
    case NoHeader =>
      HeadEndAfter(ps, a, b);
    case Header(head, value, rest) =>
      FirstShape(ps, b);
      HeaderGrows(ps, a, head, value, rest);
      MaskedOf(ps, a + head, value, rest);
      Regroup(a, head, value, rest);
      Regroup(a, head, MASK, Masked(ps, rest));
  }

  lemma NothingStartsAtLineEnd(ps: seq<string>, t: string)
    requires Plain(ps) && t != "" && LineEnd(t[0])
    ensures HeaderAt(ps, t, 0) == 0
  {
    if HeaderAt(ps, t, 0) > 0 {
      SpaceEndsHeader(ps, t, 0);
    }
  }

  /** Masking a text is masking each of its lines. */
  lemma MaskedLine(ps: seq<string>, line: string, rest: string)
    requires Plain(ps)
    ensures Masked(ps, line + "\n" + rest) == Masked(ps, line) + "\n" + Masked(ps, rest)
  {
    var newline := "\n";
    MaskedSplits(ps, line, newline + rest);
    NothingStartsAtLineEnd(ps, newline + rest);
    MaskedBehind(ps, newline, rest);
    Associate(line, newline, rest);
    Associate(Masked(ps, line), newline, Masked(ps, rest));
  }

  lemma {:induction false} MaskedOneLine(ps: seq<string>, line: string)
    requires OneLine(line)
    ensures OneLine(Masked(ps, line))
    decreases |line|
  {
    match First(ps, line)
    case NoHeader =>
    case Header(head, value, rest) =>
      OneLineParts(head, value, rest);
      MaskedOneLine(ps, rest);
      OneLineParts(head, MASK, Masked(ps, rest));
  }

  lemma OneLineParts(a: string, b: string, c: string)
    ensures OneLine(a + b + c) <==> OneLine(a) && OneLine(b) && OneLine(c)
  {
    var t := a + b + c;
    assert forall i :: 0 <= i < |a| ==> t[i] == a[i];
    assert forall i :: 0 <= i < |b| ==> t[|a| + i] == b[i];
    assert forall i :: 0 <= i < |c| ==> t[|a| + |b| + i] == c[i];
  }

  // ---- every header value is masked ----

  /** A header in a masked text is followed by the mask and the end of its line. */
  ghost predicate ValueMasked(ps: seq<string>, out: string, k: nat) {
    HeaderAt(ps, out, k) > 0 ==>
      var from := k + HeaderAt(ps, out, k);
      Occurs(out, MASK, from) && LineEndFrom(out, from) == from + |MASK|
  }

  lemma {:induction false} HeadersAreMasked(ps: seq<string>, t: string, k: nat)
    requires Plain(ps)
    ensures ValueMasked(ps, Masked(ps, t), k)
    decreases |t|
  {
    match First(ps, t)
    case NoHeader =>
    case Header(head, value, rest) =>
      FirstShape(ps, t);
      MaskedKeepsFirst(ps, rest);
      if k < |head| {
        FirstIsMasked(ps, head, Masked(ps, rest), k);
      } else if k < |head + MASK| {
        NotInMask(ps, head, Masked(ps, rest), k);
      } else {
        HeadersAreMasked(ps, rest, k - |head + MASK|);
        LaterIsMasked(ps, head + MASK, Masked(ps, rest), k);
      }
  }

  lemma FirstIsMasked(ps: seq<string>, head: string, rest: string, k: nat)
    requires Plain(ps) && EndsWithHeader(ps, head) && (rest == "" || LineEnd(rest[0])) && k < |head|
    ensures ValueMasked(ps, head + MASK + rest, k)
  {
    Associate(head, MASK, rest);
    NotAcross(ps, head, MASK + rest, k);
    MaskFollows(head, rest);
    if HeaderAt(ps, head, k) > 0 {
      LastHeaderEnds(ps, head, k);
    }
  }

  lemma MaskFollows(head: string, rest: string)
    requires rest == "" || LineEnd(rest[0])
    ensures Occurs(head + MASK + rest, MASK, |head|)
    ensures LineEndFrom(head + MASK + rest, |head|) == |head| + |MASK|
  {
    var out := head + MASK + rest;
    assert out[|head|..|head| + |MASK|] == MASK;
    EndOfValue(head, MASK, rest);
  }

  lemma NotInMask(ps: seq<string>, head: string, rest: string, k: nat)
    requires Plain(ps) && |head| <= k < |head + MASK|
    ensures ValueMasked(ps, head + MASK + rest, k)
  {
    HeaderInSuffix(ps, head, MASK + rest, k);
    assert head + MASK + rest == head + (MASK + rest);
    var tail, i := MASK + rest, k - |head|;
    if HeaderAt(ps, tail, i) > 0 {
      SpaceEndsHeader(ps, tail, i);
      NoSpaceInMask(rest, i, i + HeaderAt(ps, tail, i) - 1);
    }
  }

  /** Going on from inside the mask, its closing bracket comes before any space. */
  lemma NoSpaceInMask(rest: string, i: nat, space: nat)
    requires i < |MASK| && i <= space < |MASK + rest| && (MASK + rest)[space] == ' '
    ensures i <= |MASK| - 1 < space && (MASK + rest)[|MASK| - 1] == '>'
  {
    assert forall m :: 0 <= m < |MASK| ==> MASK[m] != ' ' && (MASK + rest)[m] == MASK[m];
  }

  lemma LaterIsMasked(ps: seq<string>, a: string, b: string, k: nat)
    requires |a| <= k && ValueMasked(ps, b, k - |a|)
    ensures ValueMasked(ps, a + b, k)
  {
    HeaderInSuffix(ps, a, b, k);
    if HeaderAt(ps, b, k - |a|) > 0 {
      var from := k - |a| + HeaderAt(ps, b, k - |a|);
      OccursInSuffix(a, b, MASK, |a| + from);
      LineEndIs(a + b, |a| + from, |a| + from + |MASK|);
    }
  }

  // ---- the code's loops ----

  /** The earliest prefix of a list in a text, found by searching for each of them. */
  method FindHeader(ps: seq<string>, t: string) returns (best: int, length: nat)
    requires Plain(ps)
    ensures best == FirstAt(ps, t) && (best >= 0 ==> length == HeaderAt(ps, t, best))
  {
    best, length := -1, 0;
    for n := 0 to |ps|
      invariant best == -1 ==> forall i, j :: 0 <= i < n && 0 <= j ==> !Occurs(t, ps[i], j)
      invariant best != -1 ==> 0 <= best && length == HeaderAt(ps, t, best) > 0
      invariant best != -1 ==> forall i, j :: 0 <= i < n && 0 <= j < best ==> !Occurs(t, ps[i], j)
    {
      var k := Index(t, ps[n]);
      if k >= 0 && (best < 0 || k < best) {
        assert PlainPrefix(ps[n]);
        HeaderIs(ps, t, k, n);
        best, length := k, |ps[n]|;
      }
    }
    forall j | 0 <= j && (best < 0 || j < best) ensures HeaderAt(ps, t, j) == 0 {
      if HeaderAt(ps, t, j) > 0 {
        var i := HeaderFound(ps, t, j);
      }
    }
    if best >= 0 {
      FirstAtIs(ps, t, best);
    } else {
      NoneAt(ps, t);
    }
  }

  method FindLineEnd(t: string, from: nat) returns (end: nat)
    requires from <= |t|
    ensures end == LineEndFrom(t, from)
  {
    for k := from to |t|
      invariant forall m :: from <= m < k ==> !LineEnd(t[m])
    {
      if LineEnd(t[k]) {
        LineEndIs(t, from, k);
        return k;
      }
    }
    LineEndIs(t, from, |t|);
    return |t|;
  }

  method MaskHeaders(s: string) returns (out: string)
    ensures out == Masked(PREFIXES, s)
  {
    PrefixesArePlain();
    out := MaskPrefixes(PREFIXES, s);
  }

  lemma HeaderMasked(ps: seq<string>, t: string, from: nat, end: nat)
    requires HeadEnd(ps, t) == from && from <= |t| && LineEndFrom(t, from) == end
    ensures Masked(ps, t) == t[..from] + MASK + Masked(ps, t[end..])
  {
  }

  /** The next header with its masked value, or the whole text when there is none. */
  method MaskNext(ps: seq<string>, rest: string) returns (piece: string, end: nat)
    requires Plain(ps)
    ensures end <= |rest| && (rest != "" ==> end > 0)
    ensures Masked(ps, rest) == piece + Masked(ps, rest[end..])
  {
    var best, length := FindHeader(ps, rest);
    if best < 0 {
      assert rest[|rest|..] == "" && Masked(ps, "") == "";
      return rest, |rest|;
    }
    var from := best + length;
    end := FindLineEnd(rest, from);
    piece := rest[..from] + MASK;
    HeaderMasked(ps, rest, from, end);
  }

  method MaskPrefixes(ps: seq<string>, s: string) returns (out: string)
    requires Plain(ps)
    ensures out == Masked(ps, s)
  {
    out := "";
    var rest := s;
    while rest != ""
      invariant out + Masked(ps, rest) == Masked(ps, s)
      decreases |rest|
    {
      var piece, end := MaskNext(ps, rest);
      Associate(out, piece, Masked(ps, rest[end..]));
      out := out + piece;
      rest := rest[end..];
    }
  }
}
