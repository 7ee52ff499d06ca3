/** Masking the userinfo of URLs: one pass, its fixed points, and why the iterated pass always reaches one. */
module UrlCreds {
  import opened Text

  const SCHEME := "://"

  /** Characters that end an authority. */
  predicate Terminator(c: char) { c == '/' || Hard(c) }

  /** Terminators that cannot be part of the scheme separator. */
  predicate Hard(c: char) {
    c == '?' || c == '#' || c == ' ' || c == '\t' || c == '\n' || c == '\r' || c == '"' || c == '\'' ||
    c == '<' || c == '>' || c == ')'
  }

  function AuthEnd(t: string, from: nat): (end: nat)
    requires from <= |t|
    ensures from <= end <= |t|
    decreases |t| - from
  {
    if from == |t| || Terminator(t[from]) then from else AuthEnd(t, from + 1)
  }

  ghost predicate NoTerminator(p: string) {
    forall i :: 0 <= i < |p| ==> !Terminator(p[i])
  }

  /** An authority holds no terminator, and one follows it unless the text ends. */
  lemma {:induction false} AuthEndEnds(t: string, from: nat)
    requires from <= |t|
    ensures AuthEnd(t, from) < |t| ==> Terminator(t[AuthEnd(t, from)])
    ensures NoTerminator(t[from..AuthEnd(t, from)])
    decreases |t| - from
  {
    if from < |t| && !Terminator(t[from]) {
      AuthEndEnds(t, from + 1);
      assert t[from..AuthEnd(t, from)] == [t[from]] + t[from + 1..AuthEnd(t, from)];
    }
  }

  /** `strings.LastIndex(authority, "@")`. */
  function LastAt(auth: string): (at: int)
    ensures -1 <= at < |auth| && (at >= 0 ==> auth[at] == '@')
  {
    if auth == "" then -1
    else if auth[|auth| - 1] == '@' then |auth| - 1
    else LastAt(auth[..|auth| - 1])
  }

  function MaskUser(auth: string): string {
    var at := LastAt(auth);
    if at < 0 then auth else MASK + "@" + auth[at + 1..]
  }

  /** The characters an authority ends at. */
  lemma TerminatorsAre(c: char)
    ensures Terminator(c) <==> c in "/?# \t\n\r\"'<>)"
  {
  }

  lemma {:induction false} LastAtIsLast(auth: string, k: int)
    requires LastAt(auth) < k < |auth|
    ensures auth[k] != '@'
    decreases |auth|
  {
    if k < |auth| - 1 {
      LastAtIsLast(auth[..|auth| - 1], k);
    }
  }

  /** Masking replaces everything up to the last '@' and keeps the host behind it. */
  lemma MaskKeepsHost(auth: string) returns (user: string, host: string)
    requires exists k :: 0 <= k < |auth| && auth[k] == '@'
    ensures auth == user + "@" + host && MaskUser(auth) == MASK + "@" + host
    ensures forall k :: 0 <= k < |host| ==> host[k] != '@'
  {
    var k :| 0 <= k < |auth| && auth[k] == '@';
    if LastAt(auth) < k {
      LastAtIsLast(auth, k);
    }
    user, host := auth[..LastAt(auth)], auth[LastAt(auth) + 1..];
    forall k | 0 <= k < |host| ensures host[k] != '@' {
      LastAtIsLast(auth, LastAt(auth) + 1 + k);
    }
  }

  /** A text up to its first separator, the authority behind it, and the rest. */
  datatype Scan = NoUrl | Url(head: string, auth: string, rest: string)

  ghost predicate IsUrl(head: string, auth: string, rest: string) {
    && |head| >= 3 && Index(head, SCHEME) == |head| - 3
    && NoTerminator(auth)
    && (rest == "" || Terminator(rest[0]))
  }

  function First(t: string): (scan: Scan)
    ensures scan.NoUrl? ==> Index(t, SCHEME) == -1
    ensures scan.Url? ==> |scan.head| >= 3 && t == scan.head + scan.auth + scan.rest
  {
    var j := Index(t, SCHEME);
    if j < 0 then NoUrl
    else
      var end := AuthEnd(t, j + 3);
      Url(t[..j + 3], t[j + 3..end], t[end..])
  }

  lemma FirstIsUrl(t: string)
    requires First(t).Url?
    ensures IsUrl(First(t).head, First(t).auth, First(t).rest)
  {
    HeadIsFirst(t, Index(t, SCHEME));
    AuthEndEnds(t, Index(t, SCHEME) + 3);
  }

  lemma HeadIsFirst(t: string, j: nat)
    requires Index(t, SCHEME) == j
    ensures j + 3 <= |t| && Index(t[..j + 3], SCHEME) == j
  {
    var head, rest := t[..j + 3], t[j + 3..];
    assert t == head + rest;
    OccursInPrefix(head, rest, SCHEME, j);
    forall i | 0 <= i < j ensures !Occurs(head, SCHEME, i) {
      OccursInPrefix(head, rest, SCHEME, i);
    }
    IndexIs(head, SCHEME, j);
  }

  lemma FirstCut(t: string, j: nat, end: nat)
    requires Index(t, SCHEME) == j && j + 3 <= |t| && AuthEnd(t, j + 3) == end
    ensures First(t) == Url(t[..j + 3], t[j + 3..end], t[end..])
  {
  }

  /** A text can be read in only one such way. */
  lemma FirstIs(head: string, auth: string, rest: string)
    requires IsUrl(head, auth, rest)
    ensures First(head + auth + rest) == Url(head, auth, rest)
  {
    Associate(head, auth, rest);
    SchemeInPrefix(head, auth + rest);
    EndOfAuth(head, auth, rest);
    FirstCut(head + auth + rest, |head| - 3, |head| + |auth|);
    PartsOf(head, auth, rest);
  }

  lemma PartsOf(a: string, b: string, c: string)
    ensures var t := a + b + c; t[..|a|] == a && t[|a|..|a| + |b|] == b && t[|a| + |b|..] == c
  {
  }

  lemma EndOfAuth(head: string, auth: string, rest: string)
    requires NoTerminator(auth) && (rest == "" || Terminator(rest[0]))
    ensures AuthEnd(head + auth + rest, |head|) == |head| + |auth|
  {
    var t := head + auth + rest;
    forall k | |head| <= k < |head| + |auth| ensures !Terminator(t[k]) {
      assert t[k] == auth[k - |head|];
    }
    AuthEndIs(t, |head|, |head| + |auth|);
  }

  /** `redactURLCredsOnce`. */
  function Once(t: string): string
    decreases |t|
  {
    match First(t)
    case NoUrl => t
    case Url(head, auth, rest) => head + MaskUser(auth) + Once(rest)
  }

  /** No authority that a left-to-right pass finds holds an '@'. */
  predicate Clean(t: string)
    decreases |t|
  {
    match First(t)
    case NoUrl => true
    case Url(_, auth, rest) => LastAt(auth) < 0 && Clean(rest)
  }

  // ---- fixed points of one pass ----

  /** The pass leaves a text alone exactly when it is clean. */
  lemma {:induction false} OnceFixesClean(t: string)
    ensures Once(t) == t <==> Clean(t)
    decreases |t|
  {
    match First(t)
    case NoUrl =>
    case Url(head, auth, rest) =>
      OnceFixesClean(rest);
      FirstIsUrl(t);
      if LastAt(auth) >= 0 {
        assert Once(t)[|head|] == MaskUser(auth)[0] == '<';
        assert t[|head|] == auth[0] && !Terminator(auth[0]);
      } else {
        var before := head + auth;
        assert Once(t) == before + Once(rest) && t == before + rest;
        assert Once(t)[|before|..] == Once(rest) && t[|before|..] == rest;
      }
  }

  lemma FirstIndex(t: string)
    ensures First(t).Url? ==> Index(t, SCHEME) == |First(t).head| - 3
  {
  }

  /** Text in which no separator starts belongs to the head of what follows. */
  lemma NoUrlInFront(a: string, b: string)
    requires Index(a + b, SCHEME) == if Index(b, SCHEME) < 0 then -1 else |a| + Index(b, SCHEME)
    ensures First(b).NoUrl? ==> First(a + b).NoUrl?
    ensures First(b).Url? ==> First(a + b) == Url(a + First(b).head, First(b).auth, First(b).rest)
  {
    FirstIndex(b);
    if First(b).Url? {
      var scan := First(b);
      FirstIsUrl(b);
      HeadGrows(a, scan.head, scan.auth, scan.rest);
      FirstIs(a + scan.head, scan.auth, scan.rest);
      Regroup(a, scan.head, scan.auth, scan.rest);
    }
  }

  lemma HeadGrows(a: string, head: string, auth: string, rest: string)
    requires IsUrl(head, auth, rest) && Index(a + (head + auth + rest), SCHEME) == |a| + |head| - 3
    ensures IsUrl(a + head, auth, rest)
  {
    var t := a + (head + auth + rest);
    HeadIsFirst(t, |a| + |head| - 3);
    assert t[..|a| + |head|] == a + head;
  }

  lemma CleanStep(head: string, auth: string, rest: string)
    requires IsUrl(head, auth, rest)
    ensures Clean(head + auth + rest) <==> LastAt(auth) < 0 && Clean(rest)
  {
    FirstIs(head, auth, rest);
  }

  lemma CleanBehind(a: string, b: string)
    requires Index(a + b, SCHEME) == if Index(b, SCHEME) < 0 then -1 else |a| + Index(b, SCHEME)
    ensures Clean(a + b) <==> Clean(b)
  {
    NoUrlInFront(a, b);
  }

  /** Scanning starts afresh at a hard terminator. */
  lemma {:induction false} CleanSplits(a: string, b: string)
    requires b == "" || Hard(b[0])
    ensures Clean(a + b) <==> Clean(a) && Clean(b)
    decreases |a|
  {
    match First(a)
    case NoUrl =>
      SchemeInSuffix(a, b);
      CleanBehind(a, b);
    case Url(head, auth, rest) =>
      FirstIsUrl(a);
      CleanSplits(rest, b);
      CleanStep(head, auth, rest);
      FirstGrows(head, auth, rest, b);
      CleanStep(head, auth, rest + b);
  }

  lemma FirstGrows(head: string, auth: string, rest: string, b: string)
    requires IsUrl(head, auth, rest) && (b == "" || Hard(b[0]))
    ensures IsUrl(head, auth, rest + b) && head + auth + rest + b == head + auth + (rest + b)
  {
    Associate(head + auth, rest, b);
  }

  lemma SchemeInPrefix(a: string, b: string)
    requires Index(a, SCHEME) >= 0
    ensures Index(a + b, SCHEME) == Index(a, SCHEME)
  {
    var k := Index(a, SCHEME);
    OccursInPrefix(a, b, SCHEME, k);
    forall i | 0 <= i < k ensures !Occurs(a + b, SCHEME, i) {
      OccursInPrefix(a, b, SCHEME, i);
    }
    IndexIs(a + b, SCHEME, k);
  }

  lemma NotAcross(a: string, b: string, k: nat)
    requires (b == "" || Hard(b[0])) && k < |a| < k + 3
    ensures !Occurs(a + b, SCHEME, k)
  {
    if Occurs(a + b, SCHEME, k) {
      OccursChar(a + b, SCHEME, k, |a|);
    }
  }

  lemma SchemeInSuffix(a: string, b: string)
    requires (b == "" || Hard(b[0])) && Index(a, SCHEME) < 0
    ensures Index(a + b, SCHEME) == (if Index(b, SCHEME) < 0 then -1 else |a| + Index(b, SCHEME))
  {
    var k := Index(b, SCHEME);
    forall i | 0 <= i && (k < 0 || i < |a| + k) ensures !Occurs(a + b, SCHEME, i) {
      if i + 3 <= |a| {
        OccursInPrefix(a, b, SCHEME, i);
      } else if i < |a| {
        NotAcross(a, b, i);
      } else {
        OccursInSuffix(a, b, SCHEME, i);
      }
    }
    if k >= 0 {
      OccursInSuffix(a, b, SCHEME, |a| + k);
      IndexIs(a + b, SCHEME, |a| + k);
    } else {
      NotFound(a + b, SCHEME);
    }
  }

  lemma {:induction false} AuthEndIs(t: string, from: nat, end: nat)
    requires from <= end <= |t| && (end < |t| ==> Terminator(t[end]))
    requires forall k :: from <= k < end ==> !Terminator(t[k])
    ensures AuthEnd(t, from) == end
    decreases end - from
  {
    if from < end {
      AuthEndIs(t, from + 1, end);
    }
  }

  /** Text without a colon in front moves the first separator along. */
  lemma NoColonInFront(a: string, b: string)
    requires forall i :: 0 <= i < |a| ==> a[i] != ':'
    ensures Index(a + b, SCHEME) == if Index(b, SCHEME) < 0 then -1 else |a| + Index(b, SCHEME)
  {
    var k := Index(b, SCHEME);
    forall i | 0 <= i && (k < 0 || i < |a| + k) ensures !Occurs(a + b, SCHEME, i) {
      if i >= |a| {
        OccursInSuffix(a, b, SCHEME, i);
      } else if Occurs(a + b, SCHEME, i) {
        OccursChar(a + b, SCHEME, i, i);
      }
    }
    if k >= 0 {
      OccursInSuffix(a, b, SCHEME, |a| + k);
      IndexIs(a + b, SCHEME, |a| + k);
    } else {
      NotFound(a + b, SCHEME);
    }
  }

  /** A hard terminator in front changes nothing. */
  lemma CleanAfterHard(c: char, b: string)
    requires Hard(c)
    ensures Clean([c] + b) <==> Clean(b)
  {
    NoColonInFront([c], b);
    CleanBehind([c], b);
  }

  // ---- the measure: separators that are not followed by '<' ----

  /** A scheme separator starts at c, and what follows it is not masked. */
  function Open(c: char, rest: string): nat {
    if c == ':' && |rest| >= 2 && rest[0] == '/' && rest[1] == '/' && !(|rest| > 2 && rest[2] == '<') then 1 else 0
  }

  /** The open separators that start in x when y follows it. */
  function OpenIn(x: string, y: string): nat {
    if x == "" then 0 else Open(x[0], x[1..] + y) + OpenIn(x[1..], y)
  }

  function OpenCount(t: string): nat { OpenIn(t, "") }

  function Start(t: string): string { if |t| < 3 then t else t[..3] }

  lemma {:induction false} OpenInSplit(x: string, y: string, z: string)
    ensures OpenIn(x + y, z) == OpenIn(x, y + z) + OpenIn(y, z)
  {
    if x == "" {
      assert x + y == y;
    } else {
      assert (x + y)[1..] == x[1..] + y;
      assert (x[1..] + y) + z == x[1..] + (y + z);
      OpenInSplit(x[1..], y, z);
    }
  }

  /** Only the next three characters matter. */
  lemma {:induction false} OpenInStart(x: string, y: string, z: string)
    requires Start(y) == Start(z)
    ensures OpenIn(x, y) == OpenIn(x, z)
  {
    if x != "" {
      OpenInStart(x[1..], y, z);
      var p, q := x[1..] + y, x[1..] + z;
      assert |p| >= 2 <==> |q| >= 2;
      assert |p| > 2 <==> |q| > 2;
      assert forall i :: 0 <= i < 3 && i < |p| ==> p[i] == q[i] by { SameStart(x[1..], y, z); }
    }
  }

  lemma SameStart(x: string, y: string, z: string)
    requires Start(y) == Start(z)
    ensures forall i :: 0 <= i < 3 && i < |x + y| ==> i < |x + z| && (x + y)[i] == (x + z)[i]
  {
    forall i | 0 <= i < 3 && i < |x + y| ensures i < |x + z| && (x + y)[i] == (x + z)[i] {
      if i >= |x| {
        assert Start(y)[i - |x|] == y[i - |x|] && Start(z)[i - |x|] == z[i - |x|];
      }
    }
  }

  lemma OpenOccurs(c: char, rest: string)
    ensures Open(c, rest) == 1 ==> c == ':' && Occurs([c] + rest, SCHEME, 0)
  {
    if Open(c, rest) == 1 {
      assert ([c] + rest)[0..3] == [':', '/', '/'];
    }
  }

  /** Text without a colon, or without a slash in it and before what follows, opens nothing. */
  lemma {:induction false} NothingOpens(x: string, y: string)
    requires forall i :: 0 <= i < |x| ==> x[i] != ':' || !Occurs(x + y, SCHEME, i)
    ensures OpenIn(x, y) == 0
  {
    if x != "" {
      forall i | 0 <= i < |x| - 1 ensures x[1..][i] != ':' || !Occurs(x[1..] + y, SCHEME, i) {
        OccursInSuffix([x[0]], x[1..] + y, SCHEME, i + 1);
        assert [x[0]] + (x[1..] + y) == x + y;
      }
      NothingOpens(x[1..], y);
      var rest := x[1..] + y;
      assert x + y == [x[0]] + rest;
      OpenOccurs(x[0], rest);
    }
  }

  /** The part of a text up to its first separator contributes that separator alone. */
  lemma OpenHead(t: string, y: string)
    requires |t| >= 3 && Index(t, SCHEME) == |t| - 3
    ensures OpenIn(t, y) == if y != "" && y[0] == '<' then 0 else 1
  {
    var before := t[..|t| - 3];
    assert t == before + SCHEME;
    OpenInSplit(before, SCHEME, y);
    BeforeFirst(before, y);
    OpenScheme(y);
  }

  lemma BeforeFirst(before: string, y: string)
    requires Index(before + SCHEME, SCHEME) == |before|
    ensures OpenIn(before, SCHEME + y) == 0
  {
    forall i | 0 <= i < |before| ensures !Occurs(before + (SCHEME + y), SCHEME, i) {
      NotBefore(before, y, i);
    }
    NothingOpens(before, SCHEME + y);
  }

  lemma NotBefore(before: string, y: string, i: nat)
    requires Index(before + SCHEME, SCHEME) == |before| && i < |before|
    ensures !Occurs(before + (SCHEME + y), SCHEME, i)
  {
    assert before + (SCHEME + y) == (before + SCHEME) + y;
    OccursInPrefix(before + SCHEME, y, SCHEME, i);
  }

  lemma OpenScheme(y: string)
    ensures OpenIn(SCHEME, y) == if y != "" && y[0] == '<' then 0 else 1
  {
    var rest := "//" + y;
    assert SCHEME[1..] == "//";
    NoColon("//", y);
    assert rest[0] == '/' && rest[1] == '/' && (|rest| > 2 ==> rest[2] == y[0]);
  }

  lemma {:induction false} NoColon(x: string, y: string)
    requires forall i :: 0 <= i < |x| ==> x[i] != ':'
    ensures OpenIn(x, y) == 0
  {
    if x != "" {
      NoColon(x[1..], y);
    }
  }

  /** The pass keeps the first three characters of what starts with a terminator. */
  lemma OnceKeepsStart(t: string)
    ensures Start(Once(t)) == Start(t)
  {
    var scan := First(t);
    if scan.Url? {
      assert Once(t)[..3] == scan.head[..3] == t[..3];
    }
  }

  /** A user part holds no slash, so it opens nothing. */
  lemma UserOpensNothing(user: string, y: string)
    requires user != "" && user[|user| - 1] == '@' && NoTerminator(user)
    ensures OpenIn(user, y) == 0
  {
    forall i | 0 <= i < |user| && user[i] == ':' ensures !Occurs(user + y, SCHEME, i) {
      assert (user + y)[i + 1] == user[i + 1];
      assert !Terminator(user[i + 1]);
      if Occurs(user + y, SCHEME, i) {
        OccursChar(user + y, SCHEME, i, i + 1);
      }
    }
    NothingOpens(user, y);
  }

  lemma MaskedOpensLess(auth: string, rest: string)
    requires NoTerminator(auth)
    ensures OpenIn(MaskUser(auth), rest) == OpenIn(auth, rest)
  {
    var at := LastAt(auth);
    if at >= 0 {
      var user, host := auth[..at + 1], auth[at + 1..];
      assert auth == user + host && MaskUser(auth) == (MASK + "@") + host;
      OpenInSplit(user, host, rest);
      OpenInSplit(MASK + "@", host, rest);
      UserOpensNothing(user, host + rest);
      NoColon(MASK + "@", host + rest);
    }
  }

  /** The part of a text up to the end of its first authority. */
  lemma FirstCloses(head: string, auth: string, rest: string, after: string)
    requires IsUrl(head, auth, rest) && Start(after) == Start(rest)
    ensures OpenCount(head + MaskUser(auth) + after) - OpenCount(after) ==
            OpenCount(head + auth + rest) - OpenCount(rest) - (if LastAt(auth) >= 0 then 1 else 0)
  {
    OpenParts(head, auth, rest);
    OpenParts(head, MaskUser(auth), after);
    OpenInStart(MaskUser(auth), after, rest);
    MaskedOpensLess(auth, rest);
    if LastAt(auth) >= 0 {
      assert (auth + rest)[0] == auth[0] && !Terminator(auth[0]);
      assert (MaskUser(auth) + after)[0] == '<';
    } else {
      SameFirst(auth, rest, after);
    }
  }

  /** Each pass that changes something closes at least one separator, and no pass opens one. */
  lemma {:induction false} OnceCloses(t: string)
    ensures OpenCount(Once(t)) <= OpenCount(t)
    ensures !Clean(t) ==> OpenCount(Once(t)) < OpenCount(t)
    decreases |t|
  {
    match First(t)
    case NoUrl =>
    case Url(head, auth, rest) =>
      FirstIsUrl(t);
      OnceCloses(rest);
      OnceKeepsStart(rest);
      FirstCloses(head, auth, rest, Once(rest));
  }

  lemma SameFirst(auth: string, rest: string, after: string)
    requires Start(after) == Start(rest)
    ensures (auth + rest != "" && (auth + rest)[0] == '<') <==> (auth + after != "" && (auth + after)[0] == '<')
  {
    SameStart(auth, rest, after);
    SameStart(auth, after, rest);
  }

  lemma NothingBehind(t: string)
    ensures t + "" == t
  {
  }

  lemma OpenParts(head: string, auth: string, rest: string)
    requires |head| >= 3 && Index(head, SCHEME) == |head| - 3
    ensures OpenCount(head + auth + rest) ==
            (if auth + rest != "" && (auth + rest)[0] == '<' then 0 else 1) + OpenIn(auth, rest) + OpenCount(rest)
  {
    OpenInSplit(head, auth + rest, "");
    OpenInSplit(auth, rest, "");
    NothingBehind(auth + rest);
    NothingBehind(rest);
    Associate(head, auth, rest);
    OpenHead(head, auth + rest);
  }

  // ---- the iterated pass ----

  /** `strings.Count(s, "://")`. */
  function Count(t: string): nat
    decreases |t|
  {
    var j := Index(t, SCHEME);
    if j < 0 then 0 else 1 + Count(t[j + 3..])
  }

  lemma {:induction false} CountBounds(t: string)
    ensures OpenCount(t) <= Count(t)
    decreases |t|
  {
    var j := Index(t, SCHEME);
    if j < 0 {
      assert t + "" == t;
      NothingOpens(t, "");
    } else {
      var head, rest := t[..j + 3], t[j + 3..];
      assert t == head + rest && rest + "" == rest;
      HeadIsFirst(t, j);
      OpenInSplit(head, rest, "");
      OpenHead(head, rest);
      CountBounds(rest);
    }
  }

  /** The pass applied until nothing changes. */
  function Stable(t: string): string
    decreases OpenCount(t)
  {
    OnceFixesClean(t);
    OnceCloses(t);
    if Once(t) == t then t else Stable(Once(t))
  }

  /** How many passes change something before that. */
  function Rounds(t: string): nat
    decreases OpenCount(t)
  {
    OnceFixesClean(t);
    OnceCloses(t);
    if Once(t) == t then 0 else 1 + Rounds(Once(t))
  }

  /** The pass becomes stable within as many changing rounds as there are separators. */
  lemma {:induction false} RoundsBounded(t: string)
    ensures Rounds(t) <= OpenCount(t) <= Count(t)
    decreases OpenCount(t)
  {
    CountBounds(t);
    OnceFixesClean(t);
    OnceCloses(t);
    if Once(t) != t {
      RoundsBounded(Once(t));
    }
  }

  lemma {:induction false} StableIsClean(t: string)
    ensures Clean(Stable(t))
    decreases OpenCount(t)
  {
    OnceFixesClean(t);
    OnceCloses(t);
    if Once(t) != t {
      StableIsClean(Once(t));
    }
  }

  // ---- the code's loops ----

  /** One authority of a pass, seen from a position of the text. */
  lemma OnceAt(s: string, i: nat, authStart: nat)
    requires i <= |s| && i + 3 <= authStart <= |s| && Index(s[i..], SCHEME) == authStart - 3 - i
    ensures var authEnd := AuthEnd(s, authStart);
            First(s[i..]) == Url(s[i..authStart], s[authStart..authEnd], s[authEnd..])
  {
    var authEnd := AuthEnd(s, authStart);
    ThreeSlices(s, i, authStart, authEnd);
    HeadOfSlice(s, i, authStart);
    AuthEndEnds(s, authStart);
    FirstIs(s[i..authStart], s[authStart..authEnd], s[authEnd..]);
  }

  lemma HeadOfSlice(s: string, i: nat, authStart: nat)
    requires i <= |s| && i + 3 <= authStart <= |s| && Index(s[i..], SCHEME) == authStart - 3 - i
    ensures Index(s[i..authStart], SCHEME) == authStart - i - 3
  {
    HeadIsFirst(s[i..], authStart - 3 - i);
    assert s[i..][..authStart - i] == s[i..authStart];
  }

  method FindAuthEnd(s: string, authStart: nat) returns (authEnd: nat)
    requires authStart <= |s|
    ensures authEnd == AuthEnd(s, authStart)
  {
    for k := authStart to |s|
      invariant forall m :: authStart <= m < k ==> !Terminator(s[m])
    {
      if Terminator(s[k]) {
        AuthEndIs(s, authStart, k);
        return k;
      }
    }
    AuthEndIs(s, authStart, |s|);
    return |s|;
  }

  method MaskAuthority(authority: string) returns (masked: string)
    ensures masked == MaskUser(authority)
  {
    var at := LastAt(authority);
    if at >= 0 {
      masked := MASK + "@" + authority[at + 1..];
    } else {
      masked := authority;
    }
  }

  /** `redactURLCredsOnce`. */
  method MaskPass(s: string) returns (out: string)
    ensures out == Once(s)
  {
    out := "";
    var i := 0;
    assert s[0..] == s;
    while true
      invariant 0 <= i <= |s|
      invariant out + Once(s[i..]) == Once(s)
      decreases |s| - i
    {
      var rel := Index(s[i..], SCHEME);
      if rel < 0 {
        out := out + s[i..];
        return;
      }
      var authStart := i + rel + 3;
      var authEnd := FindAuthEnd(s, authStart);
      var masked := MaskAuthority(s[authStart..authEnd]);
      OnceAt(s, i, authStart);
      Regroup(out, s[i..authStart], masked, Once(s[authEnd..]));
      out := out + s[i..authStart] + masked;
      i := authEnd;
    }
  }

  /** `redactURLCreds`: the loop bound is never exhausted, so the fail-closed result below it is dead code. */
  method MaskUrls(text: string) returns (out: string)
    ensures out == Stable(text)
  {
    var s := text;
    var bound := Count(s) + 1;
    RoundsBounded(s);
    var n := 0;
    while n < bound
      invariant n + Rounds(s) == Rounds(text) && Stable(s) == Stable(text)
    {
      var next := MaskPass(s);
      if next == s {
        return s;
      }
      s := next;
      n := n + 1;
    }
    assert false;
    return MASK;
  }
}
