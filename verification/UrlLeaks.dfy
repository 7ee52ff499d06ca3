/**
 When every URL of a redacted text is free of userinfo. A pass scans authorities from the left, so a separator whose
 scheme lies inside the authority of a scanned one is skipped. Whether a skipped separator keeps its userinfo
 can be told from the text before it is redacted.
 */
module UrlLeaks {
  import opened Text
  import opened UrlCreds

  // ---- the documented promise ----

  /** No '@' between an occurrence of the separator and the end of the authority behind it. */
  predicate FreeAt(t: string, k: nat)
    requires k + 3 <= |t|
  {
    LastAt(t[k + 3..AuthEnd(t, k + 3)]) < 0
  }

  /** The authority behind every separator is free of userinfo. */
  ghost predicate AllFree(t: string) {
    forall k: nat :: Occurs(t, SCHEME, k) ==> FreeAt(t, k)
  }

  // ---- when it is kept ----

  /** A separator: whether the authority behind it has userinfo, and whether it runs into the next separator. */
  datatype Link = Link(hasUser: bool, continues: bool)

  /**
   A text cut at the end of its first authority and behind its first separator. The middle is "//" when the
   authority runs into the separator, and longer otherwise.
   */
  datatype Cut = Last(auth: string, rest: string) | More(auth: string, middle: string, next: string)

  function CutOf(t: string): (cut: Cut)
    ensures cut.More? ==> |cut.next| < |t|
    ensures t == if cut.Last? then cut.auth + cut.rest else cut.auth + cut.middle + cut.next
  {
    EndsBefore(t);
    var end, j := AuthEnd(t, 0), Index(t, SCHEME);
    CutJoins(t, end, if j < 0 then end else j + 3);
    if j < 0 then Last(t[..end], t[end..]) else More(t[..end], t[end..j + 3], t[j + 3..])
  }

  lemma CutJoins(t: string, i: nat, k: nat)
    requires i <= k <= |t|
    ensures t == t[..i] + t[i..k] + t[k..] && t == t[..i] + t[i..]
  {
  }

  lemma EndsBefore(t: string)
    ensures Index(t, SCHEME) >= 0 ==> AuthEnd(t, 0) <= Index(t, SCHEME) + 1
  {
    var j := Index(t, SCHEME);
    if 0 <= j < AuthEnd(t, 0) - 1 {
      AuthEndEnds(t, 0);
      assert !Terminator(t[..AuthEnd(t, 0)][j + 1]);
      SchemeAt(t, j);
    }
  }

  /** The separators of a text that starts behind one. */
  function Links(tail: string): seq<Link>
    decreases |tail|
  {
    match CutOf(tail)
    case Last(auth, _) => [Link(LastAt(auth) >= 0, false)]
    case More(auth, middle, next) => [Link(LastAt(auth) >= 0, |middle| == 2)] + Links(next)
  }

  function Separators(t: string): seq<Link> {
    match CutOf(t)
    case Last(_, _) => []
    case More(_, _, next) => Links(next)
  }

  /**
   The place of a separator in a chain of separators whose authorities run into the next one: at an even or odd
   position with no userinfo before it, or behind an authority with userinfo.
   */
  datatype Place = Even | Odd | Behind

  function NextPlace(place: Place, link: Link): Place {
    if !link.continues then Even
    else
      match place
      case Even => if link.hasUser then Behind else Odd
      case Odd => Even
      case Behind => Behind
  }

  /** Some chain has its first userinfo behind a separator at an odd position. */
  predicate LeaksFrom(links: seq<Link>, place: Place) {
    links != [] && ((place.Odd? && links[0].hasUser) || LeaksFrom(links[1..], NextPlace(place, links[0])))
  }

  predicate Leaks(t: string) { LeaksFrom(Separators(t), Even) }

  predicate NoUser(links: seq<Link>) {
    links == [] || (!links[0].hasUser && NoUser(links[1..]))
  }

  // ---- what a pass does to the separators ----

  /** A masked authority has no userinfo and ends at once, so it runs into no separator. */
  function PassLinks(links: seq<Link>, scanned: bool): seq<Link> {
    if links == [] then []
    else
      var first := links[0];
      [if scanned && first.hasUser then Link(false, false) else first]
      + PassLinks(links[1..], !(scanned && first.continues))
  }

  /** The places before and after a pass that scans or skips the separator in front. */
  predicate Related(place: Place, scanned: bool, after: Place) {
    match place
    case Even => scanned && after.Even?
    case Odd => !scanned && after.Odd?
    case Behind => after.Behind? || (if scanned then after.Odd? else after.Even?)
  }

  /** A pass changes no verdict. */
  lemma {:induction false} PassKeepsVerdict(links: seq<Link>, scanned: bool, place: Place, after: Place)
    requires Related(place, scanned, after)
    ensures LeaksFrom(PassLinks(links, scanned), after) <==> LeaksFrom(links, place)
  {
    if links != [] {
      var first, passed := links[0], PassLinks(links, scanned);
      assert passed[1..] == PassLinks(links[1..], !(scanned && first.continues));
      PassKeepsVerdict(links[1..], !(scanned && first.continues), NextPlace(place, first), NextPlace(after, passed[0]));
    }
  }

  /** For separators that a pass leaves alone the verdict says whether userinfo is left. */
  lemma {:induction false} FixedVerdict(links: seq<Link>, scanned: bool)
    requires PassLinks(links, scanned) == links
    ensures LeaksFrom(links, if scanned then Even else Odd) <==> !NoUser(links)
  {
    if links != [] {
      var scans := !(scanned && links[0].continues);
      assert PassLinks(links, scanned)[1..] == PassLinks(links[1..], scans);
      FixedVerdict(links[1..], scans);
    }
  }

  /** Where no authority runs into a separator nothing leaks. */
  lemma {:induction false} NoChainNoLeak(links: seq<Link>)
    requires forall i :: 0 <= i < |links| ==> !links[i].continues
    ensures !LeaksFrom(links, Even)
  {
    if links != [] {
      NoChainNoLeak(links[1..]);
    }
  }

  // ---- cutting ----

  /** What comes before a separator and the separator itself. */
  ghost predicate IsHead(head: string) { |head| >= 3 && Index(head, SCHEME) == |head| - 3 }

  ghost predicate EndsAuth(auth: string, rest: string) {
    NoTerminator(auth) && (rest == "" || Terminator(rest[0]))
  }

  ghost predicate IsMore(auth: string, middle: string) {
    EndsAuth(auth, middle) && |middle| >= 2 && IsHead(auth + middle)
  }

  lemma SchemeAt(t: string, j: nat)
    requires Occurs(t, SCHEME, j)
    ensures t[j] == ':' && t[j + 1] == '/' && t[j + 2] == '/'
  {
    OccursChar(t, SCHEME, j, j);
    OccursChar(t, SCHEME, j, j + 1);
    OccursChar(t, SCHEME, j, j + 2);
  }

  lemma CutParts(t: string, j: nat, end: nat)
    requires Index(t, SCHEME) == j && AuthEnd(t, 0) == end <= j + 3 <= |t|
    ensures CutOf(t) == More(t[..end], t[end..j + 3], t[j + 3..])
  {
  }

  lemma SliceOfHead(t: string, i: nat, k: nat)
    requires i <= k <= |t|
    ensures t[..i] + t[i..k] == t[..k]
  {
  }

  lemma CutIsMore(t: string)
    requires Index(t, SCHEME) >= 0
    ensures var cut := CutOf(t); cut.More? && IsMore(cut.auth, cut.middle)
  {
    EndsBefore(t);
    AuthEndEnds(t, 0);
    var j, end := Index(t, SCHEME), AuthEnd(t, 0);
    SchemeAt(t, j);
    HeadIsFirst(t, j);
    SliceOfHead(t, end, j + 3);
  }

  lemma CutIsLast(t: string)
    requires Index(t, SCHEME) < 0
    ensures var cut := CutOf(t); cut.Last? && EndsAuth(cut.auth, cut.rest)
  {
    AuthEndEnds(t, 0);
  }

  lemma AuthOfJoined(auth: string, rest: string)
    requires EndsAuth(auth, rest)
    ensures AuthEnd(auth + rest, 0) == |auth| && (auth + rest)[..|auth|] == auth && (auth + rest)[|auth|..] == rest
  {
    var t := auth + rest;
    assert forall k :: 0 <= k < |auth| ==> t[k] == auth[k];
    AuthEndIs(t, 0, |auth|);
  }

  lemma MoreOf(auth: string, middle: string, next: string)
    requires IsMore(auth, middle)
    ensures CutOf(auth + middle + next) == More(auth, middle, next)
  {
    SchemeInPrefix(auth + middle, next);
    Associate(auth, middle, next);
    AuthOfJoined(auth, middle + next);
    CutParts(auth + middle + next, |auth + middle| - 3, |auth|);
    PartsOf(auth, middle, next);
  }

  lemma LastOf(auth: string, rest: string)
    requires EndsAuth(auth, rest) && Index(auth + rest, SCHEME) < 0
    ensures CutOf(auth + rest) == Last(auth, rest)
  {
    AuthOfJoined(auth, rest);
  }

  lemma LinksMore(auth: string, middle: string, next: string)
    requires IsMore(auth, middle)
    ensures Links(auth + middle + next) == [Link(LastAt(auth) >= 0, |middle| == 2)] + Links(next)
  {
    MoreOf(auth, middle, next);
  }

  lemma LinksLast(auth: string, rest: string)
    requires EndsAuth(auth, rest) && Index(auth + rest, SCHEME) < 0
    ensures Links(auth + rest) == [Link(LastAt(auth) >= 0, false)]
  {
    LastOf(auth, rest);
  }

  /** A separator behind a part of the text is a separator of what follows that part. */
  lemma DropFront(a: string, b: string)
    requires Index(a + b, SCHEME) >= |a|
    ensures Index(b, SCHEME) == Index(a + b, SCHEME) - |a|
  {
    var j := Index(a + b, SCHEME);
    OccursInSuffix(a, b, SCHEME, j);
    forall i | 0 <= i < j - |a| ensures !Occurs(b, SCHEME, i) {
      OccursInSuffix(a, b, SCHEME, |a| + i);
    }
    IndexIs(b, SCHEME, j - |a|);
  }

  lemma NoneBehind(a: string, b: string)
    requires Index(a + b, SCHEME) < 0
    ensures Index(b, SCHEME) < 0
  {
    var k := Index(b, SCHEME);
    if k >= 0 {
      OccursInSuffix(a, b, SCHEME, |a| + k);
    }
  }

  // ---- a pass, separator by separator ----

  function Front(auth: string, scanned: bool): string {
    if scanned then MaskUser(auth) else auth
  }

  /** What a pass makes of the text behind a separator that it scans or skips. */
  function Pass(tail: string, scanned: bool): string
    decreases |tail|
  {
    match CutOf(tail)
    case Last(auth, rest) => Front(auth, scanned) + rest
    case More(auth, middle, next) => Front(auth, scanned) + middle + Pass(next, !(scanned && |middle| == 2))
  }

  lemma PassMore(auth: string, middle: string, next: string, scanned: bool)
    requires IsMore(auth, middle)
    ensures Pass(auth + middle + next, scanned) ==
              Front(auth, scanned) + middle + Pass(next, !(scanned && |middle| == 2))
  {
    MoreOf(auth, middle, next);
  }

  lemma OnceBehind(a: string, b: string)
    requires forall i :: 0 <= i < |a| ==> a[i] != ':'
    ensures Once(a + b) == a + Once(b)
  {
    NoColonInFront(a, b);
    NoUrlInFront(a, b);
    if First(b).Url? {
      var scan := First(b);
      Regroup(a, scan.head, MaskUser(scan.auth), Once(scan.rest));
    }
  }

  lemma OnceUrl(head: string, auth: string, rest: string)
    requires IsHead(head) && EndsAuth(auth, rest)
    ensures Once(head + auth + rest) == head + MaskUser(auth) + Once(rest)
  {
    FirstIs(head, auth, rest);
  }

  lemma OnceNoUrl(t: string)
    requires Index(t, SCHEME) < 0
    ensures Once(t) == t
  {
  }

  /** Behind a scanned separator a pass masks the authority and goes on behind it. */
  lemma {:induction false} OnceScans(head: string, tail: string)
    requires IsHead(head)
    ensures Once(head + tail) == head + Pass(tail, true)
    decreases |tail|, 0
  {
    if Index(tail, SCHEME) < 0 {
      CutIsLast(tail);
      var cut := CutOf(tail);
      ScansLast(head, cut.auth, cut.rest);
    } else {
      CutIsMore(tail);
      var cut := CutOf(tail);
      OnceMiddle(cut.auth, cut.middle, cut.next);
      ScansMore(head, cut.auth, cut.middle, cut.next);
    }
  }

  lemma ScansLast(head: string, auth: string, rest: string)
    requires IsHead(head) && EndsAuth(auth, rest) && Index(auth + rest, SCHEME) < 0
    ensures Once(head + (auth + rest)) == head + Pass(auth + rest, true)
  {
    Associate(head, auth, rest);
    OnceUrl(head, auth, rest);
    NoneBehind(auth, rest);
    OnceNoUrl(rest);
    LastOf(auth, rest);
    Associate(head, MaskUser(auth), rest);
  }

  lemma ScansMore(head: string, auth: string, middle: string, next: string)
    requires IsHead(head) && IsMore(auth, middle)
    requires Once(middle + next) == middle + Pass(next, |middle| != 2)
    ensures Once(head + (auth + middle + next)) == head + Pass(auth + middle + next, true)
  {
    var x := Pass(next, |middle| != 2);
    PassMore(auth, middle, next, true);
    Associate(auth, middle, next);
    Associate(head, auth, middle + next);
    OnceUrl(head, auth, middle + next);
    Associate(MaskUser(auth), middle, x);
    Associate(head, MaskUser(auth), middle + x);
  }

  /** The text behind an authority that was scanned. */
  lemma {:induction false} OnceMiddle(auth: string, middle: string, next: string)
    requires IsMore(auth, middle)
    ensures Once(middle + next) == middle + Pass(next, |middle| != 2)
    decreases |next|, 2
  {
    if |middle| == 2 {
      SlashesOnly(auth, middle);
      OnceBehind(middle, next);
      OnceSkips(next);
    } else {
      DropFront(auth, middle);
      OnceScans(middle, next);
    }
  }

  lemma SlashesOnly(auth: string, middle: string)
    requires IsMore(auth, middle) && |middle| == 2
    ensures forall i :: 0 <= i < |middle| ==> middle[i] != ':'
  {
    SchemeAt(auth + middle, |auth| - 1);
    assert middle[0] == (auth + middle)[|auth|] && middle[1] == (auth + middle)[|auth| + 1];
  }

  /** Where nothing was scanned yet a pass skips to the first separator. */
  lemma {:induction false} OnceSkips(t: string)
    ensures Once(t) == Pass(t, false)
    decreases |t|, 1
  {
    if Index(t, SCHEME) < 0 {
      CutIsLast(t);
      OnceNoUrl(t);
    } else {
      CutIsMore(t);
      var cut := CutOf(t);
      MoreOf(cut.auth, cut.middle, cut.next);
      OnceScans(cut.auth + cut.middle, cut.next);
    }
  }

  // ---- a pass and the separators ----

  lemma MaskParts(auth: string)
    requires LastAt(auth) >= 0
    ensures var at := LastAt(auth); auth == auth[..at + 1] + auth[at + 1..] && MaskUser(auth) == MASK + "@" + auth[at + 1..]
  {
  }

  /** Behind the mask an authority ends at once, so it runs into no separator. */
  lemma MaskedIsMore(auth: string, middle: string)
    requires IsMore(auth, middle) && LastAt(auth) >= 0
    ensures IsMore("", MaskUser(auth) + middle) && |MaskUser(auth) + middle| > 2
  {
    var at := LastAt(auth);
    MaskParts(auth);
    MaskedHead(auth[..at + 1], auth[at + 1..], middle);
    NothingInFront(MaskUser(auth) + middle);
  }

  lemma MaskedHead(user: string, host: string, middle: string)
    requires user != "" && user[|user| - 1] == '@' && IsHead(user + host + middle) && |middle| >= 2
    ensures IsHead(MASK + "@" + host + middle) && (MASK + "@" + host + middle)[0] == '<'
  {
    var mask := MASK + "@";
    Associate(user, host, middle);
    AtBeforeScheme(user, host + middle);
    DropFront(user, host + middle);
    NoColonInFront(mask, host + middle);
    Associate(mask, host, middle);
  }

  lemma AtBeforeScheme(user: string, rest: string)
    requires user != "" && user[|user| - 1] == '@' && IsHead(user + rest) && |rest| >= 2
    ensures Index(user + rest, SCHEME) >= |user|
  {
    var j := |user + rest| - 3;
    assert (user + rest)[|user| - 1] == '@';
    if j < |user| {
      SchemeAt(user + rest, j);
    }
  }

  lemma MaskedLinks(auth: string, middle: string, x: string)
    requires IsMore(auth, middle) && LastAt(auth) >= 0
    ensures Links(MaskUser(auth) + middle + x) == [Link(false, false)] + Links(x)
  {
    MaskedIsMore(auth, middle);
    LinksAtOnce(MaskUser(auth) + middle, x);
  }

  lemma NothingInFront(t: string)
    ensures "" + t == t
  {
  }

  lemma LinksAtOnce(middle: string, next: string)
    requires IsMore("", middle)
    ensures Links(middle + next) == [Link(false, |middle| == 2)] + Links(next)
  {
    NothingInFront(middle);
    LinksMore("", middle, next);
  }

  lemma LinksEndAtOnce(rest: string)
    requires EndsAuth("", rest) && Index(rest, SCHEME) < 0
    ensures Links(rest) == [Link(false, false)]
  {
    NothingInFront(rest);
    LinksLast("", rest);
  }

  lemma MaskedNone(user: string, host: string, rest: string)
    requires Index(user + host + rest, SCHEME) < 0
    ensures Index(MASK + "@" + host + rest, SCHEME) < 0 && (MASK + "@" + host + rest)[0] == '<'
  {
    Associate(user, host, rest);
    NoneBehind(user, host + rest);
    NoColonInFront(MASK + "@", host + rest);
    Associate(MASK + "@", host, rest);
  }

  lemma MaskedLast(auth: string, rest: string)
    requires EndsAuth(auth, rest) && Index(auth + rest, SCHEME) < 0 && LastAt(auth) >= 0
    ensures Links(MaskUser(auth) + rest) == [Link(false, false)]
  {
    MaskParts(auth);
    MaskedNone(auth[..LastAt(auth) + 1], auth[LastAt(auth) + 1..], rest);
    LinksEndAtOnce(MaskUser(auth) + rest);
  }

  lemma {:induction false} LinksOfPass(tail: string, scanned: bool)
    ensures Links(Pass(tail, scanned)) == PassLinks(Links(tail), scanned)
    decreases |tail|
  {
    if Index(tail, SCHEME) < 0 {
      CutIsLast(tail);
      var cut := CutOf(tail);
      LastLinks(cut.auth, cut.rest, scanned);
    } else {
      CutIsMore(tail);
      var cut := CutOf(tail);
      LinksOfPass(cut.next, !(scanned && |cut.middle| == 2));
      MoreLinks(cut.auth, cut.middle, cut.next, scanned);
    }
  }

  lemma PassLinksStep(first: Link, links: seq<Link>, scanned: bool)
    ensures PassLinks([first] + links, scanned) ==
              [if scanned && first.hasUser then Link(false, false) else first]
              + PassLinks(links, !(scanned && first.continues))
  {
    assert ([first] + links)[1..] == links;
  }

  lemma MoreLinks(auth: string, middle: string, next: string, scanned: bool)
    requires IsMore(auth, middle)
    requires var scans := !(scanned && |middle| == 2); Links(Pass(next, scans)) == PassLinks(Links(next), scans)
    ensures Links(Pass(auth + middle + next, scanned)) == PassLinks(Links(auth + middle + next), scanned)
  {
    var x := Pass(next, !(scanned && |middle| == 2));
    PassMore(auth, middle, next, scanned);
    LinksMore(auth, middle, next);
    PassLinksStep(Link(LastAt(auth) >= 0, |middle| == 2), Links(next), scanned);
    if scanned && LastAt(auth) >= 0 {
      MaskedLinks(auth, middle, x);
    } else {
      LinksMore(auth, middle, x);
    }
  }

  lemma LastLinks(auth: string, rest: string, scanned: bool)
    requires EndsAuth(auth, rest) && Index(auth + rest, SCHEME) < 0
    ensures Links(Pass(auth + rest, scanned)) == PassLinks(Links(auth + rest), scanned)
  {
    LastOf(auth, rest);
    LinksLast(auth, rest);
    PassLinksStep(Link(LastAt(auth) >= 0, false), [], scanned);
    if scanned && LastAt(auth) >= 0 {
      MaskedLast(auth, rest);
    }
  }

  lemma SeparatorsMore(auth: string, middle: string, next: string)
    requires IsMore(auth, middle)
    ensures Separators(auth + middle + next) == Links(next)
  {
    MoreOf(auth, middle, next);
  }

  /** The separators of a text after a pass. */
  lemma OnceSeparators(t: string)
    ensures Separators(Once(t)) == PassLinks(Separators(t), true)
  {
    if Index(t, SCHEME) < 0 {
      OnceNoUrl(t);
    } else {
      CutIsMore(t);
      var cut := CutOf(t);
      OnceScans(cut.auth + cut.middle, cut.next);
      SeparatorsMore(cut.auth, cut.middle, cut.next);
      SeparatorsMore(cut.auth, cut.middle, Pass(cut.next, true));
      LinksOfPass(cut.next, true);
    }
  }

  // ---- separators and the documented promise ----

  lemma OccursBehind(t: string, j: nat, k: nat)
    requires Index(t, SCHEME) == j
    ensures Occurs(t, SCHEME, k) <==> k == j || (j + 3 <= k && Occurs(t[j + 3..], SCHEME, k - j - 3))
  {
    if Occurs(t, SCHEME, k) {
      SchemeAt(t, j);
      SchemeAt(t, k);
    }
    if j + 3 <= k {
      assert t == t[..j + 3] + t[j + 3..];
      OccursInSuffix(t[..j + 3], t[j + 3..], SCHEME, k);
    }
  }

  lemma {:induction false} AuthEndMoves(t: string, from: nat, at: nat)
    requires from <= at <= |t|
    ensures AuthEnd(t, at) == from + AuthEnd(t[from..], at - from)
    decreases |t| - at
  {
    if at < |t| && !Terminator(t[at]) {
      AuthEndMoves(t, from, at + 1);
    }
  }

  lemma FreeBehind(t: string, from: nat, k: nat)
    requires from <= k && k + 3 <= |t|
    ensures FreeAt(t, k) <==> FreeAt(t[from..], k - from)
  {
    AuthEndMoves(t, from, k + 3);
    assert t[from..][k - from + 3..AuthEnd(t, k + 3) - from] == t[k + 3..AuthEnd(t, k + 3)];
  }

  lemma FreeFirst(t: string, j: nat)
    requires j + 3 <= |t|
    ensures FreeAt(t, j) <==> LastAt(t[j + 3..][..AuthEnd(t[j + 3..], 0)]) < 0
  {
    AuthEndMoves(t, j + 3, j + 3);
    assert t[j + 3..][..AuthEnd(t, j + 3) - (j + 3)] == t[j + 3..AuthEnd(t, j + 3)];
  }

  lemma AllFreeBehind(t: string, j: nat)
    requires Index(t, SCHEME) == j
    ensures j + 3 <= |t| && (AllFree(t) <==> FreeAt(t, j) && AllFree(t[j + 3..]))
  {
    if AllFree(t) {
      FreeHere(t, j);
    }
    if FreeAt(t, j) && AllFree(t[j + 3..]) {
      FreeThere(t, j);
    }
  }

  lemma FreeHere(t: string, j: nat)
    requires Index(t, SCHEME) == j && AllFree(t)
    ensures AllFree(t[j + 3..])
  {
    var tail := t[j + 3..];
    forall k: nat | Occurs(tail, SCHEME, k) ensures FreeAt(tail, k) {
      OccursBehind(t, j, k + j + 3);
      FreeBehind(t, j + 3, k + j + 3);
    }
  }

  lemma FreeThere(t: string, j: nat)
    requires Index(t, SCHEME) == j && FreeAt(t, j) && AllFree(t[j + 3..])
    ensures AllFree(t)
  {
    forall k: nat | Occurs(t, SCHEME, k) ensures FreeAt(t, k) {
      OccursBehind(t, j, k);
      if k != j {
        FreeBehind(t, j + 3, k);
      }
    }
  }

  lemma AuthFree(tail: string)
    ensures CutOf(tail).auth == tail[..AuthEnd(tail, 0)]
  {
  }

  lemma NoUserStep(first: Link, links: seq<Link>)
    ensures NoUser([first] + links) <==> !first.hasUser && NoUser(links)
  {
    assert ([first] + links)[1..] == links;
  }

  lemma LinksFree(tail: string)
    ensures NoUser(Links(tail)) <==> LastAt(tail[..AuthEnd(tail, 0)]) < 0 && NoUser(Separators(tail))
  {
    AuthFree(tail);
    var cut := CutOf(tail);
    if Index(tail, SCHEME) < 0 {
      NoUserStep(Link(LastAt(cut.auth) >= 0, false), []);
    } else {
      CutIsMore(tail);
      LinksMore(cut.auth, cut.middle, cut.next);
      NoUserStep(Link(LastAt(cut.auth) >= 0, |cut.middle| == 2), Links(cut.next));
    }
  }

  /** All authorities are free exactly when no separator is followed by userinfo. */
  lemma {:induction false} FreeSeparators(t: string)
    ensures AllFree(t) <==> NoUser(Separators(t))
    decreases |t|
  {
    var j := Index(t, SCHEME);
    if j >= 0 {
      var tail := t[j + 3..];
      FreeSeparators(tail);
      AllFreeBehind(t, j);
      FreeFirst(t, j);
      LinksFree(tail);
      EndsBefore(t);
      CutParts(t, j, AuthEnd(t, 0));
    }
  }

  /**
   The iterated pass masks the userinfo of every URL exactly for the texts in which no chain of separators has its
   first '@' behind one at an odd position; this can be told before the call.
   */
  lemma {:induction false} StableIsFree(t: string)
    ensures AllFree(Stable(t)) <==> !Leaks(t)
    decreases OpenCount(t)
  {
    OnceFixesClean(t);
    OnceCloses(t);
    OnceSeparators(t);
    if Once(t) == t {
      FixedVerdict(Separators(t), true);
      FreeSeparators(t);
    } else {
      PassKeepsVerdict(Separators(t), true, Even, Even);
      StableIsFree(Once(t));
    }
  }

  /** In particular whenever no authority runs into a separator. */
  lemma UnchainedIsFree(t: string)
    requires forall i :: 0 <= i < |Separators(t)| ==> !Separators(t)[i].continues
    ensures AllFree(Stable(t))
  {
    NoChainNoLeak(Separators(t));
    StableIsFree(t);
  }

  // ---- a text that keeps its userinfo ----

  /** Text that neither ends an authority nor starts a separator or a userinfo. */
  ghost predicate Plain(p: string) {
    NoTerminator(p) && LastAt(p) < 0 && forall i :: 0 <= i < |p| ==> p[i] != ':'
  }

  /** A scheme inside the authority of another one, with userinfo behind it. */
  ghost predicate Nested(b: string, auth: string, rest: string) {
    Plain(b) && EndsAuth(auth, rest) && Index(auth + rest, SCHEME) < 0 && LastAt(auth) >= 0
  }

  lemma ColonBehind(p: string)
    requires NoTerminator(p) && LastAt(p) < 0
    ensures NoTerminator(p + ":") && LastAt(p + ":") < 0
  {
    assert (p + ":")[..|p|] == p;
  }

  lemma SchemeBehind(p: string)
    requires Plain(p)
    ensures IsHead(p + SCHEME)
  {
    IndexIs(SCHEME, SCHEME, 0);
    NoColonInFront(p, SCHEME);
  }

  lemma PlainIsMore(p: string)
    requires Plain(p)
    ensures IsMore(p + ":", "//") && IsHead(p + SCHEME) && LastAt(p + ":") < 0 && p + ":" + "//" == p + SCHEME
  {
    ColonBehind(p);
    SchemeBehind(p);
    assert p + ":" + "//" == p + SCHEME;
  }

  lemma NestedLinks(b: string, auth: string, rest: string)
    requires Nested(b, auth, rest)
    ensures Links(b + SCHEME + (auth + rest)) == [Link(false, true), Link(true, false)]
    ensures Pass(b + SCHEME + (auth + rest), true) == b + SCHEME + (auth + rest)
  {
    PlainIsMore(b);
    LinksMore(b + ":", "//", auth + rest);
    LinksLast(auth, rest);
    PassMore(b + ":", "//", auth + rest, true);
    LastOf(auth, rest);
  }

  lemma NestedLeaks(links: seq<Link>)
    requires links == [Link(false, true), Link(true, false)]
    ensures LeaksFrom(links, Even)
  {
    assert links[1..] == [Link(true, false)];
    assert LeaksFrom(links[1..], Odd);
  }

  /** Every such text is left exactly as it is, with its userinfo. */
  lemma NestedStays(a: string, b: string, auth: string, rest: string)
    requires Plain(a) && Nested(b, auth, rest)
    ensures var t := a + SCHEME + (b + SCHEME + (auth + rest)); Stable(t) == t && Leaks(t) && !AllFree(Stable(t))
  {
    var tail := b + SCHEME + (auth + rest);
    PlainIsMore(a);
    NestedLinks(b, auth, rest);
    OnceScans(a + SCHEME, tail);
    SeparatorsMore(a + ":", "//", tail);
    NestedLeaks(Links(tail));
    StableIsFree(a + SCHEME + tail);
  }

  lemma NestedUrlStays(t: string)
    requires t == "http://https://u:p@h"
    ensures Stable(t) == t && Leaks(t) && !AllFree(Stable(t))
  {
    var a, b, auth, rest := "http", "https", "u:p@h", "";
    assert t == a + SCHEME + (b + SCHEME + (auth + rest));
    AtIsFound(auth, 3);
    NoSlash(auth + rest);
    NestedStays(a, b, auth, rest);
  }

  lemma {:induction false} AtIsFound(auth: string, i: nat)
    requires i < |auth| && auth[i] == '@'
    ensures LastAt(auth) >= 0
    decreases |auth|
  {
    if i < |auth| - 1 {
      AtIsFound(auth[..|auth| - 1], i);
    }
  }

  lemma NoSlash(t: string)
    requires forall i :: 0 <= i < |t| ==> t[i] != '/'
    ensures Index(t, SCHEME) < 0
  {
    var k := Index(t, SCHEME);
    if k >= 0 {
      SchemeAt(t, k);
    }
  }
}
