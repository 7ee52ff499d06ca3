/** `Redact`: three passes one after the other, and why applying them again changes nothing. */
module Redaction {
  import opened Text
  import UrlCreds
  import HeaderAuth
  import Assignments

  ghost function Redacted(lower: string -> string, s: string): string {
    if s == "" then s
    else Assignments.Masked(lower, HeaderAuth.Masked(HeaderAuth.PREFIXES, UrlCreds.Stable(s)))
  }

  method Redact(lower: string -> string, s: string) returns (out: string)
    ensures out == Redacted(lower, s)
  {
    if s == "" {
      return s;
    }
    out := UrlCreds.MaskUrls(s);
    out := HeaderAuth.MaskHeaders(out);
    out := Assignments.MaskAssignments(lower, out);
  }

  // ---- the header pass keeps authorities clean ----

  lemma MaskIsClean(b: string)
    requires (b == "" || UrlCreds.Hard(b[0])) && UrlCreds.Clean(b)
    ensures UrlCreds.Clean(MASK + b)
  {
    forall j | 0 <= j ensures !Occurs(MASK, UrlCreds.SCHEME, j) {
      if Occurs(MASK, UrlCreds.SCHEME, j) {
        OccursChar(MASK, UrlCreds.SCHEME, j, j);
      }
    }
    NotFound(MASK, UrlCreds.SCHEME);
    UrlCreds.CleanSplits(MASK, b);
  }

  /** A head that ends with a space is scanned on its own. */
  lemma CleanAfterSpace(a: string, b: string)
    requires a != "" && a[|a| - 1] == ' '
    ensures UrlCreds.Clean(a + b) <==> UrlCreds.Clean(a) && UrlCreds.Clean(b)
  {
    var front := a[..|a| - 1];
    assert a == front + [' '];
    Associate(front, [' '], b);
    CleanAroundSpace(front, b);
    CleanAroundSpace(front, "");
    Associate(front, [' '], "");
    assert front + [' '] + "" == a && UrlCreds.Clean("");
  }

  lemma CleanAroundSpace(front: string, b: string)
    ensures UrlCreds.Clean(front + ([' '] + b)) <==> UrlCreds.Clean(front) && UrlCreds.Clean(b)
  {
    UrlCreds.CleanSplits(front, [' '] + b);
    UrlCreds.CleanAfterHard(' ', b);
  }

  lemma HeadEndsWithSpace(ps: seq<string>, head: string)
    requires HeaderAuth.Plain(ps) && HeaderAuth.EndsWithHeader(ps, head)
    ensures head[|head| - 1] == ' '
  {
    HeaderAuth.SpaceEndsHeader(ps, head, HeaderAuth.FirstAt(ps, head));
  }

  lemma {:induction false} HeadersKeepClean(ps: seq<string>, t: string)
    requires HeaderAuth.Plain(ps) && UrlCreds.Clean(t)
    ensures UrlCreds.Clean(HeaderAuth.Masked(ps, t))
    decreases |t|
  {
    match HeaderAuth.First(ps, t)
    case NoHeader =>
    case Header(head, value, rest) =>
      var after := HeaderAuth.Masked(ps, rest);
      HeaderAuth.FirstShape(ps, t);
      HeadEndsWithSpace(ps, head);
      Associate(head, value, rest);
      CleanAfterSpace(head, value + rest);
      UrlCreds.CleanSplits(value, rest);
      HeadersKeepClean(ps, rest);
      HeaderAuth.MaskedKeepsFirst(ps, rest);
      MaskIsClean(after);
      CleanAfterSpace(head, MASK + after);
      Associate(head, MASK, after);
  }

  // ---- both passes work line by line ----

  /** A text is clean exactly when all its lines are. */
  ghost predicate AllClean(lines: seq<string>) {
    forall i :: 0 <= i < |lines| ==> UrlCreds.Clean(lines[i])
  }

  lemma {:induction false} CleanLines(lines: seq<string>)
    requires lines != []
    ensures UrlCreds.Clean(Join(lines)) <==> AllClean(lines)
  {
    if |lines| > 1 {
      CleanLines(lines[1..]);
      CleanLine(lines[0], Join(lines[1..]));
      AllCleanSplit(lines);
    }
  }

  lemma AllCleanSplit(lines: seq<string>)
    requires lines != []
    ensures AllClean(lines) <==> UrlCreds.Clean(lines[0]) && AllClean(lines[1..])
  {
    assert lines == [lines[0]] + lines[1..];
  }

  lemma CleanLine(line: string, rest: string)
    ensures UrlCreds.Clean(line + "\n" + rest) <==> UrlCreds.Clean(line) && UrlCreds.Clean(rest)
  {
    Associate(line, ['\n'], rest);
    UrlCreds.CleanSplits(line, ['\n'] + rest);
    UrlCreds.CleanAfterHard('\n', rest);
  }

  ghost function MaskedHeaders(ps: seq<string>, lines: seq<string>): (masked: seq<string>)
    ensures |masked| == |lines|
    ensures forall i :: 0 <= i < |lines| ==> masked[i] == HeaderAuth.Masked(ps, lines[i])
  {
    seq(|lines|, i requires 0 <= i < |lines| => HeaderAuth.Masked(ps, lines[i]))
  }

  lemma {:induction false} HeaderLines(ps: seq<string>, lines: seq<string>)
    requires HeaderAuth.Plain(ps) && lines != []
    ensures HeaderAuth.Masked(ps, Join(lines)) == Join(MaskedHeaders(ps, lines))
  {
    if |lines| > 1 {
      HeaderLines(ps, lines[1..]);
      HeaderAuth.MaskedLine(ps, lines[0], Join(lines[1..]));
      assert MaskedHeaders(ps, lines)[1..] == MaskedHeaders(ps, lines[1..]);
    }
  }

  lemma HeaderLinesOf(ps: seq<string>, t: string)
    requires HeaderAuth.Plain(ps)
    ensures Lines(HeaderAuth.Masked(ps, t)) == MaskedHeaders(ps, Lines(t))
  {
    var lines := Lines(t);
    LinesAreLines(t);
    HeaderLines(ps, lines);
    forall i | 0 <= i < |lines| ensures OneLine(MaskedHeaders(ps, lines)[i]) {
      HeaderAuth.MaskedOneLine(ps, lines[i]);
    }
    LinesOfJoin(MaskedHeaders(ps, lines));
  }

  // ---- the output ----

  /** The lines the passes produce: each is the mask, or a header-masked line with clean authorities. */
  ghost predicate Settled(ps: seq<string>, line: string) {
    UrlCreds.Clean(line) && HeaderAuth.Masked(ps, line) == line
  }

  lemma MaskHasNoSpace(i: nat)
    requires i < |MASK|
    ensures MASK[i] != ' '
  {
  }

  lemma MaskIsSettled(ps: seq<string>)
    requires HeaderAuth.Plain(ps)
    ensures Settled(ps, MASK)
  {
    assert UrlCreds.Clean("");
    MaskIsClean("");
    assert MASK + "" == MASK;
    forall j | 0 <= j ensures HeaderAuth.HeaderAt(ps, MASK, j) == 0 {
      if HeaderAuth.HeaderAt(ps, MASK, j) > 0 {
        HeaderAuth.SpaceEndsHeader(ps, MASK, j);
        MaskHasNoSpace(j + HeaderAuth.HeaderAt(ps, MASK, j) - 1);
      }
    }
    HeaderAuth.NoneAt(ps, MASK);
  }

  lemma HeaderPassSettles(ps: seq<string>, u: string, i: nat)
    requires HeaderAuth.Plain(ps) && UrlCreds.Clean(u) && i < |Lines(HeaderAuth.Masked(ps, u))|
    ensures Settled(ps, Lines(HeaderAuth.Masked(ps, u))[i])
  {
    HeaderLinesOf(ps, u);
    HeaderAuth.MaskedIdempotent(ps, Lines(u)[i]);
    HeadersKeepClean(ps, u);
    var h := HeaderAuth.Masked(ps, u);
    LinesAreLines(h);
    CleanLines(Lines(h));
  }

  /** Every line of the output is settled. */
  lemma OutputSettled(lower: string -> string, s: string, i: nat)
    requires s != "" && i < |Lines(Redacted(lower, s))|
    ensures Settled(HeaderAuth.PREFIXES, Lines(Redacted(lower, s))[i])
  {
    HeaderAuth.PrefixesArePlain();
    var u := UrlCreds.Stable(s);
    UrlCreds.StableIsClean(s);
    var h := HeaderAuth.Masked(HeaderAuth.PREFIXES, u);
    Assignments.MaskedLines(lower, h);
    HeaderPassSettles(HeaderAuth.PREFIXES, u, i);
    MaskIsSettled(HeaderAuth.PREFIXES);
    assert Assignments.MaskEach(lower, Lines(h))[i] == Assignments.MaskLine(lower, Lines(h)[i]);
  }

  /** A text whose lines are settled is left alone by the URL pass and by the header pass. */
  lemma SettledText(ps: seq<string>, t: string)
    requires HeaderAuth.Plain(ps) && forall i :: 0 <= i < |Lines(t)| ==> Settled(ps, Lines(t)[i])
    ensures UrlCreds.Once(t) == t && UrlCreds.Stable(t) == t && HeaderAuth.Masked(ps, t) == t
  {
    LinesAreLines(t);
    CleanLines(Lines(t));
    UrlCreds.OnceFixesClean(t);
    HeaderLinesOf(ps, t);
    HeaderLines(ps, Lines(t));
    assert MaskedHeaders(ps, Lines(t)) == Lines(t);
  }

  /** The output is a fixed point of each of the three passes. */
  lemma OutputIsFixed(lower: string -> string, s: string)
    requires s != ""
    ensures var out := Redacted(lower, s);
            && UrlCreds.Stable(out) == out
            && HeaderAuth.Masked(HeaderAuth.PREFIXES, out) == out
            && Assignments.Masked(lower, out) == out
  {
    var out := Redacted(lower, s);
    HeaderAuth.PrefixesArePlain();
    forall i | 0 <= i < |Lines(out)| ensures Settled(HeaderAuth.PREFIXES, Lines(out)[i]) {
      OutputSettled(lower, s, i);
    }
    SettledText(HeaderAuth.PREFIXES, out);
    Assignments.MaskedIdempotent(lower, HeaderAuth.Masked(HeaderAuth.PREFIXES, UrlCreds.Stable(s)));
  }

  /** `Redact` is idempotent on every string, whatever `strings.ToLower` does. */
  lemma RedactIdempotent(lower: string -> string, s: string)
    ensures Redacted(lower, Redacted(lower, s)) == Redacted(lower, s)
  {
    if s != "" {
      OutputIsFixed(lower, s);
    }
  }

  /**
   Redaction is not erasure: text whose authorities hold no '@', with no header prefix and no line that calls for
   masking, is left exactly as it is.
   */
  lemma PlainTextUnchanged(lower: string -> string, s: string)
    requires UrlCreds.Clean(s) && HeaderAuth.FirstAt(HeaderAuth.PREFIXES, s) == -1
    requires forall i :: 0 <= i < |Lines(s)| ==> Assignments.MaskLine(lower, Lines(s)[i]) == Lines(s)[i]
    ensures Redacted(lower, s) == s
  {
    UrlCreds.OnceFixesClean(s);
    LinesAreLines(s);
    assert Assignments.MaskEach(lower, Lines(s)) == Lines(s);
  }

  /** Every line that assigns to a sensitive key after the first two passes is replaced by the bare mask. */
  lemma AssignmentsAreMasked(lower: string -> string, s: string, i: nat, n: nat, k: int, quote: string, blanks: string,
                             rest: string)
    requires s != ""
    requires var lines := Lines(HeaderAuth.Masked(HeaderAuth.PREFIXES, UrlCreds.Stable(s)));
             i < |lines| && Assignments.Assigns(lower(lines[i]), n, k, quote, blanks, rest)
    ensures i < |Lines(Redacted(lower, s))| && Lines(Redacted(lower, s))[i] == MASK
  {
    var h := HeaderAuth.Masked(HeaderAuth.PREFIXES, UrlCreds.Stable(s));
    Assignments.MaskedLines(lower, h);
    Assignments.AssignedLineIsMasked(lower, Lines(h)[i], n, k, quote, blanks, rest);
    assert Assignments.MaskEach(lower, Lines(h))[i] == Assignments.MaskLine(lower, Lines(h)[i]);
  }

  /** In text that holds neither a URL with userinfo nor an authorization header this is so for the text's own lines. */
  lemma PlainAssignmentsAreMasked(lower: string -> string, s: string, i: nat, n: nat, k: int, quote: string,
                                  blanks: string, rest: string)
    requires UrlCreds.Clean(s) && HeaderAuth.FirstAt(HeaderAuth.PREFIXES, s) == -1 && s != ""
    requires i < |Lines(s)| && Assignments.Assigns(lower(Lines(s)[i]), n, k, quote, blanks, rest)
    ensures i < |Lines(Redacted(lower, s))| && Lines(Redacted(lower, s))[i] == MASK
  {
    UrlCreds.OnceFixesClean(s);
    AssignmentsAreMasked(lower, s, i, n, k, quote, blanks, rest);
  }

  lemma NoHeaderWithout(t: string)
    requires forall i :: 0 <= i < |t| ==> t[i] != 'h'
    ensures HeaderAuth.FirstAt(HeaderAuth.PREFIXES, t) == -1
  {
    forall j | 0 <= j ensures HeaderAuth.HeaderAt(HeaderAuth.PREFIXES, t, j) == 0 {
      if HeaderAuth.HeaderAt(HeaderAuth.PREFIXES, t, j) > 0 {
        var n := HeaderAuth.HeaderFound(HeaderAuth.PREFIXES, t, j);
        var at := if n < 2 then 3 else 9;
        OccursChar(t, HeaderAuth.PREFIXES[n], j, j + at);
      }
    }
    HeaderAuth.NoneAt(HeaderAuth.PREFIXES, t);
  }

  lemma NoUrlWithout(t: string)
    requires forall i :: 0 <= i < |t| ==> t[i] != '/'
    ensures UrlCreds.Clean(t)
  {
    var k := Index(t, UrlCreds.SCHEME);
    if k >= 0 {
      OccursChar(t, UrlCreds.SCHEME, k, k + 1);
    }
  }

  /** For example a line of JSON. */
  lemma JsonIsMasked(lower: string -> string, line: string)
    requires line == "{\"token\": \"x\"}" && lower(line) == line
    ensures Redacted(lower, line) == MASK
  {
    var key := Assignments.KEYS[4];
    NoHeaderWithout(line);
    NoUrlWithout(line);
    SingleLine(line);
    assert key == "token" && line[2..7] == key;
    assert line[7..] == "\"" + "" + ": \"x\"}";
    PlainAssignmentsAreMasked(lower, line, 0, 4, 2, "\"", "", ": \"x\"}");
    OneLineOut(lower, line);
  }

  lemma OneLineOut(lower: string -> string, line: string)
    requires UrlCreds.Clean(line) && HeaderAuth.FirstAt(HeaderAuth.PREFIXES, line) == -1 && line != ""
    requires Lines(line) == [line] && |Lines(Redacted(lower, line))| > 0 && Lines(Redacted(lower, line))[0] == MASK
    ensures Redacted(lower, line) == MASK
  {
    UrlCreds.OnceFixesClean(line);
    Assignments.MaskedLines(lower, line);
    LinesAreLines(Redacted(lower, line));
    assert Lines(Redacted(lower, line)) == [MASK];
  }
}
