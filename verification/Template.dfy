/** The token grammar of templates, and replacing tokens one name at a time. */
module Template {
  import opened Text
  import opened Wrappers

  const OPEN := "${"
  const CLOSE := "}"

  function Ref(name: string): string { OPEN + name + CLOSE }

  /** A template is text interspersed with references to names. */
  datatype Template = Literal(text: string) | Token(text: string, name: string, rest: Template)

  /** A text up to its first reference, the name between the braces, and the rest; the reference may be open-ended. */
  datatype Scan = NoRef | Unclosed | Found(text: string, name: string, rest: string)

  function First(s: string): (scan: Scan)
    ensures scan.NoRef? <==> Index(s, OPEN) < 0
    ensures scan.Found? ==> s == scan.text + Ref(scan.name) + scan.rest && Index(s, OPEN) == |scan.text|
  {
    var i := Index(s, OPEN);
    if i < 0 then NoRef
    else
      var tail := s[i + 2..];
      var j := Index(tail, CLOSE);
      if j < 0 then Unclosed
      else
        CutParts(s, i, j);
        Found(s[..i], tail[..j], tail[j + 1..])
  }

  lemma CutParts(s: string, i: nat, j: nat)
    requires Occurs(s, OPEN, i) && Occurs(s[i + 2..], CLOSE, j)
    ensures s == s[..i] + Ref(s[i + 2..][..j]) + s[i + 2..][j + 1..]
  {
    var tail := s[i + 2..];
    assert s == s[..i] + (OPEN + tail) && tail == tail[..j] + (CLOSE + tail[j + 1..]);
    Unfold(s[..i], tail[..j], tail[j + 1..]);
  }

  lemma Unfold(text: string, name: string, rest: string)
    ensures text + (OPEN + (name + (CLOSE + rest))) == text + Ref(name) + rest
  {
    assert |text + (OPEN + (name + (CLOSE + rest)))| == |text + Ref(name) + rest|;
  }

  /** Reading from the left: an opening, everything up to the next closing brace, and so on. */
  function Parse(s: string): Template
    decreases |s|
  {
    match First(s)
    case NoRef => Literal(s)
    case Unclosed => Literal(s)
    case Found(text, name, rest) => Token(text, name, Parse(rest))
  }

  /** `templateVars`. */
  function Vars(s: string): seq<string>
    decreases |s|
  {
    match First(s)
    case NoRef => []
    case Unclosed => []
    case Found(_, name, rest) => [name] + Vars(rest)
  }

  /** `containsDanglingPlaceholder`: some opening is never closed. */
  predicate Dangling(s: string)
    decreases |s|
  {
    match First(s)
    case NoRef => false
    case Unclosed => true
    case Found(_, _, rest) => Dangling(rest)
  }

  function Names(t: Template): seq<string> {
    match t
    case Literal(_) => []
    case Token(_, name, rest) => [name] + Names(rest)
  }

  lemma {:induction false} VarsAreNames(s: string)
    ensures Vars(s) == Names(Parse(s))
    decreases |s|
  {
    match First(s)
    case NoRef =>
    case Unclosed =>
    case Found(_, _, rest) => VarsAreNames(rest);
  }

  // ---- well-formed templates ----

  ghost predicate NoOpen(s: string) {
    forall k :: 0 <= k ==> !Occurs(s, OPEN, k)
  }

  /** Names are made of characters that have no meaning in the token grammar. */
  predicate PlainName(name: string) {
    forall i :: 0 <= i < |name| ==> name[i] != '$' && name[i] != '{' && name[i] != '}'
  }

  ghost predicate WellFormed(t: Template) {
    match t
    case Literal(text) => NoOpen(text)
    case Token(text, name, rest) => NoOpen(text) && PlainName(name) && WellFormed(rest)
  }

  ghost predicate AllPlain(names: seq<string>) {
    forall i :: 0 <= i < |names| ==> PlainName(names[i])
  }

  function Print(t: Template): string {
    match t
    case Literal(text) => text
    case Token(text, name, rest) => text + Ref(name) + Print(rest)
  }

  lemma {:induction false} ParsePrints(s: string)
    ensures Print(Parse(s)) == s
    decreases |s|
  {
    match First(s)
    case NoRef =>
    case Unclosed =>
    case Found(_, _, rest) => ParsePrints(rest);
  }

  lemma TextBefore(text: string, b: string)
    requires Index(text + b, OPEN) == |text|
    ensures NoOpen(text)
  {
    forall k | 0 <= k ensures !Occurs(text, OPEN, k) {
      if Occurs(text, OPEN, k) {
        OccursInPrefix(text, b, OPEN, k);
      }
    }
  }

  /** A text without dangling openings and with plain names reads as a well-formed template. */
  lemma {:induction false} ParseWellFormed(s: string)
    requires !Dangling(s) && AllPlain(Vars(s))
    ensures WellFormed(Parse(s))
    decreases |s|
  {
    match First(s)
    case NoRef =>
    case Found(text, name, rest) =>
      Associate(text, Ref(name), rest);
      TextBefore(text, Ref(name) + rest);
      assert Vars(s)[0] == name && Vars(s)[1..] == Vars(rest);
      ParseWellFormed(rest);
  }

  // ---- filling in ----

  /** Text that can be put anywhere without opening a reference inside it or at its edges. */
  ghost predicate Safe(e: string) {
    NoOpen(e) && e != "" && e[0] != '{' && e[|e| - 1] != '$'
  }

  ghost predicate AllSafe(f: map<string, string>) {
    forall name :: name in f ==> Safe(f[name])
  }

  function Value(f: map<string, string>, name: string): string {
    if name in f then f[name] else Ref(name)
  }

  /** All references filled in at once; names without a value stay as they are. */
  function Fill(t: Template, f: map<string, string>): string {
    match t
    case Literal(text) => text
    case Token(text, name, rest) => text + Value(f, name) + Fill(rest, f)
  }

  function Unfilled(t: Template, f: map<string, string>): seq<string> {
    match t
    case Literal(_) => []
    case Token(_, name, rest) => (if name in f then [] else [name]) + Unfilled(rest, f)
  }

  lemma {:induction false} FillNothing(t: Template)
    ensures Fill(t, map[]) == Print(t)
  {
    match t
    case Literal(_) =>
    case Token(_, name, rest) => FillNothing(rest);
  }

  lemma {:induction false} UnfilledAre(t: Template, f: map<string, string>)
    ensures forall i :: 0 <= i < |Unfilled(t, f)| ==> Unfilled(t, f)[i] !in f && Unfilled(t, f)[i] in Names(t)
    ensures forall i :: 0 <= i < |Names(t)| && Names(t)[i] !in f ==> Names(t)[i] in Unfilled(t, f)
  {
    match t
    case Literal(_) =>
    case Token(_, name, rest) =>
      UnfilledAre(rest, f);
      var first := if name in f then [] else [name];
      assert Unfilled(t, f) == first + Unfilled(rest, f) && Names(t) == [name] + Names(rest);
      assert forall i :: |first| <= i < |Unfilled(t, f)| ==> Unfilled(t, f)[i] == Unfilled(rest, f)[i - |first|];
      assert forall i :: 1 <= i < |Names(t)| ==> Names(t)[i] == Names(rest)[i - 1];
  }

  /** No reference starts in text that has none, whatever value or reference follows. */
  lemma NoOpenBefore(a: string, b: string, k: int)
    requires NoOpen(a) && (b == "" || b[0] != '{' || (a != "" && a[|a| - 1] != '$')) && k < |a|
    ensures !Occurs(a + b, OPEN, k)
  {
    if 0 <= k && k + 2 <= |a| {
      OccursInPrefix(a, b, OPEN, k);
    } else if Occurs(a + b, OPEN, k) {
      OccursChar(a + b, OPEN, k, k);
      OccursChar(a + b, OPEN, k, k + 1);
    }
  }

  lemma PrefixOpens(s: string, name: string, k: int)
    requires Occurs(s, Ref(name), k)
    ensures Occurs(s, OPEN, k)
  {
    assert s[k..k + 2] == s[k..k + |Ref(name)|][..2] == Ref(name)[..2];
  }

  // ---- what a filled template still refers to ----

  lemma IndexSkip(a: string, b: string, p: string)
    requires forall k :: 0 <= k < |a| ==> !Occurs(a + b, p, k)
    ensures Index(a + b, p) == if Index(b, p) < 0 then -1 else |a| + Index(b, p)
  {
    var j := Index(b, p);
    forall k | |a| <= k ensures Occurs(a + b, p, k) <==> Occurs(b, p, k - |a|) {
      OccursInSuffix(a, b, p, k);
    }
    if j >= 0 {
      IndexIs(a + b, p, |a| + j);
    } else {
      NotFound(a + b, p);
    }
  }

  /** A text can be read in only one way. */
  lemma FirstIs(text: string, name: string, rest: string)
    requires Index(text + (OPEN + (name + (CLOSE + rest))), OPEN) == |text|
    requires Index(name + (CLOSE + rest), CLOSE) == |name|
    ensures First(text + (OPEN + (name + (CLOSE + rest)))) == Found(text, name, rest)
  {
    var tail := name + (CLOSE + rest);
    var s := text + (OPEN + tail);
    assert s[..|text|] == text && s[|text| + 2..] == tail;
    assert tail[..|name|] == name && tail[|name| + 1..] == rest;
  }

  /** Text in which no reference starts belongs to the text of what follows. */
  lemma FirstSkip(a: string, b: string)
    requires forall k :: 0 <= k < |a| ==> !Occurs(a + b, OPEN, k)
    ensures match First(b)
            case NoRef => First(a + b).NoRef?
            case Unclosed => First(a + b).Unclosed?
            case Found(text, name, rest) => First(a + b) == Found(a + text, name, rest)
  {
    IndexSkip(a, b, OPEN);
    var i := Index(b, OPEN);
    if i >= 0 {
      assert (a + b)[|a| + i + 2..] == b[i + 2..] && (a + b)[..|a| + i] == a + b[..i];
    }
  }

  lemma VarsSkip(a: string, b: string)
    requires forall k :: 0 <= k < |a| ==> !Occurs(a + b, OPEN, k)
    ensures Vars(a + b) == Vars(b) && (Dangling(a + b) <==> Dangling(b))
  {
    FirstSkip(a, b);
  }

  lemma NameEnds(name: string, b: string)
    requires PlainName(name)
    ensures Index(name + (CLOSE + b), CLOSE) == |name|
  {
    var s := name + (CLOSE + b);
    forall k | 0 <= k < |name| ensures !Occurs(s, CLOSE, k) {
      if Occurs(s, CLOSE, k) {
        OccursChar(s, CLOSE, k, k);
      }
    }
    assert s[|name|..|name| + 1] == CLOSE;
    IndexIs(s, CLOSE, |name|);
  }

  lemma VarsHit(name: string, b: string)
    requires PlainName(name)
    ensures Vars(Ref(name) + b) == [name] + Vars(b) && (Dangling(Ref(name) + b) <==> Dangling(b))
  {
    var s := "" + (OPEN + (name + (CLOSE + b)));
    Unfold("", name, b);
    assert s == Ref(name) + b;
    assert s[..2] == OPEN;
    IndexIs(s, OPEN, 0);
    NameEnds(name, b);
    FirstIs("", name, b);
  }

  /** The references of a filled template are the unfilled names in order, and none of them dangles. */
  lemma {:induction false} FillVars(t: Template, f: map<string, string>)
    requires WellFormed(t) && AllSafe(f)
    ensures Vars(Fill(t, f)) == Unfilled(t, f) && !Dangling(Fill(t, f))
  {
    match t
    case Literal(text) =>
      NotFound(text, OPEN);
    case Token(text, name, rest) =>
      FillVars(rest, f);
      TextSkipped(text, f, name, Fill(rest, f));
      ValueVars(f, name, Fill(rest, f));
      Associate(text, Value(f, name), Fill(rest, f));
  }

  lemma TextSkipped(text: string, f: map<string, string>, name: string, filled: string)
    requires NoOpen(text) && AllSafe(f)
    ensures Vars(text + (Value(f, name) + filled)) == Vars(Value(f, name) + filled)
    ensures Dangling(text + (Value(f, name) + filled)) <==> Dangling(Value(f, name) + filled)
  {
    var b := Value(f, name) + filled;
    forall k | 0 <= k < |text| ensures !Occurs(text + b, OPEN, k) {
      NoOpenBefore(text, b, k);
    }
    VarsSkip(text, b);
  }

  lemma ValueVars(f: map<string, string>, name: string, filled: string)
    requires AllSafe(f) && PlainName(name)
    ensures Vars(Value(f, name) + filled) == (if name in f then [] else [name]) + Vars(filled)
    ensures Dangling(Value(f, name) + filled) <==> Dangling(filled)
  {
    if name in f {
      forall k | 0 <= k < |f[name]| ensures !Occurs(f[name] + filled, OPEN, k) {
        NoOpenBefore(f[name], filled, k);
      }
      VarsSkip(f[name], filled);
    } else {
      VarsHit(name, filled);
    }
  }

  /** Without unfilled names nothing in the text opens a reference any more. */
  lemma FilledHasNoOpen(t: Template, f: map<string, string>)
    requires WellFormed(t) && AllSafe(f) && Unfilled(t, f) == []
    ensures NoOpen(Fill(t, f))
  {
    FillVars(t, f);
    var s := Fill(t, f);
    assert Index(s, OPEN) < 0;
  }

  // ---- replacing one name after the other ----

  datatype Cut = NoCut | Cut(before: string, after: string)

  function FirstCut(s: string, p: string): (cut: Cut)
    requires p != ""
    ensures cut.NoCut? <==> Index(s, p) < 0
    ensures cut.Cut? ==> s == cut.before + p + cut.after && Index(s, p) == |cut.before|
  {
    var i := Index(s, p);
    if i < 0 then NoCut
    else
      assert s == s[..i] + s[i..i + |p|] + s[i + |p|..];
      Cut(s[..i], s[i + |p|..])
  }

  /** `strings.ReplaceAll`. */
  function Replaced(s: string, p: string, e: string): string
    requires p != ""
    decreases |s|
  {
    match FirstCut(s, p)
    case NoCut => s
    case Cut(before, after) => before + e + Replaced(after, p, e)
  }

  lemma CutSkip(a: string, b: string, p: string)
    requires p != "" && forall k :: 0 <= k < |a| ==> !Occurs(a + b, p, k)
    ensures match FirstCut(b, p)
            case NoCut => FirstCut(a + b, p).NoCut?
            case Cut(before, after) => FirstCut(a + b, p) == Cut(a + before, after)
  {
    IndexSkip(a, b, p);
    var i := Index(b, p);
    if i >= 0 {
      assert (a + b)[..|a| + i] == a + b[..i] && (a + b)[|a| + i + |p|..] == b[i + |p|..];
    }
  }

  lemma ReplacedSkip(a: string, b: string, p: string, e: string)
    requires p != "" && forall k :: 0 <= k < |a| ==> !Occurs(a + b, p, k)
    ensures Replaced(a + b, p, e) == a + Replaced(b, p, e)
  {
    CutSkip(a, b, p);
    match FirstCut(b, p)
    case NoCut =>
    case Cut(before, after) => Regroup(a, before, e, Replaced(after, p, e));
  }

  lemma ReplacedHit(b: string, p: string, e: string)
    requires p != ""
    ensures Replaced(p + b, p, e) == e + Replaced(b, p, e)
  {
    assert FirstCut(p + b, p) == Cut("", b) by { CutHit(b, p); }
    assert "" + e + Replaced(b, p, e) == e + Replaced(b, p, e);
  }

  lemma CutHit(b: string, p: string)
    requires p != ""
    ensures FirstCut(p + b, p) == Cut("", b)
  {
    var s := p + b;
    assert s[0..|p|] == p && s[|p|..] == b;
    IndexIs(s, p, 0);
  }

  /** A reference to another name holds no occurrence of this one. */
  lemma RefsDiffer(name: string, other: string, b: string, k: nat)
    requires PlainName(name) && PlainName(other) && name != other && k < |Ref(other)|
    ensures !Occurs(Ref(other) + b, Ref(name), k)
  {
    var s := Ref(other) + b;
    if Occurs(s, Ref(name), k) {
      OccursChar(s, Ref(name), k, k);
      if k > 0 {
        assert s[k] == '$';
        RefChars(other, k);
      } else {
        SameName(name, other, b);
      }
    }
  }

  lemma RefChars(name: string, k: nat)
    requires PlainName(name) && 0 < k < |Ref(name)|
    ensures Ref(name)[k] != '$'
  {
  }

  lemma SameName(name: string, other: string, b: string)
    requires PlainName(name) && PlainName(other) && Occurs(Ref(other) + b, Ref(name), 0)
    ensures name == other
  {
    var m, n := |other|, |name|;
    SameChar(name, other, b, if n < m then n else m);
    forall i | 0 <= i < n && i < m ensures name[i] == other[i] {
      SameChar(name, other, b, i);
    }
  }

  lemma SameChar(name: string, other: string, b: string, i: nat)
    requires Occurs(Ref(other) + b, Ref(name), 0) && i <= |name| && i <= |other|
    ensures (if i < |name| then name[i] else '}') == if i < |other| then other[i] else '}'
  {
    RefAt(name, i);
    RefAt(other, i);
    OccursChar(Ref(other) + b, Ref(name), 0, i + 2);
  }

  lemma RefAt(name: string, i: nat)
    requires i <= |name|
    ensures |Ref(name)| == |name| + 3 && Ref(name)[i + 2] == if i < |name| then name[i] else '}'
  {
  }

  /**
   Replacing every occurrence of one name in a partly filled template is filling that name in: no value, no
   text and no other reference is touched.
   */
  lemma {:induction false} ReplaceIsFill(t: Template, f: map<string, string>, name: string, e: string)
    requires WellFormed(t) && AllSafe(f) && PlainName(name) && (name in f ==> f[name] == e)
    ensures Replaced(Fill(t, f), Ref(name), e) == Fill(t, f[name := e])
  {
    match t
    case Literal(text) =>
      forall k | 0 <= k < |text| ensures !Occurs(text + "", Ref(name), k) {
        assert text + "" == text;
        if Occurs(text, Ref(name), k) { PrefixOpens(text, name, k); }
      }
      ReplacedSkip(text, "", Ref(name), e);
      NotFound("", Ref(name));
      assert text + "" == text;
    case Token(text, other, rest) =>
      var value, filled := Value(f, other), Fill(rest, f);
      ReplaceIsFill(rest, f, name, e);
      Associate(text, value, filled);
      forall k | 0 <= k < |text| ensures !Occurs(text + (value + filled), Ref(name), k) {
        NoOpenBefore(text, value + filled, k);
        if Occurs(text + (value + filled), Ref(name), k) { PrefixOpens(text + (value + filled), name, k); }
      }
      ReplacedSkip(text, value + filled, Ref(name), e);
      ReplaceValue(f, other, filled, name, e);
      Associate(text, Value(f[name := e], other), Replaced(filled, Ref(name), e));
  }

  lemma ReplaceValue(f: map<string, string>, other: string, filled: string, name: string, e: string)
    requires AllSafe(f) && PlainName(name) && PlainName(other) && (name in f ==> f[name] == e)
    ensures Replaced(Value(f, other) + filled, Ref(name), e) ==
            Value(f[name := e], other) + Replaced(filled, Ref(name), e)
  {
    if other in f {
      forall k | 0 <= k < |f[other]| ensures !Occurs(f[other] + filled, Ref(name), k) {
        NoOpenBefore(f[other], filled, k);
        if Occurs(f[other] + filled, Ref(name), k) { PrefixOpens(f[other] + filled, name, k); }
      }
      ReplacedSkip(f[other], filled, Ref(name), e);
    } else if other == name {
      ReplacedHit(filled, Ref(name), e);
    } else {
      forall k | 0 <= k < |Ref(other)| ensures !Occurs(Ref(other) + filled, Ref(name), k) {
        RefsDiffer(name, other, filled, k);
      }
      ReplacedSkip(Ref(other), filled, Ref(name), e);
    }
  }

  // ---- the code's loops ----

  /** `indexOf`. */
  method IndexOf(s: string, sub: string) returns (i: int)
    ensures i == Index(s, sub)
  {
    i := 0;
    while i + |sub| <= |s|
      invariant 0 <= i && forall k :: 0 <= k < i ==> !Occurs(s, sub, k)
    {
      if s[i..i + |sub|] == sub {
        IndexIs(s, sub, i);
        return;
      }
      i := i + 1;
    }
    NotFound(s, sub);
    return -1;
  }

  lemma FirstFound(s: string, i: nat, rest: string, j: nat)
    requires Index(s, OPEN) == i && i + 2 <= |s| && rest == s[i + 2..] && Index(rest, CLOSE) == j && j < |rest|
    ensures First(s) == Found(s[..i], rest[..j], rest[j + 1..])
  {
  }

  lemma NextName(out: seq<string>, name: string, more: seq<string>)
    ensures out + [name] + more == out + ([name] + more)
  {
  }

  /** The next name and the text behind it. */
  method NextVar(s: string) returns (name: Option<string>, rest: string)
    ensures name.None? ==> Vars(s) == []
    ensures name.Some? ==> |rest| < |s| && Vars(s) == [name.value] + Vars(rest)
  {
    var i := Index(s, OPEN);
    if i < 0 {
      return None, s;
    }
    var tail := s[i + 2..];
    var j := Index(tail, CLOSE);
    if j < 0 {
      return None, s;
    }
    FirstFound(s, i, tail, j);
    return Some(tail[..j]), tail[j + 1..];
  }

  method TemplateVars(text: string) returns (out: seq<string>)
    ensures out == Vars(text)
  {
    var s := text;
    out := [];
    while true
      invariant out + Vars(s) == Vars(text)
      decreases |s|
    {
      var name, rest := NextVar(s);
      if name.None? {
        return;
      }
      NextName(out, name.value, Vars(rest));
      out := out + [name.value];
      s := rest;
    }
  }

  method ContainsDangling(text: string) returns (dangling: bool)
    ensures dangling == Dangling(text)
  {
    var s := text;
    while true
      invariant Dangling(s) == Dangling(text)
      decreases |s|
    {
      var i := IndexOf(s, OPEN);
      if i < 0 {
        return false;
      }
      var rest := s[i + 2..];
      var j := IndexOf(rest, CLOSE);
      if j < 0 {
        return true;
      }
      s := rest[j + 1..];
    }
  }

  /** `replaceAllChecked`: it is `strings.ReplaceAll`. */
  method ReplaceAllChecked(s: string, placeholder: string, v: string) returns (out: string)
    requires placeholder != ""
    ensures out == Replaced(s, placeholder, v)
  {
    out := "";
    var rest := s;
    while true
      invariant out + Replaced(rest, placeholder, v) == Replaced(s, placeholder, v)
      decreases |rest|
    {
      var i := IndexOf(rest, placeholder);
      if i < 0 {
        return out + rest;
      }
      Regroup(out, rest[..i], v, Replaced(rest[i + |placeholder|..], placeholder, v));
      out := out + rest[..i] + v;
      rest := rest[i + |placeholder|..];
    }
  }
}
