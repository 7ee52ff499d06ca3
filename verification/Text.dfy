/** Searching and splitting text. A Go string is a sequence of bytes; each char here is one byte. */
module Text {

  const MASK := "<REDACTED>"

  predicate Occurs(t: string, p: string, k: int) {
    0 <= k && k + |p| <= |t| && t[k..k + |p|] == p
  }

  /** `strings.Index` from a position on: the first occurrence, or -1. */
  function IndexFrom(t: string, p: string, i: nat): (k: int)
    requires i <= |t|
    ensures k == -1 || (i <= k && Occurs(t, p, k))
    ensures forall j :: i <= j && (k == -1 || j < k) ==> !Occurs(t, p, j)
    decreases |t| - i
  {
    if Occurs(t, p, i) then i
    else if i == |t| then -1
    else IndexFrom(t, p, i + 1)
  }

  function Index(t: string, p: string): (k: int)
    ensures k == -1 || (0 <= k && Occurs(t, p, k))
    ensures forall j :: 0 <= j && (k == -1 || j < k) ==> !Occurs(t, p, j)
  {
    IndexFrom(t, p, 0)
  }

  /** The first position is the only one with these two properties. */
  lemma IndexIs(t: string, p: string, k: nat)
    requires Occurs(t, p, k) && forall j :: 0 <= j < k ==> !Occurs(t, p, j)
    ensures Index(t, p) == k
  {
  }

  lemma NotFound(t: string, p: string)
    requires forall j :: 0 <= j ==> !Occurs(t, p, j)
    ensures Index(t, p) == -1
  {
  }

  lemma OccursInPrefix(a: string, b: string, p: string, k: int)
    requires 0 <= k && k + |p| <= |a|
    ensures Occurs(a + b, p, k) <==> Occurs(a, p, k)
  {
    assert (a + b)[k..k + |p|] == a[k..k + |p|];
  }

  lemma OccursInSuffix(a: string, b: string, p: string, k: int)
    requires |a| <= k
    ensures Occurs(a + b, p, k) <==> Occurs(b, p, k - |a|)
  {
    if k + |p| <= |a + b| {
      assert (a + b)[k..k + |p|] == b[k - |a|..k - |a| + |p|];
    }
  }

  /** A character of an occurrence is a character of the pattern. */
  lemma OccursChar(t: string, p: string, k: int, i: int)
    requires Occurs(t, p, k) && k <= i < k + |p|
    ensures 0 <= i < |t| && t[i] == p[i - k]
  {
    assert t[k..k + |p|][i - k] == t[i];
  }

  // ---- regrouping ----

  lemma Associate(a: string, b: string, c: string)
    ensures a + b + c == a + (b + c)
  {
    assert |a + b + c| == |a + (b + c)|;
  }

  lemma Regroup(a: string, b: string, c: string, d: string)
    ensures a + b + c + d == a + (b + c + d)
  {
    assert |a + b + c + d| == |a + (b + c + d)|;
  }

  lemma ThreeSlices(s: string, i: nat, j: nat, k: nat)
    requires i <= j <= k <= |s|
    ensures s[i..] == s[i..j] + s[j..k] + s[k..]
  {
    assert |s[i..]| == |s[i..j] + s[j..k] + s[k..]|;
  }

  // ---- lines ----

  /** `strings.Split` at newlines. */
  function Lines(t: string): (lines: seq<string>)
    ensures lines != []
  {
    if t == "" then [""]
    else
      var rest := Lines(t[1..]);
      if t[0] == '\n' then [""] + rest else [[t[0]] + rest[0]] + rest[1..]
  }

  /** `strings.Join` with newlines. */
  function Join(lines: seq<string>): string
    requires lines != []
  {
    if |lines| == 1 then lines[0] else lines[0] + "\n" + Join(lines[1..])
  }

  ghost predicate OneLine(t: string) {
    forall i :: 0 <= i < |t| ==> t[i] != '\n'
  }

  ghost predicate AllOneLine(lines: seq<string>) {
    forall i :: 0 <= i < |lines| ==> OneLine(lines[i])
  }

  lemma {:induction false} LinesAreLines(t: string)
    ensures AllOneLine(Lines(t)) && Join(Lines(t)) == t
  {
    if t != "" {
      LinesAreLines(t[1..]);
      var rest := Lines(t[1..]);
      assert t == [t[0]] + t[1..];
      if t[0] == '\n' {
        assert Lines(t)[1..] == rest;
      } else {
        assert Lines(t)[1..] == rest[1..];
        assert forall i :: 0 <= i < |Lines(t)| ==> OneLine(rest[i]);
      }
    }
  }

  lemma {:induction false} FirstLine(line: string, rest: string)
    requires OneLine(line)
    ensures Lines(line + "\n" + rest) == [line] + Lines(rest)
  {
    var t := line + "\n" + rest;
    if line == "" {
      assert t[1..] == rest;
    } else {
      assert t[1..] == line[1..] + "\n" + rest;
      FirstLine(line[1..], rest);
      assert line == [line[0]] + line[1..];
    }
  }

  lemma {:induction false} SingleLine(line: string)
    requires OneLine(line)
    ensures Lines(line) == [line]
  {
    if line != "" {
      SingleLine(line[1..]);
      assert line == [line[0]] + line[1..];
    }
  }

  lemma {:induction false} LinesOfJoin(lines: seq<string>)
    requires lines != [] && AllOneLine(lines)
    ensures Lines(Join(lines)) == lines
  {
    if |lines| == 1 {
      SingleLine(lines[0]);
    } else {
      assert AllOneLine(lines[1..]);
      LinesOfJoin(lines[1..]);
      FirstLine(lines[0], Join(lines[1..]));
    }
  }
}
