/**
 Masking whole lines that hold an assignment to a sensitive key. `strings.ToLower` is a parameter: nothing is
 assumed about it.
 */
module Assignments {
  import opened Text

  const KEYS := [
    "password", "passwd", "pwd", "secret", "token", "api_key", "apikey",
    "auth", "authorization", "proxy-authorization", "private-key",
    "private_key", "client_key", "clientkey", "credential", "credentials"]

  predicate Alnum(c: char) {
    '0' <= c <= '9' || 'a' <= c <= 'z' || 'A' <= c <= 'Z'
  }

  // ---- what makes an occurrence of a key an assignment ----

  function AfterQuote(t: string): string {
    if t != "" && (t[0] == '"' || t[0] == '\'') then t[1..] else t
  }

  function TrimLeft(t: string): string {
    if t != "" && (t[0] == ' ' || t[0] == '\t') then TrimLeft(t[1..]) else t
  }

  /** One closing quote and blanks may come before the separator. */
  predicate Separated(after: string) {
    var rest := TrimLeft(AfterQuote(after));
    rest != "" && (rest[0] == ':' || rest[0] == '=')
  }

  /**
   An occurrence counts when it starts the line, follows a character that is not alphanumeric, or directly
   follows another counted occurrence of the same key.
   */
  predicate Anchored(t: string, key: string, k: int)
    decreases if k < 0 then 0 else k
  {
    && key != "" && Occurs(t, key, k)
    && (k == 0 || !Alnum(t[k - 1]) || Anchored(t, key, k - |key|))
  }

  predicate Assigned(t: string, key: string, k: int) {
    Anchored(t, key, k) && Separated(t[k + |key|..])
  }

  /** What `hasSensitiveAssignment` decides, for a list of keys. */
  ghost predicate Sensitive(keys: seq<string>, t: string) {
    exists n, k :: 0 <= n < |keys| && Assigned(t, keys[n], k)
  }

  // ---- keys do not overlap themselves ----

  /** Wherever the first character comes again in a key, the second one does not. */
  predicate NoBorderAt(key: string, d: int)
    requires |key| >= 2 && 0 < d < |key|
  {
    key[d] != key[0] || (d + 1 < |key| && key[d + 1] != key[1])
  }

  predicate NoBorder(key: string) {
    |key| >= 2 && forall d :: 0 < d < |key| ==> NoBorderAt(key, d)
  }

  predicate NoBorders(keys: seq<string>) {
    forall n :: 0 <= n < |keys| ==> NoBorder(keys[n])
  }

  lemma KeysHaveNoBorders()
    ensures NoBorders(KEYS)
  {
    assert NoBorder("password") && NoBorder("passwd") && NoBorder("pwd") && NoBorder("secret");
    assert NoBorder("token") && NoBorder("api_key") && NoBorder("apikey") && NoBorder("auth");
    assert NoBorder("authorization");
    assert NoBorder("proxy-authorization");
    assert NoBorder("private-key") && NoBorder("private_key");
    assert NoBorder("client_key") && NoBorder("clientkey");
    assert NoBorder("credential") && NoBorder("credentials");
  }

  lemma NoOverlap(t: string, key: string, k: int, j: int)
    requires NoBorder(key) && Occurs(t, key, k) && k < j < k + |key|
    ensures !Occurs(t, key, j)
  {
    assert NoBorderAt(key, j - k);
    if Occurs(t, key, j) {
      OccursChar(t, key, k, j);
      OccursChar(t, key, j, j);
      OccursChar(t, key, j, j + 1);
      if j + 1 < k + |key| {
        OccursChar(t, key, k, j + 1);
      }
    }
  }

  // ---- the code's searches ----

  /** A candidate of a search that starts at `from`: the slice hides what comes before it. */
  predicate Candidate(t: string, key: string, from: int, k: int) {
    Occurs(t, key, k) && (k == from || (0 <= from < k && !Alnum(t[k - 1])))
  }

  /** `findKeyStart`. */
  method FindKeyStart(lower: string, key: string) returns (start: int)
    requires key != ""
    ensures start == -1 || (0 <= start && Candidate(lower, key, 0, start))
    ensures forall k :: 0 <= k && (start == -1 || k < start) ==> !Candidate(lower, key, 0, k)
  {
    var searchFrom := 0;
    while true
      invariant 0 <= searchFrom <= |lower|
      invariant forall k :: 0 <= k < searchFrom ==> !Candidate(lower, key, 0, k)
      decreases |lower| - searchFrom
    {
      var tail := lower[searchFrom..];
      var idx := Index(tail, key);
      forall k | searchFrom <= k && (idx < 0 || k < searchFrom + idx) ensures !Occurs(lower, key, k) {
        OccursInSuffix(lower[..searchFrom], tail, key, k);
        assert lower == lower[..searchFrom] + tail;
      }
      if idx < 0 {
        return -1;
      }
      start := searchFrom + idx;
      OccursInSuffix(lower[..searchFrom], tail, key, start);
      assert lower == lower[..searchFrom] + tail;
      if start == 0 || !Alnum(lower[start - 1]) {
        return;
      }
      searchFrom := start + 1;
    }
  }

  /** The searched part of a line: everything before `from` is settled, and `from` is a boundary. */
  ghost predicate Settled(t: string, key: string, from: int) {
    && 0 <= from <= |t|
    && (from == 0 || Anchored(t, key, from - |key|))
    && forall k :: 0 <= k < from ==> !Assigned(t, key, k)
  }

  /** In the rest of the line the next candidate is the next anchored occurrence. */
  lemma CandidateIsAnchored(t: string, key: string, from: int, k: int)
    requires NoBorder(key) && Settled(t, key, from) && from <= k && Candidate(t, key, from, k)
    ensures Anchored(t, key, k)
  {
  }

  lemma {:induction false} AnchoredIsCandidate(t: string, key: string, from: int, next: int, k: int)
    requires NoBorder(key) && Settled(t, key, from) && from <= k && Anchored(t, key, k)
    requires forall j :: from <= j < next ==> !Candidate(t, key, from, j)
    ensures next <= k
    decreases k
  {
    if k < next {
      assert !Candidate(t, key, from, k);
      var last := from - |key|;
      if k - |key| >= from {
        AnchoredIsCandidate(t, key, from, next, k - |key|);
      } else if last < k - |key| {
        NoOverlap(t, key, last, k - |key|);
      }
    }
  }

  /** The next candidate of a search that goes on at `from`. */
  method FindFrom(lower: string, key: string, from: nat) returns (start: int)
    requires key != "" && from <= |lower|
    ensures start == -1 || (from <= start && Candidate(lower, key, from, start))
    ensures forall k :: from <= k && (start == -1 || k < start) ==> !Candidate(lower, key, from, k)
  {
    var rel := FindKeyStart(lower[from..], key);
    SliceCandidates(lower, key, from, rel);
    start := if rel < 0 then -1 else from + rel;
  }

  /** One key: the search visits every anchored occurrence, so it finds an assignment exactly when there is one. */
  method FindAssignment(lower: string, key: string) returns (found: bool)
    requires NoBorder(key)
    ensures found <==> exists k :: Assigned(lower, key, k)
  {
    var from := 0;
    while true
      invariant Settled(lower, key, from)
      decreases |lower| - from
    {
      var start := FindFrom(lower, key, from);
      if start < 0 {
        NoneLeft(lower, key, from);
        return false;
      }
      CandidateIsAnchored(lower, key, from, start);
      var after := lower[start + |key|..];
      if Separated(after) {
        assert Assigned(lower, key, start);
        return true;
      }
      SettledNext(lower, key, from, start);
      from := start + |key|;
    }
  }

  /** The candidates of a slice are the candidates of the line, moved. */
  lemma SliceCandidates(t: string, key: string, from: nat, rel: int)
    requires from <= |t| && (rel == -1 || (0 <= rel && Candidate(t[from..], key, 0, rel)))
    requires forall k :: 0 <= k && (rel == -1 || k < rel) ==> !Candidate(t[from..], key, 0, k)
    ensures rel != -1 ==> Candidate(t, key, from, from + rel)
    ensures forall k :: from <= k && (rel == -1 || k < from + rel) ==> !Candidate(t, key, from, k)
  {
    forall k | from <= k ensures Candidate(t, key, from, k) <==> Candidate(t[from..], key, 0, k - from) {
      assert t == t[..from] + t[from..];
      OccursInSuffix(t[..from], t[from..], key, k);
    }
  }

  lemma NoneLeft(t: string, key: string, from: int)
    requires NoBorder(key) && Settled(t, key, from)
    requires forall k :: from <= k ==> !Candidate(t, key, from, k)
    ensures forall k :: !Assigned(t, key, k)
  {
    forall k | Assigned(t, key, k) ensures false {
      AnchoredIsCandidate(t, key, from, k + 1, k);
    }
  }

  lemma SettledNext(t: string, key: string, from: int, start: int)
    requires NoBorder(key) && Settled(t, key, from) && from <= start
    requires Candidate(t, key, from, start) && !Separated(t[start + |key|..])
    requires forall k :: from <= k < start ==> !Candidate(t, key, from, k)
    ensures Settled(t, key, start + |key|)
  {
    CandidateIsAnchored(t, key, from, start);
    forall k | 0 <= k < start + |key| ensures !Assigned(t, key, k) {
      NotAssigned(t, key, from, start, k);
    }
  }

  lemma NotAssigned(t: string, key: string, from: int, start: int, k: int)
    requires NoBorder(key) && Settled(t, key, from) && from <= start && 0 <= k < start + |key|
    requires Occurs(t, key, start) && !Separated(t[start + |key|..])
    requires forall k :: from <= k < start ==> !Candidate(t, key, from, k)
    ensures !Assigned(t, key, k)
  {
    if from <= k < start {
      NotAnchored(t, key, from, start, k);
    } else if start < k {
      NoOverlap(t, key, start, k);
    }
  }

  lemma NotAnchored(t: string, key: string, from: int, start: int, k: int)
    requires NoBorder(key) && Settled(t, key, from) && from <= k < start
    requires forall j :: from <= j < start ==> !Candidate(t, key, from, j)
    ensures !Anchored(t, key, k)
  {
    if Anchored(t, key, k) {
      AnchoredIsCandidate(t, key, from, start, k);
    }
  }

  /** `hasSensitiveAssignment`. */
  method HasSensitiveAssignment(keys: seq<string>, lower: string) returns (found: bool)
    requires NoBorders(keys)
    ensures found <==> Sensitive(keys, lower)
  {
    for n := 0 to |keys|
      invariant forall m, k :: 0 <= m < n ==> !Assigned(lower, keys[m], k)
    {
      assert NoBorder(keys[n]);
      var hit := FindAssignment(lower, keys[n]);
      if hit {
        return true;
      }
    }
    return false;
  }

  // ---- masking lines ----

  /** `redactLineAssignments`: a line whose lowercase form has another length is masked as well. */
  ghost function MaskLine(lower: string -> string, line: string): string {
    if |lower(line)| != |line| || Sensitive(KEYS, lower(line)) then MASK else line
  }

  ghost function MaskEach(lower: string -> string, lines: seq<string>): (masked: seq<string>)
    ensures |masked| == |lines|
    ensures forall i :: 0 <= i < |lines| ==> masked[i] == MaskLine(lower, lines[i])
  {
    seq(|lines|, i requires 0 <= i < |lines| => MaskLine(lower, lines[i]))
  }

  /** `redactAssignments`. */
  ghost function Masked(lower: string -> string, t: string): string {
    Join(MaskEach(lower, Lines(t)))
  }

  method MaskAssignments(lower: string -> string, s: string) returns (out: string)
    ensures out == Masked(lower, s)
  {
    KeysHaveNoBorders();
    var lines := Lines(s);
    for i := 0 to |lines|
      invariant |lines| == |Lines(s)|
      invariant forall j :: 0 <= j < i ==> lines[j] == MaskLine(lower, Lines(s)[j])
      invariant forall j :: i <= j < |lines| ==> lines[j] == Lines(s)[j]
    {
      var line := lines[i];
      var low := lower(line);
      if |low| != |line| {
        lines := lines[i := MASK];
      } else {
        var hit := HasSensitiveAssignment(KEYS, low);
        if hit {
          lines := lines[i := MASK];
        }
      }
    }
    assert lines == MaskEach(lower, Lines(s));
    out := Join(lines);
  }

  lemma MaskedLines(lower: string -> string, t: string)
    ensures Lines(Masked(lower, t)) == MaskEach(lower, Lines(t))
  {
    var lines := MaskEach(lower, Lines(t));
    LinesAreLines(t);
    assert AllOneLine(lines);
    LinesOfJoin(lines);
  }

  /** Masking the lines of a masked text changes nothing, whatever lowercasing does to the mask. */
  lemma MaskedIdempotent(lower: string -> string, t: string)
    ensures Masked(lower, Masked(lower, t)) == Masked(lower, t)
  {
    var lines := MaskEach(lower, Lines(t));
    MaskedLines(lower, t);
    assert MaskEach(lower, lines) == lines;
  }

  /** A line of the output is the bare mask or holds no sensitive assignment. */
  lemma NothingSensitiveLeft(lower: string -> string, t: string, i: nat)
    requires i < |Lines(Masked(lower, t))|
    ensures var line := Lines(Masked(lower, t))[i];
            line == MASK || (|lower(line)| == |line| && !Sensitive(KEYS, lower(line)))
  {
    MaskedLines(lower, t);
    var line := Lines(t)[i];
    assert MaskEach(lower, Lines(t))[i] == MaskLine(lower, line);
  }

  // ---- the documented rule ----

  /** The key stands at the start of the line or behind a character that is not alphanumeric. */
  predicate Bounded(t: string, p: string, k: int) {
    Occurs(t, p, k) && (k == 0 || !Alnum(t[k - 1]))
  }

  /** What the documentation asks for: a bounded key and a separator behind it. */
  ghost predicate Documented(keys: seq<string>, t: string) {
    exists n, k :: 0 <= n < |keys| && Bounded(t, keys[n], k) && Separated(t[k + |keys[n]|..])
  }

  function Copies(key: string, m: nat): string {
    if m == 0 then "" else Copies(key, m - 1) + key
  }

  /** The occurrence at k is the last of m copies of the key, the first of which is bounded. */
  predicate EndsRun(t: string, key: string, k: int, m: nat) {
    m > 0 && Bounded(t, Copies(key, m), k + |key| - |Copies(key, m)|)
  }

  /** Two or more copies of one key in a row, a boundary before them and a separator behind them. */
  ghost predicate RepeatedKey(keys: seq<string>, t: string) {
    exists n, k, m: nat :: 0 <= n < |keys| && Repeats(t, keys[n], k, m)
  }

  predicate Repeats(t: string, key: string, k: int, m: nat) {
    m >= 2 && Occurs(t, key, k) && EndsRun(t, key, k, m) && Separated(t[k + |key|..])
  }

  lemma OccursJoined(t: string, a: string, b: string, k: int)
    ensures Occurs(t, a + b, k) <==> Occurs(t, a, k) && Occurs(t, b, k + |a|)
  {
    if 0 <= k && k + |a + b| <= |t| {
      assert t[k..k + |a + b|] == t[k..k + |a|] + t[k + |a|..k + |a| + |b|];
      assert (a + b)[..|a|] == a && (a + b)[|a|..] == b;
    }
  }

  lemma OneCopy(t: string, key: string, k: int)
    ensures EndsRun(t, key, k, 1) <==> Bounded(t, key, k)
  {
    assert Copies(key, 1) == Copies(key, 0) + key == key;
  }

  lemma NextCopy(t: string, key: string, k: int, m: nat)
    requires m > 0
    ensures EndsRun(t, key, k, m + 1) <==> EndsRun(t, key, k - |key|, m) && Occurs(t, key, k)
  {
    JoinedRun(t, Copies(key, m), key, k - |Copies(key, m)|);
  }

  lemma JoinedRun(t: string, run: string, key: string, i: int)
    ensures Bounded(t, run + key, i) <==> Bounded(t, run, i) && Occurs(t, key, i + |run|)
  {
    OccursJoined(t, run, key, i);
  }

  /** An anchored occurrence is the end of a run of copies that starts at a boundary. */
  lemma {:induction false} AnchoredEndsRun(t: string, key: string, k: int) returns (m: nat)
    requires Anchored(t, key, k)
    ensures EndsRun(t, key, k, m)
    decreases k
  {
    if k == 0 || !Alnum(t[k - 1]) {
      m := 1;
      OneCopy(t, key, k);
    } else {
      m := AnchoredEndsRun(t, key, k - |key|);
      NextCopy(t, key, k, m);
      m := m + 1;
    }
  }

  lemma {:induction false} RunIsAnchored(t: string, key: string, k: int, m: nat)
    requires key != "" && EndsRun(t, key, k, m)
    ensures Anchored(t, key, k)
    decreases m
  {
    if m == 1 {
      OneCopy(t, key, k);
    } else {
      NextCopy(t, key, k, m - 1);
      RunIsAnchored(t, key, k - |key|, m - 1);
    }
  }

  /** The code masks the documented lines, and those in which the copies of a key repeat before the separator. */
  lemma SensitiveOrRepeated(keys: seq<string>, t: string)
    requires NoBorders(keys)
    ensures Sensitive(keys, t) <==> Documented(keys, t) || RepeatedKey(keys, t)
  {
    if Sensitive(keys, t) {
      var n, k :| 0 <= n < |keys| && Assigned(t, keys[n], k);
      var m := AnchoredEndsRun(t, keys[n], k);
      OneCopy(t, keys[n], k);
      assert m == 1 || Repeats(t, keys[n], k, m);
    }
    if Documented(keys, t) {
      var n, k :| 0 <= n < |keys| && Bounded(t, keys[n], k) && Separated(t[k + |keys[n]|..]);
      assert Assigned(t, keys[n], k);
    }
    if RepeatedKey(keys, t) {
      var n, k, m: nat :| 0 <= n < |keys| && Repeats(t, keys[n], k, m);
      assert NoBorder(keys[n]);
      RunIsAnchored(t, keys[n], k, m);
      assert Assigned(t, keys[n], k);
    }
  }

  lemma RepeatIsDoubled(t: string, key: string, k: int, m: nat)
    requires key != "" && Repeats(t, key, k, m)
    ensures Doubled(t, key, k)
  {
    NextCopy(t, key, k, m - 1);
    RunIsAnchored(t, key, k - |key|, m - 1);
  }

  /** Some occurrence of a key directly follows another one. */
  ghost predicate FollowsItself(keys: seq<string>, t: string) {
    exists n, k :: 0 <= n < |keys| && Doubled(t, keys[n], k)
  }

  predicate Doubled(t: string, key: string, k: int) {
    Occurs(t, key, k) && Occurs(t, key, k - |key|)
  }

  lemma RepetitionFollows(keys: seq<string>, t: string)
    requires NoBorders(keys) && RepeatedKey(keys, t)
    ensures FollowsItself(keys, t)
  {
    var n, k, m: nat :| 0 <= n < |keys| && Repeats(t, keys[n], k, m);
    assert NoBorder(keys[n]);
    RepeatIsDoubled(t, keys[n], k, m);
  }

  /** Code and documentation agree exactly on the lines without such a repetition or with a documented key as well. */
  lemma DocumentedWhen(keys: seq<string>, t: string)
    requires NoBorders(keys)
    ensures (Sensitive(keys, t) <==> Documented(keys, t)) <==> (RepeatedKey(keys, t) ==> Documented(keys, t))
    ensures !FollowsItself(keys, t) ==> (Sensitive(keys, t) <==> Documented(keys, t))
  {
    SensitiveOrRepeated(keys, t);
    if RepeatedKey(keys, t) {
      RepetitionFollows(keys, t);
    }
  }

  ghost predicate AllAlnum(p: string) {
    forall i :: 0 <= i < |p| ==> Alnum(p[i])
  }

  lemma BoundedInDouble(t: string, key: string, end: string, p: string, k: int)
    requires AllAlnum(key) && |key| >= 2 && |end| == 1 && !Alnum(end[0]) && NoBorder(p)
    requires t == key + key + end && Bounded(t, p, k)
    ensures !Separated(t[k + |p|..])
  {
    NotBehindDouble(key, end, p, k);
    assert Alnum(t[|p|]);
    AlnumSeparatesNot(t[|p|..]);
  }

  lemma AlnumSeparatesNot(after: string)
    requires after != "" && Alnum(after[0])
    ensures !Separated(after)
  {
    assert TrimLeft(AfterQuote(after)) == after;
  }

  lemma NotBehindDouble(key: string, end: string, p: string, k: int)
    requires AllAlnum(key) && |key| >= 2 && |end| == 1 && !Alnum(end[0]) && NoBorder(p)
    requires Bounded(key + key + end, p, k)
    ensures k == 0 && |p| < 2 * |key|
  {
    var t := key + key + end;
    if k == 0 && |p| >= 2 * |key| {
      assert NoBorderAt(p, |key|);
      OccursChar(t, p, 0, 0);
      OccursChar(t, p, 0, 1);
      OccursChar(t, p, 0, |key|);
      OccursChar(t, p, 0, |key| + 1);
    }
  }

  lemma DoubleIsAssigned(key: string, end: string)
    requires key != "" && (end == ":" || end == "=")
    ensures Assigned(key + key + end, key, |key|)
  {
    var t := key + key + end;
    assert t[..|key|] == key && t[|key|..2 * |key|] == key && t[2 * |key|..] == end;
    assert Anchored(t, key, 0);
  }

  /** Every doubled key made of letters and digits is an input on which they differ. */
  lemma DoubledKeyDiffers(keys: seq<string>, n: nat, end: string)
    requires NoBorders(keys) && n < |keys| && AllAlnum(keys[n]) && (end == ":" || end == "=")
    ensures Sensitive(keys, keys[n] + keys[n] + end) && !Documented(keys, keys[n] + keys[n] + end)
  {
    assert NoBorder(keys[n]);
    DoubleIsAssigned(keys[n], end);
    DoubleIsUndocumented(keys, keys[n] + keys[n] + end, keys[n], end);
  }

  lemma DoubleIsUndocumented(keys: seq<string>, t: string, key: string, end: string)
    requires NoBorders(keys) && AllAlnum(key) && |key| >= 2 && |end| == 1 && !Alnum(end[0]) && t == key + key + end
    ensures !Documented(keys, t)
  {
    forall m, k | 0 <= m < |keys| && Bounded(t, keys[m], k) ensures !Separated(t[k + |keys[m]|..]) {
      BoundedKey(keys, m, t, key, end, k);
    }
  }

  lemma BoundedKey(keys: seq<string>, m: nat, t: string, key: string, end: string, k: int)
    requires NoBorders(keys) && AllAlnum(key) && |key| >= 2 && |end| == 1 && !Alnum(end[0]) && t == key + key + end
    requires m < |keys| && Bounded(t, keys[m], k)
    ensures !Separated(t[k + |keys[m]|..])
  {
    assert NoBorder(keys[m]);
    BoundedInDouble(t, key, end, keys[m], k);
  }

  lemma RepeatedKeyCounts(line: string)
    requires line == "passwordpassword="
    ensures Sensitive(KEYS, line) && !Documented(KEYS, line)
  {
    var key := KEYS[0];
    KeysHaveNoBorders();
    assert key == "password";
    assert line == key + key + "=";
    DoubledKeyDiffers(KEYS, 0, "=");
  }

  // ---- what follows a key ----

  ghost predicate Blanks(b: string) {
    forall i :: 0 <= i < |b| ==> b[i] == ' ' || b[i] == '\t'
  }

  /** An optional closing quote, blanks, and a separator. */
  ghost predicate Delimits(after: string, quote: string, blanks: string, rest: string) {
    && (quote == "" || quote == "\"" || quote == "'") && Blanks(blanks)
    && rest != "" && (rest[0] == ':' || rest[0] == '=') && after == quote + blanks + rest
  }

  lemma {:induction false} TrimSplits(t: string) returns (blanks: string)
    ensures Blanks(blanks) && t == blanks + TrimLeft(t)
  {
    if t != "" && (t[0] == ' ' || t[0] == '\t') {
      blanks := TrimSplits(t[1..]);
      blanks := [t[0]] + blanks;
    } else {
      blanks := "";
    }
  }

  lemma {:induction false} TrimsBlanks(blanks: string, rest: string)
    requires Blanks(blanks) && rest != "" && rest[0] != ' ' && rest[0] != '\t'
    ensures TrimLeft(blanks + rest) == rest
  {
    if blanks == "" {
      assert blanks + rest == rest;
    } else {
      assert (blanks + rest)[1..] == blanks[1..] + rest;
      TrimsBlanks(blanks[1..], rest);
    }
  }

  lemma DelimitedIsSeparated(after: string, quote: string, blanks: string, rest: string)
    requires Delimits(after, quote, blanks, rest)
    ensures Separated(after)
  {
    TrimsBlanks(blanks, rest);
    Associate(quote, blanks, rest);
    if quote == "" {
      assert after == blanks + rest;
      assert after[0] == if blanks == "" then rest[0] else blanks[0];
    } else {
      assert after[0] == quote[0] && after[1..] == blanks + rest;
    }
  }

  lemma SeparatedIsDelimited(after: string) returns (quote: string, blanks: string, rest: string)
    requires Separated(after)
    ensures Delimits(after, quote, blanks, rest)
  {
    quote := if AfterQuote(after) == after then "" else after[..1];
    rest := TrimLeft(AfterQuote(after));
    blanks := TrimSplits(AfterQuote(after));
    assert after == quote + AfterQuote(after);
    Associate(quote, blanks, rest);
  }

  /** What counts as a separator: an optional single quote character, blanks or tabs, and then a colon or equals sign. */
  lemma SeparatedWhen(after: string)
    ensures Separated(after) <==> exists quote, blanks, rest :: Delimits(after, quote, blanks, rest)
  {
    if Separated(after) {
      var quote, blanks, rest := SeparatedIsDelimited(after);
    }
    if quote, blanks, rest :| Delimits(after, quote, blanks, rest) {
      DelimitedIsSeparated(after, quote, blanks, rest);
    }
  }

  /** The line, in lower case, holds a sensitive key at a boundary with a delimiter behind it. */
  ghost predicate Assigns(low: string, n: nat, k: int, quote: string, blanks: string, rest: string)
  {
    n < |KEYS| && Bounded(low, KEYS[n], k) && Delimits(low[k + |KEYS[n]|..], quote, blanks, rest)
  }

  lemma AssignedLineIsMasked(lower: string -> string, line: string, n: nat, k: int, quote: string, blanks: string,
                             rest: string)
    requires Assigns(lower(line), n, k, quote, blanks, rest)
    ensures MaskLine(lower, line) == MASK
  {
    KeysHaveNoBorders();
    DelimitedIsSeparated(lower(line)[k + |KEYS[n]|..], quote, blanks, rest);
    assert Documented(KEYS, lower(line));
    SensitiveOrRepeated(KEYS, lower(line));
  }
}
