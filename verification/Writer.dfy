/**
 The no-replace publication transaction: stage every file, link every final name, sync, remove the staging
 directory, sync; and a rollback that never touches a final name.
 */
module Writer {
  import opened Wrappers
  import opened Kernel

  /** The fixed publication order, which is also the allowlist. */
  const OUTPUT_ORDER := [
    "gateway-rendered.yaml", "egress-rendered.yaml", "gateway.crt", "gateway.key", "egress.crt", "egress.key",
    "gateway-client.crt", "gateway-client.key", "gateway-client-ca.crt"]

  type Files = map<string, string>

  predicate HasSeparator(name: string) {
    exists i :: 0 <= i < |name| && (name[i] == '/' || name[i] == '\\')
  }

  // ---- the requested names ----

  /** The requested names in the fixed order. */
  function Ordered(order: seq<string>, files: Files): (names: seq<string>)
    ensures forall name :: name in names ==> name in order && name in files
  {
    if order == [] then []
    else (if order[0] in files then [order[0]] else []) + Ordered(order[1..], files)
  }

  predicate Allowed(order: seq<string>, files: Files) {
    forall name :: name in files ==> !HasSeparator(name) && name in order
  }

  ghost predicate NoRepeats(names: seq<string>) {
    forall i, j :: 0 <= i < j < |names| ==> names[i] != names[j]
  }

  /** Each requested name is published once, and nothing else is. */
  lemma {:induction false} OrderedNames(order: seq<string>, files: Files)
    requires NoRepeats(order)
    ensures NoRepeats(Ordered(order, files))
    ensures forall name :: name in Ordered(order, files) <==> name in order && name in files
  {
    if order != [] {
      OrderedNames(order[1..], files);
      var first := if order[0] in files then [order[0]] else [];
      var rest := Ordered(order[1..], files);
      assert order == [order[0]] + order[1..];
      assert order[0] !in order[1..];
      assert forall i :: 0 <= i < |rest| ==> rest[i] in rest;
    }
  }

  lemma {:induction false} OrderedComesFrom(order: seq<string>, files: Files, i: nat) returns (p: nat)
    requires i < |Ordered(order, files)|
    ensures p < |order| && order[p] == Ordered(order, files)[i]
  {
    var first := if order[0] in files then 1 else 0;
    if i < first {
      p := 0;
    } else {
      p := OrderedComesFrom(order[1..], files, i - first);
      p := p + 1;
    }
  }

  /** The requested names keep the fixed order. */
  lemma {:induction false} OrderedKeepsOrder(order: seq<string>, files: Files, i: nat, j: nat) returns (p: nat, q: nat)
    requires i < j < |Ordered(order, files)|
    ensures p < q < |order| && order[p] == Ordered(order, files)[i] && order[q] == Ordered(order, files)[j]
  {
    var first := if order[0] in files then 1 else 0;
    if i < first {
      p := 0;
      q := OrderedComesFrom(order[1..], files, j - first);
    } else {
      p, q := OrderedKeepsOrder(order[1..], files, i - first, j - first);
      p := p + 1;
    }
    q := q + 1;
  }

  method ValidateOutputNames(order: seq<string>, files: Files) returns (names: Option<seq<string>>)
    ensures names.Some? <==> Allowed(order, files)
    ensures names.Some? ==> names.value == Ordered(order, files)
  {
    var rest := files.Keys;
    while rest != {}
      invariant rest <= files.Keys
      invariant forall name :: name in files.Keys - rest ==> !HasSeparator(name) && name in order
      decreases |rest|
    {
      var name :| name in rest;
      if HasSeparator(name) || name !in order {
        return None;
      }
      rest := rest - {name};
    }
    var ordered := OrderNames(order, files);
    return Some(ordered);
  }

  method OrderNames(order: seq<string>, files: Files) returns (ordered: seq<string>)
    ensures ordered == Ordered(order, files)
  {
    ordered := [];
    for i := 0 to |order|
      invariant ordered + Ordered(order[i..], files) == Ordered(order, files)
    {
      assert order[i..][0] == order[i] && order[i..][1..] == order[i + 1..];
      if order[i] in files {
        ordered := ordered + [order[i]];
      }
    }
  }

  // ---- what a complete transaction does ----

  ghost predicate Requested(names: seq<string>, files: Files) {
    forall i :: 0 <= i < |names| ==> names[i] in files
  }

  /**
   The k-th operation of a complete transaction: make the staging directory; create, write and sync every file,
   the i-th name getting the i-th inode; link every final name and drop its staged link; sync the directory,
   remove the staging directory, and sync the directory again.
   */
  ghost function EventAt(secret: string, base: nat, names: seq<string>, files: Files, k: nat): Event
    requires Requested(names, files) && k < 5 * |names| + 4
  {
    var n := |names|;
    if k == 0 then Mkdir(secret)
    else if k <= 3 * n then
      var i := (k - 1) / 3;
      if (k - 1) % 3 == 0 then Create(names[i], base + i)
      else if (k - 1) % 3 == 1 then Write(base + i, files[names[i]])
      else SyncFile(base + i)
    else if k <= 5 * n then
      var i := (k - 1 - 3 * n) / 2;
      if (k - 1 - 3 * n) % 2 == 0 then Link(names[i], base + i) else Unlink(names[i], base + i)
    else if k == 5 * n + 2 then Rmdir(secret)
    else SyncDir
  }

  /** The whole transaction; an empty request does nothing. */
  ghost function Complete(secret: string, base: nat, names: seq<string>, files: Files): (log: seq<Event>)
    requires Requested(names, files)
    ensures |log| == if names == [] then 0 else 5 * |names| + 4
    ensures forall k :: 0 <= k < |log| ==> log[k] == EventAt(secret, base, names, files, k)
  {
    if names == [] then []
    else seq(5 * |names| + 4, k requires 0 <= k < 5 * |names| + 4 => EventAt(secret, base, names, files, k))
  }

  /** The log holds the first m operations of the transaction. */
  ghost predicate Reached(secret: string, base: nat, names: seq<string>, files: Files, log: seq<Event>, m: nat)
    requires Requested(names, files)
  {
    |log| == m <= 5 * |names| + 4 && names != []
    && forall k: nat :: k < m ==> HappensAt(secret, base, names, files, log, k)
  }

  ghost predicate HappensAt(secret: string, base: nat, names: seq<string>, files: Files, log: seq<Event>, k: nat)
    requires Requested(names, files)
  {
    k < |log| && k < 5 * |names| + 4 && log[k] == EventAt(secret, base, names, files, k)
  }

  lemma ReachedIsPrefix(secret: string, base: nat, names: seq<string>, files: Files, log: seq<Event>, m: nat)
    requires Requested(names, files) && Reached(secret, base, names, files, log, m)
    ensures log == Complete(secret, base, names, files)[..m]
    ensures m == 5 * |names| + 4 <==> log == Complete(secret, base, names, files)
  {
    forall k: nat | k < m ensures log[k] == EventAt(secret, base, names, files, k) {
      assert HappensAt(secret, base, names, files, log, k);
    }
  }

  // ---- what the order of the operations means ----

  /** Before any final name is linked every file is written with its exact bytes and then synced. */
  lemma SyncedBeforeLinked(secret: string, base: nat, names: seq<string>, files: Files, i: nat, j: nat)
    requires Requested(names, files) && i < |names| && j < |names|
    ensures var log := Complete(secret, base, names, files);
            && log[3 * i + 2] == Write(base + i, files[names[i]]) && log[3 * i + 3] == SyncFile(base + i)
            && log[3 * |names| + 1 + 2 * j] == Link(names[j], base + j) && 3 * i + 3 < 3 * |names| + 1 + 2 * j
  {
    StageEvents(secret, base, names, files, i);
    PublishEvents(secret, base, names, files, j);
  }

  /** The directory is synced after the last link and again after the staging directory is gone. */
  lemma SyncedAfterLinked(secret: string, base: nat, names: seq<string>, files: Files, k: nat)
    requires Requested(names, files) && k < |Complete(secret, base, names, files)|
    ensures var log := Complete(secret, base, names, files);
            && (log[k].Link? ==> exists later :: k < later < |log| - 2 && log[later] == SyncDir)
            && log[|log| - 2] == Rmdir(secret) && log[|log| - 1] == SyncDir
  {
    var log := Complete(secret, base, names, files);
    assert log[5 * |names| + 1] == SyncDir;
  }

  lemma StageEvents(secret: string, base: nat, names: seq<string>, files: Files, i: nat)
    requires Requested(names, files) && i < |names|
    ensures EventAt(secret, base, names, files, 3 * i + 1) == Create(names[i], base + i)
    ensures EventAt(secret, base, names, files, 3 * i + 2) == Write(base + i, files[names[i]])
    ensures EventAt(secret, base, names, files, 3 * i + 3) == SyncFile(base + i)
  {
  }

  lemma PublishEvents(secret: string, base: nat, names: seq<string>, files: Files, i: nat)
    requires Requested(names, files) && i < |names|
    ensures EventAt(secret, base, names, files, 3 * |names| + 1 + 2 * i) == Link(names[i], base + i)
    ensures EventAt(secret, base, names, files, 3 * |names| + 2 + 2 * i) == Unlink(names[i], base + i)
  {
  }

  /** The final names a log created, in order. */
  ghost function Linked(log: seq<Event>): seq<string> {
    if log == [] then []
    else
      var last := log[|log| - 1];
      Linked(log[..|log| - 1]) + (if last.Link? then [last.name] else [])
  }

  /** How many names are linked after the first m operations. */
  function LinksIn(n: nat, m: nat): (links: nat)
    ensures links <= n
  {
    if m <= 3 * n + 1 then 0 else if m >= 5 * n then n else (m - 3 * n) / 2
  }

  /** Wherever a transaction stops, the names it linked are a prefix of the fixed order. */
  lemma {:induction false} LinkedIsPrefix(secret: string, base: nat, names: seq<string>, files: Files,
                                          log: seq<Event>, m: nat)
    requires Requested(names, files) && Reached(secret, base, names, files, log, m)
    ensures Linked(log) == names[..LinksIn(|names|, m)]
    decreases m
  {
    if m > 0 {
      var k := m - 1;
      ReachedBefore(secret, base, names, files, log, k);
      LinkedIsPrefix(secret, base, names, files, log[..k], k);
      LinkStep(secret, base, names, files, k);
      LinkedGrows(log, names, LinksIn(|names|, k), LinksIn(|names|, m));
    }
  }

  lemma LinkedGrows(log: seq<Event>, names: seq<string>, i: nat, next: nat)
    requires log != [] && i <= next <= |names| && Linked(log[..|log| - 1]) == names[..i]
    requires var e := log[|log| - 1];
             if e.Link? then i < |names| && e.name == names[i] && next == i + 1 else next == i
    ensures Linked(log) == names[..next]
  {
    if next > i {
      assert names[..next] == names[..i] + [names[i]];
    }
  }

  lemma LinkStep(secret: string, base: nat, names: seq<string>, files: Files, k: nat)
    requires Requested(names, files) && k < 5 * |names| + 4
    ensures var e, i := EventAt(secret, base, names, files, k), LinksIn(|names|, k);
            if e.Link? then i < |names| && e.name == names[i] && LinksIn(|names|, k + 1) == i + 1
            else LinksIn(|names|, k + 1) == i
  {
  }

  // ---- what the call does to the output directory ----

  /** Directories are only made and removed under the staging name, and only requested names are linked. */
  ghost predicate InsideEvent(e: Event, secret: string, names: seq<string>) {
    (e.Mkdir? || e.Rmdir? ==> e.name == secret) && (e.Link? ==> e.name in names)
  }

  ghost predicate Inside(log: seq<Event>, secret: string, names: seq<string>) {
    forall k :: 0 <= k < |log| ==> InsideEvent(log[k], secret, names)
  }

  ghost predicate OwnInside(effects: seq<Effect>, secret: string, names: seq<string>) {
    forall i :: 0 <= i < |effects| && effects[i].cause.Own? ==> InsideEvent(effects[i].cause.event, secret, names)
  }

  lemma {:induction false} OwnIsLogged(effects: seq<Effect>, i: nat)
    requires i < |effects| && effects[i].cause.Own?
    ensures effects[i].cause.event in Events(effects)
  {
    var n := |effects| - 1;
    if i < n {
      OwnIsLogged(effects[..n], i);
    }
  }

  lemma InsideLog(effects: seq<Effect>, secret: string, names: seq<string>)
    requires Inside(Events(effects), secret, names)
    ensures OwnInside(effects, secret, names)
  {
    forall i | 0 <= i < |effects| && effects[i].cause.Own?
      ensures InsideEvent(effects[i].cause.event, secret, names)
    {
      OwnIsLogged(effects, i);
    }
  }

  /**
   A change of the output directory that leaves it alone, makes or removes the call's own staging directory, or
   adds a missing requested name.
   */
  ghost predicate Gentle(before: map<string, Entry>, after: map<string, Entry>, secret: string, names: seq<string>) {
    || after == before
    || (secret !in before && after == before[secret := StagingDir])
    || (secret in before && before[secret] == StagingDir && after == before - {secret})
    || exists name, inode :: name in names && name !in before && after == before[name := Published(inode)]
  }

  ghost predicate AllGentle(effects: seq<Effect>, secret: string, names: seq<string>) {
    forall i :: 0 <= i < |effects| && !effects[i].cause.Other? ==>
      Gentle(effects[i].before.output, effects[i].after.output, secret, names)
  }

  /** What stands under the staging name was made by the call. */
  lemma {:induction false} StagingIsOurs(effects: seq<Effect>, origin: World, secret: string, others: Others,
                                         names: seq<string>, i: nat)
    requires LawfulRun(effects, origin, secret, others) && OwnInside(effects, secret, names) && i <= |effects|
    requires secret !in names && secret !in origin.output
    ensures var output := Last(effects[..i], origin).output; secret in output ==> output[secret] == StagingDir
  {
    if i > 0 {
      StagingIsOurs(effects, origin, secret, others, names, i - 1);
      LawfulAt(effects, origin, secret, others, i - 1);
      assert effects[..i][i - 1] == effects[i - 1];
    }
  }

  /** Whatever happens, no change by the call replaces an entry or removes one other than its staging directory. */
  lemma OwnIsGentle(effects: seq<Effect>, origin: World, secret: string, others: Others, names: seq<string>)
    requires LawfulRun(effects, origin, secret, others) && Inside(Events(effects), secret, names)
    requires secret !in names && (Events(effects) == [] || secret !in origin.output)
    ensures AllGentle(effects, secret, names)
  {
    InsideLog(effects, secret, names);
    forall i | 0 <= i < |effects| && !effects[i].cause.Other?
      ensures Gentle(effects[i].before.output, effects[i].after.output, secret, names)
    {
      LawfulAt(effects, origin, secret, others, i);
      if effects[i].cause.Own? {
        OwnIsLogged(effects, i);
        StagingIsOurs(effects, origin, secret, others, names, i);
      }
    }
  }

  /** No entry of the directory is replaced by the call, and none but the staging directory is removed by it. */
  lemma GentleKeepsEntries(effects: seq<Effect>, secret: string, names: seq<string>, i: nat, name: string)
    requires AllGentle(effects, secret, names) && i < |effects| && !effects[i].cause.Other?
    requires name in effects[i].before.output && name != secret
    ensures name in effects[i].after.output && effects[i].after.output[name] == effects[i].before.output[name]
  {
    assert Gentle(effects[i].before.output, effects[i].after.output, secret, names);
  }

  /** No other process changed the entry of a name during the call. */
  ghost predicate Undisturbed(effects: seq<Effect>, name: string) {
    forall i :: 0 <= i < |effects| && effects[i].cause.Other? ==>
      SameEntry(effects[i].before.output, effects[i].after.output, name)
  }

  /** An entry that was there is as it was, and one that was not is there exactly when the call linked it. */
  ghost predicate Accounted(before: map<string, Entry>, after: map<string, Entry>, log: seq<Event>, name: string) {
    && (name in before ==> SameEntry(before, after, name) && forall inode :: Link(name, inode) !in log)
    && (name !in before && name in after ==> exists inode :: Link(name, inode) in log)
    && (forall inode :: Link(name, inode) in log ==> name in after && after[name] == Published(inode))
  }

  lemma AccountedNext(before: map<string, Entry>, e: Effect, log: seq<Event>, name: string, secret: string,
                      others: Others, names: seq<string>)
    requires Accounted(before, e.before.output, log, name) && Lawful(e, secret, others) && name != secret
    requires e.cause.Own? ==> InsideEvent(e.cause.event, secret, names)
    requires e.cause.Other? ==> SameEntry(e.before.output, e.after.output, name)
    ensures Accounted(before, e.after.output, log + (if e.cause.Own? then [e.cause.event] else []), name)
  {
    if e.cause.Own? && e.cause.event.Link? && e.cause.event.name == name {
      assert name !in e.before.output;
      assert e.cause.event in log + [e.cause.event];
    } else if e.cause.Own? {
      assert SameEntry(e.before.output, e.after.output, name);
      assert forall inode :: Link(name, inode) in log + [e.cause.event] <==> Link(name, inode) in log;
    }
  }

  /**
   Entries that no other process touches are accounted for at the end of the call: nothing is replaced or
   removed, and only linked names are added.
   */
  lemma {:induction false} UntouchedStays(effects: seq<Effect>, origin: World, secret: string, others: Others,
                                          names: seq<string>, name: string, i: nat)
    requires LawfulRun(effects, origin, secret, others) && OwnInside(effects, secret, names) && i <= |effects|
    requires name != secret && Undisturbed(effects, name)
    ensures Accounted(origin.output, Last(effects[..i], origin).output, Events(effects[..i]), name)
  {
    if i > 0 {
      UntouchedStays(effects, origin, secret, others, names, name, i - 1);
      var e, prefix := effects[i - 1], effects[..i];
      assert prefix[..i - 1] == effects[..i - 1] && prefix[i - 1] == e;
      LawfulAt(effects, origin, secret, others, i - 1);
      AccountedNext(origin.output, e, Events(effects[..i - 1]), name, secret, others, names);
    }
  }

  // ---- staging ----

  ghost predicate HoldsSynced(contents: map<nat, Content>, inode: nat, bytes: string) {
    inode in contents && contents[inode] == Content(bytes, true)
  }

  ghost predicate Durable(contents: map<nat, Content>, base: nat, names: seq<string>, files: Files, n: nat)
    requires n <= |names| && Requested(names, files)
  {
    forall i :: 0 <= i < n ==> HoldsSynced(contents, base + i, files[names[i]])
  }

  /** The staging directory holds the names from one position up to another, under their inodes. */
  ghost predicate HeldBetween(held: map<string, nat>, base: nat, names: seq<string>, from: nat, to: nat)
    requires from <= to <= |names|
  {
    && (forall i :: from <= i < to ==> names[i] in held && held[names[i]] == base + i)
    && (forall name :: name in held ==> name in names[from..to])
  }

  /** The inode a name of the request is staged under. */
  ghost predicate StagedAs(base: nat, names: seq<string>, name: string, inode: nat) {
    exists i :: 0 <= i < |names| && names[i] == name && inode == base + i
  }

  /** A map that may be used for cleaning up: every file was staged by this call under the given inode. */
  ghost predicate Known(staged: map<string, nat>, base: nat, names: seq<string>) {
    forall name :: name in staged ==> StagedAs(base, names, name, staged[name])
  }

  lemma HeldIsKnown(held: map<string, nat>, base: nat, names: seq<string>, from: nat, to: nat)
    requires from <= to <= |names| && HeldBetween(held, base, names, from, to)
    ensures Known(held, base, names)
  {
    forall name | name in held ensures StagedAs(base, names, name, held[name]) {
      assert name in names[from..to];
      var i :| 0 <= i < to - from && names[from..to][i] == name;
      assert names[from + i] == name && held[name] == base + (from + i);
    }
  }

  lemma HeldGrows(held: map<string, nat>, base: nat, names: seq<string>, n: nat)
    requires n < |names| && NoRepeats(names) && HeldBetween(held, base, names, 0, n)
    ensures names[n] !in held && HeldBetween(held[names[n] := base + n], base, names, 0, n + 1)
  {
    assert names[0..n + 1] == names[0..n] + [names[n]];
  }

  lemma ReachedNext(secret: string, base: nat, names: seq<string>, files: Files, log: seq<Event>, e: Event)
    requires Requested(names, files) && Reached(secret, base, names, files, log, |log|)
    requires |log| < 5 * |names| + 4 && e == EventAt(secret, base, names, files, |log|)
    ensures Reached(secret, base, names, files, log + [e], |log| + 1)
  {
    forall k: nat | k < |log| + 1 ensures HappensAt(secret, base, names, files, log + [e], k) {
      assert k < |log| ==> HappensAt(secret, base, names, files, log, k);
    }
  }

  lemma ReachedBefore(secret: string, base: nat, names: seq<string>, files: Files, log: seq<Event>, m: nat)
    requires Requested(names, files) && Reached(secret, base, names, files, log, m + 1)
    ensures Reached(secret, base, names, files, log[..m], m) && log[m] == EventAt(secret, base, names, files, m)
  {
    assert HappensAt(secret, base, names, files, log, m);
    forall k: nat | k < m ensures HappensAt(secret, base, names, files, log[..m], k) {
      assert HappensAt(secret, base, names, files, log, k);
    }
  }

  lemma WriteIsNext(secret: string, base: nat, names: seq<string>, files: Files, log: seq<Event>, n: nat)
    requires Requested(names, files) && n < |names| && Reached(secret, base, names, files, log, 3 * n + 2)
    ensures Reached(secret, base, names, files, log + [Write(base + n, files[names[n]])], 3 * n + 3)
  {
    StageEvents(secret, base, names, files, n);
    ReachedNext(secret, base, names, files, log, Write(base + n, files[names[n]]));
  }

  lemma SyncIsNext(secret: string, base: nat, names: seq<string>, files: Files, log: seq<Event>, n: nat)
    requires Requested(names, files) && n < |names| && Reached(secret, base, names, files, log, 3 * n + 3)
    ensures Reached(secret, base, names, files, log + [SyncFile(base + n)], 3 * n + 4)
  {
    StageEvents(secret, base, names, files, n);
    ReachedNext(secret, base, names, files, log, SyncFile(base + n));
  }

  lemma CreateIsNext(secret: string, base: nat, names: seq<string>, files: Files, log: seq<Event>, n: nat)
    requires Requested(names, files) && n < |names| && Reached(secret, base, names, files, log, 3 * n + 1)
    ensures Reached(secret, base, names, files, log + [Create(names[n], base + n)], 3 * n + 2)
  {
    StageEvents(secret, base, names, files, n);
    ReachedNext(secret, base, names, files, log, Create(names[n], base + n));
  }

  lemma DurableNext(contents: map<nat, Content>, base: nat, names: seq<string>, files: Files, n: nat)
    requires Requested(names, files) && n < |names| && Durable(contents, base, names, files, n)
    ensures Durable(contents[base + n := Content(files[names[n]], true)], base, names, files, n + 1)
  {
    var after := contents[base + n := Content(files[names[n]], true)];
    forall i | 0 <= i < n + 1 ensures HoldsSynced(after, base + i, files[names[i]]) {
      assert i < n ==> HoldsSynced(contents, base + i, files[names[i]]);
    }
  }

  /** Fills a created file: a write, a sync and a close, stopping at the first failure. */
  method FillStaged(disk: Disk, names: seq<string>, files: Files, ghost base: nat, n: nat, inode: nat) returns (ok: bool)
    requires Requested(names, files) && n < |names| && inode == base + n
    requires Reached(disk.secret, base, names, files, disk.log, 3 * n + 2)
    requires disk.Valid() && inode in disk.contents
    modifies disk`contents, disk`log, disk`effects, disk`calls
    ensures disk.Valid()
    ensures old(disk.calls) <= disk.calls && (disk.Proceeded(old(disk.calls)) ==> ok)
    ensures |disk.log| <= 3 * n + 4 && Reached(disk.secret, base, names, files, disk.log, |disk.log|)
    ensures ok ==> |disk.log| == 3 * n + 4
    ensures ok ==> disk.contents == old(disk.contents)[inode := Content(files[names[n]], true)]
  {
    WriteIsNext(disk.secret, base, names, files, disk.log, n);
    ok := disk.WriteTo(inode, files[names[n]]);
    if !ok {
      return;
    }
    SyncIsNext(disk.secret, base, names, files, disk.log, n);
    ok := disk.SyncFileOf(inode);
    if !ok {
      return;
    }
    ok := disk.Close();
  }

  /** One file: an exclusive create, and what fills it. */
  method StageNext(disk: Disk, names: seq<string>, files: Files, ghost base: nat, n: nat, staged: map<string, nat>)
    returns (ok: bool, after: map<string, nat>, ghost torn: bool)
    requires Requested(names, files) && n < |names|
    requires Reached(disk.secret, base, names, files, disk.log, 3 * n + 1) && disk.next == base + n
    requires disk.Valid() && staged == disk.held
    modifies disk`held, disk`contents, disk`next, disk`log, disk`effects, disk`calls
    ensures disk.Valid()
    ensures old(disk.calls) <= disk.calls && (disk.Proceeded(old(disk.calls)) ==> names[n] in old(disk.held) || ok)
    ensures |disk.log| <= 3 * n + 4 && Reached(disk.secret, base, names, files, disk.log, |disk.log|)
    ensures after == staged || after == staged[names[n] := base + n]
    ensures ok ==> |disk.log| == 3 * n + 4 && disk.next == base + n + 1
    ensures ok ==> disk.held == after == staged[names[n] := base + n]
    ensures torn || disk.held == after
    ensures torn ==> !ok && |disk.log| == 3 * n + 2 && !disk.Proceeded(old(disk.calls))
    ensures ok ==> disk.contents == old(disk.contents)[base + n := Content(files[names[n]], true)]
  {
    var name := names[n];
    after := staged;
    CreateIsNext(disk.secret, base, names, files, disk.log, n);
    var created, inode := disk.CreateAt(name);
    if !created {
      return false, after, disk.held != after;
    }
    torn := false;
    after := after[name := inode];
    ghost var contents := disk.contents;
    ok := FillStaged(disk, names, files, base, n, inode);
    assert ok ==> disk.contents == contents[inode := Content(files[name], true)];
  }

  lemma CreatedLast(secret: string, base: nat, names: seq<string>, files: Files, log: seq<Event>, n: nat)
    requires Requested(names, files) && n < |names| && Reached(secret, base, names, files, log, |log|)
    ensures |log| == 3 * n + 2 ==> log[|log| - 1].Create?
  {
    if |log| == 3 * n + 2 {
      ReachedBefore(secret, base, names, files, log, 3 * n + 1);
    }
    StageEvents(secret, base, names, files, n);
  }

  method StageAll(disk: Disk, names: seq<string>, files: Files, ghost base: nat)
    returns (ok: bool, staged: map<string, nat>, ghost torn: bool)
    requires Requested(names, files) && names != [] && NoRepeats(names)
    requires Reached(disk.secret, base, names, files, disk.log, 1) && disk.held == map[] && disk.next == base
    requires disk.Valid()
    modifies disk`held, disk`contents, disk`next, disk`log, disk`effects, disk`calls
    ensures disk.Valid()
    ensures old(disk.calls) <= disk.calls && (disk.Proceeded(old(disk.calls)) ==> ok)
    ensures |disk.log| <= 3 * |names| + 1 && Reached(disk.secret, base, names, files, disk.log, |disk.log|)
    ensures Known(staged, base, names)
    ensures torn || disk.held == staged
    ensures torn ==> !ok && disk.log != [] && disk.log[|disk.log| - 1].Create?
    ensures ok ==> |disk.log| == 3 * |names| + 1 && HeldBetween(disk.held, base, names, 0, |names|)
    ensures ok ==> Durable(disk.contents, base, names, files, |names|)
  {
    staged, torn := map[], false;
    for n := 0 to |names|
      invariant Reached(disk.secret, base, names, files, disk.log, 3 * n + 1) && disk.next == base + n
      invariant staged == disk.held && HeldBetween(disk.held, base, names, 0, n) && Known(staged, base, names)
      invariant Durable(disk.contents, base, names, files, n) && disk.Valid()
      invariant old(disk.calls) <= disk.calls && !torn
    {
      HeldGrows(staged, base, names, n);
      HeldIsKnown(staged[names[n] := base + n], base, names, 0, n + 1);
      DurableNext(disk.contents, base, names, files, n);
      var done;
      done, staged, torn := StageNext(disk, names, files, base, n, staged);
      if !done {
        CreatedLast(disk.secret, base, names, files, disk.log, n);
        return false, staged, torn;
      }
    }
    return true, staged, false;
  }

  // ---- publishing ----

  lemma HeldShrinks(held: map<string, nat>, base: nat, names: seq<string>, n: nat)
    requires n < |names| && NoRepeats(names) && HeldBetween(held, base, names, n, |names|)
    ensures names[n] in held && held[names[n]] == base + n
    ensures HeldBetween(held - {names[n]}, base, names, n + 1, |names|)
  {
    assert names[n..] == [names[n]] + names[n + 1..];
  }

  /** The staging directory, when it is there, is the call's own. */
  ghost predicate OwnStaging(disk: Disk)
    reads disk
  {
    disk.secret in disk.output ==> disk.output[disk.secret] == StagingDir
  }

  /** No name of a list, from a position on, stands in the directory. */
  ghost predicate Absent(output: map<string, Entry>, names: seq<string>, from: nat) {
    forall i :: from <= i < |names| ==> names[i] !in output
  }

  lemma StillAbsent(before: map<string, Entry>, after: map<string, Entry>, names: seq<string>, n: nat)
    requires n < |names| && NoRepeats(names) && Absent(before, names, n) && after.Keys == before.Keys + {names[n]}
    ensures Absent(after, names, n + 1)
  {
  }

  method PublishOne(disk: Disk, names: seq<string>, files: Files, ghost base: nat, n: nat)
    returns (linked: bool, ok: bool)
    requires Requested(names, files) && n < |names| && names[n] != disk.secret
    requires Reached(disk.secret, base, names, files, disk.log, 3 * |names| + 1 + 2 * n)
    requires names[n] in disk.held && disk.held[names[n]] == base + n
    requires disk.Valid() && OwnStaging(disk)
    modifies disk`output, disk`held, disk`log, disk`effects, disk`calls
    ensures Reached(disk.secret, base, names, files, disk.log, |disk.log|)
    ensures |disk.log| == |old(disk.log)| + (if linked then 1 else 0) + (if ok then 1 else 0)
    ensures old(disk.calls) <= disk.calls && SameEntry(old(disk.output), disk.output, disk.secret)
    ensures disk.Proceeded(old(disk.calls)) && Quiet(disk.others) ==> (ok <==> names[n] !in old(disk.output))
    ensures Quiet(disk.others) && ok && NoRepeats(names) && Absent(old(disk.output), names, n) ==>
              Absent(disk.output, names, n + 1)
    ensures !linked ==> disk.held == old(disk.held)
    ensures ok ==> linked && disk.held == old(disk.held) - {names[n]}
    ensures disk.Valid() && OwnStaging(disk)
  {
    PublishEvents(disk.secret, base, names, files, n);
    ghost var log, link := disk.log, Link(names[n], base + n);
    ReachedNext(disk.secret, base, names, files, log, link);
    ReachedNext(disk.secret, base, names, files, log + [link], Unlink(names[n], base + n));
    assert names[n] in names;
    linked, ok := disk.Publish(names[n]);
    assert disk.log == if ok then log + [link] + [Unlink(names[n], base + n)] else if linked then log + [link] else log;
    if Quiet(disk.others) && ok && NoRepeats(names) && Absent(old(disk.output), names, n) {
      StillAbsent(old(disk.output), disk.output, names, n);
    }
  }

  ghost function FirstNames(names: seq<string>, n: nat): set<string>
    requires n <= |names|
  {
    set i | 0 <= i < n :: names[i]
  }

  lemma OneMoreName(names: seq<string>, n: nat)
    requires n < |names|
    ensures FirstNames(names, n + 1) == FirstNames(names, n) + {names[n]}
  {
  }

  lemma SomeName(names: seq<string>, n: nat)
    requires n <= |names|
    ensures FirstNames(names, n) == {} <==> n == 0
  {
    if n > 0 {
      assert names[0] in FirstNames(names, n);
    }
  }

  /** Links the names in order, remembering each link before looking at the error. */
  method PublishAll(disk: Disk, names: seq<string>, files: Files, ghost base: nat)
    returns (ok: bool, published: set<string>)
    requires Requested(names, files) && names != [] && NoRepeats(names) && disk.secret !in names
    requires Reached(disk.secret, base, names, files, disk.log, 3 * |names| + 1)
    requires HeldBetween(disk.held, base, names, 0, |names|)
    requires disk.Valid() && OwnStaging(disk)
    modifies disk`output, disk`held, disk`log, disk`effects, disk`calls
    ensures 3 * |names| + 1 <= |disk.log| <= 5 * |names| + 1
    ensures Reached(disk.secret, base, names, files, disk.log, |disk.log|)
    ensures published == FirstNames(names, LinksIn(|names|, |disk.log|))
    ensures disk.Valid() && OwnStaging(disk)
    ensures old(disk.calls) <= disk.calls && SameEntry(old(disk.output), disk.output, disk.secret)
    ensures disk.Proceeded(old(disk.calls)) && Quiet(disk.others) && Absent(old(disk.output), names, 0) ==> ok
    ensures published == {} ==> disk.held == old(disk.held)
    ensures ok ==> |disk.log| == 5 * |names| + 1 && disk.held == map[]
  {
    published := {};
    for n := 0 to |names|
      invariant Reached(disk.secret, base, names, files, disk.log, 3 * |names| + 1 + 2 * n)
      invariant HeldBetween(disk.held, base, names, n, |names|)
      invariant published == FirstNames(names, n) && (n == 0 ==> disk.held == old(disk.held))
      invariant old(disk.calls) <= disk.calls && SameEntry(old(disk.output), disk.output, disk.secret)
      invariant Quiet(disk.others) && Absent(old(disk.output), names, 0) ==> Absent(disk.output, names, n)
      invariant disk.Valid() && OwnStaging(disk)
    {
      HeldShrinks(disk.held, base, names, n);
      OneMoreName(names, n);
      SomeName(names, n);
      var linked, done := PublishOne(disk, names, files, base, n);
      if linked {
        published := published + {names[n]};
      }
      if !done {
        return false, published;
      }
    }
    SomeName(names, |names|);
    return true, published;
  }

  // ---- rolling back ----

  datatype Outcome = Done | Undefined | Refused | CleanupFailed

  /** Cleaning up removes staged files that were never linked, and the staging directory. */
  ghost predicate CleanupEvent(e: Event, secret: string, staged: map<string, nat>, published: set<string>) {
    || e == Rmdir(secret)
    || (e.Unlink? && e.name in staged && staged[e.name] == e.inode && e.name !in published)
  }

  /** A log grown by cleanup events only. */
  ghost predicate CleanedUp(before: seq<Event>, after: seq<Event>, secret: string, staged: map<string, nat>,
                            published: set<string>) {
    before <= after && forall k :: |before| <= k < |after| ==> CleanupEvent(after[k], secret, staged, published)
  }

  /** A staged file that was never linked is still in the staging directory, under the inode it was created with. */
  ghost predicate LeftBehind(held: map<string, nat>, staged: map<string, nat>, published: set<string>, name: string) {
    name in staged && name !in published && name in held && held[name] == staged[name]
  }

  /** Everything in the staging directory is such a file. */
  ghost predicate Removable(held: map<string, nat>, order: seq<string>, staged: map<string, nat>, published: set<string>) {
    forall name :: name in held ==> name in order && LeftBehind(held, staged, published, name)
  }

  ghost predicate Within(held: map<string, nat>, before: map<string, nat>) {
    forall name :: name in held ==> name in before && held[name] == before[name]
  }

  method DiscardStaged(disk: Disk, order: seq<string>, staged: map<string, nat>, published: set<string>)
    returns (ok: bool)
    requires disk.Valid()
    modifies disk`held, disk`log, disk`effects, disk`calls
    ensures disk.Valid() && Within(disk.held, old(disk.held)) && old(disk.calls) <= disk.calls
    ensures CleanedUp(old(disk.log), disk.log, disk.secret, staged, published)
    ensures forall name :: name in order && LeftBehind(disk.held, staged, published, name) ==>
              !ok && !disk.Proceeded(old(disk.calls))
    ensures disk.Proceeded(old(disk.calls)) && Removable(old(disk.held), order, staged, published) ==> ok
  {
    ok := true;
    var i := |order|;
    while i > 0
      invariant 0 <= i <= |order| && disk.Valid() && Within(disk.held, old(disk.held)) && old(disk.calls) <= disk.calls
      invariant CleanedUp(old(disk.log), disk.log, disk.secret, staged, published)
      invariant forall j :: i <= j < |order| && LeftBehind(disk.held, staged, published, order[j]) ==>
                  !ok && !disk.Proceeded(old(disk.calls))
      invariant disk.Proceeded(old(disk.calls)) && Removable(old(disk.held), order, staged, published) ==> ok
    {
      i := i - 1;
      var name := order[i];
      if name in staged && name !in published {
        var removed := disk.RemoveIfSame(name, staged[name]);
        ok := ok && removed;
      }
    }
  }

  /**
   Published names are neither inspected nor removed; they make the outcome undefined. Every staged file that was
   never linked is removed unless a call of the rollback failed, and when none failed and nothing was published
   the staging directory is gone and the outcome is a plain refusal.
   */
  method Rollback(disk: Disk, order: seq<string>, staged: map<string, nat>, published: set<string>)
    returns (outcome: Outcome)
    requires disk.Valid() && OwnStaging(disk)
    modifies disk`output, disk`held, disk`log, disk`effects, disk`calls
    ensures CleanedUp(old(disk.log), disk.log, disk.secret, staged, published)
    ensures outcome.Undefined? <==> published != {}
    ensures !outcome.Done? && old(disk.calls) <= disk.calls
    ensures outcome.Refused? ==> disk.held == map[] && disk.secret !in disk.output
    ensures forall name :: name in order && LeftBehind(disk.held, staged, published, name) ==>
              !outcome.Refused? && !disk.Proceeded(old(disk.calls))
    ensures disk.Proceeded(old(disk.calls)) && Removable(old(disk.held), order, staged, published)
            && disk.secret in old(disk.output) ==>
              disk.held == map[] && disk.secret !in disk.output && (published == {} ==> outcome.Refused?)
    ensures disk.Valid()
  {
    var discarded := DiscardStaged(disk, order, staged, published);
    assert disk.Proceeded(old(disk.calls)) && Removable(old(disk.held), order, staged, published) ==> disk.held == map[];
    var removed := disk.RmdirAt(disk.secret);
    outcome := if published != {} then Undefined
               else if discarded && removed then Refused
               else CleanupFailed;
  }

  // ---- the transaction ----

  /** `strings.Split` at slashes. */
  function Components(path: string): (parts: seq<string>)
    ensures parts != []
  {
    if path == "" then [""]
    else
      var rest := Components(path[1..]);
      if path[0] == '/' then [""] + rest else [[path[0]] + rest[0]] + rest[1..]
  }

  /** A path begins with a ".." component. */
  predicate BeginsWithParent(path: string) {
    |path| >= 2 && path[0] == '.' && path[1] == '.' && (|path| == 2 || path[2] == '/')
  }

  /** Some ".." stands between slashes or the ends of the path. */
  ghost predicate HasParent(path: string) {
    BeginsWithParent(path) || exists i :: 0 < i <= |path| && path[i - 1] == '/' && BeginsWithParent(path[i..])
  }

  lemma FirstOf(path: string)
    ensures Components(path)[0] == if path == "" || path[0] == '/' then "" else [path[0]] + Components(path[1..])[0]
  {
  }

  lemma JoinedIs(c: char, rest: string, d: char, more: string)
    ensures [c] + rest == [d] + more <==> c == d && rest == more
  {
    assert ([c] + rest)[1..] == rest && ([d] + more)[1..] == more;
  }

  lemma FirstComponent(path: string)
    ensures Components(path)[0] == ".." <==> BeginsWithParent(path)
  {
    FirstOf(path);
    if path != "" && path[0] != '/' {
      FirstIsDot(path[1..]);
      JoinedIs(path[0], Components(path[1..])[0], '.', ".");
    }
  }

  lemma FirstIsDot(path: string)
    ensures Components(path)[0] == "." <==> path != "" && path[0] == '.' && (|path| == 1 || path[1] == '/')
  {
    FirstOf(path);
    if path != "" && path[0] != '/' {
      FirstOf(path[1..]);
      JoinedIs(path[0], Components(path[1..])[0], '.', "");
    }
  }

  lemma {:induction false} LaterComponents(path: string)
    ensures ".." in Components(path)[1..] <==>
              exists i :: 0 < i <= |path| && path[i - 1] == '/' && BeginsWithParent(path[i..])
  {
    if path != "" {
      var rest := path[1..];
      FirstComponent(rest);
      LaterComponents(rest);
      assert forall i :: 1 < i <= |path| ==> path[i..] == rest[i - 1..] && path[i - 1] == rest[i - 2];
      var parts := Components(rest);
      if path[0] == '/' {
        assert Components(path)[1..] == parts == [parts[0]] + parts[1..];
        ParentMoves(path, rest);
      } else {
        assert Components(path)[1..] == parts[1..];
        ParentMoves(path, rest);
      }
    }
  }

  lemma ParentMoves(path: string, rest: string)
    requires path != "" && rest == path[1..]
    ensures (exists i :: 0 < i <= |path| && path[i - 1] == '/' && BeginsWithParent(path[i..])) <==>
              (path[0] == '/' && BeginsWithParent(rest))
              || exists i :: 0 < i <= |rest| && rest[i - 1] == '/' && BeginsWithParent(rest[i..])
  {
    if i :| 0 < i <= |path| && path[i - 1] == '/' && BeginsWithParent(path[i..]) {
      if i > 1 {
        assert rest[i - 1..] == path[i..] && rest[i - 2] == path[i - 1];
      }
    }
    if i :| 0 < i <= |rest| && rest[i - 1] == '/' && BeginsWithParent(rest[i..]) {
      assert path[i + 1..] == rest[i..] && path[i] == rest[i - 1];
    }
    if path[0] == '/' && BeginsWithParent(rest) {
      assert path[1..] == rest && path[1 - 1] == '/';
    }
  }

  /** The check of the path looks for ".." among its components. */
  method Traverses(path: string) returns (found: bool)
    ensures found == HasParent(path)
  {
    var parts := Components(path);
    found := false;
    for n := 0 to |parts|
      invariant found <==> ".." in parts[..n]
    {
      assert parts[..n + 1] == parts[..n] + [parts[n]];
      if parts[n] == ".." {
        found := true;
      }
    }
    assert parts[..|parts|] == parts == [parts[0]] + parts[1..];
    FirstComponent(path);
    LaterComponents(path);
  }

  /** Refuses early when a target exists; publication does not rely on it. */
  method AllAbsent(disk: Disk, names: seq<string>) returns (ok: bool)
    requires disk.Valid()
    modifies disk`output, disk`log, disk`effects, disk`calls
    ensures old(disk.calls) <= disk.calls && (Quiet(disk.others) ==> disk.output == old(disk.output))
    ensures disk.Proceeded(old(disk.calls)) && Quiet(disk.others) ==> (ok <==> Absent(old(disk.output), names, 0))
    ensures disk.Valid() && disk.log == old(disk.log) && SameEntry(old(disk.output), disk.output, disk.secret)
  {
    for n := 0 to |names|
      invariant old(disk.calls) <= disk.calls && (Quiet(disk.others) ==> disk.output == old(disk.output))
      invariant disk.Proceeded(old(disk.calls)) && Quiet(disk.others) ==>
                  forall i :: 0 <= i < n ==> names[i] !in old(disk.output)
      invariant disk.Valid() && disk.log == old(disk.log) && SameEntry(old(disk.output), disk.output, disk.secret)
    {
      var absent := disk.IsAbsent(names[n]);
      if !absent {
        return false;
      }
    }
    return true;
  }

  /** The last steps: a sync, the removal of the staging directory, and another sync. */
  method Finish(disk: Disk, names: seq<string>, files: Files, ghost base: nat) returns (committed: bool)
    requires Requested(names, files)
    requires Reached(disk.secret, base, names, files, disk.log, 5 * |names| + 1) && disk.held == map[]
    requires disk.secret in disk.output
    requires disk.Valid() && OwnStaging(disk)
    modifies disk`output, disk`log, disk`effects, disk`calls
    ensures Reached(disk.secret, base, names, files, disk.log, |disk.log|) && |disk.log| >= 5 * |names| + 1
    ensures committed <==> |disk.log| == 5 * |names| + 4
    ensures committed ==> disk.secret !in disk.output
    ensures old(disk.calls) <= disk.calls && (disk.Proceeded(old(disk.calls)) ==> committed)
    ensures disk.Valid() && OwnStaging(disk)
  {
    ghost var log := disk.log;
    ReachedNext(disk.secret, base, names, files, log, SyncDir);
    committed := disk.SyncDirectory();
    if !committed {
      return;
    }
    log := disk.log;
    ReachedNext(disk.secret, base, names, files, log, Rmdir(disk.secret));
    committed := disk.RmdirAt(disk.secret);
    if !committed {
      return;
    }
    log := disk.log;
    ReachedNext(disk.secret, base, names, files, log, SyncDir);
    committed := disk.SyncDirectory();
  }

  /** All final names, and the last steps behind them. */
  method PublishAndFinish(disk: Disk, names: seq<string>, files: Files, ghost base: nat)
    returns (committed: bool, published: set<string>)
    requires Requested(names, files) && names != [] && NoRepeats(names) && disk.secret !in names
    requires Reached(disk.secret, base, names, files, disk.log, 3 * |names| + 1)
    requires HeldBetween(disk.held, base, names, 0, |names|)
    requires disk.Valid() && OwnStaging(disk) && disk.secret in disk.output
    modifies disk`output, disk`held, disk`log, disk`effects, disk`calls
    ensures Reached(disk.secret, base, names, files, disk.log, |disk.log|) && |disk.log| >= 3 * |names| + 1
    ensures published == FirstNames(names, LinksIn(|names|, |disk.log|))
    ensures committed <==> |disk.log| == 5 * |names| + 4
    ensures committed ==> disk.secret !in disk.output
    ensures old(disk.calls) <= disk.calls
    ensures disk.Proceeded(old(disk.calls)) && Quiet(disk.others) && Absent(old(disk.output), names, 0) ==> committed
    ensures published == {} ==> disk.secret in disk.output && disk.held == old(disk.held)
    ensures disk.Valid() && OwnStaging(disk)
  {
    committed, published := PublishAll(disk, names, files, base);
    if !committed {
      return;
    }
    SomeName(names, |names|);
    committed := Finish(disk, names, files, base);
  }

  /** Staging, publishing and finishing in the staging directory; stops at the first failure. */
  method Attempt(disk: Disk, names: seq<string>, files: Files, ghost base: nat)
    returns (committed: bool, staged: map<string, nat>, published: set<string>, ghost torn: bool)
    requires Requested(names, files) && names != [] && NoRepeats(names) && disk.secret !in names
    requires Reached(disk.secret, base, names, files, disk.log, 1) && disk.held == map[] && disk.next == base
    requires disk.Valid() && OwnStaging(disk) && disk.secret in disk.output
    modifies disk`output, disk`held, disk`contents, disk`next, disk`log, disk`effects, disk`calls
    ensures Reached(disk.secret, base, names, files, disk.log, |disk.log|)
    ensures Known(staged, base, names)
    ensures published == FirstNames(names, LinksIn(|names|, |disk.log|))
    ensures committed <==> |disk.log| == 5 * |names| + 4
    ensures |disk.log| > 3 * |names| + 1 ==> Durable(disk.contents, base, names, files, |names|)
    ensures committed ==> disk.secret !in disk.output
    ensures old(disk.calls) <= disk.calls
    ensures disk.Proceeded(old(disk.calls)) && Quiet(disk.others) && Absent(old(disk.output), names, 0) ==> committed
    ensures published == {} ==> disk.secret in disk.output && (torn || disk.held == staged)
    ensures torn ==> !committed && disk.log != [] && disk.log[|disk.log| - 1].Create?
    ensures disk.Valid() && OwnStaging(disk)
  {
    published := {};
    committed, staged, torn := StageAll(disk, names, files, base);
    if !committed {
      return;
    }
    committed, published := PublishAndFinish(disk, names, files, base);
  }

  /** What an outcome says about the operations that were carried out. */
  ghost predicate Explains(outcome: Outcome, done: seq<Event>, full: seq<Event>) {
    && (outcome.Done? <==> done == full)
    && (outcome.Undefined? <==> done != full && Linked(done) != [])
  }

  lemma AttemptExplained(secret: string, base: nat, names: seq<string>, files: Files, log: seq<Event>,
                         published: set<string>)
    requires Requested(names, files) && Reached(secret, base, names, files, log, |log|)
    requires published == FirstNames(names, LinksIn(|names|, |log|))
    ensures log <= Complete(secret, base, names, files) && Linked(log) <= names
    ensures |log| == 5 * |names| + 4 <==> log == Complete(secret, base, names, files)
    ensures |Linked(log)| == LinksIn(|names|, |log|) && (published == {} <==> Linked(log) == [])
    ensures Linked(log) != [] ==> |log| > 3 * |names| + 1
  {
    var links := LinksIn(|names|, |log|);
    ReachedIsPrefix(secret, base, names, files, log, |log|);
    LinkedIsPrefix(secret, base, names, files, log, |log|);
    if links > 0 {
      assert names[0] in published;
    }
  }

  /**
   Behind the operations of the transaction there is only cleanup: the staging directory is removed, and staged
   files are unlinked that this call created and never linked.
   */
  ghost predicate OnlyCleanup(log: seq<Event>, done: seq<Event>, secret: string, base: nat, names: seq<string>) {
    forall k :: |done| <= k < |log| ==>
      log[k] == Rmdir(secret) || exists i :: |Linked(done)| <= i < |names| && log[k] == Unlink(names[i], base + i)
  }

  lemma CleanupSparesPublished(log: seq<Event>, done: seq<Event>, secret: string, base: nat, names: seq<string>,
                               staged: map<string, nat>, published: set<string>)
    requires CleanedUp(done, log, secret, staged, published) && Known(staged, base, names)
    requires |Linked(done)| <= |names| && published == FirstNames(names, |Linked(done)|)
    ensures OnlyCleanup(log, done, secret, base, names)
  {
    forall k | |done| <= k < |log| && log[k] != Rmdir(secret)
      ensures exists i :: |Linked(done)| <= i < |names| && log[k] == Unlink(names[i], base + i)
    {
      assert CleanupEvent(log[k], secret, staged, published);
      assert StagedAs(base, names, log[k].name, log[k].inode);
    }
  }

  /** What was carried out of the complete transaction, what it means, and that only cleanup comes behind it. */
  ghost predicate CarriedOut(outcome: Outcome, done: seq<Event>, log: seq<Event>, contents: map<nat, Content>,
                             secret: string, base: nat, names: seq<string>, files: Files)
    requires Requested(names, files)
  {
    && done <= log && done <= Complete(secret, base, names, files) && Linked(done) <= names
    && OnlyCleanup(log, done, secret, base, names)
    && (Linked(done) != [] ==> Durable(contents, base, names, files, |names|))
    && (outcome.Done? ==> done == log && Linked(done) == names)
  }

  /**
   A failed cleanup is reported only if one of its own calls failed, from the call `begun` on, or if the call that
   ended the transaction was a create that left a file it could not identify.
   */
  ghost predicate CleanupTold(outcome: Outcome, done: seq<Event>, torn: bool, faults: Faults, begun: nat, calls: nat) {
    && begun <= calls
    && (outcome.CleanupFailed? ==> torn || !NoFault(faults, begun, calls))
    && (torn ==> done != [] && done[|done| - 1].Create?)
  }

  /** No call fails on its own account, nobody interferes, and no target exists. */
  ghost predicate Unhindered(faults: Faults, from: nat, to: nat, others: Others, output: map<string, Entry>,
                             names: seq<string>) {
    NoFault(faults, from, to) && Quiet(others) && Absent(output, names, 0)
  }

  /** The attempt and, if it was not committed, the rollback. */
  method AttemptOrRollback(disk: Disk, order: seq<string>, names: seq<string>, files: Files, ghost base: nat)
    returns (outcome: Outcome, ghost done: seq<Event>, ghost begun: nat, ghost torn: bool)
    requires Requested(names, files) && names != [] && NoRepeats(names) && disk.secret !in names
    requires Reached(disk.secret, base, names, files, disk.log, 1) && disk.held == map[] && disk.next == base
    requires disk.Valid() && OwnStaging(disk) && disk.secret in disk.output
    requires forall name :: name in names ==> name in order
    modifies disk`output, disk`held, disk`contents, disk`next, disk`log, disk`effects, disk`calls
    ensures Explains(outcome, done, Complete(disk.secret, base, names, files))
    ensures outcome.Done? || outcome.Refused? ==> disk.secret !in disk.output
    ensures disk.Valid() && old(disk.calls) <= begun <= disk.calls
    ensures Unhindered(disk.faults, old(disk.calls), disk.calls, disk.others, old(disk.output), names) ==> outcome.Done?
    ensures CarriedOut(outcome, done, disk.log, disk.contents, disk.secret, base, names, files)
    ensures CleanupTold(outcome, done, torn, disk.faults, begun, disk.calls)
  {
    var committed, staged, published;
    committed, staged, published, torn := Attempt(disk, names, files, base);
    done, begun := disk.log, disk.calls;
    AttemptExplained(disk.secret, base, names, files, done, published);
    if committed {
      NamesLinked(disk.secret, base, names, files, done);
      return Done, done, begun, torn;
    }
    RemovableWhenKept(disk.held, order, names, staged, published, base);
    outcome := Rollback(disk, order, staged, published);
    CleanupSparesPublished(disk.log, done, disk.secret, base, names, staged, published);
  }

  lemma RemovableWhenKept(held: map<string, nat>, order: seq<string>, names: seq<string>, staged: map<string, nat>,
                          published: set<string>, base: nat)
    requires Known(staged, base, names) && forall name :: name in names ==> name in order
    ensures held == staged && published == {} ==> Removable(held, order, staged, published)
  {
    forall name | name in staged ensures name in order {
      assert StagedAs(base, names, name, staged[name]);
    }
  }

  lemma NamesLinked(secret: string, base: nat, names: seq<string>, files: Files, log: seq<Event>)
    requires Requested(names, files) && Reached(secret, base, names, files, log, 5 * |names| + 4)
    ensures Linked(log) == names
  {
    LinkedIsPrefix(secret, base, names, files, log, |log|);
  }

  /** Makes and opens the staging directory; a directory that cannot be opened is removed again. */
  method OpenStaging(disk: Disk) returns (ok: bool, outcome: Outcome, ghost done: seq<Event>, ghost begun: nat)
    requires disk.Valid() && disk.log == [] && disk.held == map[]
    modifies disk`output, disk`log, disk`effects, disk`calls
    ensures disk.Valid() && (disk.log != [] ==> old(disk.secret !in disk.output))
    ensures old(disk.calls) <= begun <= disk.calls
    ensures disk.Proceeded(old(disk.calls)) && disk.secret !in old(disk.output) ==> ok
    ensures ok ==> disk.secret in disk.output
    ensures ok && Quiet(disk.others) ==> disk.output == old(disk.output)[disk.secret := StagingDir]
    ensures !ok && outcome.CleanupFailed? ==> !NoFault(disk.faults, begun, disk.calls)
    ensures ok ==> disk.log == done == [Mkdir(disk.secret)] && OwnStaging(disk) && old(disk.secret !in disk.output)
    ensures !ok ==> outcome.Refused? || outcome.CleanupFailed?
    ensures !ok && outcome.Refused? ==> (disk.secret in disk.output <==> disk.secret in old(disk.output))
    ensures !ok ==> (done == [] || done == [Mkdir(disk.secret)])
    ensures !ok ==> disk.log == done || disk.log == done + [Rmdir(disk.secret)]
  {
    done, begun := [], disk.calls;
    ok := disk.MkdirAt(disk.secret);
    if !ok {
      return false, Refused, done, begun;
    }
    done := disk.log;
    ok := disk.OpenSubdir();
    outcome, begun := Refused, disk.calls;
    if !ok {
      var removed := disk.RmdirAt(disk.secret);
      outcome := if removed then Refused else CleanupFailed;
    }
  }

  lemma NothingLinkedYet(secret: string, base: nat, names: seq<string>, files: Files, done: seq<Event>)
    requires Requested(names, files) && names != [] && (done == [] || done == [Mkdir(secret)])
    ensures Reached(secret, base, names, files, done, |done|) && Linked(done) == []
    ensures done <= Complete(secret, base, names, files) && done != Complete(secret, base, names, files)
  {
    ReachedIsPrefix(secret, base, names, files, done, |done|);
  }

  /** Making and opening the staging directory, then the attempt. */
  method Publication(disk: Disk, order: seq<string>, names: seq<string>, files: Files)
    returns (outcome: Outcome, ghost done: seq<Event>, ghost begun: nat, ghost torn: bool)
    requires Requested(names, files) && names != [] && NoRepeats(names) && disk.secret !in names
    requires disk.Valid() && disk.log == [] && disk.held == map[]
    requires forall name :: name in names ==> name in order
    modifies disk`output, disk`held, disk`contents, disk`next, disk`log, disk`effects, disk`calls
    ensures disk.log != [] ==> old(disk.secret !in disk.output)
    ensures Explains(outcome, done, Complete(disk.secret, old(disk.next), names, files))
    ensures outcome.Done? || outcome.Refused? ==> (disk.secret in disk.output <==> disk.secret in old(disk.output))
    ensures disk.Valid() && old(disk.calls) <= begun <= disk.calls
    ensures Unhindered(disk.faults, old(disk.calls), disk.calls, disk.others, old(disk.output), names)
            && disk.secret !in old(disk.output) ==>
              outcome.Done?
    ensures CarriedOut(outcome, done, disk.log, disk.contents, disk.secret, old(disk.next), names, files)
    ensures CleanupTold(outcome, done, torn, disk.faults, begun, disk.calls)
  {
    ghost var base := disk.next;
    NothingLinkedYet(disk.secret, base, names, files, []);
    NothingLinkedYet(disk.secret, base, names, files, [Mkdir(disk.secret)]);
    var absent := AllAbsent(disk, names);
    if !absent {
      return Refused, [], disk.calls, false;
    }
    var inside;
    torn := false;
    inside, outcome, done, begun := OpenStaging(disk);
    if inside {
      outcome, done, begun, torn := AttemptOrRollback(disk, order, names, files, base);
    }
  }

  /**
   `writeTransactionWithBackend`. For every pattern of failures and whatever other processes do meanwhile: `done`
   is the part of the complete transaction that was carried out, and the rest of the log is cleanup. The call
   succeeds exactly when all of it was done; the bundle is undefined exactly when it stopped after linking a
   name; any other error means that it linked none. A refusal leaves no staging directory behind.
   */
  method WriteTransaction(disk: Disk, order: seq<string>, outDir: string, files: Files)
    returns (outcome: Outcome, ghost names: seq<string>, ghost done: seq<Event>, ghost begun: nat, ghost torn: bool)
    requires NoRepeats(order) && disk.secret !in order
    requires disk.Valid() && disk.effects == [] && disk.held == map[]
    modifies disk
    ensures names == Ordered(order, files) && Requested(names, files)
    ensures !Allowed(order, files) ==> outcome == Refused
    ensures !Allowed(order, files) || names == [] ==>
              disk.log == [] && done == [] && (outcome == Done || outcome == Refused)
    ensures Allowed(order, files) && names != [] ==>
              Explains(outcome, done, Complete(disk.secret, old(disk.next), names, files))
    ensures outcome.Done? || outcome.Refused? ==> (disk.secret in disk.output <==> disk.secret in old(disk.output))
    ensures Unhindered(disk.faults, old(disk.calls), disk.calls, disk.others, old(disk.output), names)
            && Allowed(order, files) && outDir != "" && !HasParent(outDir) && disk.secret !in old(disk.output) ==>
              outcome.Done?
    ensures outDir == "" || HasParent(outDir) ==> outcome.Refused? && disk.log == []
    ensures CarriedOut(outcome, done, disk.log, disk.contents, disk.secret, old(disk.next), names, files)
    ensures CleanupTold(outcome, done, torn, disk.faults, begun, disk.calls)
    ensures old(disk.calls) <= begun <= disk.calls
    ensures disk.Valid() && Harmless(old(disk.output), disk.output, disk.log, disk.effects, disk.secret, names)
  {
    names, done := Ordered(order, files), [];
    OrderedNames(order, files);
    assert forall i :: 0 <= i < |names| ==> names[i] in names;
    outcome, done, begun, torn := Checked(disk, order, outDir, names, files);
    LogStaysInside(disk.log, done, disk.secret, old(disk.next), names, files);
    RunIsHarmless(disk.Now(), disk.log, disk.effects, disk.origin, disk.secret, disk.others, names);
  }

  /** The checks in front of the publication, and the publication. */
  method Checked(disk: Disk, order: seq<string>, outDir: string, ghost names: seq<string>, files: Files)
    returns (outcome: Outcome, ghost done: seq<Event>, ghost begun: nat, ghost torn: bool)
    requires NoRepeats(order) && disk.secret !in order && names == Ordered(order, files)
    requires Requested(names, files) && NoRepeats(names) && disk.secret !in names
    requires disk.Valid() && disk.log == [] && disk.held == map[]
    modifies disk
    ensures !Allowed(order, files) ==> outcome == Refused
    ensures !Allowed(order, files) || names == [] ==>
              disk.log == [] && done == [] && (outcome == Done || outcome == Refused)
    ensures Allowed(order, files) && names != [] ==>
              Explains(outcome, done, Complete(disk.secret, old(disk.next), names, files))
    ensures outcome.Done? || outcome.Refused? ==> (disk.secret in disk.output <==> disk.secret in old(disk.output))
    ensures Unhindered(disk.faults, old(disk.calls), disk.calls, disk.others, old(disk.output), names)
            && Allowed(order, files) && outDir != "" && !HasParent(outDir) && disk.secret !in old(disk.output) ==>
              outcome.Done?
    ensures outDir == "" || HasParent(outDir) ==> outcome.Refused? && disk.log == []
    ensures CarriedOut(outcome, done, disk.log, disk.contents, disk.secret, old(disk.next), names, files)
    ensures CleanupTold(outcome, done, torn, disk.faults, begun, disk.calls)
    ensures old(disk.calls) <= begun <= disk.calls
    ensures disk.Valid() && (disk.log != [] ==> old(disk.secret !in disk.output))
  {
    done, begun, torn := [], disk.calls, false;
    var valid := ValidateOutputNames(order, files);
    if valid.None? || outDir == "" {
      return Refused, done, begun, torn;
    }
    var parent := Traverses(outDir);
    if parent {
      return Refused, done, begun, torn;
    }
    var ready := disk.OpenDir();
    if !ready {
      return Refused, done, begun, torn;
    }
    if valid.value == [] {
      return Done, done, begun, torn;
    }
    outcome, done, begun, torn := Publication(disk, order, valid.value, files);
  }

  /**
   What a call means for the output directory: no change by it replaces an entry or removes one, except for its own
   staging directory, and every entry that no other process touches is accounted for at the end.
   */
  ghost predicate Harmless(before: map<string, Entry>, after: map<string, Entry>, log: seq<Event>, effects: seq<Effect>,
                           secret: string, names: seq<string>) {
    && AllGentle(effects, secret, names)
    && forall name :: name != secret && Undisturbed(effects, name) ==> Accounted(before, after, log, name)
  }

  lemma RunIsHarmless(now: World, log: seq<Event>, effects: seq<Effect>, origin: World, secret: string, others: Others,
                      names: seq<string>)
    requires Explained(now, log, effects, origin, secret, others) && Inside(log, secret, names)
    requires secret !in names && (log == [] || secret !in origin.output)
    ensures Harmless(origin.output, now.output, log, effects, secret, names)
  {
    OwnIsGentle(effects, origin, secret, others, names);
    InsideLog(effects, secret, names);
    forall name | name != secret && Undisturbed(effects, name) ensures Accounted(origin.output, now.output, log, name) {
      assert effects[..|effects|] == effects;
      UntouchedStays(effects, origin, secret, others, names, name, |effects|);
    }
  }

  lemma EventIsInside(secret: string, base: nat, names: seq<string>, files: Files, k: nat)
    requires Requested(names, files) && k < 5 * |names| + 4
    ensures InsideEvent(EventAt(secret, base, names, files, k), secret, names)
  {
  }

  lemma LogStaysInside(log: seq<Event>, done: seq<Event>, secret: string, base: nat, names: seq<string>, files: Files)
    requires Requested(names, files) && done <= log && done <= Complete(secret, base, names, files)
    requires OnlyCleanup(log, done, secret, base, names)
    ensures Inside(log, secret, names)
  {
    forall k | 0 <= k < |log| ensures InsideEvent(log[k], secret, names) {
      if k < |done| {
        assert log[k] == Complete(secret, base, names, files)[k];
        EventIsInside(secret, base, names, files, k);
      }
    }
  }

  lemma OutputOrderHasNoRepeats()
    ensures NoRepeats(OUTPUT_ORDER)
  {
  }

  /** The final name is an entry made by the call, and its file holds exactly these bytes, synced. */
  ghost predicate Delivered(disk: Disk, name: string, bytes: string)
    reads disk
  {
    && name in disk.output && disk.output[name].Published?
    && HoldsSynced(disk.contents, disk.output[name].inode, bytes)
  }

  lemma LinkedOnce(secret: string, base: nat, names: seq<string>, files: Files, i: nat)
    requires Requested(names, files) && i < |names|
    ensures Link(names[i], base + i) in Complete(secret, base, names, files)
  {
    PublishEvents(secret, base, names, files, i);
    assert Complete(secret, base, names, files)[3 * |names| + 1 + 2 * i] == Link(names[i], base + i);
  }

  lemma DoneIsDelivered(disk: Disk, before: map<string, Entry>, base: nat, names: seq<string>, files: Files, name: string)
    requires Requested(names, files) && disk.log == Complete(disk.secret, base, names, files)
    requires Durable(disk.contents, base, names, files, |names|)
    requires name in names && Accounted(before, disk.output, disk.log, name)
    ensures Delivered(disk, name, files[name])
  {
    var i :| 0 <= i < |names| && names[i] == name;
    LinkedOnce(disk.secret, base, names, files, i);
    assert HoldsSynced(disk.contents, base + i, files[names[i]]);
  }

  /**
   `writeTransaction`: the production order. On success exactly the requested names were linked, each once, and
   each is on disk with its exact synced bytes unless another process took it away.
   */
  method WriteOutputs(disk: Disk, outDir: string, files: Files)
    returns (outcome: Outcome, ghost names: seq<string>, ghost done: seq<Event>)
    requires disk.secret !in OUTPUT_ORDER && disk.Valid() && disk.effects == [] && disk.held == map[]
    modifies disk
    ensures Requested(names, files) && (Allowed(OUTPUT_ORDER, files) && names != [] ==>
              Explains(outcome, done, Complete(disk.secret, old(disk.next), names, files)))
    ensures outcome.Done? ==> NoRepeats(Linked(disk.log)) && forall name :: name in Linked(disk.log) <==> name in files
    ensures outcome.Done? ==> forall name :: name in files && name != disk.secret && Undisturbed(disk.effects, name) ==>
                                Delivered(disk, name, files[name])
    ensures outcome.Refused? || outcome.CleanupFailed? ==> Linked(done) == []
    ensures Unhindered(disk.faults, old(disk.calls), disk.calls, disk.others, old(disk.output), names)
            && Allowed(OUTPUT_ORDER, files) && outDir != "" && !HasParent(outDir) && disk.secret !in old(disk.output) ==>
              outcome.Done?
    ensures outDir == "" || HasParent(outDir) ==> outcome.Refused? && disk.log == []
    ensures disk.Valid() && Harmless(old(disk.output), disk.output, disk.log, disk.effects, disk.secret, names)
  {
    OutputOrderHasNoRepeats();
    OrderedNames(OUTPUT_ORDER, files);
    ghost var begun, torn;
    outcome, names, done, begun, torn := WriteTransaction(disk, OUTPUT_ORDER, outDir, files);
    if outcome.Done? && names != [] {
      forall name | name in files && name != disk.secret && Undisturbed(disk.effects, name)
        ensures Delivered(disk, name, files[name])
      {
        DoneIsDelivered(disk, old(disk.output), old(disk.next), names, files, name);
      }
    }
  }
}
