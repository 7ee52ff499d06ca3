/**
 The filesystem boundary of the publication transaction: one output directory, the staging directory inside it,
 and every operation the transaction uses. Any operation may fail, and another process may create, replace or
 delete entries of the output directory before every one of them; only the staging name, which it cannot guess,
 is out of its reach.
 */
module Kernel {

  /** What an output entry is: the staging directory, a file published by the call, or someone else's object. */
  datatype Entry = StagingDir | Published(inode: nat) | Foreign(emptyDir: bool)

  datatype Content = Content(bytes: string, synced: bool)

  /** The effective operations of a call, in order; an operation that fails without effect is not an event. */
  datatype Event =
    | Mkdir(name: string) | Create(name: string, inode: nat) | Write(inode: nat, bytes: string) | SyncFile(inode: nat)
    | Link(name: string, inode: nat) | Unlink(name: string, inode: nat) | SyncDir | Rmdir(name: string)

  /** What the operations work on: the output directory, the staging directory, and the files. */
  datatype World = World(output: map<string, Entry>, held: map<string, nat>, contents: map<nat, Content>, next: nat)

  /** Why something changed: another process, a completed operation of the call, or one of its failed writes. */
  datatype Cause = Other(turn: nat) | Own(event: Event) | Spoil(inode: nat, bytes: string)

  datatype Effect = Effect(cause: Cause, before: World, after: World)

  /** What each completed operation does; a link never replaces an entry, and only an empty directory goes away. */
  ghost predicate Performs(e: Event, w: World, v: World) {
    match e
    case Mkdir(name) => name !in w.output && v == w.(output := w.output[name := StagingDir])
    case Create(name, inode) =>
      && name !in w.held && inode == w.next
      && v == w.(held := w.held[name := inode], contents := w.contents[inode := Content("", false)], next := inode + 1)
    case Write(inode, bytes) => v == w.(contents := w.contents[inode := Content(bytes, false)])
    case SyncFile(inode) =>
      inode in w.contents && v == w.(contents := w.contents[inode := Content(w.contents[inode].bytes, true)])
    case Link(name, inode) =>
      && name in w.held && w.held[name] == inode && name !in w.output
      && v == w.(output := w.output[name := Published(inode)])
    case Unlink(name, inode) => name in w.held && w.held[name] == inode && v == w.(held := w.held - {name})
    case SyncDir => v == w
    case Rmdir(name) =>
      && name in w.output && (w.output[name] == Foreign(true) || (w.output[name] == StagingDir && w.held == map[]))
      && v == w.(output := w.output - {name})
  }

  /** What other processes may do to the directory, each time they have a turn. */
  type Others = (nat, map<string, Entry>) -> map<string, Entry>

  /** The directory after a turn of another process: anything may have changed except the entry it cannot guess. */
  function Moved(others: Others, secret: string, turn: nat, output: map<string, Entry>): (after: map<string, Entry>)
    ensures SameEntry(output, after, secret)
  {
    var entries := others(turn, output);
    var rest := map name | name in entries && name != secret :: entries[name];
    if secret in output then rest[secret := output[secret]] else rest
  }

  predicate SameEntry(a: map<string, Entry>, b: map<string, Entry>, name: string) {
    (name in a <==> name in b) && (name in a ==> a[name] == b[name])
  }

  ghost predicate Lawful(e: Effect, secret: string, others: Others) {
    match e.cause
    case Other(turn) => e.after == e.before.(output := Moved(others, secret, turn, e.before.output))
    case Own(event) => Performs(event, e.before, e.after)
    case Spoil(inode, bytes) => e.after == e.before.(contents := e.before.contents[inode := Content(bytes, false)])
  }

  ghost function Last(effects: seq<Effect>, origin: World): World {
    if effects == [] then origin else effects[|effects| - 1].after
  }

  /** The completed operations among the effects. */
  ghost function Events(effects: seq<Effect>): seq<Event> {
    if effects == [] then []
    else
      var last := effects[|effects| - 1];
      Events(effects[..|effects| - 1]) + (if last.cause.Own? then [last.cause.event] else [])
  }

  /** Each effect starts where the previous one ended and does what its cause allows. */
  ghost predicate LawfulRun(effects: seq<Effect>, origin: World, secret: string, others: Others) {
    effects == [] ||
    (var n := |effects| - 1;
     && LawfulRun(effects[..n], origin, secret, others)
     && effects[n].before == Last(effects[..n], origin) && Lawful(effects[n], secret, others))
  }

  lemma {:induction false} LawfulAt(effects: seq<Effect>, origin: World, secret: string, others: Others, i: nat)
    requires LawfulRun(effects, origin, secret, others) && i < |effects|
    ensures effects[i].before == Last(effects[..i], origin) && Lawful(effects[i], secret, others)
  {
    var n := |effects| - 1;
    if i < n {
      LawfulAt(effects[..n], origin, secret, others, i);
      assert effects[..n][..i] == effects[..i];
    }
  }

  lemma RunGrows(effects: seq<Effect>, origin: World, secret: string, others: Others, e: Effect)
    requires LawfulRun(effects, origin, secret, others)
    requires e.before == Last(effects, origin) && Lawful(e, secret, others)
    ensures LawfulRun(effects + [e], origin, secret, others) && Last(effects + [e], origin) == e.after
    ensures Events(effects + [e]) == Events(effects) + (if e.cause.Own? then [e.cause.event] else [])
  {
    assert (effects + [e])[..|effects|] == effects;
  }

  /** Nothing but the recorded effects has changed the world since the call began. */
  ghost predicate Explained(now: World, log: seq<Event>, effects: seq<Effect>, origin: World, secret: string,
                            others: Others) {
    LawfulRun(effects, origin, secret, others) && now == Last(effects, origin) && log == Events(effects)
  }

  /** Which of the calls of the transaction fail for a reason of their own. */
  type Faults = nat -> bool

  /** None of the calls from one to another has such a failure. */
  ghost predicate NoFault(faults: Faults, from: nat, to: nat) {
    forall i :: from <= i < to ==> !faults(i)
  }

  /** Other processes leave the directory alone. */
  ghost predicate Quiet(others: Others) {
    forall turn: nat, output :: others(turn, output) == output
  }

  lemma QuietMoves(others: Others, secret: string, turn: nat, output: map<string, Entry>)
    requires Quiet(others)
    ensures Moved(others, secret, turn, output) == output
  {
    assert others(turn, output) == output;
  }

  class Disk {
    var output: map<string, Entry>
    var held: map<string, nat>
    var contents: map<nat, Content>
    var next: nat
    const secret: string
    const others: Others
    const faults: Faults
    var calls: nat
    ghost const origin: World
    ghost var log: seq<Event>
    ghost var effects: seq<Effect>

    constructor (output: map<string, Entry>, secret: string, others: Others, faults: Faults)
      ensures Valid() && this.output == output && this.secret == secret
      ensures this.others == others && this.faults == faults
      ensures held == map[] && contents == map[] && next == 0 && log == [] && effects == []
    {
      this.output, this.secret, this.others, this.faults := output, secret, others, faults;
      held, contents, next, log, effects, calls := map[], map[], 0, [], [], 0;
      origin := World(output, map[], map[], 0);
    }

    ghost function Now(): World
      reads this
    {
      World(output, held, contents, next)
    }

    /** The whole state is what the effects of the call and of other processes made of the original one. */
    ghost predicate Valid()
      reads this
    {
      Explained(Now(), log, effects, origin, secret, others)
    }

    /** Records what has just happened. */
    ghost method Note(before: World, cause: Cause)
      requires Explained(before, log, effects, origin, secret, others)
      requires Lawful(Effect(cause, before, Now()), secret, others)
      modifies this`log, this`effects
      ensures Valid() && log == old(log) + (if cause.Own? then [cause.event] else [])
    {
      RunGrows(effects, origin, secret, others, Effect(cause, before, Now()));
      effects := effects + [Effect(cause, before, Now())];
      log := log + if cause.Own? then [cause.event] else [];
    }

    /** Consults the faults for one more call. */
    method Proceeds() returns (ok: bool)
      modifies this`calls
      ensures calls == old(calls) + 1 && ok == !faults(old(calls))
    {
      ok := !faults(calls);
      calls := calls + 1;
    }

    /** Whether the calls made since an earlier one have all proceeded. */
    ghost predicate Proceeded(from: nat)
      reads this`calls
    {
      from <= calls && NoFault(faults, from, calls)
    }

    /** Whatever another process does to the output directory. */
    method Interfere()
      requires Valid()
      modifies this`output, this`log, this`effects
      ensures Valid() && log == old(log) && SameEntry(old(output), output, secret)
      ensures Quiet(others) ==> output == old(output)
    {
      ghost var before := Now();
      var turn: nat := *;
      ghost var quiet := Quiet(others);
      if quiet {
        QuietMoves(others, secret, turn, output);
      }
      output := Moved(others, secret, turn, output);
      Note(before, Other(turn));
    }

    method OpenDir() returns (ok: bool)
      requires Valid()
      modifies this`output, this`log, this`effects, this`calls
      ensures Valid() && log == old(log) && SameEntry(old(output), output, secret)
      ensures old(calls) <= calls && (Proceeded(old(calls)) ==> ok)
      ensures Quiet(others) ==> output == old(output)
    {
      Interfere();
      ok := Proceeds();
    }

    /** Whether a name is absent; inspecting it may fail. */
    method IsAbsent(name: string) returns (absent: bool)
      requires Valid()
      modifies this`output, this`log, this`effects, this`calls
      ensures Valid() && log == old(log) && SameEntry(old(output), output, secret)
      ensures absent ==> name !in output
      ensures old(calls) <= calls && (Proceeded(old(calls)) ==> (absent <==> name !in output))
      ensures Quiet(others) ==> output == old(output)
    {
      Interfere();
      absent := Proceeds();
      absent := absent && name !in output;
    }

    method MkdirAt(name: string) returns (ok: bool)
      requires Valid() && name == secret
      modifies this`output, this`log, this`effects, this`calls
      ensures Valid()
      ensures ok ==> old(secret !in output) && log == old(log) + [Mkdir(name)]
      ensures ok ==> secret in output && output[secret] == StagingDir
      ensures Quiet(others) ==> output == if ok then old(output)[name := StagingDir] else old(output)
      ensures !ok ==> log == old(log) && SameEntry(old(output), output, secret)
      ensures old(calls) <= calls && (Proceeded(old(calls)) ==> (ok <==> old(secret !in output)))
    {
      Interfere();
      ok := Proceeds();
      ok := ok && name !in output;
      if ok {
        ghost var before := Now();
        output := output[name := StagingDir];
        Note(before, Own(Mkdir(name)));
      }
    }

    method OpenSubdir() returns (ok: bool)
      modifies this`calls
      ensures old(calls) <= calls && (Proceeded(old(calls)) ==> ok)
    {
      ok := Proceeds();
    }

    /** An exclusive create in the staging directory; it may fail after the file exists. */
    method CreateAt(name: string) returns (ok: bool, inode: nat)
      requires Valid()
      modifies this`held, this`contents, this`next, this`log, this`effects, this`calls
      ensures Valid()
      ensures ok ==> name !in old(held) && inode == old(next)
      ensures name in old(held) ==> !ok
      ensures if next == old(next) then
                !ok && held == old(held) && contents == old(contents) && log == old(log)
              else
                && next == old(next) + 1 && name !in old(held) && held == old(held)[name := old(next)]
                && contents == old(contents)[old(next) := Content("", false)]
                && log == old(log) + [Create(name, old(next))]
      ensures old(calls) <= calls && (Proceeded(old(calls)) ==> (ok <==> name !in old(held)))
    {
      inode := next;
      ok := Proceeds();
      if !ok || name in held {
        return false, 0;
      }
      ghost var before := Now();
      held, contents, next := held[name := inode], contents[inode := Content("", false)], next + 1;
      Note(before, Own(Create(name, inode)));
      ok := Proceeds();
    }

    /** A failed write may leave anything in the file. */
    method WriteTo(inode: nat, bytes: string) returns (ok: bool)
      requires Valid()
      modifies this`contents, this`log, this`effects, this`calls
      ensures Valid()
      ensures ok ==> contents == old(contents)[inode := Content(bytes, false)] && log == old(log) + [Write(inode, bytes)]
      ensures !ok ==> log == old(log)
      ensures old(calls) <= calls && (Proceeded(old(calls)) ==> ok)
    {
      ghost var before := Now();
      ok := Proceeds();
      if ok {
        contents := contents[inode := Content(bytes, false)];
        Note(before, Own(Write(inode, bytes)));
      } else {
        var part: string := *;
        contents := contents[inode := Content(part, false)];
        Note(before, Spoil(inode, part));
      }
    }

    method SyncFileOf(inode: nat) returns (ok: bool)
      requires Valid() && inode in contents
      modifies this`contents, this`log, this`effects, this`calls
      ensures Valid()
      ensures ok ==> contents == old(contents)[inode := Content(old(contents)[inode].bytes, true)]
      ensures ok ==> log == old(log) + [SyncFile(inode)]
      ensures !ok ==> log == old(log) && contents == old(contents)
      ensures old(calls) <= calls && (Proceeded(old(calls)) ==> ok)
    {
      ok := Proceeds();
      if ok {
        ghost var before := Now();
        contents := contents[inode := Content(contents[inode].bytes, true)];
        Note(before, Own(SyncFile(inode)));
      }
    }

    method Close() returns (ok: bool)
      modifies this`calls
      ensures old(calls) <= calls && (Proceeded(old(calls)) ==> ok)
    {
      ok := Proceeds();
    }

    /** `linkat`: the check for an existing entry and the creation of the new one are one atomic operation. */
    method LinkAt(name: string) returns (ok: bool)
      requires Valid() && name != secret
      modifies this`output, this`log, this`effects, this`calls
      ensures Valid() && SameEntry(old(output), output, secret)
      ensures ok ==> name in held && log == old(log) + [Link(name, held[name])]
      ensures ok ==> name in output && output[name] == Published(held[name])
      ensures Quiet(others) ==> output == if ok then old(output)[name := Published(held[name])] else old(output)
      ensures !ok ==> log == old(log)
      ensures old(calls) <= calls
      ensures Proceeded(old(calls)) && Quiet(others) ==> (ok <==> name in held && name !in old(output))
    {
      Interfere();
      ok := Proceeds();
      ok := ok && name in held && name !in output;
      if ok {
        ghost var before := Now();
        output := output[name := Published(held[name])];
        Note(before, Own(Link(name, held[name])));
      }
    }

    method UnlinkHeld(name: string) returns (ok: bool)
      requires Valid()
      modifies this`held, this`log, this`effects, this`calls
      ensures Valid()
      ensures ok ==> name in old(held) && held == old(held) - {name}
                     && log == old(log) + [Unlink(name, old(held)[name])]
      ensures !ok ==> held == old(held) && log == old(log)
      ensures old(calls) <= calls && (Proceeded(old(calls)) ==> (ok <==> name in old(held)))
    {
      ok := Proceeds();
      ok := ok && name in held;
      if ok {
        ghost var before := Now();
        ghost var inode := held[name];
        held := held - {name};
        Note(before, Own(Unlink(name, inode)));
      }
    }

    /** Only an empty directory can be removed. */
    method RmdirAt(name: string) returns (ok: bool)
      requires Valid()
      modifies this`output, this`log, this`effects, this`calls
      ensures Valid()
      ensures ok && name == secret ==> name !in output
      ensures Quiet(others) ==> output == if ok then old(output) - {name} else old(output)
      ensures ok ==> log == old(log) + [Rmdir(name)]
      ensures ok && name == secret ==> secret in old(output) && !old(output)[secret].Published?
      ensures ok && name == secret && old(output)[secret].StagingDir? ==> held == map[]
      ensures !ok ==> log == old(log) && SameEntry(old(output), output, secret)
      ensures old(calls) <= calls
      ensures Proceeded(old(calls)) && name == secret && secret in old(output) && old(output)[secret].StagingDir?
              && held == map[] ==>
                ok
    {
      Interfere();
      ok := Proceeds();
      ok := ok && name in output && (output[name] == Foreign(true) || (output[name] == StagingDir && held == map[]));
      if ok {
        ghost var before := Now();
        output := output - {name};
        Note(before, Own(Rmdir(name)));
      }
    }

    method SyncDirectory() returns (ok: bool)
      requires Valid()
      modifies this`output, this`log, this`effects, this`calls
      ensures Valid() && SameEntry(old(output), output, secret)
      ensures log == if ok then old(log) + [SyncDir] else old(log)
      ensures old(calls) <= calls && (Proceeded(old(calls)) ==> ok)
      ensures Quiet(others) ==> output == old(output)
    {
      Interfere();
      ok := Proceeds();
      if ok {
        Note(Now(), Own(SyncDir));
      }
    }

    // ---- `publishLinux` and `removeIfSameAtLinux` ----

    /** Links the final name, then drops the staged link; the two results are reported separately. */
    method Publish(name: string) returns (linked: bool, ok: bool)
      requires Valid() && name != secret
      modifies this`output, this`held, this`log, this`effects, this`calls
      ensures Valid() && SameEntry(old(output), output, secret)
      ensures ok ==> linked
      ensures linked ==> name in old(held) && name in output && output[name] == Published(old(held)[name])
      ensures log == old(log) + (if linked then [Link(name, old(held)[name])] else [])
                              + (if ok then [Unlink(name, old(held)[name])] else [])
      ensures held == if ok then old(held) - {name} else old(held)
      ensures Quiet(others) ==> output == if linked then old(output)[name := Published(old(held)[name])] else old(output)
      ensures old(calls) <= calls
      ensures Proceeded(old(calls)) && Quiet(others) ==> (ok <==> name in old(held) && name !in old(output))
    {
      linked := LinkAt(name);
      if !linked {
        return false, false;
      }
      ok := UnlinkHeld(name);
    }

    /** Removes a staged file only while it is the one this call created; an absent one is fine. */
    method RemoveIfSame(name: string, want: nat) returns (ok: bool)
      requires Valid()
      modifies this`held, this`log, this`effects, this`calls
      ensures Valid()
      ensures held == old(held) || (name in old(held) && old(held)[name] == want && held == old(held) - {name})
      ensures log == old(log) + (if held == old(held) then [] else [Unlink(name, want)])
      ensures ok ==> name !in held
      ensures old(calls) <= calls && (Proceeded(old(calls)) ==> (ok <==> name !in old(held) || old(held)[name] == want))
    {
      ok := Proceeds();
      if !ok {
        return;
      }
      if name !in held {
        return true;
      }
      if held[name] != want {
        return false;
      }
      ok := UnlinkHeld(name);
    }
  }
}
