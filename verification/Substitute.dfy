/** The two substitution phases: config values first, credentials second, and the one substitution they amount to. */
module Substitute {
  import opened Wrappers
  import opened Text
  import opened Template
  import opened YamlScalar

  datatype Kind = StringKind | SecretKind | NumberKind | AddressKind

  /** The placeholder schema, the bounds of numbers, forbidden fragments, and what counts as a network address. */
  datatype Rules = Rules(
    schema: map<string, Kind>, bounds: map<string, (int, int)>, banned: seq<string>, address: string -> bool)

  const CONFIG_NAMES: seq<(string, Kind)> := [
    ("MIXED_PORT", NumberKind), ("BIND_ADDRESS", AddressKind), ("CONTROLLER_LISTEN", AddressKind),
    ("GATEWAY_EGRESS_USER", StringKind), ("EGRESS_SERVER", AddressKind), ("EGRESS_PORT", NumberKind),
    ("EGRESS_SNI", StringKind), ("LISTEN", AddressKind), ("LISTEN_ADDRESS", AddressKind), ("PORT", NumberKind),
    ("SNI", StringKind), ("GATEWAY_NODE_USER", StringKind), ("MAX_USERS", NumberKind)]

  const SECRET_NAMES: seq<(string, Kind)> := [
    ("GATEWAY_EGRESS_AUTH", SecretKind), ("GATEWAY_EGRESS_PASSWORD_1", SecretKind),
    ("GATEWAY_NODE_PASSWORD_1", SecretKind), ("TROJAN_USER_1", SecretKind), ("TROJAN_PASSWORD_1", SecretKind),
    ("HTTPS_USER_1", SecretKind), ("HTTPS_PASSWORD_1", SecretKind), ("HTTPS_USER_2", SecretKind),
    ("HTTPS_PASSWORD_2", SecretKind)]

  function Table(entries: seq<(string, Kind)>): map<string, Kind> {
    if entries == [] then map[] else Table(entries[1..])[entries[0].0 := entries[0].1]
  }

  /** `placeholderSchema`. */
  function Schema(): map<string, Kind> { Table(CONFIG_NAMES + SECRET_NAMES) }

  const BOUNDS: map<string, (int, int)> := map[
    "MIXED_PORT" := (1, 65535), "PORT" := (1, 65535), "EGRESS_PORT" := (1, 65535), "MAX_USERS" := (1, 100000)]

  const BANNED := ["{{", "}}", "{%", "skip-cert-verify", "insecure: true", "DIRECT"]

  ghost predicate PlainSchema(schema: map<string, Kind>) {
    forall name :: name in schema ==> PlainName(name)
  }

  ghost predicate PlainEntries(entries: seq<(string, Kind)>) {
    forall i :: 0 <= i < |entries| ==> PlainName(entries[i].0)
  }

  lemma {:induction false} TableIsPlain(entries: seq<(string, Kind)>)
    requires PlainEntries(entries)
    ensures PlainSchema(Table(entries))
  {
    if entries != [] {
      TableIsPlain(entries[1..]);
    }
  }

  lemma ConfigNamesArePlain()
    ensures PlainEntries(CONFIG_NAMES)
  {
    assert PlainName("MIXED_PORT") && PlainName("BIND_ADDRESS") && PlainName("CONTROLLER_LISTEN");
    assert PlainName("GATEWAY_EGRESS_USER") && PlainName("EGRESS_SERVER") && PlainName("EGRESS_PORT");
    assert PlainName("EGRESS_SNI") && PlainName("LISTEN") && PlainName("LISTEN_ADDRESS") && PlainName("PORT");
    assert PlainName("SNI") && PlainName("GATEWAY_NODE_USER") && PlainName("MAX_USERS");
  }

  lemma SecretNamesArePlain()
    ensures PlainEntries(SECRET_NAMES)
  {
    assert PlainName("GATEWAY_EGRESS_AUTH") && PlainName("GATEWAY_EGRESS_PASSWORD_1");
    assert PlainName("GATEWAY_NODE_PASSWORD_1") && PlainName("TROJAN_USER_1") && PlainName("TROJAN_PASSWORD_1");
    assert PlainName("HTTPS_USER_1") && PlainName("HTTPS_PASSWORD_1");
    assert PlainName("HTTPS_USER_2") && PlainName("HTTPS_PASSWORD_2");
  }

  lemma EntriesAppend(a: seq<(string, Kind)>, b: seq<(string, Kind)>)
    requires PlainEntries(a) && PlainEntries(b)
    ensures PlainSchema(Table(a + b))
  {
    assert PlainEntries(a + b);
    TableIsPlain(a + b);
  }

  lemma SchemaIsPlain()
    ensures PlainSchema(Schema())
  {
    ConfigNamesArePlain();
    SecretNamesArePlain();
    EntriesAppend(CONFIG_NAMES, SECRET_NAMES);
  }

  datatype Error =
    | Forbidden | Unterminated | UnknownPlaceholder | NoConfigValue
    | LineBreak | Fragment | NotANumber | OutOfRange | NotAnAddress
    | SurvivedConfigPhase | ContextUnavailable | InvalidUser | NoCredential | EmptyCredential
    | NoValueAfterSubstitution | UnterminatedAfterSubstitution

  datatype Result<+T> = Ok(value: T) | Err(error: Error)

  // ---- validating the template ----

  predicate Contains(s: string, sub: string) { Index(s, sub) >= 0 }

  predicate ContainsAny(s: string, subs: seq<string>) {
    exists i :: 0 <= i < |subs| && Contains(s, subs[i])
  }

  method FindAny(s: string, subs: seq<string>) returns (found: bool)
    ensures found == ContainsAny(s, subs)
  {
    for i := 0 to |subs|
      invariant forall j :: 0 <= j < i ==> !Contains(s, subs[j])
    {
      if Contains(s, subs[i]) {
        return true;
      }
    }
    return false;
  }

  /** `validateTemplate`. */
  predicate Accepted(rules: Rules, tmpl: string) {
    && !ContainsAny(tmpl, rules.banned)
    && !Dangling(tmpl)
    && Declared(rules, Vars(tmpl))
  }

  predicate Declared(rules: Rules, names: seq<string>) {
    forall i :: 0 <= i < |names| ==> names[i] in rules.schema
  }

  method AllDeclared(rules: Rules, names: seq<string>) returns (declared: bool)
    ensures declared == Declared(rules, names)
  {
    for i := 0 to |names|
      invariant forall j :: 0 <= j < i ==> names[j] in rules.schema
    {
      if names[i] !in rules.schema {
        return false;
      }
    }
    return true;
  }

  method ValidateTemplate(rules: Rules, tmpl: string) returns (error: Option<Error>)
    ensures error.None? <==> Accepted(rules, tmpl)
  {
    var forbidden := FindAny(tmpl, rules.banned);
    if forbidden {
      return Some(Forbidden);
    }
    var dangling := ContainsDangling(tmpl);
    if dangling {
      return Some(Unterminated);
    }
    var names := TemplateVars(tmpl);
    var declared := AllDeclared(rules, names);
    if !declared {
      return Some(UnknownPlaceholder);
    }
    return None;
  }

  // ---- emitting a value ----

  predicate HasControl(v: string) {
    exists i :: 0 <= i < |v| && YamlControl(v[i])
  }

  /** `rejectUnsafeValue`. */
  function RejectUnsafe(v: string): Option<Error> {
    if HasControl(v) then Some(LineBreak)
    else if Contains(v, OPEN) then Some(Fragment)
    else None
  }

  predicate UnsignedDecimal(v: string) {
    v != "" && forall i :: 0 <= i < |v| ==> '0' <= v[i] <= '9'
  }

  function Decimal(v: string): nat
    requires forall i :: 0 <= i < |v| ==> '0' <= v[i] <= '9'
  {
    if v == "" then 0 else Decimal(v[..|v| - 1]) * 10 + (v[|v| - 1] as int - '0' as int)
  }

  /** `emit`: numbers raw, everything else quoted. */
  function Emit(rules: Rules, name: string, kind: Kind, v: string): Result<string> {
    if RejectUnsafe(v).Some? then Err(RejectUnsafe(v).value)
    else match kind
      case NumberKind =>
        if !UnsignedDecimal(v) then Err(NotANumber)
        else if name in rules.bounds && !(rules.bounds[name].0 <= Decimal(v) <= rules.bounds[name].1) then Err(OutOfRange)
        else Ok(v)
      case AddressKind => if rules.address(v) then Ok(Quoted(v)) else Err(NotAnAddress)
      case _ => Ok(Quoted(v))
  }

  lemma {:induction false} EscapeKeepsNoOpen(v: string, k: nat)
    requires NoOpen(v)
    ensures !Occurs(EscapeAll(v), OPEN, k)
  {
    if v != "" {
      var first, rest := Escape(v[0]), EscapeAll(v[1..]);
      forall j | 0 <= j ensures !Occurs(v[1..], OPEN, j) {
        assert v == [v[0]] + v[1..];
        OccursInSuffix([v[0]], v[1..], OPEN, j + 1);
      }
      if k >= |first| {
        OccursInSuffix(first, rest, OPEN, k);
        EscapeKeepsNoOpen(v[1..], k - |first|);
      } else if Occurs(first + rest, OPEN, k) {
        EscapeOpens(v, k);
      }
    }
  }

  /** Escapes hold neither a dollar sign nor a brace. */
  lemma EscapeIsPlain(c: char, i: nat)
    requires i < |Escape(c)| && (Escape(c)[i] == '$' || Escape(c)[i] == '{')
    ensures Escape(c) == [c]
  {
    if Separator(c) {
      HexIsPlain(c as int / 256);
      HexIsPlain(c as int % 256);
    } else if Control(c) && |Escape(c)| == 4 {
      HexIsPlain(c as int);
    }
  }

  lemma EscapeOpens(v: string, k: nat)
    requires v != "" && k < |Escape(v[0])| && Occurs(EscapeAll(v), OPEN, k)
    ensures Occurs(v, OPEN, 0)
  {
    var first, rest := Escape(v[0]), EscapeAll(v[1..]);
    OccursChar(EscapeAll(v), OPEN, k, k);
    OccursChar(EscapeAll(v), OPEN, k, k + 1);
    assert first[k] == '$';
    EscapeIsPlain(v[0], k);
    assert rest[0] == '{';
    FirstBrace(v[1..]);
    assert v[0..2] == OPEN;
  }

  lemma FirstBrace(v: string)
    requires EscapeAll(v) != "" && EscapeAll(v)[0] == '{'
    ensures v != "" && v[0] == '{'
  {
    assert v != "";
    EscapeIsPlain(v[0], 0);
  }

  lemma QuotedIsSafe(v: string)
    requires NoOpen(v)
    ensures Safe(Quoted(v))
  {
    var body, s := EscapeAll(v), Quoted(v);
    forall k | 0 <= k ensures !Occurs(s, OPEN, k) {
      if Occurs(s, OPEN, k) {
        OccursChar(s, OPEN, k, k);
        OccursChar(s, OPEN, k, k + 1);
        assert s == "\"" + (body + "\"");
        OccursInSuffix("\"", body + "\"", OPEN, k);
        OccursInPrefix(body, "\"", OPEN, k - 1);
        EscapeKeepsNoOpen(v, k - 1);
      }
    }
  }

  lemma NumberIsSafe(v: string)
    requires UnsignedDecimal(v)
    ensures Safe(v)
  {
    forall k | 0 <= k ensures !Occurs(v, OPEN, k) {
      if Occurs(v, OPEN, k) {
        OccursChar(v, OPEN, k, k);
      }
    }
  }

  lemma UnopenedText(v: string)
    requires !Contains(v, OPEN)
    ensures NoOpen(v)
  {
    assert Index(v, OPEN) == -1;
  }

  /** Whatever is emitted can be put anywhere in a template. */
  lemma EmitIsSafe(rules: Rules, name: string, kind: Kind, v: string)
    requires Emit(rules, name, kind, v).Ok?
    ensures Safe(Emit(rules, name, kind, v).value)
  {
    UnopenedText(v);
    if kind.NumberKind? {
      NumberIsSafe(v);
    } else {
      QuotedIsSafe(v);
    }
  }

  // ---- the value of a name in either phase ----

  /** What a phase may draw on. */
  datatype Phase =
    | ConfigPhase(values: map<string, string>)
    | CredentialPhase(document: Option<map<string, string>>, secrets: map<string, string>)

  predicate HysteriaUser(v: string) {
    && 1 <= |v| <= 64
    && forall i :: 0 <= i < |v| ==>
         'a' <= v[i] <= 'z' || 'A' <= v[i] <= 'Z' || '0' <= v[i] <= '9' || v[i] == '.' || v[i] == '_' || v[i] == '-'
  }

  const AUTH := "GATEWAY_EGRESS_AUTH"
  const AUTH_PASSWORD := "GATEWAY_EGRESS_PASSWORD_1"
  const AUTH_USER := "gateway-egress-user"

  function Find(m: map<string, string>, key: string): Option<string> {
    if key in m then Some(m[key]) else None
  }

  /** The derived user:password credential. */
  function DerivedAuth(document: Option<map<string, string>>, secrets: map<string, string>): Result<Option<string>> {
    if document.None? then Err(ContextUnavailable)
    else
      var user, password := Find(document.value, AUTH_USER), Find(secrets, AUTH_PASSWORD);
      if user.Some? && !HysteriaUser(user.value) then Err(InvalidUser)
      else if user.Some? && password.Some? then Ok(Some(user.value + ":" + password.value))
      else Ok(None)
  }

  function Credential(document: Option<map<string, string>>, secrets: map<string, string>, name: string): Result<string> {
    var found := if name == AUTH then DerivedAuth(document, secrets) else Ok(Find(secrets, name));
    match found
    case Err(error) => Err(error)
    case Ok(None) => Err(NoCredential)
    case Ok(Some(v)) =>
      if v == "" then Err(EmptyCredential)
      else if RejectUnsafe(v).Some? then Err(RejectUnsafe(v).value)
      else Ok(Quoted(v))
  }

  function ConfigValue(rules: Rules, values: map<string, string>, name: string, kind: Kind): Result<string> {
    if name !in values then Err(NoConfigValue) else Emit(rules, name, kind, values[name])
  }

  /** What a phase puts in place of a name; nothing when it leaves the name to the other phase. */
  function Lookup(rules: Rules, phase: Phase, name: string): Result<Option<string>> {
    if name !in rules.schema then Err(UnknownPlaceholder)
    else
      var kind := rules.schema[name];
      match phase
      case ConfigPhase(values) =>
        if kind.SecretKind? then Ok(None)
        else (match ConfigValue(rules, values, name, kind)
              case Err(error) => Err(error)
              case Ok(e) => Ok(Some(e)))
      case CredentialPhase(document, secrets) =>
        if !kind.SecretKind? then Err(SurvivedConfigPhase)
        else (match Credential(document, secrets, name)
              case Err(error) => Err(error)
              case Ok(e) => Ok(Some(e)))
  }

  lemma LookupIsSafe(rules: Rules, phase: Phase, name: string)
    requires Lookup(rules, phase, name).Ok? && Lookup(rules, phase, name).value.Some?
    ensures Safe(Lookup(rules, phase, name).value.value)
  {
    match phase
    case ConfigPhase(values) => EmitIsSafe(rules, name, rules.schema[name], values[name]);
    case CredentialPhase(document, secrets) =>
      var v := if name == AUTH then DerivedAuth(document, secrets).value.value else secrets[name];
      UnopenedText(v);
      QuotedIsSafe(v);
  }

  // ---- one phase ----

  /** The values a phase finds for a list of names, or the error of the first name without one. */
  function Resolve(rules: Rules, phase: Phase, names: seq<string>): Result<map<string, string>> {
    if names == [] then Ok(map[])
    else match Lookup(rules, phase, names[0])
      case Err(error) => Err(error)
      case Ok(found) =>
        match Resolve(rules, phase, names[1..])
        case Err(error) => Err(error)
        case Ok(g) => Ok(if found.None? then g else g[names[0] := found.value])
  }

  /** The loop of a phase: replace all occurrences of one name after the other. */
  function Rewrite(rules: Rules, phase: Phase, names: seq<string>, out: string): Result<string> {
    if names == [] then Ok(out)
    else match Lookup(rules, phase, names[0])
      case Err(error) => Err(error)
      case Ok(None) => Rewrite(rules, phase, names[1..], out)
      case Ok(Some(e)) => Rewrite(rules, phase, names[1..], Replaced(out, Ref(names[0]), e))
  }

  /** A phase finds for a name what is already filled in for it. */
  ghost predicate Consistent(rules: Rules, phase: Phase, names: seq<string>, f: map<string, string>) {
    forall i :: 0 <= i < |names| && names[i] in f ==> Lookup(rules, phase, names[i]) == Ok(Some(f[names[i]]))
  }

  lemma {:induction false} ResolveFinds(rules: Rules, phase: Phase, names: seq<string>)
    ensures Resolve(rules, phase, names).Ok? <==>
              forall i :: 0 <= i < |names| ==> Lookup(rules, phase, names[i]).Ok?
    ensures Resolve(rules, phase, names).Ok? ==>
              forall name :: name in Resolve(rules, phase, names).value <==>
                name in names && Lookup(rules, phase, name).Ok? && Lookup(rules, phase, name).value.Some?
    ensures Resolve(rules, phase, names).Ok? ==>
              forall name :: name in Resolve(rules, phase, names).value ==>
                Lookup(rules, phase, name) == Ok(Some(Resolve(rules, phase, names).value[name]))
  {
    if names != [] {
      ResolveFinds(rules, phase, names[1..]);
      assert names == [names[0]] + names[1..];
    }
  }

  /** The sequential loop is one simultaneous filling-in of everything the phase finds, with the same error. */
  lemma {:induction false} RewriteIsFill(rules: Rules, phase: Phase, t: Template, f: map<string, string>,
                                         names: seq<string>)
    requires WellFormed(t) && AllSafe(f) && AllPlain(names) && Consistent(rules, phase, names, f)
    ensures var found := Resolve(rules, phase, names);
            && (found.Err? ==> Rewrite(rules, phase, names, Fill(t, f)) == Err(found.error))
            && (found.Ok? ==> Rewrite(rules, phase, names, Fill(t, f)) == Ok(Fill(t, f + found.value)))
    decreases |names|
  {
    if names == [] {
      assert f + map[] == f;
    } else {
      var name, rest := names[0], names[1..];
      match Lookup(rules, phase, name)
      case Err(_) =>
      case Ok(None) => RewriteIsFill(rules, phase, t, f, rest);
      case Ok(Some(e)) =>
        Extend(rules, phase, names, f, e);
        ReplaceIsFill(t, f, name, e);
        RewriteIsFill(rules, phase, t, f[name := e], rest);
        if Resolve(rules, phase, rest).Ok? {
          Merge(rules, phase, rest, f, name, e);
        }
    }
  }

  lemma Extend(rules: Rules, phase: Phase, names: seq<string>, f: map<string, string>, e: string)
    requires names != [] && AllSafe(f) && Consistent(rules, phase, names, f)
    requires Lookup(rules, phase, names[0]) == Ok(Some(e))
    ensures AllSafe(f[names[0] := e]) && Consistent(rules, phase, names[1..], f[names[0] := e])
    ensures names[0] in f ==> f[names[0]] == e
  {
    LookupIsSafe(rules, phase, names[0]);
  }

  lemma Merge(rules: Rules, phase: Phase, rest: seq<string>, f: map<string, string>, name: string, e: string)
    requires Resolve(rules, phase, rest).Ok? && Lookup(rules, phase, name) == Ok(Some(e))
    ensures var g := Resolve(rules, phase, rest).value; f[name := e] + g == f + g[name := e]
  {
    ResolveFinds(rules, phase, rest);
  }

  // ---- both phases ----

  function Substituted(rules: Rules, values: map<string, string>, tmpl: string): Result<string> {
    Rewrite(rules, ConfigPhase(values), Vars(tmpl), tmpl)
  }

  /** The credential phase with its checks on what is left. */
  function Completed(rules: Rules, document: Option<map<string, string>>, secrets: map<string, string>, tmpl: string)
    : Result<string>
  {
    match Rewrite(rules, CredentialPhase(document, secrets), Vars(tmpl), tmpl)
    case Err(error) => Err(error)
    case Ok(out) =>
      if Vars(out) != [] then Err(NoValueAfterSubstitution)
      else if Dangling(out) then Err(UnterminatedAfterSubstitution)
      else Ok(out)
  }

  datatype Sources = Sources(
    values: map<string, string>, document: Option<map<string, string>>, secrets: map<string, string>)

  function Rendered(rules: Rules, from: Sources, tmpl: string): Result<string> {
    match Substituted(rules, from.values, tmpl)
    case Err(error) => Err(error)
    case Ok(middle) => Completed(rules, from.document, from.secrets, middle)
  }

  /** The value of a declared name, whichever phase it belongs to. */
  function ValueOf(rules: Rules, from: Sources, name: string): Result<string>
    requires name in rules.schema
  {
    if rules.schema[name].SecretKind? then Credential(from.document, from.secrets, name)
    else ConfigValue(rules, from.values, name, rules.schema[name])
  }

  lemma NamesArePlain(rules: Rules, names: seq<string>)
    requires PlainSchema(rules.schema) && forall i :: 0 <= i < |names| ==> names[i] in rules.schema
    ensures AllPlain(names)
  {
  }

  /** The config phase is one filling-in of the names that are not credentials. */
  lemma ConfigPhaseFills(rules: Rules, values: map<string, string>, tmpl: string)
    requires PlainSchema(rules.schema) && Accepted(rules, tmpl)
    ensures WellFormed(Parse(tmpl))
    ensures var found := Resolve(rules, ConfigPhase(values), Vars(tmpl));
            && (found.Err? ==> Substituted(rules, values, tmpl) == Err(found.error))
            && (found.Ok? ==> AllSafe(found.value)
                              && Substituted(rules, values, tmpl) == Ok(Fill(Parse(tmpl), found.value)))
  {
    NamesArePlain(rules, Vars(tmpl));
    ParseWellFormed(tmpl);
    ParsePrints(tmpl);
    FillNothing(Parse(tmpl));
    RewriteIsFill(rules, ConfigPhase(values), Parse(tmpl), map[], Vars(tmpl));
    var found := Resolve(rules, ConfigPhase(values), Vars(tmpl));
    if found.Ok? {
      assert map[] + found.value == found.value;
      ResolvedIsSafe(rules, ConfigPhase(values), Vars(tmpl));
    }
  }

  lemma ResolvedIsSafe(rules: Rules, phase: Phase, names: seq<string>)
    requires Resolve(rules, phase, names).Ok?
    ensures AllSafe(Resolve(rules, phase, names).value)
  {
    ResolveFinds(rules, phase, names);
    var f := Resolve(rules, phase, names).value;
    forall name | name in f ensures Safe(f[name]) {
      LookupIsSafe(rules, phase, name);
    }
  }

  /** The credential phase fills in everything that is left, so none of the checks behind it can fail. */
  lemma CredentialPhaseFills(rules: Rules, document: Option<map<string, string>>, secrets: map<string, string>,
                             t: Template, f: map<string, string>)
    requires WellFormed(t) && AllSafe(f) && AllPlain(Unfilled(t, f))
    requires forall i :: 0 <= i < |Unfilled(t, f)| ==>
               Unfilled(t, f)[i] in rules.schema && rules.schema[Unfilled(t, f)[i]].SecretKind?
    ensures var found := Resolve(rules, CredentialPhase(document, secrets), Unfilled(t, f));
            && (found.Err? ==> Completed(rules, document, secrets, Fill(t, f)) == Err(found.error))
            && (found.Ok? ==> Completed(rules, document, secrets, Fill(t, f)) == Ok(Fill(t, f + found.value))
                              && NoOpen(Fill(t, f + found.value)) && Unfilled(t, f + found.value) == [])
  {
    var phase, names := CredentialPhase(document, secrets), Unfilled(t, f);
    FillVars(t, f);
    UnfilledAre(t, f);
    RewriteIsFill(rules, phase, t, f, names);
    if Resolve(rules, phase, names).Ok? {
      var g := Resolve(rules, phase, names).value;
      ResolvedIsSafe(rules, phase, names);
      AllResolved(rules, document, secrets, names);
      NothingUnfilled(t, f, g);
      assert AllSafe(f + g);
      FillVars(t, f + g);
      FilledHasNoOpen(t, f + g);
    }
  }

  lemma AllResolved(rules: Rules, document: Option<map<string, string>>, secrets: map<string, string>, names: seq<string>)
    requires Resolve(rules, CredentialPhase(document, secrets), names).Ok?
    ensures forall i :: 0 <= i < |names| ==> names[i] in Resolve(rules, CredentialPhase(document, secrets), names).value
  {
    ResolveFinds(rules, CredentialPhase(document, secrets), names);
  }

  lemma {:induction false} NothingUnfilled(t: Template, f: map<string, string>, g: map<string, string>)
    requires forall i :: 0 <= i < |Unfilled(t, f)| ==> Unfilled(t, f)[i] in g
    ensures Unfilled(t, f + g) == []
  {
    match t
    case Literal(_) =>
    case Token(_, name, rest) =>
      var first := if name in f then [] else [name];
      assert Unfilled(t, f) == first + Unfilled(rest, f);
      assert forall i :: 0 <= i < |Unfilled(rest, f)| ==> Unfilled(rest, f)[i] == Unfilled(t, f)[|first| + i];
      assert first != [] ==> Unfilled(t, f)[0] == name;
      NothingUnfilled(rest, f, g);
  }

  // ---- the one substitution ----

  /** The emitted value of every name of a list that has one. */
  function AllValues(rules: Rules, from: Sources, names: seq<string>): map<string, string> {
    map name | name in names && name in rules.schema && ValueOf(rules, from, name).Ok? ::
      ValueOf(rules, from, name).value
  }

  predicate Resolvable(rules: Rules, from: Sources, names: seq<string>) {
    forall i :: 0 <= i < |names| ==> names[i] in rules.schema && ValueOf(rules, from, names[i]).Ok?
  }

  lemma ConfigFinds(rules: Rules, from: Sources, names: seq<string>)
    requires Declared(rules, names)
    ensures var found := Resolve(rules, ConfigPhase(from.values), names);
            && (found.Ok? <==> forall i :: 0 <= i < |names| && !rules.schema[names[i]].SecretKind? ==>
                                 ValueOf(rules, from, names[i]).Ok?)
            && (found.Ok? ==> forall name :: name in found.value <==> name in names && !rules.schema[name].SecretKind?)
            && (found.Ok? ==> forall name :: name in found.value ==> ValueOf(rules, from, name) == Ok(found.value[name]))
  {
    ResolveFinds(rules, ConfigPhase(from.values), names);
  }

  lemma CredentialsFind(rules: Rules, from: Sources, names: seq<string>)
    requires Declared(rules, names) && forall i :: 0 <= i < |names| ==> rules.schema[names[i]].SecretKind?
    ensures var found := Resolve(rules, CredentialPhase(from.document, from.secrets), names);
            && (found.Ok? <==> Resolvable(rules, from, names))
            && (found.Ok? ==> forall name :: name in found.value <==> name in names)
            && (found.Ok? ==> forall name :: name in found.value ==> ValueOf(rules, from, name) == Ok(found.value[name]))
  {
    ResolveFinds(rules, CredentialPhase(from.document, from.secrets), names);
  }

  /** After the config phase exactly the credential names are left. */
  lemma SecretsAreLeft(rules: Rules, t: Template, f: map<string, string>)
    requires Declared(rules, Names(t))
    requires forall name :: name in f <==> name in Names(t) && !rules.schema[name].SecretKind?
    ensures Declared(rules, Unfilled(t, f))
    ensures forall i :: 0 <= i < |Unfilled(t, f)| ==> rules.schema[Unfilled(t, f)[i]].SecretKind?
    ensures forall name :: name in Unfilled(t, f) <==> name in Names(t) && rules.schema[name].SecretKind?
  {
    UnfilledAre(t, f);
  }

  /** These errors cannot come out of a validated template. */
  predicate DeadBranch(error: Error) {
    error.UnknownPlaceholder? || error.SurvivedConfigPhase? || error.NoValueAfterSubstitution?
    || error.UnterminatedAfterSubstitution?
  }

  lemma {:induction false} ErrorsAreLookups(rules: Rules, phase: Phase, names: seq<string>) returns (name: string)
    requires Resolve(rules, phase, names).Err?
    ensures name in names && Lookup(rules, phase, name) == Err(Resolve(rules, phase, names).error)
  {
    match Lookup(rules, phase, names[0])
    case Err(_) => name := names[0];
    case Ok(_) => name := ErrorsAreLookups(rules, phase, names[1..]);
  }

  lemma FailureIsAlive(rules: Rules, phase: Phase, names: seq<string>)
    requires Resolve(rules, phase, names).Err? && Declared(rules, names)
    requires phase.CredentialPhase? ==> forall i :: 0 <= i < |names| ==> rules.schema[names[i]].SecretKind?
    ensures !DeadBranch(Resolve(rules, phase, names).error)
  {
    var name := ErrorsAreLookups(rules, phase, names);
    assert name in rules.schema;
  }

  lemma ValuesMerge(rules: Rules, from: Sources, t: Template, f: map<string, string>, g: map<string, string>)
    requires Declared(rules, Names(t))
    requires forall name :: name in f <==> name in Names(t) && !rules.schema[name].SecretKind?
    requires forall name :: name in g <==> name in Names(t) && rules.schema[name].SecretKind?
    requires forall name :: name in f ==> ValueOf(rules, from, name) == Ok(f[name])
    requires forall name :: name in g ==> ValueOf(rules, from, name) == Ok(g[name])
    ensures f + g == AllValues(rules, from, Names(t)) && Resolvable(rules, from, Names(t))
  {
    var names, m := Names(t), f + g;
    forall name | name in names ensures name in m && ValueOf(rules, from, name) == Ok(m[name]) {
    }
    AllValuesAre(rules, from, names, m);
  }

  lemma AllValuesAre(rules: Rules, from: Sources, names: seq<string>, m: map<string, string>)
    requires forall name :: name in m <==> name in names
    requires forall name :: name in m ==> name in rules.schema && ValueOf(rules, from, name) == Ok(m[name])
    ensures m == AllValues(rules, from, names) && Resolvable(rules, from, names)
  {
    forall i | 0 <= i < |names| ensures names[i] in rules.schema && ValueOf(rules, from, names[i]).Ok? {
      assert names[i] in m;
    }
  }

  /**
   For every template that validation accepts, the two sequential phases are one simultaneous substitution. They
   succeed exactly when every name has a value; then the literal text is unchanged and in order, each token is
   replaced by its value, and nothing opens a placeholder any more. The checks behind the loops never fail.
   */
  lemma TwoPhasesAreOne(rules: Rules, from: Sources, tmpl: string)
    requires PlainSchema(rules.schema) && Accepted(rules, tmpl)
    ensures Rendered(rules, from, tmpl).Ok? <==> Resolvable(rules, from, Vars(tmpl))
    ensures Rendered(rules, from, tmpl).Ok? ==>
              var out := Rendered(rules, from, tmpl).value;
              out == Fill(Parse(tmpl), AllValues(rules, from, Vars(tmpl))) && NoOpen(out)
    ensures Rendered(rules, from, tmpl).Err? ==> !DeadBranch(Rendered(rules, from, tmpl).error)
  {
    var t, names, config := Parse(tmpl), Vars(tmpl), ConfigPhase(from.values);
    var found := Resolve(rules, config, names);
    VarsAreNames(tmpl);
    ConfigPhaseFills(rules, from.values, tmpl);
    ConfigFinds(rules, from, names);
    if found.Err? {
      assert Rendered(rules, from, tmpl) == Err(found.error);
      FailureIsAlive(rules, config, names);
      assert !Resolvable(rules, from, names);
    } else {
      assert Rendered(rules, from, tmpl) == Completed(rules, from.document, from.secrets, Fill(t, found.value));
      SecondPhase(rules, from, t, found.value);
    }
  }

  lemma SecondPhase(rules: Rules, from: Sources, t: Template, f: map<string, string>)
    requires PlainSchema(rules.schema) && WellFormed(t) && AllSafe(f) && Declared(rules, Names(t))
    requires forall name :: name in f <==> name in Names(t) && !rules.schema[name].SecretKind?
    requires forall name :: name in f ==> ValueOf(rules, from, name) == Ok(f[name])
    ensures var result := Completed(rules, from.document, from.secrets, Fill(t, f));
            && (result.Ok? <==> Resolvable(rules, from, Names(t)))
            && (result.Ok? ==> result.value == Fill(t, AllValues(rules, from, Names(t))) && NoOpen(result.value))
            && (result.Err? ==> !DeadBranch(result.error))
  {
    var left, phase := Unfilled(t, f), CredentialPhase(from.document, from.secrets);
    var found := Resolve(rules, phase, left);
    SecretsAreLeft(rules, t, f);
    NamesArePlain(rules, left);
    CredentialPhaseFills(rules, from.document, from.secrets, t, f);
    CredentialsFind(rules, from, left);
    if found.Err? {
      FailureIsAlive(rules, phase, left);
      LeftoverFails(rules, from, t, left);
    } else {
      ValuesMerge(rules, from, t, f, found.value);
    }
  }

  lemma LeftoverFails(rules: Rules, from: Sources, t: Template, left: seq<string>)
    requires Declared(rules, Names(t)) && !Resolvable(rules, from, left)
    requires forall name :: name in left ==> name in Names(t)
    ensures !Resolvable(rules, from, Names(t))
  {
    var i :| 0 <= i < |left| && !(left[i] in rules.schema && ValueOf(rules, from, left[i]).Ok?);
    assert left[i] in left;
    var j :| 0 <= j < |Names(t)| && Names(t)[j] == left[i];
  }

  /** The production schema meets the assumption on names, so all of this holds for the production templates. */
  lemma ProductionTemplates(rules: Rules, from: Sources, tmpl: string)
    requires rules.schema == Schema() && rules.bounds == BOUNDS && rules.banned == BANNED && Accepted(rules, tmpl)
    ensures Rendered(rules, from, tmpl).Ok? <==> Resolvable(rules, from, Vars(tmpl))
    ensures Rendered(rules, from, tmpl).Ok? ==>
              var out := Rendered(rules, from, tmpl).value;
              out == Fill(Parse(tmpl), AllValues(rules, from, Vars(tmpl))) && NoOpen(out)
    ensures Rendered(rules, from, tmpl).Err? ==> !DeadBranch(Rendered(rules, from, tmpl).error)
  {
    SchemaIsPlain();
    TwoPhasesAreOne(rules, from, tmpl);
  }

  // ---- reading a rendered text ----

  /** What a source holds for a name, before it is emitted. */
  function RawValue(rules: Rules, from: Sources, name: string): Option<string> {
    if name !in rules.schema || !rules.schema[name].SecretKind? then Find(from.values, name)
    else if name != AUTH then Find(from.secrets, name)
    else
      match DerivedAuth(from.document, from.secrets)
      case Err(_) => None
      case Ok(auth) => auth
  }

  /** Everything but numbers is emitted as a quoted scalar of what the source holds. */
  lemma QuotedValue(rules: Rules, from: Sources, name: string)
    requires name in rules.schema && !rules.schema[name].NumberKind? && ValueOf(rules, from, name).Ok?
    ensures RawValue(rules, from, name).Some?
    ensures ValueOf(rules, from, name) == Ok(Quoted(RawValue(rules, from, name).value))
  {
  }

  /** The filled text before and behind one of the tokens. */
  function Before(t: Template, f: map<string, string>, i: nat): string
    requires i < |Names(t)|
    decreases t
  {
    if i == 0 then t.text else t.text + Value(f, t.name) + Before(t.rest, f, i - 1)
  }

  function After(t: Template, f: map<string, string>, i: nat): string
    requires i < |Names(t)|
    decreases t
  {
    if i == 0 then Fill(t.rest, f) else After(t.rest, f, i - 1)
  }

  lemma {:induction false} FillAround(t: Template, f: map<string, string>, i: nat)
    requires i < |Names(t)|
    ensures Fill(t, f) == Before(t, f, i) + (Value(f, Names(t)[i]) + After(t, f, i))
    decreases t
  {
    var token, value := Names(t)[i], Value(f, t.name);
    if i == 0 {
      Associate(t.text, value, Fill(t.rest, f));
    } else {
      FillAround(t.rest, f, i - 1);
      Associate(t.text + value, Before(t.rest, f, i - 1), Value(f, token) + After(t.rest, f, i - 1));
    }
  }

  lemma ReadsAt(before: string, v: string, after: string)
    ensures ReadScalar((before + (Quoted(v) + after))[|before|..]) == Read(v, after)
  {
    QuoteRoundTrip(v, after);
    assert (before + (Quoted(v) + after))[|before|..] == Quoted(v) + after;
  }

  /**
   A YAML reader that comes to any quoted token of a rendered text gets exactly the source's value for that name
   and goes on exactly where the template does.
   */
  lemma RenderedReadsBack(rules: Rules, from: Sources, tmpl: string, i: nat)
    requires PlainSchema(rules.schema) && Accepted(rules, tmpl) && Rendered(rules, from, tmpl).Ok?
    requires i < |Vars(tmpl)| && Vars(tmpl)[i] in rules.schema && !rules.schema[Vars(tmpl)[i]].NumberKind?
    ensures Vars(tmpl) == Names(Parse(tmpl)) && RawValue(rules, from, Vars(tmpl)[i]).Some?
    ensures var t, f := Parse(tmpl), AllValues(rules, from, Vars(tmpl));
            && Before(t, f, i) <= Rendered(rules, from, tmpl).value
            && ReadScalar(Rendered(rules, from, tmpl).value[|Before(t, f, i)|..]) ==
                 Read(RawValue(rules, from, Vars(tmpl)[i]).value, After(t, f, i))
  {
    var t, f, name := Parse(tmpl), AllValues(rules, from, Vars(tmpl)), Vars(tmpl)[i];
    TwoPhasesAreOne(rules, from, tmpl);
    VarsAreNames(tmpl);
    QuotedValue(rules, from, name);
    FillAround(t, f, i);
    ReadsAt(Before(t, f, i), RawValue(rules, from, name).value, After(t, f, i));
  }

  ghost predicate Digits(v: string) {
    v != "" && forall i :: 0 <= i < |v| ==> '0' <= v[i] <= '9'
  }

  ghost predicate InBounds(rules: Rules, name: string, v: string)
    requires Digits(v)
  {
    name in rules.bounds ==> rules.bounds[name].0 <= Decimal(v) <= rules.bounds[name].1
  }

  ghost predicate NoControl(v: string) {
    forall i :: 0 <= i < |v| ==> !YamlControl(v[i])
  }

  /** Exactly when a value is emitted, and as what. */
  lemma EmittedWhen(rules: Rules, name: string, kind: Kind, v: string)
    ensures Emit(rules, name, kind, v).Ok? <==>
              && NoControl(v) && NoOpen(v)
              && (kind.NumberKind? ==> Digits(v) && InBounds(rules, name, v))
              && (kind.AddressKind? ==> rules.address(v))
    ensures Emit(rules, name, kind, v).Ok? ==>
              Emit(rules, name, kind, v).value == if kind.NumberKind? then v else Quoted(v)
  {
    if NoOpen(v) {
      assert Index(v, OPEN) == -1;
    } else {
      OpenIsFound(v);
    }
  }

  lemma OpenIsFound(v: string)
    requires !NoOpen(v)
    ensures Contains(v, OPEN)
  {
    var k :| 0 <= k && Occurs(v, OPEN, k);
    assert Index(v, OPEN) != -1;
  }

  /** The decimal digits of a number. */
  function Decimals(n: nat): string {
    var last := [('0' as int + n % 10) as char];
    if n < 10 then last else Decimals(n / 10) + last
  }

  /** The value of a numeral is the number whose digits it shows. */
  lemma {:induction false} DecimalRoundTrip(n: nat)
    ensures Digits(Decimals(n)) && Decimal(Decimals(n)) == n
  {
    var v := Decimals(n);
    if n < 10 {
      assert v[..0] == "";
    } else {
      DecimalRoundTrip(n / 10);
      assert v[..|v| - 1] == Decimals(n / 10);
    }
  }

  lemma {:induction false} LeadingZero(v: string)
    requires Digits(v)
    ensures Digits("0" + v) && Decimal("0" + v) == Decimal(v)
    decreases |v|
  {
    var w := "0" + v;
    assert w[..|w| - 1] == "0" + v[..|v| - 1];
    if |v| > 1 {
      LeadingZero(v[..|v| - 1]);
    } else {
      assert w[..|w| - 1] == "0" && "0"[..0] == "";
    }
  }

  /** A number is emitted as the source holds it. */
  lemma NumberValue(rules: Rules, from: Sources, name: string)
    requires name in rules.schema && rules.schema[name].NumberKind? && ValueOf(rules, from, name).Ok?
    ensures name in from.values && ValueOf(rules, from, name) == Ok(from.values[name])
    ensures Digits(from.values[name]) && InBounds(rules, name, from.values[name])
  {
    EmittedWhen(rules, name, NumberKind, from.values[name]);
  }

  lemma StandsAt(before: string, v: string, after: string)
    ensures (before + (v + after))[|before|..] == v + after
  {
  }

  /**
   At every number token of a rendered text stands exactly the source's value, a non-empty run of digits within the
   bounds of its name, followed by exactly what the template has there.
   */
  lemma RenderedNumber(rules: Rules, from: Sources, tmpl: string, i: nat)
    requires PlainSchema(rules.schema) && Accepted(rules, tmpl) && Rendered(rules, from, tmpl).Ok?
    requires i < |Vars(tmpl)| && Vars(tmpl)[i] in rules.schema && rules.schema[Vars(tmpl)[i]].NumberKind?
    ensures Vars(tmpl) == Names(Parse(tmpl)) && Vars(tmpl)[i] in from.values
    ensures var t, f, v := Parse(tmpl), AllValues(rules, from, Vars(tmpl)), from.values[Vars(tmpl)[i]];
            && Digits(v) && InBounds(rules, Vars(tmpl)[i], v)
            && Before(t, f, i) <= Rendered(rules, from, tmpl).value
            && Rendered(rules, from, tmpl).value[|Before(t, f, i)|..] == v + After(t, f, i)
  {
    var t, f, name := Parse(tmpl), AllValues(rules, from, Vars(tmpl)), Vars(tmpl)[i];
    TwoPhasesAreOne(rules, from, tmpl);
    VarsAreNames(tmpl);
    NumberValue(rules, from, name);
    FillAround(t, f, i);
    StandsAt(Before(t, f, i), from.values[name], After(t, f, i));
  }

  /** Where the value of a name comes from; the derived credential is the user, a colon and the password. */
  lemma RawIs(rules: Rules, from: Sources, name: string)
    requires name in rules.schema && ValueOf(rules, from, name).Ok?
    ensures !rules.schema[name].SecretKind? ==> RawValue(rules, from, name) == Find(from.values, name)
    ensures rules.schema[name].SecretKind? && name != AUTH ==> RawValue(rules, from, name) == Find(from.secrets, name)
    ensures rules.schema[name].SecretKind? && name == AUTH ==>
              && from.document.Some? && AUTH_USER in from.document.value && AUTH_PASSWORD in from.secrets
              && HysteriaUser(from.document.value[AUTH_USER])
              && RawValue(rules, from, name) ==
                   Some(from.document.value[AUTH_USER] + ":" + from.secrets[AUTH_PASSWORD])
    ensures RawValue(rules, from, name).Some?
    ensures NoControl(RawValue(rules, from, name).value) && NoOpen(RawValue(rules, from, name).value)
    ensures rules.schema[name].SecretKind? ==> RawValue(rules, from, name).value != ""
  {
    if rules.schema[name].SecretKind? {
      UnopenedText(RawValue(rules, from, name).value);
    } else {
      EmittedWhen(rules, name, rules.schema[name], from.values[name]);
    }
  }

  // ---- the code's loops ----

  /** `substituteConfig`. */
  method SubstituteConfig(rules: Rules, values: map<string, string>, tmpl: string) returns (result: Result<string>)
    ensures result == Substituted(rules, values, tmpl)
  {
    var names := TemplateVars(tmpl);
    var out := tmpl;
    for i := 0 to |names|
      invariant Rewrite(rules, ConfigPhase(values), names[i..], out) == Substituted(rules, values, tmpl)
    {
      var name := names[i];
      assert names[i..][0] == name && names[i..][1..] == names[i + 1..];
      if name !in rules.schema {
        return Err(UnknownPlaceholder);
      }
      var kind := rules.schema[name];
      if kind.SecretKind? {
        continue;
      }
      if name !in values {
        return Err(NoConfigValue);
      }
      var e := Emit(rules, name, kind, values[name]);
      if e.Err? {
        return e;
      }
      out := Replaced(out, Ref(name), e.value);
    }
    return Ok(out);
  }

  /** `substituteCredentials`. */
  method SubstituteCredentials(rules: Rules, document: Option<map<string, string>>, secrets: map<string, string>,
                               tmpl: string) returns (result: Result<string>)
    ensures result == Completed(rules, document, secrets, tmpl)
  {
    var names := TemplateVars(tmpl);
    var out := tmpl;
    ghost var phase := CredentialPhase(document, secrets);
    for i := 0 to |names|
      invariant Rewrite(rules, phase, names[i..], out) == Rewrite(rules, phase, Vars(tmpl), tmpl)
    {
      var name := names[i];
      assert names[i..][0] == name && names[i..][1..] == names[i + 1..];
      if name !in rules.schema {
        return Err(UnknownPlaceholder);
      }
      if !rules.schema[name].SecretKind? {
        return Err(SurvivedConfigPhase);
      }
      var e := Credential(document, secrets, name);
      if e.Err? {
        return e;
      }
      out := ReplaceAllChecked(out, Ref(name), e.value);
    }
    var rest := TemplateVars(out);
    if |rest| > 0 {
      return Err(NoValueAfterSubstitution);
    }
    var dangling := ContainsDangling(out);
    if dangling {
      return Err(UnterminatedAfterSubstitution);
    }
    return Ok(out);
  }

  /**
   Validation and both phases as a render run applies them. The run succeeds exactly when the template is accepted
   and every name has a value, and then its result is the one simultaneous substitution.
   */
  method RenderTemplate(rules: Rules, from: Sources, tmpl: string) returns (result: Result<string>)
    requires PlainSchema(rules.schema)
    ensures result.Ok? <==> Accepted(rules, tmpl) && Resolvable(rules, from, Vars(tmpl))
    ensures result.Ok? ==> result.value == Fill(Parse(tmpl), AllValues(rules, from, Vars(tmpl))) && NoOpen(result.value)
    ensures result.Err? && Accepted(rules, tmpl) ==> !DeadBranch(result.error)
    ensures Accepted(rules, tmpl) ==> result == Rendered(rules, from, tmpl)
  {
    var refused := ValidateTemplate(rules, tmpl);
    if refused.Some? {
      return Err(refused.value);
    }
    TwoPhasesAreOne(rules, from, tmpl);
    result := SubstituteConfig(rules, from.values, tmpl);
    if result.Ok? {
      result := SubstituteCredentials(rules, from.document, from.secrets, result.value);
    }
  }
}
