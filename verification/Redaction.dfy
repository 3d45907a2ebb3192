/**
 Recursive log redaction. `lower` is Python's `str.lower`; all that is assumed of it is that it
 leaves the ASCII suffix `_domain` at the end of a string.
 */
module Redaction {
  import opened Common
  import opened OrderedDict

  datatype Key = Name(text: string) | OtherKey(n: int)

  datatype Value =
    | Str(text: string)
    | Null
    | Scalar(n: int)
    | Mapping(entries: Dict<Key, Value>)
    | List(items: seq<Value>)
    | Tuple(items: seq<Value>)

  const REDACTED := Str("[redacted]")

  const DENY_EXACT: set<string> := {
    "password", "token", "access_token", "refresh_token", "id_token", "authorization", "cookie",
    "set-cookie", "service_key", "api_key", "client_secret", "secret", "jwt", "name", "full_name"
  }

  predicate EndsWith(s: string, suffix: string) {
    |suffix| <= |s| && s[|s| - |suffix|..] == suffix
  }

  ghost predicate KeepsDomainSuffix(lower: string -> string) {
    forall k: string :: EndsWith(lower(k + "_domain"), "_domain")
  }

  /** `str.lower` on ASCII. */
  function AsciiLower(s: string): string {
    seq(|s|, i requires 0 <= i < |s| => if 'A' <= s[i] <= 'Z' then s[i] - 'A' + 'a' else s[i])
  }

  lemma AsciiLowerKeepsDomainSuffix()
    ensures KeepsDomainSuffix(AsciiLower)
  {
    forall k: string ensures EndsWith(AsciiLower(k + "_domain"), "_domain") {
      var t := AsciiLower(k + "_domain");
      assert t[|t| - 7..] == "_domain";
    }
  }

  predicate IsEmailKey(kl: string) {
    kl == "email" || EndsWith(kl, "_email")
  }

  /** What follows the last `@`. */
  function AfterLastAt(s: string): string
    requires '@' in s
    ensures '@' !in AfterLastAt(s)
  {
    if s[0] == '@' && '@' !in s[1..] then s[1..] else AfterLastAt(s[1..])
  }

  function Domain(v: Value): Value {
    if v.Str? && '@' in v.text then Str(AfterLastAt(v.text)) else Null
  }

  /** The key under which an entry is written. */
  function Target(lower: string -> string, k: Key): Key {
    if k.Name? && IsEmailKey(lower(k.text)) then Name(k.text + "_domain") else k
  }

  /** The value with which an entry is written. */
  function Written(lower: string -> string, x: Item<Key, Value>): Value
    decreases x.value, 2
  {
    if x.key.Name? && IsEmailKey(lower(x.key.text)) then Domain(x.value)
    else if x.key.Name? && lower(x.key.text) in DENY_EXACT then REDACTED
    else Redact(lower, x.value)
  }

  /** `redact_mapping` on the first `n` entries. */
  function RedactFirst(lower: string -> string, v: Value, n: nat): Dict<Key, Value>
    requires v.Mapping? && n <= |v.entries|
    decreases v, 0, n
  {
    if n == 0 then []
    else
      var x := v.entries[n - 1];
      Put(RedactFirst(lower, v, n - 1), Target(lower, x.key), Written(lower, x))
  }

  /** `_redact_value`. */
  function Redact(lower: string -> string, v: Value): Value
    decreases v, 1
  {
    match v
    case Mapping(entries) => Mapping(RedactFirst(lower, v, |entries|))
    case List(items) => List(seq(|items|, i requires 0 <= i < |items| => Redact(lower, v.items[i])))
    case Tuple(items) => Tuple(seq(|items|, i requires 0 <= i < |items| => Redact(lower, v.items[i])))
    case _ => v
  }

  /** `redact_mapping`, with its loop. */
  method RedactMapping(lower: string -> string, data: Dict<Key, Value>) returns (out: Dict<Key, Value>)
    ensures Mapping(out) == Redact(lower, Mapping(data))
    ensures LoggedAs(lower, Mapping(data), Mapping(out))
  {
    out := [];
    var i := 0;
    while i < |data|
      invariant 0 <= i <= |data|
      invariant out == RedactFirst(lower, Mapping(data), i)
    {
      var key, value := data[i].key, data[i].value;
      if key.Name? && IsEmailKey(lower(key.text)) {
        out := Put(out, Name(key.text + "_domain"), Domain(value));
      } else if key.Name? && lower(key.text) in DENY_EXACT {
        out := Put(out, key, REDACTED);
      } else {
        out := Put(out, key, Redact(lower, value));
      }
      i := i + 1;
    }
    RedactLogs(lower, Mapping(data));
  }

  // ---- At every depth ----

  /** `email`, or anything that ends in `_email`. */
  predicate EmailName(kl: string) {
    kl == "email" || (|kl| >= 6 && kl[|kl| - 6..] == "_email")
  }

  /** The fifteen names of the denylist. */
  predicate SecretName(kl: string) {
    || kl == "password" || kl == "secret" || kl == "client_secret" || kl == "service_key" || kl == "api_key"
    || kl == "token" || kl == "access_token" || kl == "refresh_token" || kl == "id_token" || kl == "jwt"
    || kl == "authorization" || kl == "cookie" || kl == "set-cookie" || kl == "name" || kl == "full_name"
  }

  lemma SensitiveNames(kl: string)
    ensures IsEmailKey(kl) <==> EmailName(kl)
    ensures kl in DENY_EXACT <==> SecretName(kl)
  {
  }

  /** An entry that redaction would leave alone. */
  predicate CleanKey(lower: string -> string, x: Item<Key, Value>) {
    x.key.Name? ==> !EmailName(lower(x.key.text)) && (SecretName(lower(x.key.text)) ==> x.value == Str("[redacted]"))
  }

  /** No e-mail key and no secret under a denylisted key, at any depth. */
  ghost predicate Clean(lower: string -> string, v: Value)
    decreases v
  {
    match v
    case Mapping(entries) =>
      Distinct(entries) &&
      forall i :: 0 <= i < |entries| ==> CleanKey(lower, entries[i]) && Clean(lower, entries[i].value)
    case List(items) => forall i :: 0 <= i < |items| ==> Clean(lower, items[i])
    case Tuple(items) => forall i :: 0 <= i < |items| ==> Clean(lower, items[i])
    case _ => true
  }

  lemma DomainKeyIsClean(lower: string -> string, k: string)
    requires KeepsDomainSuffix(lower)
    ensures !IsEmailKey(lower(k + "_domain")) && lower(k + "_domain") !in DENY_EXACT
  {
    var kl := lower(k + "_domain");
    assert EndsWith(kl, "_domain");
    assert kl[|kl| - 1] == 'n' && kl[|kl| - 2] == 'i';
    EmailKeyEndsInL(kl);
    NotDenied(kl);
  }

  lemma EmailKeyEndsInL(kl: string)
    ensures IsEmailKey(kl) ==> kl != "" && kl[|kl| - 1] == 'l'
  {
    if EndsWith(kl, "_email") {
      assert kl[|kl| - 1] == kl[|kl| - 6..][5];
    }
  }

  lemma NotDenied(kl: string)
    requires EndsWith(kl, "_domain")
    ensures kl !in DENY_EXACT
  {
    assert kl[|kl| - 1] == 'n' && kl[|kl| - 2] == 'i' && kl[|kl| - 3] == 'a';
  }

  /** Every entry that is written is clean. */
  lemma WrittenIsClean(lower: string -> string, x: Item<Key, Value>)
    requires KeepsDomainSuffix(lower) && Clean(lower, Redact(lower, x.value))
    ensures CleanKey(lower, Item(Target(lower, x.key), Written(lower, x)))
    ensures Clean(lower, Written(lower, x))
  {
    if x.key.Name? {
      SensitiveNames(lower(x.key.text));
      DomainKeyIsClean(lower, x.key.text);
      SensitiveNames(lower(x.key.text + "_domain"));
    }
  }

  lemma {:induction false} RedactIsClean(lower: string -> string, v: Value)
    requires KeepsDomainSuffix(lower)
    ensures Clean(lower, Redact(lower, v))
    decreases v, 1, 0
  {
    match v
    case Mapping(entries) => RedactFirstIsClean(lower, v, |entries|);
    case List(items) =>
      forall i | 0 <= i < |items| ensures Clean(lower, Redact(lower, items[i])) {
        RedactIsClean(lower, items[i]);
      }
    case Tuple(items) =>
      forall i | 0 <= i < |items| ensures Clean(lower, Redact(lower, items[i])) {
        RedactIsClean(lower, items[i]);
      }
    case _ =>
  }

  lemma {:induction false} RedactFirstIsClean(lower: string -> string, v: Value, n: nat)
    requires KeepsDomainSuffix(lower) && v.Mapping? && n <= |v.entries|
    ensures Clean(lower, Mapping(RedactFirst(lower, v, n)))
    decreases v, 0, n
  {
    if n > 0 {
      RedactFirstIsClean(lower, v, n - 1);
      var x := v.entries[n - 1];
      RedactIsClean(lower, x.value);
      WrittenIsClean(lower, x);
      PutDistinct(RedactFirst(lower, v, n - 1), Target(lower, x.key), Written(lower, x));
      PutKeepsClean(lower, RedactFirst(lower, v, n - 1), Target(lower, x.key), Written(lower, x));
    }
  }

  lemma PutKeepsClean(lower: string -> string, d: Dict<Key, Value>, k: Key, w: Value)
    requires Clean(lower, Mapping(d)) && CleanKey(lower, Item(k, w)) && Clean(lower, w)
    ensures Clean(lower, Mapping(Put(d, k, w)))
  {
    PutDistinct(d, k, w);
  }

  /** Redaction does nothing to a clean value. */
  lemma {:induction false} CleanIsFixed(lower: string -> string, v: Value)
    requires Clean(lower, v)
    ensures Redact(lower, v) == v
    decreases v, 1, 0
  {
    match v
    case Mapping(entries) =>
      CleanFirstIsFixed(lower, v, |entries|);
      assert entries[..|entries|] == entries;
    case List(items) =>
      forall i | 0 <= i < |items| ensures Redact(lower, items[i]) == items[i] {
        CleanIsFixed(lower, items[i]);
      }
    case Tuple(items) =>
      forall i | 0 <= i < |items| ensures Redact(lower, items[i]) == items[i] {
        CleanIsFixed(lower, items[i]);
      }
    case _ =>
  }

  lemma {:induction false} CleanFirstIsFixed(lower: string -> string, v: Value, n: nat)
    requires v.Mapping? && n <= |v.entries| && Clean(lower, v)
    ensures RedactFirst(lower, v, n) == v.entries[..n]
    decreases v, 0, n
  {
    if n > 0 {
      CleanFirstIsFixed(lower, v, n - 1);
      var x, before := v.entries[n - 1], v.entries[..n - 1];
      CleanIsFixed(lower, x.value);
      assert CleanKey(lower, x);
      if x.key.Name? {
        SensitiveNames(lower(x.key.text));
      }
      assert Written(lower, x) == x.value && Target(lower, x.key) == x.key;
      assert IndexOf(before, x.key) == |before|;
      assert before + [x] == v.entries[..n];
    }
  }

  /** Redacting changes exactly the values that are not clean; in particular redacting twice is redacting once. */
  lemma RedactionIsAProjection(lower: string -> string, v: Value)
    requires KeepsDomainSuffix(lower)
    ensures Clean(lower, Redact(lower, v))
    ensures Redact(lower, v) == v <==> Clean(lower, v)
    ensures Redact(lower, Redact(lower, v)) == Redact(lower, v)
  {
    RedactIsClean(lower, v);
    CleanIsFixed(lower, Redact(lower, v));
    if Clean(lower, v) {
      CleanIsFixed(lower, v);
    }
  }

  // ---- What the output is, key by key ----

  /** The entry is written under `q`: an e-mail key with `_domain` after it, any other key as it is. */
  predicate WritesTo(lower: string -> string, k: Key, q: Key) {
    if k.Name? && EmailName(lower(k.text)) then q == Name(k.text + "_domain") else q == k
  }

  /** The last of the first `n` entries written under `q`, or `n` when there is none. */
  function LastWriter(lower: string -> string, d: Dict<Key, Value>, n: nat, q: Key): (i: nat)
    requires n <= |d|
    ensures i <= n
    ensures i < n ==> WritesTo(lower, d[i].key, q) && forall j :: i < j < n ==> !WritesTo(lower, d[j].key, q)
    ensures i == n ==> forall j :: 0 <= j < n ==> !WritesTo(lower, d[j].key, q)
  {
    if n == 0 then 0
    else if WritesTo(lower, d[n - 1].key, q) then n - 1
    else
      var i := LastWriter(lower, d, n - 1, q);
      if i == n - 1 then n else i
  }

  lemma TargetIsWhereWritten(lower: string -> string, k: Key, q: Key)
    ensures Target(lower, k) == q <==> WritesTo(lower, k, q)
  {
    if k.Name? {
      SensitiveNames(lower(k.text));
    }
  }

  /**
   What is under each key of the output, key collisions included: the rewriting of the last entry that is
   written under it, and nothing when there is none. So a field that is neither an e-mail nor on the
   denylist survives unless a later e-mail field is renamed onto it, and conversely.
   */
  lemma {:induction false} OutputIsLastWriter(lower: string -> string, v: Value, n: nat, q: Key)
    requires v.Mapping? && n <= |v.entries|
    ensures Distinct(RedactFirst(lower, v, n))
    ensures var i := LastWriter(lower, v.entries, n, q);
      Get(RedactFirst(lower, v, n), q) == if i < n then Some(Written(lower, v.entries[i])) else None
  {
    if n > 0 {
      hide Target, WritesTo, Written, Get, Put;
      OutputIsLastWriter(lower, v, n - 1, q);
      var x := v.entries[n - 1];
      TargetIsWhereWritten(lower, x.key, q);
      PutDistinct(RedactFirst(lower, v, n - 1), Target(lower, x.key), Written(lower, x));
      GetPut(RedactFirst(lower, v, n - 1), Target(lower, x.key), Written(lower, x), q);
    }
  }

  /** All that is kept of an address: what follows its last `@`. */
  ghost predicate IsDomainOf(w: Value, v: Value) {
    if v.Str? && '@' in v.text then w.Str? && '@' !in w.text && exists p :: v.text == p + "@" + w.text
    else w == Null
  }

  /**
   `w` is what `v` is to be logged as, at every depth: a mapping's fields each from the last entry written
   under them, as the domain, the placeholder, or the value in its turn redacted; sequences element by element.
   */
  ghost predicate LoggedAs(lower: string -> string, v: Value, w: Value)
    decreases v, 1
  {
    match v
    case Mapping(entries) => w.Mapping? && Distinct(w.entries) && forall q :: FieldLogged(lower, v, w.entries, q)
    case List(items) =>
      w.List? && |w.items| == |items| && forall i :: 0 <= i < |items| ==> LoggedAs(lower, items[i], w.items[i])
    case Tuple(items) =>
      w.Tuple? && |w.items| == |items| && forall i :: 0 <= i < |items| ==> LoggedAs(lower, items[i], w.items[i])
    case _ => w == v
  }

  ghost predicate FieldLogged(lower: string -> string, v: Value, out: Dict<Key, Value>, q: Key)
    requires v.Mapping?
    decreases v, 0
  {
    var i := LastWriter(lower, v.entries, |v.entries|, q);
    var field := Get(out, q);
    if i == |v.entries| then field == None
    else
      var x := v.entries[i];
      && field.Some?
      && if x.key.Name? && EmailName(lower(x.key.text)) then IsDomainOf(field.value, x.value)
         else if x.key.Name? && SecretName(lower(x.key.text)) then field.value == Str("[redacted]")
         else LoggedAs(lower, x.value, field.value)
  }

  lemma {:induction false} AfterLastAtIsSuffix(s: string)
    requires '@' in s
    ensures exists p :: s == p + "@" + AfterLastAt(s)
  {
    if s[0] == '@' && '@' !in s[1..] {
      assert s == "" + "@" + AfterLastAt(s);
    } else {
      AfterLastAtIsSuffix(s[1..]);
      var p :| s[1..] == p + "@" + AfterLastAt(s[1..]);
      assert s == [s[0]] + p + "@" + AfterLastAt(s);
    }
  }

  lemma DomainIsDomain(v: Value)
    ensures IsDomainOf(Domain(v), v)
  {
    if v.Str? && '@' in v.text {
      AfterLastAtIsSuffix(v.text);
    }
  }

  /** Redaction logs every value as it is to be logged. */
  lemma {:induction false} RedactLogs(lower: string -> string, v: Value)
    ensures LoggedAs(lower, v, Redact(lower, v))
    decreases v, 1
  {
    match v
    case Mapping(entries) =>
      OutputIsLastWriter(lower, v, |entries|, OtherKey(0));
      forall q ensures FieldLogged(lower, v, Redact(lower, v).entries, q) {
        RedactLogsField(lower, v, q);
      }
    case List(items) =>
      forall i | 0 <= i < |items| ensures LoggedAs(lower, items[i], Redact(lower, items[i])) {
        RedactLogs(lower, items[i]);
      }
    case Tuple(items) =>
      forall i | 0 <= i < |items| ensures LoggedAs(lower, items[i], Redact(lower, items[i])) {
        RedactLogs(lower, items[i]);
      }
    case _ =>
  }

  lemma {:induction false} RedactLogsField(lower: string -> string, v: Value, q: Key)
    requires v.Mapping?
    ensures FieldLogged(lower, v, RedactFirst(lower, v, |v.entries|), q)
    decreases v, 0
  {
    OutputIsLastWriter(lower, v, |v.entries|, q);
    var i := LastWriter(lower, v.entries, |v.entries|, q);
    if i < |v.entries| {
      var x := v.entries[i];
      if x.key.Name? {
        SensitiveNames(lower(x.key.text));
      }
      DomainIsDomain(x.value);
      RedactLogs(lower, x.value);
    }
  }
}
