/**
 The shared scope of a `Duar` instance and the lazily created clients that must agree with it.
 Clients are handed out by reference, so re-scoping works by mutating them in place.
 */
module RealmScope {
  import opened Common

  /** `_effective_scope`, and the `service_name` of each client that exists. */
  datatype State = State(serviceName: string, scope: Option<string>, permissions: Option<string>, roles: Option<string>)

  /** The reply to `/realm/whoami`: `Unusable` for a failure, a status other than 200, or no JSON. */
  datatype Whoami = Unusable | Discovered(scope: Option<string>)

  datatype Op = UsePermissions | UseRoles | FetchWhoami(reply: Whoami)

  function Init(serviceName: string): State {
    State(serviceName, None, None, None)
  }

  function EffectiveScope(s: State): string {
    if Truthy(s.scope) then s.scope.value else s.serviceName
  }

  function Rescoped(client: Option<string>, scope: string): Option<string> {
    if client.Some? then Some(scope) else None
  }

  function Step(s: State, op: Op): State {
    match op
    case UsePermissions => if s.permissions.None? then s.(permissions := Some(EffectiveScope(s))) else s
    case UseRoles => if s.roles.None? then s.(roles := Some(EffectiveScope(s))) else s
    case FetchWhoami(Unusable) => s
    case FetchWhoami(Discovered(scope)) =>
      var f := s.(scope := scope);
      if Truthy(scope) then
        f.(permissions := Rescoped(s.permissions, scope.value), roles := Rescoped(s.roles, scope.value))
      else f
  }

  predicate Agrees(client: Option<string>, scope: string) {
    client.Some? ==> client.value == scope
  }

  /** Every existing client reads and writes under the effective scope. */
  predicate Coherent(s: State) {
    Agrees(s.permissions, EffectiveScope(s)) && Agrees(s.roles, EffectiveScope(s))
  }

  function Run(serviceName: string, ops: seq<Op>): State {
    if ops == [] then Init(serviceName) else Step(Run(serviceName, ops[..|ops| - 1]), ops[|ops| - 1])
  }

  // ---- What Duar answers ----

  /** Duar's `/realm/whoami` for a service in `realm`, if any: its scope is the realm's slug, else the service's own name. */
  function DuarReply(serviceName: string, realm: Option<string>): Whoami {
    Discovered(Some(if Truthy(realm) then realm.value else serviceName))
  }

  /** What arrives is Duar's reply to this service, whatever its realm is by now, or unusable. */
  ghost predicate FromDuar(serviceName: string, op: Op) {
    op.FetchWhoami? ==> op.reply.Unusable? || exists realm :: op.reply == DuarReply(serviceName, realm)
  }

  /** The scope in the last usable reply, and the service's own name before the first. */
  function ToldScope(serviceName: string, ops: seq<Op>): string {
    if ops == [] then serviceName
    else
      match ops[|ops| - 1]
      case FetchWhoami(Discovered(Some(scope))) => scope
      case _ => ToldScope(serviceName, ops[..|ops| - 1])
  }

  /**
   Over every sequence of lazy creations and discoveries, a service that enters, changes or leaves realms
   included: the effective scope and every existing client follow what Duar said last.
   */
  lemma {:induction false} ScopeFollowsDuar(serviceName: string, ops: seq<Op>)
    requires serviceName != ""
    requires forall op :: op in ops ==> FromDuar(serviceName, op)
    ensures var s := Run(serviceName, ops);
      && EffectiveScope(s) == ToldScope(serviceName, ops) != ""
      && Coherent(s)
      && s.permissions.Some? == (UsePermissions in ops) && s.roles.Some? == (UseRoles in ops)
  {
    if ops != [] {
      var rest, op := ops[..|ops| - 1], ops[|ops| - 1];
      assert ops == rest + [op];
      ScopeFollowsDuar(serviceName, rest);
      assert FromDuar(serviceName, op);
      assert Run(serviceName, rest).serviceName == serviceName by { NameStays(serviceName, rest); }
    } else {
      assert Run(serviceName, ops) == Init(serviceName);
    }
  }

  lemma {:induction false} NameStays(serviceName: string, ops: seq<Op>)
    ensures Run(serviceName, ops).serviceName == serviceName
  {
    if ops != [] {
      NameStays(serviceName, ops[..|ops| - 1]);
    }
  }

  // ---- Replies that do not come from Duar ----

  predicate Uses(op: Op) {
    op.UsePermissions? || op.UseRoles?
  }

  predicate Usable(op: Op) {
    op.FetchWhoami? && op.reply.Discovered?
  }

  /** A reply with a scope, and a malformed one with none or an empty one. */
  predicate NamesScope(op: Op) {
    Usable(op) && Truthy(op.reply.scope)
  }

  predicate Scopeless(op: Op) {
    Usable(op) && !Truthy(op.reply.scope)
  }

  /**
   The reply at `t` names a foreign scope, the next usable one, at `d`, is malformed, a client was used
   before `d`, and no reply after `d` names a scope.
   */
  ghost predicate Stranded(serviceName: string, ops: seq<Op>, t: nat, d: nat) {
    && t < d < |ops|
    && NamesScope(ops[t]) && ops[t].reply.scope.value != serviceName
    && Scopeless(ops[d])
    && (forall m :: t < m < d ==> !Usable(ops[m]))
    && (forall m :: d < m < |ops| ==> !NamesScope(ops[m]))
    && exists u :: 0 <= u < d && Uses(ops[u])
  }

  /** The reply at `t` is the last usable one, and names `scope`. */
  predicate LastNames(ops: seq<Op>, t: nat, scope: string) {
    t < |ops| && NamesScope(ops[t]) && ops[t].reply.scope.value == scope && forall m :: t < m < |ops| ==> !Usable(ops[m])
  }

  lemma {:induction false} RunFacts(serviceName: string, ops: seq<Op>)
    ensures var s := Run(serviceName, ops);
      && s.serviceName == serviceName
      && (s.permissions.Some? || s.roles.Some? <==> exists u :: 0 <= u < |ops| && Uses(ops[u]))
      && (forall scope :: scope != "" ==> (s.scope == Some(scope) <==> exists t :: LastNames(ops, t, scope)))
      && (Truthy(s.scope) ==> Coherent(s))
  {
    if ops != [] {
      var rest, op := ops[..|ops| - 1], ops[|ops| - 1];
      RunFacts(serviceName, rest);
      var s, f := Run(serviceName, rest), Run(serviceName, ops);
      assert Uses(op) ==> Uses(ops[|ops| - 1]);
      assert forall u :: 0 <= u < |rest| ==> ops[u] == rest[u];
      forall scope | scope != "" ensures f.scope == Some(scope) <==> exists t :: LastNames(ops, t, scope) {
        if NamesScope(op) {
          assert LastNames(ops, |ops| - 1, op.reply.scope.value);
        } else if !Usable(op) {
          assert forall t: nat :: LastNames(ops, t, scope) <==> LastNames(rest, t, scope);
        }
      }
    }
  }

  /** An older stranding lasts until a reply names a scope. */
  lemma StrandedBefore(serviceName: string, rest: seq<Op>, op: Op, t: nat, d: nat)
    requires d < |rest|
    ensures Stranded(serviceName, rest + [op], t, d) <==> Stranded(serviceName, rest, t, d) && !NamesScope(op)
  {
    var ops := rest + [op];
    assert ops[|rest|] == op && forall m :: 0 <= m < |rest| ==> ops[m] == rest[m];
  }

  /** A reply strands the clients when it is the first malformed one after a foreign scope. */
  lemma StrandedNow(serviceName: string, rest: seq<Op>, op: Op, t: nat)
    ensures Stranded(serviceName, rest + [op], t, |rest|) <==>
      && Scopeless(op) && t < |rest| && NamesScope(rest[t])
      && LastNames(rest, t, rest[t].reply.scope.value) && rest[t].reply.scope.value != serviceName
      && exists u :: 0 <= u < |rest| && Uses(rest[u])
  {
    var ops := rest + [op];
    assert ops[|rest|] == op && forall m :: 0 <= m < |rest| ==> ops[m] == rest[m];
  }

  /**
   Clients and effective scope are apart exactly when a malformed reply stranded the clients under a
   foreign scope, and stay so exactly until a reply names a scope again.
   */
  lemma {:induction false} CoherentUnlessStranded(serviceName: string, ops: seq<Op>)
    ensures !Coherent(Run(serviceName, ops)) <==> exists t: nat, d: nat :: Stranded(serviceName, ops, t, d)
  {
    if ops != [] {
      var rest, op := ops[..|ops| - 1], ops[|ops| - 1];
      assert ops == rest + [op];
      CoherentUnlessStranded(serviceName, rest);
      RunFacts(serviceName, rest);
      var s, f := Run(serviceName, rest), Run(serviceName, ops);
      if t: nat, d: nat :| Stranded(serviceName, ops, t, d) {
        if d < |rest| {
          StrandedBefore(serviceName, rest, op, t, d);
        } else {
          StrandedNow(serviceName, rest, op, t);
          assert s.scope == rest[t].reply.scope;
        }
        assert !Coherent(f);
      } else if !Coherent(s) {
        var t: nat, d: nat :| Stranded(serviceName, rest, t, d);
        StrandedBefore(serviceName, rest, op, t, d);
        assert Coherent(f);
      } else if Scopeless(op) && Truthy(s.scope) {
        var t: nat :| LastNames(rest, t, s.scope.value);
        StrandedNow(serviceName, rest, op, t);
        assert Coherent(f);
      } else {
        assert Coherent(f);
      }
    }
  }

  /** The failing family is inhabited: a client used in a realm, then a reply without a scope. */
  lemma ScopelessReplyStrands(serviceName: string, realm: string)
    requires realm != "" && realm != serviceName
    ensures !Coherent(Run(serviceName,
      [FetchWhoami(Discovered(Some(realm))), UsePermissions, FetchWhoami(Discovered(None))]))
  {
    var ops := [FetchWhoami(Discovered(Some(realm))), UsePermissions, FetchWhoami(Discovered(None))];
    assert Uses(ops[1]);
    assert Stranded(serviceName, ops, 0, 2);
    CoherentUnlessStranded(serviceName, ops);
  }

  // ---- The objects ----

  class Client {
    var serviceName: string

    constructor (serviceName: string)
      ensures this.serviceName == serviceName
    {
      this.serviceName := serviceName;
    }
  }

  class Duar {
    const serviceName: string
    var effectiveScope: Option<string>
    var permissions: Client?
    var roles: Client?

    constructor (serviceName: string)
      ensures this.serviceName == serviceName && permissions == null && roles == null
      ensures Abs() == Init(serviceName)
    {
      this.serviceName := serviceName;
      effectiveScope, permissions, roles := None, null, null;
    }

    ghost function Abs(): State
      reads this, permissions, roles
    {
      State(serviceName, effectiveScope,
        if permissions == null then None else Some(permissions.serviceName),
        if roles == null then None else Some(roles.serviceName))
    }

    method EffectiveScopeOf() returns (scope: string)
      ensures scope == EffectiveScope(Abs())
    {
      scope := if Truthy(effectiveScope) then effectiveScope.value else serviceName;
    }

    /** A client that exists is returned again, the same object. */
    method Permissions() returns (c: Client)
      modifies this
      ensures c == permissions && roles == old(roles)
      ensures old(permissions) == null || (permissions == old(permissions) && !fresh(c))
      ensures Abs() == Step(old(Abs()), UsePermissions)
    {
      if permissions == null {
        var scope := EffectiveScopeOf();
        permissions := new Client(scope);
      }
      c := permissions;
    }

    method Roles() returns (c: Client)
      modifies this
      ensures c == roles && permissions == old(permissions)
      ensures old(roles) == null || (roles == old(roles) && !fresh(c))
      ensures Abs() == Step(old(Abs()), UseRoles)
    {
      if roles == null {
        var scope := EffectiveScopeOf();
        roles := new Client(scope);
      }
      c := roles;
    }

    /** `get_auth` captures both clients by reference. */
    method GetAuth() returns (p: Client, r: Client)
      modifies this
      ensures p == permissions && r == roles
      ensures Abs() == Step(Step(old(Abs()), UsePermissions), UseRoles)
    {
      p := Permissions();
      r := Roles();
    }

    /** No client is replaced, so a reference captured earlier sees the new scope. */
    method FetchWhoami(reply: Whoami)
      modifies this, permissions, roles
      ensures permissions == old(permissions) && roles == old(roles)
      ensures Abs() == Step(old(Abs()), Op.FetchWhoami(reply))
    {
      if reply.Unusable? {
        return;
      }
      effectiveScope := reply.scope;
      if Truthy(effectiveScope) {
        if permissions != null {
          permissions.serviceName := effectiveScope.value;
        }
        if roles != null {
          roles.serviceName := effectiveScope.value;
        }
      }
    }
  }
}
