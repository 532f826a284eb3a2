/** The guards the route macros derive from metadata, against what the documentation says about the route. */
module RouteGuards {
  import opened Prelude
  import opened Pipeline
  import opened Text

  /** Metadata of a controller or of one of its methods; user guards are named by their type's text. */
  datatype Meta = Meta(roles: seq<string>, requiresAuth: bool, guards: seq<string>)

  // ---------------------------------------------------------------- merging lists

  method MergeStringLists(primary: seq<string>, secondary: seq<string>) returns (merged: seq<string>)
    ensures merged == AddNew(primary, secondary)
  {
    merged := primary;
    for i := 0 to |secondary|
      invariant AddNew(primary, secondary) == AddNew(merged, secondary[i..])
    {
      assert secondary[i..][0] == secondary[i] && secondary[i..][1..] == secondary[i + 1..];
      if secondary[i] !in merged {
        merged := merged + [secondary[i]];
      }
    }
  }

  /** Where a value first occurs. */
  function FirstAt(s: seq<string>, x: string): (i: nat)
    ensures i <= |s| && (x in s ==> i < |s| && s[i] == x)
  {
    if s == [] || s[0] == x then 0 else 1 + FirstAt(s[1..], x)
  }

  /**
   `merged` is `primary`, then the other members of `secondary`, each once, in the order of their first occurrence.
   */
  ghost predicate IsOrderedUnion(primary: seq<string>, secondary: seq<string>, merged: seq<string>) {
    && primary <= merged
    && (forall x :: x in merged <==> x in primary || x in secondary)
    && (forall i | |primary| <= i < |merged| :: merged[i] !in primary && merged[i] in secondary)
    && (forall i, j | |primary| <= i < j < |merged| :: FirstAt(secondary, merged[i]) < FirstAt(secondary, merged[j]))
  }

  lemma {:induction false} MergeIsOrderedUnion(primary: seq<string>, secondary: seq<string>)
    ensures IsOrderedUnion(primary, secondary, AddNew(primary, secondary))
    decreases |secondary|
  {
    if secondary != [] {
      var x, rest := secondary[0], secondary[1..];
      assert secondary == [x] + rest;
      var next := if x in primary then primary else primary + [x];
      MergeIsOrderedUnion(next, rest);
      var merged := AddNew(primary, secondary);
      forall i, j | |primary| <= i < j < |merged|
        ensures FirstAt(secondary, merged[i]) < FirstAt(secondary, merged[j])
      {
        if i < |next| {
          assert merged[i] == x && merged[j] !in next;
        } else {
          assert merged[i] !in next && merged[j] !in next;
        }
      }
    }
  }

  // ---------------------------------------------------------------- built-in guards

  function HasRole(ctx: Context, role: string): bool {
    ctx.identity.Some? && role in ctx.identity.value.roles
  }

  const UNAUTHORIZED := Exception(401, "unauthorized", "Authentication required")

  function Forbidden(roles: seq<string>): HttpException {
    Exception(403, "forbidden", "Missing required role. Expected one of: " + Join(roles, ", "))
  }

  function RequireAuthentication(ctx: Context): Option<HttpException> {
    if ctx.identity.Some? then None else Some(UNAUTHORIZED)
  }

  function HasAnyRole(roles: seq<string>, ctx: Context): bool {
    roles != [] && (HasRole(ctx, roles[0]) || HasAnyRole(roles[1..], ctx))
  }

  function RequireRoles(roles: seq<string>): Guard {
    (ctx: Context) =>
      if ctx.identity.None? then Some(UNAUTHORIZED)
      else if HasAnyRole(roles, ctx) then None
      else Some(Forbidden(roles))
  }

  // ---------------------------------------------------------------- what the macros derive

  function MergeMeta(controller: Meta, route: Meta): Meta {
    var roles := AddNew(controller.roles, route.roles);
    Meta(roles, controller.requiresAuth || route.requiresAuth || roles != [], AddNew(controller.guards, route.guards))
  }

  /** The guard list of the generated route: user guards, then at most one of the two built-in guards. */
  function DerivedGuards(meta: Meta, user: string -> Guard): seq<Guard> {
    UserGuards(meta.guards, user)
    + (if meta.requiresAuth && meta.roles == [] then [RequireAuthentication] else [])
    + (if meta.roles == [] then [] else [RequireRoles(meta.roles)])
  }

  function UserGuards(names: seq<string>, user: string -> Guard): (guards: seq<Guard>)
    ensures |guards| == |names| && forall i | 0 <= i < |names| :: guards[i] == user(names[i])
  {
    if names == [] then [] else [user(names[0])] + UserGuards(names[1..], user)
  }

  /** What the documentation of the merged metadata promises of an accepted request. */
  ghost predicate MeetsDocumentation(meta: Meta, ctx: Context) {
    && (meta.requiresAuth ==> ctx.identity.Some?)
    && (meta.roles != [] ==> exists role :: role in meta.roles && HasRole(ctx, role))
  }

  lemma {:induction false} AnyRoleMeans(roles: seq<string>, ctx: Context)
    ensures HasAnyRole(roles, ctx) <==> exists role :: role in roles && HasRole(ctx, role)
  {
    if roles != [] {
      AnyRoleMeans(roles[1..], ctx);
      assert roles == [roles[0]] + roles[1..];
      if HasRole(ctx, roles[0]) {
        assert roles[0] in roles;
      }
      if role :| role in roles[1..] && HasRole(ctx, role) {
        assert role in roles;
      }
    }
  }

  lemma {:induction false} RunGuardsAppend(a: seq<Guard>, b: seq<Guard>, ctx: Context)
    ensures RunGuards(a + b, ctx) == if RunGuards(a, ctx).Some? then RunGuards(a, ctx) else RunGuards(b, ctx)
    decreases |a|
  {
    if a == [] {
      assert a + b == b;
    } else {
      assert (a + b)[1..] == a[1..] + b;
      RunGuardsAppend(a[1..], b, ctx);
    }
  }

  /**
   Documentation and enforcement agree: a request passes the derived guards exactly when the user's own guards accept
   it and it meets what the documentation states. Otherwise it is rejected by the first user guard that objects, then
   with 401 when it is anonymous, then with 403.
   */
  lemma {:induction false} GuardsEnforceDocumentation(controller: Meta, route: Meta, user: string -> Guard,
      ctx: Context)
    ensures var meta := MergeMeta(controller, route);
      var own, all := RunGuards(UserGuards(meta.guards, user), ctx), RunGuards(DerivedGuards(meta, user), ctx);
      && (all.None? <==> own.None? && MeetsDocumentation(meta, ctx))
      && (own.Some? ==> all == own)
      && (own.None? && all.Some? ==> all.value == if ctx.identity.None? then UNAUTHORIZED else Forbidden(meta.roles))
  {
    var meta := MergeMeta(controller, route);
    var own := UserGuards(meta.guards, user);
    var auth: seq<Guard> := if meta.requiresAuth && meta.roles == [] then [RequireAuthentication] else [];
    var role: seq<Guard> := if meta.roles == [] then [] else [RequireRoles(meta.roles)];
    RunGuardsAppend(own + auth, role, ctx);
    RunGuardsAppend(own, auth, ctx);
    AnyRoleMeans(meta.roles, ctx);
    if meta.roles != [] {
      assert role[1..] == [] && auth == [];
      assert RunGuards(role, ctx) == role[0](ctx);
    } else if meta.requiresAuth {
      assert auth[1..] == [] && role == [];
      assert RunGuards(auth, ctx) == auth[0](ctx);
    }
  }

  lemma {:induction false} UserGuardsAccept(names: seq<string>, user: string -> Guard, ctx: Context)
    ensures RunGuards(UserGuards(names, user), ctx).None? <==> forall name | name in names :: user(name)(ctx).None?
  {
    if names != [] {
      UserGuardsAccept(names[1..], user, ctx);
      assert names == [names[0]] + names[1..];
    }
  }

  /**
   The same in terms of what controller and method declare: a request passes the derived guards exactly when every
   guard that either names accepts it, it is identified if either asks for authentication or names a role, and it holds
   one of all the roles named, if there are any.
   */
  lemma {:induction false} GuardsEnforceDeclarations(controller: Meta, route: Meta, user: string -> Guard,
      ctx: Context)
    ensures var roles := controller.roles + route.roles;
      RunGuards(DerivedGuards(MergeMeta(controller, route), user), ctx).None?
      <==> && (forall name | name in controller.guards || name in route.guards :: user(name)(ctx).None?)
           && (controller.requiresAuth || route.requiresAuth || roles != [] ==> ctx.identity.Some?)
           && (roles != [] ==> exists role :: role in roles && HasRole(ctx, role))
  {
    var meta, roles := MergeMeta(controller, route), controller.roles + route.roles;
    MergeIsOrderedUnion(controller.roles, route.roles);
    MergeIsOrderedUnion(controller.guards, route.guards);
    GuardsEnforceDocumentation(controller, route, user, ctx);
    UserGuardsAccept(meta.guards, user, ctx);
    assert forall role :: role in meta.roles <==> role in roles;
    assert meta.roles == [] <==> roles == [] by {
      assert meta.roles != [] ==> meta.roles[0] in roles;
      assert roles != [] ==> roles[0] in meta.roles;
    }
  }
}
