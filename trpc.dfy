/**
 * src/trpc/trpc.ts: the procedure builders. A procedure is the chain of
 * middlewares added with `.use`; each either calls `next()` or throws.
 */
module Trpc {
  import opened Wrappers

  /** The part of the request context the guards read: `ctx.session?.user?.role`. */
  datatype SessionUser = SessionUser(role: Option<string>)
  datatype Session = Session(user: Option<SessionUser>)
  datatype Context = Context(session: Option<Session>)

  datatype Outcome = Proceed | Thrown(message: string)

  /** The middlewares used in this file. */
  datatype Guard = RequireUser | RequireAdmin

  function SessionUserOf(ctx: Context): Option<SessionUser> {
    if ctx.session.Some? then ctx.session.value.user else None
  }

  /** One middleware: throw, or call next(). */
  function RunGuard(g: Guard, ctx: Context): (r: Outcome)
    ensures g == RequireUser ==> (r == Thrown("Unauthorized") <==> SessionUserOf(ctx).None?)
    ensures g == RequireAdmin ==>
      (r == Proceed <==> SessionUserOf(ctx).Some? && SessionUserOf(ctx).value.role == Some("admin"))
    ensures r == Proceed || r == Thrown(if g == RequireUser then "Unauthorized" else "Forbidden")
  {
    match g
    case RequireUser =>
      if SessionUserOf(ctx).None? then Thrown("Unauthorized") else Proceed
    case RequireAdmin =>
      var user := SessionUserOf(ctx);
      if user.None? || user.value.role != Some("admin") then Thrown("Forbidden") else Proceed
  }

  /** A chain of middlewares runs in order and stops at the first that throws. */
  function RunChain(chain: seq<Guard>, ctx: Context): (r: Outcome)
    ensures r == Proceed <==> forall i :: 0 <= i < |chain| ==> RunGuard(chain[i], ctx) == Proceed
  {
    if chain == [] then Proceed
    else
      match RunGuard(chain[0], ctx)
      case Thrown(m) => Thrown(m)
      case Proceed =>
        assert forall i :: 1 <= i < |chain| ==> chain[i] == chain[1..][i - 1];
        RunChain(chain[1..], ctx)
  }

  /** The middleware at index `i` is the first in the chain to throw, and it throws `r`. */
  predicate FirstThrowAt(chain: seq<Guard>, ctx: Context, i: nat, r: Outcome) {
    i < |chain| && RunGuard(chain[i], ctx) == r && r.Thrown?
    && forall j :: 0 <= j < i ==> RunGuard(chain[j], ctx) == Proceed
  }

  /** What a chain throws is what its first throwing middleware throws. */
  lemma {:induction false} FirstThrowWins(chain: seq<Guard>, ctx: Context)
    requires RunChain(chain, ctx).Thrown?
    ensures exists i: nat :: FirstThrowAt(chain, ctx, i, RunChain(chain, ctx))
  {
    var r := RunChain(chain, ctx);
    if RunGuard(chain[0], ctx) == Proceed {
      var tail := chain[1..];
      assert RunChain(tail, ctx) == r;
      FirstThrowWins(tail, ctx);
      var k: nat :| FirstThrowAt(tail, ctx, k, r);
      assert chain[k + 1] == tail[k];
      forall j | 0 <= j < k + 1 ensures RunGuard(chain[j], ctx) == Proceed {
        if j > 0 {
          assert chain[j] == tail[j - 1];
        }
      }
      assert FirstThrowAt(chain, ctx, k + 1, r);
    } else {
      assert FirstThrowAt(chain, ctx, 0, r);
    }
  }

  /** `.use` appends a middleware to the chain. */
  function Use(chain: seq<Guard>, g: Guard): seq<Guard> {
    chain + [g]
  }

  const PUBLIC_PROCEDURE: seq<Guard> := []
  const PROTECTED_PROCEDURE: seq<Guard> := Use(PUBLIC_PROCEDURE, RequireUser)
  const ADMIN_PROCEDURE: seq<Guard> := Use(PROTECTED_PROCEDURE, RequireAdmin)

  /** publicProcedure never rejects. */
  lemma PublicNeverRejects(ctx: Context)
    ensures RunChain(PUBLIC_PROCEDURE, ctx) == Proceed
  {
  }

  /** protectedProcedure rejects with "Unauthorized" exactly when there is no session user. */
  lemma ProtectedIff(ctx: Context)
    ensures RunChain(PROTECTED_PROCEDURE, ctx) == (if SessionUserOf(ctx).None? then Thrown("Unauthorized") else Proceed)
  {
    assert PROTECTED_PROCEDURE == [RequireUser];
  }

  /**
   * adminProcedure: without a session user the protected check answers first
   * with "Unauthorized"; with one, it passes exactly when the role is "admin"
   * and otherwise gives "Forbidden".
   */
  lemma AdminIff(ctx: Context)
    ensures SessionUserOf(ctx).None? ==> RunChain(ADMIN_PROCEDURE, ctx) == Thrown("Unauthorized")
    ensures SessionUserOf(ctx).Some? ==>
      RunChain(ADMIN_PROCEDURE, ctx) == (if SessionUserOf(ctx).value.role == Some("admin") then Proceed else Thrown("Forbidden"))
  {
    assert ADMIN_PROCEDURE == [RequireUser, RequireAdmin];
    assert ADMIN_PROCEDURE[1..] == [RequireAdmin];
  }

  /** Whatever passes adminProcedure passes protectedProcedure. */
  lemma AdminImpliesProtected(ctx: Context)
    requires RunChain(ADMIN_PROCEDURE, ctx) == Proceed
    ensures RunChain(PROTECTED_PROCEDURE, ctx) == Proceed
  {
    AdminIff(ctx);
    ProtectedIff(ctx);
  }
}
