/** The events the connector hands to its consumer, reduced to what identifies and dates them,
    and the consumer's (user, role) view obtained by folding them. */
module Events {
  import opened Wrappers

  /** Nanoseconds since 0000-01-01T00:00:00Z in the proleptic Gregorian calendar. */
  type Instant = int

  /** Go's zero time.Time, 0001-01-01T00:00:00Z: year 0 is a leap year of 366 days. */
  const ZERO_TIME: Instant := 366 * 86400 * 1_000_000_000

  const USER_TYPE := "user"
  const ROLE_TYPE := "role"

  datatype Event =
    | ResourceChange(id: string, at: Instant, resourceType: string, resource: string)
    | CreateGrant(id: string, at: Instant, role: string, user: string)
    | CreateRevoke(id: string, at: Instant, role: string, user: string)
    | Usage(id: string, at: Instant, cluster: string, user: string)

  datatype Pair = Pair(user: string, role: string)

  type View = set<Pair>

  /** What one event does to the view: grants add, revokes remove, the rest leave it alone. */
  function Effect(view: View, e: Event): View {
    match e
    case CreateGrant(_, _, role, user) => view + {Pair(user, role)}
    case CreateRevoke(_, _, role, user) => view - {Pair(user, role)}
    case _ => view
  }

  function Apply(view: View, es: seq<Event>): View
    decreases es
  {
    if es == [] then view else Apply(Effect(view, es[0]), es[1..])
  }

  predicate Grants(e: Event, p: Pair) {
    e.CreateGrant? && e.user == p.user && e.role == p.role
  }

  predicate Revokes(e: Event, p: Pair) {
    e.CreateRevoke? && e.user == p.user && e.role == p.role
  }

  /** The last thing `es` says about a pair: granted, revoked, or nothing. */
  function LastChange(es: seq<Event>, p: Pair): Option<bool> {
    if es == [] then None
    else
      var e := es[|es| - 1];
      if Grants(e, p) then Some(true)
      else if Revokes(e, p) then Some(false)
      else LastChange(es[..|es| - 1], p)
  }

  lemma {:induction false} ApplyConcat(view: View, a: seq<Event>, b: seq<Event>)
    ensures Apply(view, a + b) == Apply(Apply(view, a), b)
    decreases a
  {
    if a == [] {
      assert a + b == b;
    } else {
      assert (a + b)[1..] == a[1..] + b;
      ApplyConcat(Effect(view, a[0]), a[1..], b);
    }
  }

  /** The folded view is decided pair by pair by the last event about the pair. */
  lemma {:induction false} ApplyByLastChange(view: View, es: seq<Event>, p: Pair)
    ensures p in Apply(view, es) <==> match LastChange(es, p) case None => p in view case Some(b) => b
  {
    if es != [] {
      var n := |es| - 1;
      ApplyByLastChange(view, es[..n], p);
      ApplyConcat(view, es[..n], es[n..]);
      assert es == es[..n] + es[n..];
      assert Apply(Apply(view, es[..n]), es[n..]) == Effect(Apply(view, es[..n]), es[n]);
    }
  }

  lemma {:induction false} LastChangeConcat(a: seq<Event>, b: seq<Event>, p: Pair)
    ensures LastChange(a + b, p) == if LastChange(b, p).Some? then LastChange(b, p) else LastChange(a, p)
  {
    if b == [] {
      assert a + b == a;
    } else {
      assert (a + b)[..|a + b| - 1] == a + b[..|b| - 1];
      LastChangeConcat(a, b[..|b| - 1], p);
    }
  }

  /** Replaying a prefix, a suffix, or the whole of what is (or will be) applied changes nothing. */
  lemma ReplayAbsorbed(view: View, a: seq<Event>, b: seq<Event>)
    ensures Apply(Apply(view, a + b), b) == Apply(view, a + b)
    ensures Apply(Apply(view, b), a + b) == Apply(view, a + b)
    ensures Apply(Apply(view, a), a + b) == Apply(view, a + b)
  {
    forall p: Pair
      ensures p in Apply(Apply(view, a + b), b) <==> p in Apply(view, a + b)
      ensures p in Apply(Apply(view, b), a + b) <==> p in Apply(view, a + b)
      ensures p in Apply(Apply(view, a), a + b) <==> p in Apply(view, a + b)
    {
      LastChangeConcat(a, b, p);
      ApplyByLastChange(view, a, p);
      ApplyByLastChange(view, b, p);
      ApplyByLastChange(view, a + b, p);
      ApplyByLastChange(Apply(view, a + b), b, p);
      ApplyByLastChange(Apply(view, b), a + b, p);
      ApplyByLastChange(Apply(view, a), a + b, p);
    }
  }
}
