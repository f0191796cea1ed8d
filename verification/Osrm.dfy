/**
 * The OSRM navigation source: a route, a pointer to the next manoeuvre, the last fix and a
 * cached instruction, driven by destinations, fixes and fetches that may fail. Distance is
 * an arbitrary function of a fix and a point; a fetch's outcome comes with its event.
 */
module Osrm {
  import opened Bytes

  const ADVANCE_RADIUS: real := 25.0
  const RECALC_RADIUS: real := 75.0

  datatype Point = Point(lat: real, lon: real)
  datatype RouteStep = RouteStep(at: Point, distance: real, verb: string, name: string, turnId: U32)
  type Route = seq<RouteStep>
  datatype Destination = Destination(at: Point, tag: string)
  datatype Instruction = Instruction(verb: string, metres: int, onto: Option<string>, turnId: U32, distance: U32)

  type Distance = (Point, Point) -> real

  datatype Nav = Nav(
    destination: Option<Destination>,
    route: Option<Route>,
    next: nat,
    lastFix: Option<Point>,
    current: Option<Instruction>)

  const FRESH: Nav := Nav(None, None, 0, None, None)

  // Half away from zero.
  function Round(d: real): int {
    if d >= 0.0 then (d + 0.5).Floor else -(0.5 - d).Floor
  }

  // A negative distance shows as zero, one too large as the largest.
  function ToU32(n: int): U32 {
    if n < 0 then 0 else if n < 0x1_0000_0000 then n else 0xFFFF_FFFF
  }

  function Shown(step: RouteStep, d: real): Instruction {
    Instruction(step.verb, Round(d), if step.name == "" then None else Some(step.name), step.turnId, ToU32(Round(d)))
  }

  /** What the driver should see: the next manoeuvre, at its distance from the last fix. */
  function Rendering(dist: Distance, route: Option<Route>, next: nat, fix: Option<Point>): Option<Instruction> {
    match (route, fix)
    case (Some(steps), Some(p)) =>
      if next < |steps| then Some(Shown(steps[next], dist(p, steps[next].at))) else None
    case _ => None
  }

  // The first manoeuvre shown on a new route: the first turn, if there is one.
  function FirstShown(steps: Route): nat { if |steps| >= 2 then 1 else 0 }

  predicate Near(dist: Distance, fix: Point, steps: Route, i: nat) {
    i < |steps| && dist(fix, steps[i].at) < ADVANCE_RADIUS
  }

  // Off the route: further than the radius from every manoeuvre, and there is one.
  predicate Far(dist: Distance, fix: Point, steps: Route) {
    steps != [] && forall i :: 0 <= i < |steps| ==> dist(fix, steps[i].at) > RECALC_RADIUS
  }

  predicate Advances(dist: Distance, fix: Point, steps: Route, next: nat) {
    Near(dist, fix, steps, next) && next + 1 < |steps|
  }

  function OnRoute(dist: Distance, n: Nav, steps: Route, next: nat, fix: Point): Nav {
    Nav(n.destination, Some(steps), next, Some(fix), Rendering(dist, Some(steps), next, Some(fix)))
  }

  datatype Event =
    | SetDestination(dest: Destination, fetched: Result<Route>)
    | UpdatePosition(fix: Point, fetched: Result<Route>)

  /** The effect of one call; the fetch outcome is used only where a fetch is made. */
  function After(dist: Distance, n: Nav, e: Event): Nav {
    match e
    case SetDestination(d, fetched) =>
      if n.lastFix.Some? && fetched.Ok? then
        OnRoute(dist, n.(destination := Some(d)), fetched.value, FirstShown(fetched.value), n.lastFix.value)
      else Nav(Some(d), None, 0, n.lastFix, None)
    case UpdatePosition(fix, fetched) =>
      if n.destination == None then n.(lastFix := Some(fix))
      else match n.route
        case None =>
          if fetched.Ok? then OnRoute(dist, n, fetched.value, FirstShown(fetched.value), fix)
          else n.(lastFix := Some(fix))
        case Some(steps) =>
          if Far(dist, fix, steps) && fetched.Ok? then OnRoute(dist, n, fetched.value, FirstShown(fetched.value), fix)
          else OnRoute(dist, n, steps, if Advances(dist, fix, steps, n.next) then n.next + 1 else n.next, fix)
  }

  // What the call returns.
  function Reply(dist: Distance, n: Nav, e: Event): Result<Option<Instruction>> {
    match e
    case SetDestination(_, fetched) =>
      if n.lastFix.Some? && fetched.Err? then Err else Ok(After(dist, n, e).current)
    case UpdatePosition(_, fetched) =>
      if n.destination.Some? && n.route == None && fetched.Err? then Err
      else if n.destination == None then Ok(None)
      else Ok(After(dist, n, e).current)
  }

  // ---- the invariant --------------------------------------------------------------------------

  predicate InRange(route: Option<Route>, next: nat) {
    match route
    case None => next == 0
    case Some(steps) => next < |steps| || (steps == [] && next == 0)
  }

  predicate Valid(dist: Distance, n: Nav) {
    && (n.route.Some? ==> n.destination.Some? && n.lastFix.Some?)
    && InRange(n.route, n.next)
    && n.current == Rendering(dist, n.route, n.next, n.lastFix)
  }

  lemma EventKeepsValid(dist: Distance, n: Nav, e: Event)
    requires Valid(dist, n)
    ensures Valid(dist, After(dist, n, e))
  {
  }

  function Run(dist: Distance, n: Nav, es: seq<Event>): Nav
    decreases |es|
  {
    if es == [] then n else Run(dist, After(dist, n, es[0]), es[1..])
  }

  /**
   * In every run of destinations, fixes and fetches: the pointer is a step of the route, the
   * cached instruction is that step at its distance from the last fix.
   */
  lemma {:induction false} RunKeepsValid(dist: Distance, n: Nav, es: seq<Event>)
    requires Valid(dist, n)
    ensures Valid(dist, Run(dist, n, es))
    decreases |es|
  {
    hide Valid, After;
    if es != [] {
      EventKeepsValid(dist, n, es[0]);
      RunKeepsValid(dist, After(dist, n, es[0]), es[1..]);
    }
  }

  // ---- one route --------------------------------------------------------------------------------

  /**
   * A fix on a route: the route is replaced exactly when the fix is far from it and the fetch
   * succeeds. Otherwise it stays, and the pointer moves by one exactly when the fix is near the
   * step it points to and that is not the last; a failed recalculation moves nothing.
   */
  lemma FixOnRoute(dist: Distance, n: Nav, fix: Point, fetched: Result<Route>)
    requires Valid(dist, n) && n.route.Some?
    ensures var steps, far := n.route.value, Far(dist, fix, n.route.value);
            var r := After(dist, n, UpdatePosition(fix, fetched));
            && r.destination == n.destination && r.lastFix == Some(fix)
            && (far && fetched.Ok? ==> r.route == Some(fetched.value) && r.next == FirstShown(fetched.value))
            && (!(far && fetched.Ok?) ==>
                  && r.route == n.route && n.next <= r.next <= n.next + 1
                  && (r.next == n.next + 1 <==> Advances(dist, fix, steps, n.next)))
            && (far && fetched.Err? ==> r.next == n.next)
            && (n.next + 1 == |steps| && !(far && fetched.Ok?) ==> r.next == n.next)
  {
    if Far(dist, fix, n.route.value) && n.next < |n.route.value| {
      assert dist(fix, n.route.value[n.next].at) > RECALC_RADIUS;
    }
  }

  predicate StaysOn(dist: Distance, steps: Route, es: seq<Event>) {
    forall k :: 0 <= k < |es| ==> es[k].UpdatePosition? && (es[k].fetched.Err? || !Far(dist, es[k].fix, steps))
  }

  /**
   * Along any run of fixes that does not replace the route, the pointer never falls, rises at
   * most once per fix, and rests on the last step.
   */
  lemma {:induction false} PointerOnOneRoute(dist: Distance, n: Nav, es: seq<Event>)
    requires Valid(dist, n) && n.route.Some? && StaysOn(dist, n.route.value, es)
    ensures Run(dist, n, es).route == n.route
    ensures n.next <= Run(dist, n, es).next <= n.next + |es|
    ensures n.next + 1 == |n.route.value| ==> Run(dist, n, es).next == n.next
    decreases |es|
  {
    hide Valid, After, Far, Advances;
    if es != [] {
      FixOnRoute(dist, n, es[0].fix, es[0].fetched);
      EventKeepsValid(dist, n, es[0]);
      PointerOnOneRoute(dist, After(dist, n, es[0]), es[1..]);
    }
  }

  predicate Passes(dist: Distance, steps: Route, next: nat, es: seq<Event>) {
    forall k :: 0 <= k < |es| ==> es[k].UpdatePosition? && Near(dist, es[k].fix, steps, next + k)
  }

  // A drive that passes the manoeuvres in turn advances at each, whatever fetches would do.
  lemma {:induction false} DrivenThrough(dist: Distance, n: Nav, es: seq<Event>)
    requires Valid(dist, n) && n.route.Some? && n.next + |es| < |n.route.value|
    requires Passes(dist, n.route.value, n.next, es)
    ensures Run(dist, n, es).route == n.route && Run(dist, n, es).next == n.next + |es|
    decreases |es|
  {
    hide Valid, After, Far;
    if es != [] {
      var m := After(dist, n, es[0]);
      assert Near(dist, es[0].fix, n.route.value, n.next);
      NearIsNotFar(dist, es[0].fix, n.route.value, n.next);
      FixOnRoute(dist, n, es[0].fix, es[0].fetched);
      EventKeepsValid(dist, n, es[0]);
      assert Passes(dist, m.route.value, m.next, es[1..]);
      DrivenThrough(dist, m, es[1..]);
    }
  }

  // Advancing and recalculating exclude each other.
  lemma NearIsNotFar(dist: Distance, fix: Point, steps: Route, i: nat)
    requires Near(dist, fix, steps, i)
    ensures !Far(dist, fix, steps)
  {
    assert dist(fix, steps[i].at) < RECALC_RADIUS;
  }

  // A route without steps is never left by fixes alone: it has no manoeuvre to be far from.
  lemma {:induction false} EmptyRouteStays(dist: Distance, n: Nav, es: seq<Event>)
    requires Valid(dist, n) && n.route == Some([]) && forall k :: 0 <= k < |es| ==> es[k].UpdatePosition?
    ensures Run(dist, n, es).route == Some([]) && Run(dist, n, es).current == None
    decreases |es|
  {
    if es != [] {
      EventKeepsValid(dist, n, es[0]);
      EmptyRouteStays(dist, After(dist, n, es[0]), es[1..]);
    }
  }

  // ---- what the driver sees, step by step ------------------------------------------------------------

  // The instruction for a manoeuvre at distance d: its verb, turn and street; the distance to
  // the nearest metre, from zero to the largest 32-bit value.
  predicate Announces(c: Option<Instruction>, step: RouteStep, d: real) {
    && c.Some? && c.value.verb == step.verb && c.value.turnId == step.turnId
    && c.value.onto == (if step.name == "" then None else Some(step.name))
    && -0.5 <= d - c.value.metres as real <= 0.5
    && (0 <= c.value.metres < 0x1_0000_0000 ==> c.value.distance == c.value.metres)
    && (c.value.metres < 0 ==> c.value.distance == 0)
    && (c.value.metres >= 0x1_0000_0000 ==> c.value.distance == 0xFFFF_FFFF)
  }

  lemma RoundsToNearest(d: real)
    ensures -0.5 <= d - Round(d) as real <= 0.5
  {
  }

  lemma ShownAnnounces(step: RouteStep, d: real)
    ensures Announces(Some(Shown(step, d)), step, d)
  {
    RoundsToNearest(d);
  }

  // A fresh route begins with its first turn, behind the departure, if it has one.
  predicate Begins(dist: Distance, n: Nav, steps: Route, fix: Point) {
    && n.route == Some(steps)
    && (steps == [] ==> n.current == None)
    && (|steps| == 1 ==> n.next == 0 && Announces(n.current, steps[0], dist(fix, steps[0].at)))
    && (|steps| >= 2 ==> n.next == 1 && Announces(n.current, steps[1], dist(fix, steps[1].at)))
  }

  /**
   * What is shown on a fresh route: by a new destination with a fix at hand, by the first fix
   * after one, and by a fix more than 75 metres from every manoeuvre of the old route.
   */
  lemma FreshRouteShown(dist: Distance, n: Nav, dest: Destination, fix: Point, steps: Route)
    ensures n.lastFix == Some(fix) ==> Begins(dist, After(dist, n, SetDestination(dest, Ok(steps))), steps, fix)
    ensures n.destination.Some? && n.route == None ==>
              Begins(dist, After(dist, n, UpdatePosition(fix, Ok(steps))), steps, fix)
    ensures n.destination.Some? && n.route.Some? && n.route.value != []
            && (forall i :: 0 <= i < |n.route.value| ==> dist(fix, n.route.value[i].at) > 75.0) ==>
              Begins(dist, After(dist, n, UpdatePosition(fix, Ok(steps))), steps, fix)
  {
    if |steps| >= 2 {
      ShownAnnounces(steps[1], dist(fix, steps[1].at));
    } else if |steps| == 1 {
      ShownAnnounces(steps[0], dist(fix, steps[0].at));
    }
  }

  /**
   * What is shown on a route that is kept: the next manoeuvre at its distance from the fix;
   * one further when the fix is less than 25 metres from a manoeuvre that is not the last.
   */
  lemma KeptRouteShown(dist: Distance, n: Nav, fix: Point, fetched: Result<Route>)
    requires Valid(dist, n) && n.route.Some? && n.next < |n.route.value|
    requires fetched.Err? || exists i :: 0 <= i < |n.route.value| && dist(fix, n.route.value[i].at) <= 75.0
    ensures var steps, r := n.route.value, After(dist, n, UpdatePosition(fix, fetched));
            && r.route == n.route && r.next < |steps|
            && r.next == (if dist(fix, steps[n.next].at) < 25.0 && n.next + 1 < |steps| then n.next + 1 else n.next)
            && Announces(r.current, steps[r.next], dist(fix, steps[r.next].at))
  {
    var steps := n.route.value;
    ShownAnnounces(steps[n.next], dist(fix, steps[n.next].at));
    if n.next + 1 < |steps| {
      ShownAnnounces(steps[n.next + 1], dist(fix, steps[n.next + 1].at));
    }
  }

  /**
   * Fetches that fail. A new destination always clears the old route and its instruction and
   * is remembered; without a route the failure is the reply, and the next fix tries again; on a
   * route it is not reported.
   */
  lemma FailedFetches(dist: Distance, n: Nav, dest: Destination, fix: Point)
    requires Valid(dist, n)
    ensures var e := SetDestination(dest, Err);
            var r := After(dist, n, e);
            && r.destination == Some(dest) && r.route == None && r.current == None && r.next == 0
            && Reply(dist, n, e) == (if n.lastFix.Some? then Err else Ok(None))
    ensures var e := UpdatePosition(fix, Err);
            var r := After(dist, n, e);
            && r.destination == n.destination && r.route == n.route && r.lastFix == Some(fix)
            && (n.destination == None ==> r.current == None && Reply(dist, n, e) == Ok(None))
            && (n.destination.Some? && n.route == None ==> r.current == None && Reply(dist, n, e) == Err)
            && (n.route.Some? ==> Reply(dist, n, e) == Ok(r.current))
  {
  }

  // ---- the source object ---------------------------------------------------------------------------

  // The distance rebuild_current shows; without a fix, the length of a nearby step.
  function ShownDistance(dist: Distance, steps: Route, next: nat, fix: Option<Point>): real
    requires next < |steps|
  {
    if fix.Some? then dist(fix.value, steps[next].at)
    else if next > 0 then steps[next - 1].distance
    else if |steps| > 1 then steps[1].distance else 0.0
  }

  class OsrmNavSource {
    const dist: Distance
    var destination: Option<Destination>
    var route: Option<Route>
    var nextIdx: nat
    var lastFix: Option<Point>
    var current: Option<Instruction>

    ghost function View(): Nav
      reads this
    {
      Nav(destination, route, nextIdx, lastFix, current)
    }

    constructor (d: Distance)
      ensures dist == d && View() == FRESH && Valid(dist, View())
    {
      dist := d;
      destination, route, nextIdx, lastFix, current := None, None, 0, None, None;
    }

    method RebuildCurrent()
      modifies this`current
      ensures route.None? || route == Some([]) ==> current == None
      ensures route.Some? && route.value != [] ==>
                var idx := if nextIdx < |route.value| then nextIdx else |route.value| - 1;
                current == Some(Shown(route.value[idx], ShownDistance(dist, route.value, idx, lastFix)))
    {
      if route == None || route == Some([]) {
        current := None;
        return;
      }
      var steps := route.value;
      var idx := if nextIdx < |steps| then nextIdx else |steps| - 1;
      var d: real;
      if lastFix.Some? {
        d := dist(lastFix.value, steps[idx].at);
      } else if idx > 0 {
        d := steps[idx - 1].distance;
      } else {
        d := if |steps| > 1 then steps[1].distance else 0.0;
      }
      current := Some(Shown(steps[idx], d));
    }

    /** The smallest distance from the fix to a manoeuvre of the route. */
    method MinDistToRoute(fix: Point) returns (r: Option<real>)
      ensures r == None <==> route.None? || route == Some([])
      ensures r.Some? ==>
                && (exists i :: 0 <= i < |route.value| && r.value == dist(fix, route.value[i].at))
                && forall i :: 0 <= i < |route.value| ==> r.value <= dist(fix, route.value[i].at)
    {
      if route == None {
        return None;
      }
      var steps := route.value;
      r := None;
      for k := 0 to |steps|
        invariant r == None <==> k == 0
        invariant r.Some? ==> exists i :: 0 <= i < k && r.value == dist(fix, steps[i].at)
        invariant r.Some? ==> forall i :: 0 <= i < k ==> r.value <= dist(fix, steps[i].at)
      {
        var d := dist(fix, steps[k].at);
        if r == None || d < r.value {
          r := Some(d);
        }
      }
    }

    method Install(fetched: Route)
      modifies this`route, this`nextIdx, this`current
      requires lastFix.Some?
      ensures route == Some(fetched) && nextIdx == FirstShown(fetched)
      ensures current == Rendering(dist, route, nextIdx, lastFix)
    {
      route := Some(fetched);
      nextIdx := if |fetched| >= 2 then 1 else 0;
      RebuildCurrent();
    }

    method SetDestination(dest: Destination, fetched: Result<Route>) returns (r: Result<Option<Instruction>>)
      requires Valid(dist, View())
      modifies this
      ensures View() == After(dist, old(View()), Event.SetDestination(dest, fetched))
      ensures r == Reply(dist, old(View()), Event.SetDestination(dest, fetched))
      ensures Valid(dist, View())
    {
      destination := Some(dest);
      route, nextIdx, current := None, 0, None;
      if lastFix == None {
        return Ok(None);
      }
      if fetched.Err? {
        return Err;
      }
      Install(fetched.value);
      return Ok(current);
    }

    method UpdatePosition(fix: Point, fetched: Result<Route>) returns (r: Result<Option<Instruction>>)
      requires Valid(dist, View())
      modifies this
      ensures View() == After(dist, old(View()), Event.UpdatePosition(fix, fetched))
      ensures r == Reply(dist, old(View()), Event.UpdatePosition(fix, fetched))
      ensures Valid(dist, View())
    {
      ghost var n, e := View(), Event.UpdatePosition(fix, fetched);
      EventKeepsValid(dist, n, e);
      lastFix := Some(fix);
      if destination == None {
        return Ok(None);
      }
      if route == None {
        if fetched.Err? {
          return Err;
        }
        Install(fetched.value);
        return Ok(current);
      }
      var steps := route.value;
      if nextIdx < |steps| {
        var d := dist(fix, steps[nextIdx].at);
        if d < ADVANCE_RADIUS && nextIdx + 1 < |steps| {
          nextIdx := nextIdx + 1;
        }
      }
      var nearest := MinDistToRoute(fix);
      if nearest.Some? && nearest.value > RECALC_RADIUS && fetched.Ok? {
        route := Some(fetched.value);
        nextIdx := if |fetched.value| >= 2 then 1 else 0;
      }
      RebuildCurrent();
      return Ok(current);
    }
  }
}
