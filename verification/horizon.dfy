/** The navigable date window (planner.js:39-49), on whole day numbers. */
module Horizon {

  /** The first reachable day: `today - pastDays`. */
  function Earliest(today: int, pastDays: int): int {
    today - pastDays
  }

  /** The last reachable day: `today + (horizonDays - 1)`. */
  function Latest(today: int, horizonDays: int): int {
    today + horizonDays - 1
  }

  function Distance(a: int, b: int): nat {
    if a >= b then a - b else b - a
  }

  /** `clampDateToHorizon`: a day before the window becomes its first day, a
      day after it its last day, any other day is kept. With a non-empty
      window the result is the day of the window nearest to `d`. */
  function ClampDate(d: int, today: int, pastDays: int, horizonDays: int): (r: int)
    ensures pastDays + horizonDays >= 1 ==>
      && Earliest(today, pastDays) <= r <= Latest(today, horizonDays)
      && forall x | Earliest(today, pastDays) <= x <= Latest(today, horizonDays) ::
           Distance(r, d) <= Distance(x, d)
    ensures Earliest(today, pastDays) <= d <= Latest(today, horizonDays) ==> r == d
  {
    var lo := Earliest(today, pastDays);
    var hi := Latest(today, horizonDays);
    if d < lo then lo else if d > hi then hi else d
  }

  /** Clamping twice is clamping once, whenever the window is non-empty. */
  lemma ClampIdempotent(d: int, today: int, pastDays: int, horizonDays: int)
    requires pastDays + horizonDays >= 1
    ensures var c := ClampDate(d, today, pastDays, horizonDays);
            ClampDate(c, today, pastDays, horizonDays) == c
  {
  }

  /** Clamping keeps the order of days. */
  lemma ClampMonotone(d1: int, d2: int, today: int, pastDays: int, horizonDays: int)
    requires pastDays + horizonDays >= 1 && d1 <= d2
    ensures ClampDate(d1, today, pastDays, horizonDays) <= ClampDate(d2, today, pastDays, horizonDays)
  {
  }

  /** With an empty window (`pastDays + horizonDays < 1`) the clamp is not
      idempotent: a day before the window is sent to its first day, which
      lies after its last day and is sent there on the next clamp. */
  lemma EmptyWindowNotIdempotent(today: int, pastDays: int, horizonDays: int)
    requires pastDays + horizonDays < 1
    ensures var d := Earliest(today, pastDays) - 1;
            var c := ClampDate(d, today, pastDays, horizonDays);
            ClampDate(c, today, pastDays, horizonDays) != c
  {
  }
}
