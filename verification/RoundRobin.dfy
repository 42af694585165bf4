/** The scheduler's turn: with the set of ready terminals fixed, every one of them is picked
    once between two picks of any other. */
module RoundRobin {
  import opened KernelState

  /** How far round the ring x lies beyond a. */
  function Distance(a: nat, x: nat, n: nat): (d: nat)
    requires a < n && x < n
    ensures d < n && Around(a, d, n) == x
  {
    if x >= a then x - a else x - a + n
  }

  /** The pick after c is the ready terminal closest beyond it. */
  lemma {:induction false} NextIsClosest(terms: seq<Terminal>, c: nat, d: nat)
    requires c < |terms| && 1 <= d <= |terms| && terms[c].ready
    ensures var q := NextReady(terms, c, d);
      && terms[q].ready
      && (q == c || Distance(c, q, |terms|) >= d)
      && forall x :: 0 <= x < |terms| && terms[x].ready && d <= Distance(c, x, |terms|) ==>
           q != c && Distance(c, q, |terms|) <= Distance(c, x, |terms|)
    decreases |terms| - d
  {
    var n := |terms|;
    if d < n && !terms[Around(c, d, n)].ready {
      NextIsClosest(terms, c, d + 1);
      forall x | 0 <= x < n && terms[x].ready && d <= Distance(c, x, n) ensures d + 1 <= Distance(c, x, n) {
        assert Around(c, Distance(c, x, n), n) == x;
      }
    }
  }

  /** Seen from a: the next pick lies further round, with no ready terminal passed over,
      or else every ready terminal beyond c has had its turn and a is next. */
  lemma {:induction false} NextFrom(terms: seq<Terminal>, a: nat, c: nat)
    requires a < |terms| && c < |terms| && terms[a].ready && terms[c].ready
    ensures var q := NextReady(terms, c, 1);
      && terms[q].ready
      && (q != a ==> Distance(a, q, |terms|) > Distance(a, c, |terms|))
      && forall x :: 0 <= x < |terms| && terms[x].ready && Distance(a, x, |terms|) > Distance(a, c, |terms|) ==>
           q != a && Distance(a, q, |terms|) <= Distance(a, x, |terms|)
  {
    var n := |terms|;
    NextIsClosest(terms, c, 1);
    var q := NextReady(terms, c, 1);
    forall x | 0 <= x < n && terms[x].ready && Distance(a, x, n) > Distance(a, c, n)
      ensures q != a && Distance(a, q, n) <= Distance(a, x, n)
    {
      assert Distance(c, x, n) == Distance(a, x, n) - Distance(a, c, n);
      assert Distance(c, q, n) <= Distance(c, x, n);
    }
    assert a != c ==> Distance(c, a, n) == n - Distance(a, c, n);
  }

  /** The picks after c up to the next pick of a. */
  function Round(terms: seq<Terminal>, a: nat, c: nat): (picks: seq<nat>)
    requires a < |terms| && c < |terms| && terms[a].ready && terms[c].ready
    decreases |terms| - Distance(a, c, |terms|)
  {
    var q := NextReady(terms, c, 1);
    NextFrom(terms, a, c);
    if q == a then [] else [q] + Round(terms, a, q)
  }

  lemma {:induction false} RoundPicksRest(terms: seq<Terminal>, a: nat, c: nat, b: nat)
    requires a < |terms| && c < |terms| && terms[a].ready && terms[c].ready && b < |terms|
    ensures multiset(Round(terms, a, c))[b]
      == if terms[b].ready && Distance(a, b, |terms|) > Distance(a, c, |terms|) then 1 else 0
    decreases |terms| - Distance(a, c, |terms|)
  {
    var n := |terms|;
    var q := NextReady(terms, c, 1);
    NextFrom(terms, a, c);
    if q != a {
      RoundPicksRest(terms, a, q, b);
      assert Around(a, Distance(a, b, n), n) == b && Around(a, Distance(a, q, n), n) == q;
    }
  }

  /** Between one pick of terminal a and the next, every other ready terminal is picked
      exactly once and nothing else is picked. */
  lemma {:induction false} EveryoneOnceARound(terms: seq<Terminal>, a: nat, b: nat)
    requires a < |terms| && terms[a].ready && b < |terms| && b != a
    ensures multiset(Round(terms, a, a))[b] == if terms[b].ready then 1 else 0
    ensures multiset(Round(terms, a, a))[a] == 0
  {
    RoundPicksRest(terms, a, a, b);
    RoundPicksRest(terms, a, a, a);
  }

  // ----------------------------------------------------------- and the ticks

  function Ticks(k: Kernel, m: nat): (r: Kernel)
    requires Shape(k)
    ensures Shape(r)
    decreases m
  {
    if m == 0 then k else Ticks(Tick(k, -1), m - 1)
  }

  predicate AllStarted(k: Kernel) {
    forall t :: 0 <= t < |k.terms| && k.terms[t].ready ==> k.terms[t].running
  }

  /** Ticks without a switch follow the round: the m-th tick selects the m-th pick, and one
      tick more comes back to a. */
  lemma {:induction false} TicksFollowRound(k: Kernel, a: nat, m: nat)
    requires Shape(k) && AllStarted(k) && k.counter == k.schedule
    requires a < |k.terms| && k.terms[a].ready && k.terms[k.counter].ready
    requires m <= |Round(k.terms, a, k.counter)|
    ensures var picks := Round(k.terms, a, k.counter);
      && Ticks(k, m + 1).schedule == (if m < |picks| then picks[m] else a)
      && Ticks(k, m + 1).terms == k.terms
    decreases m
  {
    var t := Tick(k, -1);
    NextFrom(k.terms, a, k.counter);
    assert t.schedule == t.counter == NextReady(k.terms, k.counter, 1) && t.terms == k.terms;
    assert Ticks(k, m + 1) == Ticks(t, m);
    if m > 0 { TicksFollowRound(t, a, m - 1); }
  }
}
