/** Fairness of round-robin selection on a wrapping 64-bit ticket (pkg/discovery). */
module RoundRobin {

  const WRAP: nat := 0x1_0000_0000_0000_0000

  /** The i-th ticket handed out by the counter, starting from `start`. */
  function Ticket(start: nat, i: nat): nat { (start + i) % WRAP }

  /** How many of the first `m` picks from counter value `start` choose position `p` of `n`. */
  function Count(start: nat, m: nat, n: nat, p: nat): nat
    requires n > 0
  {
    if m == 0 then 0
    else Count(start, m - 1, n, p) + if Ticket(start, m - 1) % n == p then 1 else 0
  }

  function Floor(m: nat, n: nat): nat requires n > 0 { m / n }

  function Ceiling(m: nat, n: nat): nat requires n > 0 { if m % n == 0 then m / n else m / n + 1 }

  ghost predicate Fair(start: nat, m: nat, n: nat)
    requires n > 0
  {
    forall p :: 0 <= p < n ==> Floor(m, n) <= Count(start, m, n, p) <= Ceiling(m, n)
  }

  // ---------------------------------------------------------------- counting without a wrap

  /** How many numbers below `x` leave remainder `p`. */
  function Hits(x: nat, n: nat, p: nat): nat
    requires n > 0
  {
    x / n + if x % n > p then 1 else 0
  }

  lemma {:induction false} MultiplesApart(a: nat, b: nat, n: nat)
    ensures a < b ==> a * n + n <= b * n
    ensures a <= b ==> a * n <= b * n
    decreases b
  {
    if a < b {
      MultiplesApart(a, b - 1, n);
      assert b * n == (b - 1) * n + n;
    }
  }

  lemma Difference(a: nat, b: nat, n: nat)
    ensures b * n - a * n == (b - a) * n
  {
  }

  lemma DivModUnique(x: nat, n: nat, q: nat, r: nat)
    requires n > 0 && x == q * n + r && r < n
    ensures x / n == q && x % n == r
  {
    var q', r' := x / n, x % n;
    assert x == q' * n + r';
    MultiplesApart(q, q', n);
    MultiplesApart(q', q, n);
  }

  lemma HitsStep(x: nat, n: nat, p: nat)
    requires p < n
    ensures Hits(x + 1, n, p) == Hits(x, n, p) + if x % n == p then 1 else 0
  {
    var q, r := x / n, x % n;
    assert x == q * n + r;
    if r + 1 < n {
      DivModUnique(x + 1, n, q, r + 1);
    } else {
      assert x + 1 == (q + 1) * n;
      DivModUnique(x + 1, n, q + 1, 0);
    }
  }

  lemma {:induction false} CountIsHits(start: nat, m: nat, n: nat, p: nat)
    requires p < n && start + m <= WRAP
    ensures Count(start, m, n, p) == Hits(start + m, n, p) - Hits(start, n, p)
  {
    if m > 0 {
      CountIsHits(start, m - 1, n, p);
      HitsStep(start + m - 1, n, p);
      DivModUnique(start + m - 1, WRAP, 0, start + m - 1);
    }
  }

  lemma HitsBetween(a: nat, m: nat, n: nat, p: nat)
    requires p < n
    ensures Floor(m, n) <= Hits(a + m, n, p) - Hits(a, n, p) <= Ceiling(m, n)
  {
    DivModOfDifference(a, m, n);
  }

  lemma DivModOfDifference(a: nat, m: nat, n: nat)
    requires n > 0
    ensures var d, e := (a + m) / n - a / n, (a + m) % n - a % n;
            m / n == (if e >= 0 then d else d - 1) && m % n == (if e >= 0 then e else n + e)
  {
    var q1, r1, q2, r2 := a / n, a % n, (a + m) / n, (a + m) % n;
    QuotientGrows(a, m, n);
    Difference(q1, q2, n);
    var d := q2 - q1;
    assert m == d * n + (r2 - r1);
    if r2 >= r1 {
      DivModUnique(m, n, d, r2 - r1);
    } else {
      MultiplesApart(d, 0, n);
      Difference(1, d, n);
      DivModUnique(m, n, d - 1, n + r2 - r1);
    }
  }

  lemma QuotientGrows(a: nat, m: nat, n: nat)
    requires n > 0
    ensures (a + m) / n >= a / n
  {
    var q1, q2 := a / n, (a + m) / n;
    assert a == q1 * n + a % n && a + m == q2 * n + (a + m) % n;
    MultiplesApart(q2, q1, n);
  }

  /** Over any m picks from any counter value, if the ticket does not wrap, each position is chosen
      floor(m/n) or ceil(m/n) times. */
  lemma FairWithoutWrap(start: nat, m: nat, n: nat)
    requires n > 0 && start + m <= WRAP
    ensures Fair(start, m, n)
  {
    forall p | 0 <= p < n ensures Floor(m, n) <= Count(start, m, n, p) <= Ceiling(m, n) {
      CountIsHits(start, m, n, p);
      HitsBetween(start, m, n, p);
    }
  }

  // ---------------------------------------------------------------- across wraps

  lemma {:induction false} CountSplits(start: nat, a: nat, b: nat, n: nat, p: nat)
    requires n > 0
    ensures Count(start, a + b, n, p) == Count(start, a, n, p) + Count(start + a, b, n, p)
  {
    if b > 0 {
      CountSplits(start, a, b - 1, n, p);
      assert start + (a + b - 1) == (start + a) + (b - 1);
    }
  }

  lemma TicketFromWrap(i: nat)
    ensures Ticket(WRAP, i) == Ticket(0, i)
  {}

  lemma {:induction false} CountFromWrap(m: nat, n: nat, p: nat)
    requires n > 0
    ensures Count(WRAP, m, n, p) == Count(0, m, n, p)
  {
    if m > 0 {
      CountFromWrap(m - 1, n, p);
      TicketFromWrap(m - 1);
    }
  }

  /** Across at most k wraps two positions differ by at most k + 1. */
  lemma {:induction false} NearlyFairAcrossWraps(start: nat, m: nat, n: nat, p: nat, p': nat, k: nat)
    requires p < n && p' < n && start < WRAP && start + m <= (k + 1) * WRAP
    ensures Count(start, m, n, p) <= Count(start, m, n, p') + k + 1
    decreases k
  {
    if start + m <= WRAP {
      CountsDifferByOne(start, m, n, p, p');
    } else {
      var a := WRAP - start;
      var b := m - a;
      CountsDifferByOne(start, a, n, p, p');
      NearlyFairAcrossWraps(0, b, n, p, p', k - 1);
      AfterTheWrap(start, b, n, p);
      AfterTheWrap(start, b, n, p');
    }
  }

  lemma CountsDifferByOne(start: nat, m: nat, n: nat, p: nat, p': nat)
    requires p < n && p' < n && start + m <= WRAP
    ensures Count(start, m, n, p) <= Count(start, m, n, p') + 1
  {
    FairWithoutWrap(start, m, n);
    assert Count(start, m, n, p) <= Ceiling(m, n) <= Floor(m, n) + 1;
  }

  /** Picks up to the wrap and `b` more. */
  lemma AfterTheWrap(start: nat, b: nat, n: nat, p: nat)
    requires p < n && start < WRAP
    ensures Count(start, WRAP - start + b, n, p) == Count(start, WRAP - start, n, p) + Count(0, b, n, p)
  {
    CountSplits(start, WRAP - start, b, n, p);
    CountFromWrap(b, n, p);
  }

  // ---------------------------------------------------------------- exactly when wrapping is harmless

  lemma ModOfMod(t: nat, n: nat)
    requires n > 0 && WRAP % n == 0
    ensures (t % WRAP) % n == t % n
  {
    var k, q := t / WRAP, WRAP / n;
    var r := t % WRAP;
    assert t == k * WRAP + r && WRAP == q * n;
    assert k * (q * n) == (k * q) * n;
    var u := r / n;
    assert r == u * n + r % n;
    assert (k * q) * n + u * n == (k * q + u) * n;
    DivModUnique(t, n, k * q + u, r % n);
  }

  lemma {:induction false} CountIsHitsIfDivides(start: nat, m: nat, n: nat, p: nat)
    requires p < n && WRAP % n == 0
    ensures Count(start, m, n, p) == Hits(start + m, n, p) - Hits(start, n, p)
  {
    if m > 0 {
      CountIsHitsIfDivides(start, m - 1, n, p);
      HitsStep(start + m - 1, n, p);
      ModOfMod(start + m - 1, n);
    }
  }

  lemma NextTicket(i: nat)
    ensures (i % WRAP + 1) % WRAP == (i + 1) % WRAP
  {}

  /** The last ticket before the wrap and the tickets after it up to the same position: that position
      is chosen twice while a later one is not chosen at all. */
  lemma UnfairAtWrap(n: nat)
    requires 0 < n <= WRAP && WRAP % n != 0
    ensures var p := (WRAP - 1) % n; p + 1 < n && Count(WRAP - 1, p + 2, n, p) == 2 && !Fair(WRAP - 1, p + 2, n)
  {
    var p := (WRAP - 1) % n;
    NotLastPosition(n);
    LastTicket(n, p);
    CountSplits(WRAP - 1, 1, p + 1, n, p);
    CountFromWrap(p + 1, n, p);
    SmallCount(p + 1, n, p);
    CeilingOfFew(p + 2, n);
  }

  lemma NotLastPosition(n: nat)
    requires n > 0 && WRAP % n != 0
    ensures (WRAP - 1) % n + 1 < n
  {
    var q, p := (WRAP - 1) / n, (WRAP - 1) % n;
    assert WRAP == q * n + (p + 1);
    assert q * n + n == (q + 1) * n;
    if p + 1 < n { DivModUnique(WRAP, n, q, p + 1); } else { DivModUnique(WRAP, n, q + 1, 0); }
  }

  lemma CeilingOfFew(m: nat, n: nat)
    requires 0 < m <= n
    ensures Ceiling(m, n) == 1
  {
    if m < n { DivModUnique(m, n, 0, m); } else { DivModUnique(m, n, 1, 0); }
  }

  lemma LastTicket(n: nat, p: nat)
    requires n > 0 && p == (WRAP - 1) % n
    ensures Count(WRAP - 1, 1, n, p) == 1
  {
    assert Ticket(WRAP - 1, 0) == WRAP - 1;
    assert Count(WRAP - 1, 0, n, p) == 0;
  }

  lemma {:induction false} SmallCount(m: nat, n: nat, p: nat)
    requires p < n && m <= n && n <= WRAP
    ensures Count(0, m, n, p) == if p < m then 1 else 0
  {
    if m > 0 {
      SmallCount(m - 1, n, p);
      DivModUnique(m - 1, WRAP, 0, m - 1);
      DivModUnique(m - 1, n, 0, m - 1);
    }
  }

  /** Selection is fair from every counter value and for every number of picks, wraps included,
      exactly when the number of instances divides 2^64. */
  lemma FairForeverIffDivides(n: nat)
    requires 0 < n <= WRAP
    ensures (forall start: nat, m: nat :: Fair(start, m, n)) <==> WRAP % n == 0
  {
    if WRAP % n == 0 {
      forall start: nat, m: nat ensures Fair(start, m, n) {
        forall p | 0 <= p < n ensures Floor(m, n) <= Count(start, m, n, p) <= Ceiling(m, n) {
          CountIsHitsIfDivides(start, m, n, p);
          HitsBetween(start, m, n, p);
        }
      }
    } else {
      UnfairAtWrap(n);
    }
  }

  /** A full cycle of the ticket chooses the position of the last ticket once more than the next position. */
  lemma FullCycle(n: nat, p: nat)
    requires 0 < n <= WRAP && WRAP % n != 0 && p == (WRAP - 1) % n
    ensures p + 1 < n && Count(0, WRAP, n, p) == Count(0, WRAP, n, p + 1) + 1
  {
    NotLastPosition(n);
    CountIsHits(0, WRAP, n, p);
    CountIsHits(0, WRAP, n, p + 1);
    DivModUnique(0, n, 0, 0);
    LastIsRemainder(n, p);
  }

  lemma LastIsRemainder(n: nat, p: nat)
    requires n > 0 && p == (WRAP - 1) % n && p + 1 < n
    ensures WRAP % n == p + 1
  {
    DivModUnique(WRAP, n, (WRAP - 1) / n, p + 1);
  }

  /** So does every cycle after it. */
  lemma {:induction false} Cycles(j: nat, c: nat, n: nat, p: nat)
    requires 0 < n <= WRAP && WRAP % n != 0 && p == (WRAP - 1) % n && p + 1 < n
    ensures Count(0, j * WRAP + c, n, p) - Count(0, j * WRAP + c, n, p + 1)
         == j + Count(0, c, n, p) - Count(0, c, n, p + 1)
  {
    if j > 0 {
      var rest := (j - 1) * WRAP + c;
      Cycles(j - 1, c, n, p);
      FullCycle(n, p);
      AfterTheWrap(0, rest, n, p);
      AfterTheWrap(0, rest, n, p + 1);
      assert WRAP - 0 + rest == j * WRAP + c;
    }
  }

  /** For every number of instances that does not divide 2^64 the bound is reached at every number of wraps: the
      unfairness of each wrap adds to that of the others. */
  lemma DriftIsReached(n: nat, k: nat)
    requires 0 < n <= WRAP && WRAP % n != 0 && k > 0
    ensures var p := (WRAP - 1) % n;
            var m := 1 + ((k - 1) * WRAP + (p + 1));
            && p + 1 < n && (WRAP - 1) + m <= (k + 1) * WRAP
            && Count(WRAP - 1, m, n, p) == Count(WRAP - 1, m, n, p + 1) + k + 1
  {
    var p := (WRAP - 1) % n;
    NotLastPosition(n);
    LastTicket(n, p);
    LastTicketElsewhere(n, p);
    var b := (k - 1) * WRAP + (p + 1);
    AfterTheWrap(WRAP - 1, b, n, p);
    AfterTheWrap(WRAP - 1, b, n, p + 1);
    Cycles(k - 1, p + 1, n, p);
    SmallCount(p + 1, n, p);
    SmallCount(p + 1, n, p + 1);
  }

  lemma LastTicketElsewhere(n: nat, p: nat)
    requires n > 0 && p == (WRAP - 1) % n && p + 1 < n
    ensures Count(WRAP - 1, 1, n, p + 1) == 0
  {
    assert Ticket(WRAP - 1, 0) == WRAP - 1;
    assert Count(WRAP - 1, 0, n, p + 1) == 0;
  }
}
