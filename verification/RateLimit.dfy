// The sliding-window limiter of requests: two buckets of a second each, the
// older one weighted by how much of it the last second still covers.
module RateLimit {
  datatype Policy = Policy(id: string, limit: nat, statuses: set<int>, counts: bool)

  // One bucket of one policy and one client.
  datatype Key = Key(policy: string, client: string, second: int)

  datatype Bucket = Bucket(count: nat, expires: real)

  // A request that a policy has counted, and whether the policy let it pass.
  // Policies on statuses count responses, which never pass in this sense.
  datatype Hit = Hit(policy: string, client: string, time: real, passed: bool)

  const KEY_TTL: real := 3.0

  function Fraction(t: real): (f: real)
    ensures 0.0 <= f < 1.0
  {
    t - t.Floor as real
  }

  // ---------- what the buckets stand for ----------

  // How many requests were counted in one second.
  function Tally(hits: seq<Hit>, policy: string, client: string, second: int): nat {
    if hits == [] then 0
    else
      var h := hits[|hits| - 1];
      Tally(hits[..|hits| - 1], policy, client, second)
      + if h.policy == policy && h.client == client && h.time.Floor == second then 1 else 0
  }

  // How many requests passed at a time in [from, to).
  function Passed(hits: seq<Hit>, policy: string, client: string, from: real, to: real): nat {
    if hits == [] then 0
    else
      var h := hits[|hits| - 1];
      Passed(hits[..|hits| - 1], policy, client, from, to)
      + if h.policy == policy && h.client == client && h.passed && from <= h.time < to then 1 else 0
  }

  // The part of a bucket that the last second still covers at fraction f of the next.
  function Covered(count: nat, f: real): (w: real)
    requires 0.0 <= f <= 1.0
    ensures 0.0 <= w <= count as real
  {
    ProductBounds(count as real, 1.0 - f);
    count as real * (1.0 - f)
  }

  function Burst(limit: nat, f: real): real {
    (1.0 + f) * limit as real
  }

  lemma ProductBounds(x: real, y: real)
    requires x >= 0.0 && 0.0 <= y <= 1.0
    ensures 0.0 <= x * y <= x
  {
    assert x * (1.0 - y) >= 0.0;
  }

  lemma CoveredDecreases(count: nat, f: real, g: real)
    requires 0.0 <= f <= g <= 1.0
    ensures Covered(count, g) <= Covered(count, f)
  {
    ProductBounds(count as real, g - f);
    assert Covered(count, f) - Covered(count, g) == count as real * (g - f);
  }

  predicate Rated(current: nat, previous: nat, time: real, limit: nat) {
    current as real + Covered(previous, Fraction(time)) <= limit as real
  }

  // The rate of a client, as the counted requests or responses give it.
  function Rate(hits: seq<Hit>, policy: string, client: string, now: real): real {
    Tally(hits, policy, client, now.Floor) as real + Covered(Tally(hits, policy, client, now.Floor - 1), Fraction(now))
  }

  // The request itself is in the rate of a policy that counts requests.
  predicate Exceeds(hits: seq<Hit>, p: Policy, client: string, now: real) {
    if p.counts then Rate(hits, p.id, client, now) > p.limit as real else Rate(hits, p.id, client, now) >= p.limit as real
  }

  lemma RateOfOther(hits: seq<Hit>, h: Hit, policy: string, client: string, now: real)
    requires h.policy != policy
    ensures Rate(hits + [h], policy, client, now) == Rate(hits, policy, client, now)
  {
    assert (hits + [h])[..|hits|] == hits;
  }

  // In order of time, every request that passed was within the rate.
  predicate Paced(hits: seq<Hit>, policy: string, client: string, limit: nat) {
    hits != [] ==>
      var n := |hits| - 1;
      var h := hits[n];
      && Paced(hits[..n], policy, client, limit)
      && (n > 0 ==> hits[n - 1].time <= h.time)
      && (h.policy == policy && h.client == client && h.passed ==>
            Rated(Tally(hits, policy, client, h.time.Floor), Tally(hits[..n], policy, client, h.time.Floor - 1), h.time, limit))
  }

  // ---------- the bound ----------

  lemma {:induction false} PassedSplits(hits: seq<Hit>, policy: string, client: string, from: real, mid: real, to: real)
    requires from <= mid <= to
    ensures Passed(hits, policy, client, from, to) ==
      Passed(hits, policy, client, from, mid) + Passed(hits, policy, client, mid, to)
  {
    if hits != [] {
      PassedSplits(hits[..|hits| - 1], policy, client, from, mid, to);
    }
  }

  // What passes in one second was counted there and is within the limit.
  lemma {:induction false} SecondBound(hits: seq<Hit>, policy: string, client: string, limit: nat, second: int,
                                       from: real, to: real)
    requires Paced(hits, policy, client, limit)
    requires second as real <= from <= to <= second as real + 1.0
    ensures Passed(hits, policy, client, from, to) <= Tally(hits, policy, client, second)
    ensures Passed(hits, policy, client, from, to) <= limit
  {
    if hits != [] {
      var h := hits[|hits| - 1];
      SecondBound(hits[..|hits| - 1], policy, client, limit, second, from, to);
      assert from <= h.time < to ==> h.time.Floor == second;
    }
  }

  // Once one has passed in the first part of a second, what has passed there
  // and the uncovered rest of the second before are together within the limit.
  lemma {:induction false} NextSecondBound(hits: seq<Hit>, policy: string, client: string, limit: nat, second: int,
                                           f: real)
    requires Paced(hits, policy, client, limit)
    requires 0.0 <= f < 1.0
    ensures Passed(hits, policy, client, second as real, second as real + f) > 0 ==>
      && hits[|hits| - 1].time >= second as real
      &&
        Passed(hits, policy, client, second as real, second as real + f) as real + Covered(Tally(hits, policy, client, second - 1), f)
         <= limit as real
  {
    if hits != [] {
      var n := |hits| - 1;
      var h := hits[n];
      NextSecondBound(hits[..n], policy, client, limit, second, f);
      if h.policy == policy && h.client == client && h.passed && second as real <= h.time < second as real + f {
        assert h.time.Floor == second;
        SecondBound(hits, policy, client, limit, second, second as real, second as real + f);
        CoveredDecreases(Tally(hits[..n], policy, client, second - 1), Fraction(h.time), f);
      }
    }
  }

  // Any second that starts at fraction f lets at most (1 + f) * limit pass.
  lemma WindowBound(hits: seq<Hit>, policy: string, client: string, limit: nat, a: real)
    requires Paced(hits, policy, client, limit)
    ensures Passed(hits, policy, client, a, a + 1.0) as real <= Burst(limit, Fraction(a))
  {
    var f := Fraction(a);
    var next := a.Floor + 1;
    PassedSplits(hits, policy, client, a, next as real, a + 1.0);
    SecondBound(hits, policy, client, limit, a.Floor, a, next as real);
    NextSecondBound(hits, policy, client, limit, next, f);
    assert a + 1.0 == next as real + f;
    TwoParts(Passed(hits, policy, client, a, next as real), Passed(hits, policy, client, next as real, a + 1.0),
             Tally(hits, policy, client, a.Floor), limit, f);
  }

  lemma TwoParts(first: nat, second: nat, counted: nat, limit: nat, f: real)
    requires first <= counted && first <= limit && 0.0 <= f < 1.0
    requires second > 0 ==> second as real + Covered(counted, f) <= limit as real
    ensures (first + second) as real <= Burst(limit, f)
  {
    if second == 0 {
      ProductBounds(limit as real, f);
    } else if counted <= limit {
      FewCounted(first as real, second as real, counted as real, limit as real, f);
    } else {
      ManyCounted(first as real, second as real, counted as real, limit as real, f);
    }
  }

  lemma FewCounted(first: real, second: real, counted: real, limit: real, f: real)
    requires first <= counted <= limit && 0.0 <= f <= 1.0
    requires second + counted * (1.0 - f) <= limit
    ensures first + second <= (1.0 + f) * limit
  {
    ProductBounds(limit - counted, f);
  }

  lemma ManyCounted(first: real, second: real, counted: real, limit: real, f: real)
    requires first <= limit <= counted && 0.0 <= f <= 1.0
    requires second + counted * (1.0 - f) <= limit
    ensures first + second <= (1.0 + f) * limit
  {
    ProductBounds(counted - limit, 1.0 - f);
  }

  // ---------- when the limit itself is a bound ----------

  // The last request to pass in the first part of a second was within the rate.
  lemma {:induction false} LastPassed(hits: seq<Hit>, policy: string, client: string, limit: nat, second: int, f: real)
    returns (g: real)
    requires Paced(hits, policy, client, limit) && 0.0 <= f < 1.0
    requires Passed(hits, policy, client, second as real, second as real + f) > 0
    ensures 0.0 <= g < f
    ensures hits[|hits| - 1].time >= second as real
    ensures Passed(hits, policy, client, second as real, second as real + f) as real
            + Covered(Tally(hits, policy, client, second - 1), g) <= limit as real
  {
    var n := |hits| - 1;
    var h := hits[n];
    if h.policy == policy && h.client == client && h.passed && second as real <= h.time < second as real + f {
      assert h.time.Floor == second;
      SecondBound(hits, policy, client, limit, second, second as real, second as real + f);
      g := Fraction(h.time);
    } else {
      g := LastPassed(hits[..n], policy, client, limit, second, f);
    }
  }

  // Products of reals, one step at a time.
  lemma NoNegative(x: real, y: real)
    requires x >= 0.0 && y >= 0.0
    ensures x * y >= 0.0
  {
  }

  lemma Positive(x: real, y: real)
    requires x > 0.0 && y > 0.0
    ensures x * y > 0.0
  {
  }

  lemma Distributes(c: real, x: real, y: real)
    ensures c * (y - x) == c * y - c * x
  {
  }

  lemma Grows(c: real, x: real, y: real)
    requires c > 0.0 && x < y
    ensures c * x < c * y
  {
    Positive(c, y - x);
    Distributes(c, x, y);
  }

  lemma GrowsLeft(c: real, l: real, f: real)
    requires c <= l && 0.0 <= f
    ensures c * f <= l * f
  {
    NoNegative(f, l - c);
    Distributes(f, c, l);
  }

  lemma Below(p: real, q: real, r: real)
    requires p < q <= r
    ensures p < r
  {
  }

  lemma Above(p: real, q: real, r: real)
    requires !(p <= r) && q == r
    ensures !(p <= q)
  {
  }

  lemma NotAbove(l: real, f: real, g: real)
    requires l > 0.0
    ensures f <= g ==> l * f <= l * g
  {
    if f <= g {
      GrowsLeft(f, g, l);
    }
  }

  // A multiple, as a sum.
  function Times(n: nat, f: real): real {
    if n == 0 then 0.0 else Times(n - 1, f) + f
  }

  lemma {:induction false} TimesIsProduct(n: nat, f: real)
    ensures Times(n, f) == n as real * f
  {
    if n > 0 {
      TimesIsProduct(n - 1, f);
      Distributes(f, 1.0, n as real);
    }
  }

  // The arithmetic of the exact bound: with f * limit at most 1, nothing more
  // than the limit fits both parts of a window.
  lemma SmallFraction(first: nat, second: nat, counted: nat, limit: nat, f: real, g: real)
    requires first <= counted && first <= limit && 0.0 <= g < f < 1.0 && Times(limit, f) <= 1.0
    requires second > 0 && second as real + Covered(counted, g) <= limit as real
    ensures first + second <= limit
  {
    var c, l := counted as real, limit as real;
    TimesIsProduct(limit, f);
    if counted == 0 {
    } else if counted <= limit {
      LessCovered(c, l, g, f);
      FitsBoth(first, second, counted, limit, c * (1.0 - g));
    } else {
      MoreCovered(c, l, g, f);
      FitsBoth(first, second, limit, limit, c * (1.0 - g));
    }
  }

  lemma FitsBoth(first: nat, second: nat, most: nat, limit: nat, covered: real)
    requires first <= most <= limit && second as real + covered <= limit as real && !(covered <= most as real - 1.0)
    ensures first + second <= limit
  {
    assert (second + most) as real < limit as real + 1.0;
  }

  lemma LessCovered(c: real, l: real, g: real, f: real)
    requires 0.0 < c <= l && 0.0 <= g < f && l * f <= 1.0
    ensures !(c * (1.0 - g) <= c - 1.0)
  {
    Grows(c, g, f);
    GrowsLeft(c, l, f);
    Below(c * g, c * f, 1.0);
    Distributes(c, g, 1.0);
    LeavesMore(c * g, c, 1.0);
  }

  lemma LeavesMore(p: real, x: real, y: real)
    requires p < y
    ensures x - p > x - y
  {
  }

  lemma MoreCovered(c: real, l: real, g: real, f: real)
    requires 0.0 <= l && l + 1.0 <= c && 0.0 <= g < f < 1.0 && l * f <= 1.0
    ensures !(c * (1.0 - g) <= l - 1.0)
  {
    Grows(c, 1.0 - f, 1.0 - g);
    GrowsLeft(l + 1.0, c, 1.0 - f);
    assert (l + 1.0) * (1.0 - f) == l - l * f + 1.0 - f;
  }

  lemma LaterPartFits(hits: seq<Hit>, policy: string, client: string, limit: nat, second: int, f: real, first: nat)
    requires Paced(hits, policy, client, limit) && 0.0 <= f < 1.0 && Times(limit, f) <= 1.0
    requires first <= limit && first <= Tally(hits, policy, client, second - 1)
    ensures first + Passed(hits, policy, client, second as real, second as real + f) <= limit
  {
    var later := Passed(hits, policy, client, second as real, second as real + f);
    if later > 0 {
      var g := LastPassed(hits, policy, client, limit, second, f);
      SmallFraction(first, later, Tally(hits, policy, client, second - 1), limit, f, g);
    }
  }

  lemma LimitHolds(hits: seq<Hit>, policy: string, client: string, limit: nat, a: real)
    requires Paced(hits, policy, client, limit) && Times(limit, Fraction(a)) <= 1.0
    ensures Passed(hits, policy, client, a, a + 1.0) <= limit
  {
    var next := a.Floor + 1;
    FirstPart(hits, policy, client, limit, a);
    LaterPartFits(hits, policy, client, limit, next, Fraction(a), Passed(hits, policy, client, a, next as real));
  }

  // A second that starts within one of the clock ends within the next.
  lemma FirstPart(hits: seq<Hit>, policy: string, client: string, limit: nat, a: real)
    requires Paced(hits, policy, client, limit)
    ensures var next, first := a.Floor + 1, Passed(hits, policy, client, a, (a.Floor + 1) as real);
            && first <= limit && first <= Tally(hits, policy, client, next - 1)
            && Passed(hits, policy, client, a, a + 1.0) ==
               first + Passed(hits, policy, client, next as real, next as real + Fraction(a))
  {
    var next := a.Floor + 1;
    PassedSplits(hits, policy, client, a, next as real, a + 1.0);
    SecondBound(hits, policy, client, limit, a.Floor, a, next as real);
    assert a + 1.0 == next as real + Fraction(a);
  }

  // A client that sends n requests at once.
  function Volley(policy: string, client: string, a: real, n: nat): seq<Hit> {
    if n == 0 then [] else Volley(policy, client, a, n - 1) + [Hit(policy, client, a, true)]
  }

  lemma {:induction false} VolleyIs(policy: string, client: string, a: real, n: nat)
    ensures |Volley(policy, client, a, n)| == n
    ensures n > 0 ==> Volley(policy, client, a, n)[n - 1] == Hit(policy, client, a, true)
    ensures n > 0 ==> Volley(policy, client, a, n)[..n - 1] == Volley(policy, client, a, n - 1)
  {
    if n > 0 {
      VolleyIs(policy, client, a, n - 1);
    }
  }

  lemma {:induction false} VolleyTally(policy: string, client: string, a: real, n: nat, second: int)
    ensures Tally(Volley(policy, client, a, n), policy, client, second) == if second == a.Floor then n else 0
  {
    VolleyIs(policy, client, a, n);
    if n > 0 {
      VolleyTally(policy, client, a, n - 1, second);
    }
  }

  lemma NoneIsCovered(count: nat, f: real)
    requires count == 0 && 0.0 <= f <= 1.0
    ensures Covered(count, f) == 0.0
  {
  }

  lemma VolleyIsRated(policy: string, client: string, a: real, n: nat, limit: nat)
    requires 0 < n <= limit
    ensures Rated(Tally(Volley(policy, client, a, n), policy, client, a.Floor),
                  Tally(Volley(policy, client, a, n - 1), policy, client, a.Floor - 1), a, limit)
  {
    VolleyTally(policy, client, a, n, a.Floor);
    VolleyTally(policy, client, a, n - 1, a.Floor - 1);
    NoneIsCovered(Tally(Volley(policy, client, a, n - 1), policy, client, a.Floor - 1), Fraction(a));
  }

  lemma PacedOneMore(hits: seq<Hit>, policy: string, client: string, limit: nat, h: Hit)
    requires Paced(hits, policy, client, limit) && (hits != [] ==> hits[|hits| - 1].time <= h.time)
    requires Rated(Tally(hits + [h], policy, client, h.time.Floor), Tally(hits, policy, client, h.time.Floor - 1), h.time, limit)
    ensures Paced(hits + [h], policy, client, limit)
  {
    assert (hits + [h])[..|hits|] == hits;
  }

  lemma {:induction false} VolleyIsPaced(policy: string, client: string, a: real, n: nat, limit: nat)
    requires n <= limit
    ensures Paced(Volley(policy, client, a, n), policy, client, limit)
  {
    if n > 0 {
      VolleyIsPaced(policy, client, a, n - 1, limit);
      VolleyIs(policy, client, a, n - 1);
      VolleyIsRated(policy, client, a, n, limit);
      PacedOneMore(Volley(policy, client, a, n - 1), policy, client, limit, Hit(policy, client, a, true));
    }
  }

  lemma {:induction false} VolleyPasses(policy: string, client: string, a: real, n: nat, to: real)
    requires a < to
    ensures Passed(Volley(policy, client, a, n), policy, client, a, to) == n
  {
    VolleyIs(policy, client, a, n);
    if n > 0 {
      VolleyPasses(policy, client, a, n - 1, to);
    }
  }

  lemma FractionOf(n: int, g: real)
    requires 0.0 <= g < 1.0
    ensures (n as real + g).Floor == n && Fraction(n as real + g) == g
  {
  }

  // How much of the next second has to go by until there is room for one more.
  function Share(limit: nat): (g: real)
    requires limit > 0
    ensures limit as real * g == 1.0
  {
    1.0 / limit as real
  }

  lemma RoomInNextSecond(limit: nat, f: real)
    requires 0.0 <= f < 1.0 && Times(limit, f) > 1.0
    ensures limit > 0 && 0.0 < Share(limit) < f && 1.0 + Covered(limit, Share(limit)) == limit as real
  {
    TimesIsProduct(limit, f);
    RoomAfter(limit as real, f, Share(limit));
  }

  // The limit and one more: as many as are allowed at the start of the window,
  // and another one as soon as the next second has room.
  lemma LimitIsExceeded(policy: string, client: string, limit: nat, a: real) returns (hits: seq<Hit>)
    requires Times(limit, Fraction(a)) > 1.0
    ensures Paced(hits, policy, client, limit)
    ensures Passed(hits, policy, client, a, a + 1.0) == limit + 1
  {
    RoomInNextSecond(limit, Fraction(a));
    hits := OneMore(policy, client, limit, a, Share(limit));
  }

  lemma OneMore(policy: string, client: string, limit: nat, a: real, g: real) returns (hits: seq<Hit>)
    requires 0.0 < g < Fraction(a) && 1.0 + Covered(limit, g) == limit as real
    ensures Paced(hits, policy, client, limit)
    ensures Passed(hits, policy, client, a, a + 1.0) == limit + 1
  {
    var last := (a.Floor + 1) as real + g;
    FractionOf(a.Floor + 1, g);
    var volley, h := Volley(policy, client, a, limit), Hit(policy, client, last, true);
    VolleyIs(policy, client, a, limit);
    VolleyIsPaced(policy, client, a, limit, limit);
    VolleyPasses(policy, client, a, limit, a + 1.0);
    hits := volley + [h];
    assert hits[..limit] == volley;
    VolleyTally(policy, client, a, limit, a.Floor);
    VolleyTally(policy, client, a, limit, a.Floor + 1);
    PacedOneMore(volley, policy, client, limit, h);
  }

  lemma RoomAfter(l: real, f: real, g: real)
    requires 0.0 <= f < 1.0 && l > 0.0 && !(l * f <= 1.0) && l * g == 1.0
    ensures 0.0 < g < f && 1.0 + l * (1.0 - g) == l
  {
    NotAbove(l, g, 0.0);
    NotAbove(l, f, g);
    Above(l * f, l * g, 1.0);
    Distributes(l, g, 1.0);
  }

  ghost predicate IsBounded(policy: string, client: string, limit: nat, a: real) {
    forall hits :: Paced(hits, policy, client, limit) ==> Passed(hits, policy, client, a, a + 1.0) <= limit
  }

  // The limit bounds every second that starts at fraction f if and only if
  // limit * f is at most 1, that is, early enough in a second of the clock.
  lemma LimitHoldsIff(policy: string, client: string, limit: nat, a: real)
    ensures IsBounded(policy, client, limit, a) <==> limit as real * Fraction(a) <= 1.0
  {
    TimesIsProduct(limit, Fraction(a));
    if Times(limit, Fraction(a)) <= 1.0 {
      forall hits | Paced(hits, policy, client, limit)
        ensures Passed(hits, policy, client, a, a + 1.0) <= limit
      {
        LimitHolds(hits, policy, client, limit, a);
      }
    } else {
      var hits := LimitIsExceeded(policy, client, limit, a);
      assert Paced(hits, policy, client, limit) && !(Passed(hits, policy, client, a, a + 1.0) <= limit);
      assert !IsBounded(policy, client, limit, a);
    }
  }

  // ---------- the limiter ----------

  // The bucket of every second holds what the policy has counted there.
  ghost predicate Buckets(dict: map<Key, Bucket>, hits: seq<Hit>, policy: string) {
    forall client, second ::
      var k := Key(policy, client, second);
      if k in dict then dict[k].count == Tally(hits, policy, client, second) && dict[k].expires >= second as real + KEY_TTL
      else Tally(hits, policy, client, second) == 0
  }

  ghost predicate AllPaced(hits: seq<Hit>, p: Policy) {
    forall client :: Paced(hits, p.id, client, p.limit)
  }

  predicate DistinctIds(policies: seq<Policy>) {
    forall i, j :: 0 <= i < j < |policies| ==> policies[i].id != policies[j].id
  }

  ghost predicate Consistent(policies: seq<Policy>, dict: map<Key, Bucket>, hits: seq<Hit>) {
    forall p :: p in policies ==> Buckets(dict, hits, p.id) && (p.counts ==> AllPaced(hits, p))
  }

  lemma HitIsCounted(dict: map<Key, Bucket>, hits: seq<Hit>, policy: string, h: Hit, b: Bucket)
    requires Buckets(dict, hits, policy) && h.policy == policy
    requires b.count == Tally(hits, policy, h.client, h.time.Floor) + 1 && b.expires >= h.time.Floor as real + KEY_TTL
    ensures Buckets(dict[Key(policy, h.client, h.time.Floor) := b], hits + [h], policy)
  {
    assert (hits + [h])[..|hits|] == hits;
  }

  lemma HitOfOther(dict: map<Key, Bucket>, hits: seq<Hit>, policy: string, h: Hit, b: Bucket)
    requires Buckets(dict, hits, policy) && h.policy != policy
    ensures Buckets(dict[Key(h.policy, h.client, h.time.Floor) := b], hits + [h], policy)
  {
    assert (hits + [h])[..|hits|] == hits;
  }

  lemma HitIsPaced(hits: seq<Hit>, p: Policy, h: Hit)
    requires AllPaced(hits, p)
    requires hits == [] || hits[|hits| - 1].time <= h.time
    requires h.policy == p.id && h.passed ==>
      Rated(Tally(hits, p.id, h.client, h.time.Floor) + 1, Tally(hits, p.id, h.client, h.time.Floor - 1), h.time, p.limit)
    ensures AllPaced(hits + [h], p)
  {
    assert (hits + [h])[..|hits|] == hits;
    forall client
      ensures Paced(hits + [h], p.id, client, p.limit)
    {
      assert Paced(hits, p.id, client, p.limit);
    }
  }

  lemma ConsistentAfter(policies: seq<Policy>, dict: map<Key, Bucket>, hits: seq<Hit>, p: Policy, h: Hit, b: Bucket)
    requires DistinctIds(policies) && Consistent(policies, dict, hits)
    requires p in policies && h.policy == p.id && (hits == [] || hits[|hits| - 1].time <= h.time)
    requires b.count == Tally(hits, p.id, h.client, h.time.Floor) + 1 && b.expires >= h.time.Floor as real + KEY_TTL
    requires p.counts && h.passed ==>
      Rated(Tally(hits, p.id, h.client, h.time.Floor) + 1, Tally(hits, p.id, h.client, h.time.Floor - 1), h.time, p.limit)
    ensures Consistent(policies, dict[Key(p.id, h.client, h.time.Floor) := b], hits + [h])
  {
    forall q | q in policies
      ensures Buckets(dict[Key(p.id, h.client, h.time.Floor) := b], hits + [h], q.id)
      ensures q.counts ==> AllPaced(hits + [h], q)
    {
      if q.id == p.id {
        assert q == p;
        HitIsCounted(dict, hits, q.id, h, b);
      } else {
        HitOfOther(dict, hits, q.id, h, b);
      }
      if q.counts {
        HitIsPaced(hits, q, h);
      }
    }
  }

  // The first `n` policies let a request pass, and counted it if they count.
  ghost predicate AllPassed(policies: seq<Policy>, n: nat, before: seq<Hit>, hits: seq<Hit>, client: string, now: real) {
    && n <= |policies| && before <= hits
    && forall j :: 0 <= j < n ==> HasPassed(policies[j], before, hits, client, now)
  }

  ghost predicate HasPassed(p: Policy, before: seq<Hit>, hits: seq<Hit>, client: string, now: real)
    requires before <= hits
  {
    !Exceeds(hits, p, client, now) && (p.counts ==> Hit(p.id, client, now, true) in hits[|before|..])
  }

  // What the first `n` policies count of a request that they let pass.
  function Counted(policies: seq<Policy>, n: nat, client: string, now: real): seq<Hit>
    requires n <= |policies|
  {
    if n == 0 then []
    else
      Counted(policies, n - 1, client, now)
      + if policies[n - 1].counts then [Hit(policies[n - 1].id, client, now, true)] else []
  }

  // And what the policy behind them does, if that rejects it.
  function Verdicts(policies: seq<Policy>, n: nat, client: string, now: real, admitted: bool): seq<Hit>
    requires n <= |policies| && (n < |policies| || admitted)
  {
    Counted(policies, n, client, now)
    + if !admitted && policies[n].counts then [Hit(policies[n].id, client, now, false)] else []
  }

  ghost predicate HavePassed(policies: seq<Policy>, n: nat, before: seq<Hit>, hits: seq<Hit>, client: string, now: real) {
    AllPassed(policies, n, before, hits, client, now) && hits == before + Counted(policies, n, client, now)
  }

  lemma CountedOneMore(policies: seq<Policy>, n: nat, before: seq<Hit>, hits: seq<Hit>, next: seq<Hit>,
                       client: string, now: real, rejected: bool)
    requires n < |policies| && hits == before + Counted(policies, n, client, now)
    requires next == if policies[n].counts then hits + [Hit(policies[n].id, client, now, !rejected)] else hits
    ensures next == before +
      if rejected then Verdicts(policies, n, client, now, false) else Counted(policies, n + 1, client, now)
  {
    var more := if policies[n].counts then [Hit(policies[n].id, client, now, !rejected)] else [];
    assert (before + Counted(policies, n, client, now)) + more == before + (Counted(policies, n, client, now) + more);
  }

  lemma PassedStays(p: Policy, before: seq<Hit>, hits: seq<Hit>, h: Hit, client: string, now: real)
    requires before <= hits && HasPassed(p, before, hits, client, now) && h.policy != p.id
    ensures HasPassed(p, before, hits + [h], client, now)
  {
    RateOfOther(hits, h, p.id, client, now);
    assert (hits + [h])[|before|..] == hits[|before|..] + [h];
  }

  lemma OneMorePassed(policies: seq<Policy>, n: nat, before: seq<Hit>, hits: seq<Hit>, next: seq<Hit>,
                      client: string, now: real)
    requires n < |policies| && DistinctIds(policies) && AllPassed(policies, n, before, hits, client, now)
    requires next == if policies[n].counts then hits + [Hit(policies[n].id, client, now, true)] else hits
    requires !Exceeds(next, policies[n], client, now)
    ensures AllPassed(policies, n + 1, before, next, client, now)
  {
    if policies[n].counts {
      var h := Hit(policies[n].id, client, now, true);
      assert next[|before|..] == hits[|before|..] + [h];
      forall j | 0 <= j < n
        ensures HasPassed(policies[j], before, next, client, now)
      {
        PassedStays(policies[j], before, hits, h, client, now);
      }
    }
  }

  lemma PassedStaysForAll(policies: seq<Policy>, n: nat, before: seq<Hit>, hits: seq<Hit>, h: Hit, client: string, now: real)
    requires n < |policies| && DistinctIds(policies) && AllPassed(policies, n, before, hits, client, now)
    requires h.policy == policies[n].id
    ensures AllPassed(policies, n, before, hits + [h], client, now)
  {
    forall j | 0 <= j < n
      ensures HasPassed(policies[j], before, hits + [h], client, now)
    {
      PassedStays(policies[j], before, hits, h, client, now);
    }
  }

  lemma OneMoreChecked(policies: seq<Policy>, n: nat, before: seq<Hit>, hits: seq<Hit>, next: seq<Hit>,
                       client: string, now: real, rejected: bool)
    requires n < |policies| && DistinctIds(policies) && AllPassed(policies, n, before, hits, client, now)
    requires next == if policies[n].counts then hits + [Hit(policies[n].id, client, now, !rejected)] else hits
    requires rejected <==> Exceeds(next, policies[n], client, now)
    ensures AllPassed(policies, if rejected then n else n + 1, before, next, client, now)
  {
    if !rejected {
      OneMorePassed(policies, n, before, hits, next, client, now);
    } else if policies[n].counts {
      PassedStaysForAll(policies, n, before, hits, Hit(policies[n].id, client, now, false), client, now);
    }
  }

  // All that was counted after `before` is of this request.
  ghost predicate OfRequest(before: seq<Hit>, hits: seq<Hit>, client: string, now: real) {
    before <= hits && forall i :: |before| <= i < |hits| ==> hits[i].client == client && hits[i].time == now
  }

  class Limiter {
    const policies: seq<Policy>
    var dict: map<Key, Bucket>
    ghost var hits: seq<Hit>
    // How often there was no memory for a new bucket.
    ghost var exhausted: nat

    ghost predicate Valid()
      reads this
    {
      DistinctIds(policies) && Consistent(policies, dict, hits)
    }

    ghost predicate Until(now: real)
      reads this
    {
      hits != [] ==> hits[|hits| - 1].time <= now
    }

    constructor (policies: seq<Policy>)
      requires DistinctIds(policies)
      ensures Valid() && hits == [] && this.policies == policies
    {
      this.policies, dict, hits, exhausted := policies, map[], [], 0;
    }

    // After any requests and responses, so much and no more has passed.
    lemma RequestBound(p: Policy, client: string, a: real)
      requires Valid() && p in policies && p.counts
      ensures Passed(hits, p.id, client, a, a + 1.0) as real <= Burst(p.limit, Fraction(a))
    {
      assert AllPaced(hits, p);
      WindowBound(hits, p.id, client, p.limit, a);
    }

    // Adds one to a bucket; without memory for a new one there is no answer.
    method Increment(k: Key, now: real) returns (count: nat)
      modifies this`dict, this`exhausted
      ensures count == 0 ==> dict == old(dict) && exhausted == old(exhausted) + 1
      ensures count > 0 ==> k in dict && dict == old(dict)[k := dict[k]] && dict[k].count == count && exhausted == old(exhausted)
      ensures count > 0 && k in old(dict) && now < old(dict)[k].expires ==>
        count == old(dict)[k].count + 1 && dict[k].expires == old(dict)[k].expires
      ensures count > 0 && k !in old(dict) ==> count == 1 && dict[k].expires == now + KEY_TTL
    {
      if k in dict && now < dict[k].expires {
        count := dict[k].count + 1;
        dict := dict[k := Bucket(count, dict[k].expires)];
      } else {
        var full: bool := *;
        count := if full then 0 else 1;
        if full {
          exhausted := exhausted + 1;
        } else {
          dict := dict[k := Bucket(1, now + KEY_TTL)];
        }
      }
    }

    function Get(k: Key, now: real): nat
      reads this
    {
      if k in dict && now < dict[k].expires then dict[k].count else 0
    }

    // Counts a request or response in the bucket of the current second.
    method Count(p: Policy, client: string, now: real, ghost passed: bool) returns (count: nat)
      requires Valid() && p in policies && Until(now)
      requires p.counts && passed ==>
        Rated(Tally(hits, p.id, client, now.Floor) + 1, Tally(hits, p.id, client, now.Floor - 1), now, p.limit)
      modifies this
      ensures Valid() && Until(now)
      ensures hits == if count > 0 then old(hits) + [Hit(p.id, client, now, passed)] else old(hits)
      ensures exhausted == old(exhausted) + if count > 0 then 0 else 1
      ensures count > 0 ==> count == Tally(hits, p.id, client, now.Floor)
      ensures Tally(hits, p.id, client, now.Floor - 1) == old(Tally(hits, p.id, client, now.Floor - 1))
    {
      var k := Key(p.id, client, now.Floor);
      assert Buckets(dict, hits, p.id);
      ghost var was := dict;
      count := Increment(k, now);
      if count > 0 {
        ghost var h := Hit(p.id, client, now, passed);
        ConsistentAfter(policies, was, hits, p, h, dict[k]);
        assert (hits + [h])[..|hits|] == hits;
        hits := hits + [h];
      }
    }

    // One policy of a request, rejected exactly when its rate exceeds.
    method CheckPolicy(p: Policy, client: string, now: real) returns (rejected: bool)
      requires Valid() && p in policies && Until(now)
      modifies this
      ensures Valid() && Until(now) && exhausted >= old(exhausted)
      ensures hits ==
        if p.counts && exhausted == old(exhausted) then old(hits) + [Hit(p.id, client, now, !rejected)] else old(hits)
      ensures exhausted == old(exhausted) ==> (rejected <==> Exceeds(hits, p, client, now))
      ensures exhausted > old(exhausted) ==> !rejected
    {
      var second := now.Floor;
      var k, older := Key(p.id, client, second), Key(p.id, client, second - 1);
      assert Buckets(dict, hits, p.id);
      if p.counts {
        ghost var passes := Rated(Tally(hits, p.id, client, second) + 1, Tally(hits, p.id, client, second - 1), now, p.limit);
        var current := Count(p, client, now, passes);
        if current == 0 {
          return false;
        }
        assert Buckets(dict, hits, p.id);
        var rate := current as real + Covered(Get(older, now), Fraction(now));
        rejected := rate > p.limit as real;
      } else {
        var rate := Get(k, now) as real + Covered(Get(older, now), Fraction(now));
        rejected := rate >= p.limit as real;
      }
    }

    // The access phase of one request of a known client: the policies are
    // gone through in order, and the first one that is exceeded rejects it.
    // Unless memory ran out, those before it have let the request pass.
    method Access(client: string, now: real) returns (admitted: bool, ghost checked: nat)
      requires Valid() && Until(now)
      modifies this
      ensures Valid() && Until(now) && exhausted >= old(exhausted)
      ensures OfRequest(old(hits), hits, client, now)
      ensures if admitted then checked == |policies| else checked < |policies| && Exceeds(hits, policies[checked], client, now)
      ensures exhausted == old(exhausted) ==> AllPassed(policies, checked, old(hits), hits, client, now)
      ensures exhausted == old(exhausted) ==> hits == old(hits) + Verdicts(policies, checked, client, now, admitted)
    {
      admitted, checked := true, 0;
      for i := 0 to |policies|
        invariant admitted && checked == i
        invariant Valid() && Until(now) && exhausted >= old(exhausted)
        invariant OfRequest(old(hits), hits, client, now)
        invariant exhausted == old(exhausted) ==> HavePassed(policies, i, old(hits), hits, client, now)
      {
        var rejected := CheckNext(i, client, now, old(hits), exhausted == old(exhausted));
        if rejected {
          return false, i;
        }
        checked := i + 1;
      }
    }

    method CheckNext(i: nat, client: string, now: real, ghost before: seq<Hit>, ghost stored: bool) returns (rejected: bool)
      requires Valid() && Until(now) && i < |policies| && OfRequest(before, hits, client, now)
      requires stored ==> HavePassed(policies, i, before, hits, client, now)
      modifies this
      ensures Valid() && Until(now) && exhausted >= old(exhausted) && OfRequest(before, hits, client, now)
      ensures rejected ==> Exceeds(hits, policies[i], client, now)
      ensures stored && exhausted == old(exhausted) ==>
        if rejected then
          AllPassed(policies, i, before, hits, client, now) && hits == before + Verdicts(policies, i, client, now, false)
        else HavePassed(policies, i + 1, before, hits, client, now)
    {
      ghost var was := hits;
      rejected := CheckPolicy(policies[i], client, now);
      if stored && exhausted == old(exhausted) {
        OneMoreChecked(policies, i, before, was, hits, client, now, rejected);
        CountedOneMore(policies, i, before, was, hits, client, now, rejected);
      }
    }

    // The response phase: policies on statuses count what they match, all but
    // the `lost` ones, for which there was no memory.
    method Response(client: string, statusClass: int, now: real) returns (ghost lost: set<nat>)
      requires Valid() && Until(now)
      modifies this
      ensures Valid() && Until(now)
      ensures hits == old(hits) + Replies(policies, |policies|, lost, client, statusClass, now)
      ensures exhausted == old(exhausted) + |lost|
      ensures forall i :: i in lost ==> i < |policies| && Matches(policies[i], statusClass)
    {
      lost := {};
      for i := 0 to |policies|
        invariant Valid() && Until(now) && exhausted == old(exhausted) + |lost|
        invariant HaveReplied(policies, i, lost, old(hits), hits, client, statusClass, now)
      {
        lost := Reply(i, lost, client, statusClass, now, old(hits));
      }
    }

    method Reply(i: nat, ghost lost: set<nat>, client: string, statusClass: int, now: real, ghost before: seq<Hit>)
      returns (ghost lost': set<nat>)
      requires Valid() && Until(now) && i < |policies|
      requires HaveReplied(policies, i, lost, before, hits, client, statusClass, now)
      modifies this
      ensures Valid() && Until(now)
      ensures HaveReplied(policies, i + 1, lost', before, hits, client, statusClass, now)
      ensures |lost'| - |lost| == exhausted - old(exhausted)
    {
      lost' := lost;
      if Matches(policies[i], statusClass) {
        var count := Count(policies[i], client, now, false);
        if count == 0 {
          lost' := lost + {i};
        }
      }
      assert i !in lost;
      RepliesOneMore(policies, i, lost, lost', before, old(hits), hits, client, statusClass, now);
    }
  }

  // ---------- whole runs ----------

  datatype Event = Request(client: string, now: real) | Reply(client: string, statusClass: int, now: real)

  datatype Admission = Admission(client: string, time: real)

  // How many requests of a client were admitted at a time in [from, to).
  function Admitted(admissions: seq<Admission>, client: string, from: real, to: real): nat {
    if admissions == [] then 0
    else
      var a := admissions[|admissions| - 1];
      Admitted(admissions[..|admissions| - 1], client, from, to) + if a.client == client && from <= a.time < to then 1 else 0
  }

  // No more than (1 + f) times the limit in a second that starts at fraction f.
  predicate IsWithin(admissions: seq<Admission>, p: Policy, client: string, a: real) {
    Admitted(admissions, client, a, a + 1.0) as real <= Burst(p.limit, Fraction(a))
  }

  // Every admission is one that each counting policy has counted as passed.
  ghost predicate AreCounted(admissions: seq<Admission>, hits: seq<Hit>, policies: seq<Policy>) {
    forall p, client, from, to :: p in policies && p.counts ==>
      Admitted(admissions, client, from, to) <= Passed(hits, p.id, client, from, to)
  }

  lemma {:induction false} PassedGrows(before: seq<Hit>, hits: seq<Hit>, policy: string, client: string, from: real, to: real)
    requires before <= hits
    ensures Passed(hits, policy, client, from, to) >= Passed(before, policy, client, from, to)
    ensures (exists h :: h in hits[|before|..] && h.policy == policy && h.client == client && h.passed && from <= h.time < to)
            ==> Passed(hits, policy, client, from, to) > Passed(before, policy, client, from, to)
  {
    if |hits| == |before| {
      assert hits == before;
    } else {
      var init, last := hits[..|hits| - 1], hits[|hits| - 1];
      PassedGrows(before, init, policy, client, from, to);
      assert hits[|before|..] == init[|before|..] + [last];
    }
  }

  lemma OthersGrow(admissions: seq<Admission>, before: seq<Hit>, hits: seq<Hit>, policies: seq<Policy>)
    requires before <= hits && AreCounted(admissions, before, policies)
    ensures AreCounted(admissions, hits, policies)
  {
    forall p, client, from, to | p in policies && p.counts
      ensures Admitted(admissions, client, from, to) <= Passed(hits, p.id, client, from, to)
    {
      PassedGrows(before, hits, p.id, client, from, to);
    }
  }

  lemma AdmissionIsCounted(admissions: seq<Admission>, before: seq<Hit>, hits: seq<Hit>, policies: seq<Policy>,
                           client: string, now: real)
    requires AreCounted(admissions, before, policies) && AllPassed(policies, |policies|, before, hits, client, now)
    ensures AreCounted(admissions + [Admission(client, now)], hits, policies)
  {
    var next := admissions + [Admission(client, now)];
    assert next[..|admissions|] == admissions;
    forall p, c, from, to | p in policies && p.counts
      ensures Admitted(next, c, from, to) <= Passed(hits, p.id, c, from, to)
    {
      assert HasPassed(p, before, hits, client, now);
      assert Hit(p.id, client, now, true) in hits[|before|..];
      PassedGrows(before, hits, p.id, c, from, to);
    }
  }

  // Over any requests and replies in order of time, as long as there is memory
  // for the buckets: in a second that starts at fraction f no client has more
  // than (1 + f) times the limit of its requests admitted, for every policy
  // that counts requests.
  method Run(policies: seq<Policy>, events: seq<Event>) returns (l: Limiter, ghost admissions: seq<Admission>)
    requires DistinctIds(policies)
    requires forall i, j :: 0 <= i < j < |events| ==> events[i].now <= events[j].now
    ensures fresh(l) && l.Valid() && l.policies == policies
    ensures l.exhausted == 0 ==> forall p, client, a :: p in policies && p.counts ==> IsWithin(admissions, p, client, a)
  {
    l := new Limiter(policies);
    admissions := [];
    for k := 0 to |events|
      invariant fresh(l) && l.Valid() && l.policies == policies
      invariant k < |events| ==> l.Until(events[k].now)
      invariant l.exhausted == 0 ==> AreCounted(admissions, l.hits, policies)
    {
      admissions := Take(l, events[k], admissions);
    }
    if l.exhausted == 0 {
      forall p, client, a | p in policies && p.counts
        ensures IsWithin(admissions, p, client, a)
      {
        l.RequestBound(p, client, a);
      }
    }
  }

  method Take(l: Limiter, e: Event, ghost admissions: seq<Admission>) returns (ghost next: seq<Admission>)
    requires l.Valid() && l.Until(e.now)
    requires l.exhausted == 0 ==> AreCounted(admissions, l.hits, l.policies)
    modifies l
    ensures l.Valid() && l.Until(e.now) && l.exhausted >= old(l.exhausted)
    ensures l.exhausted == 0 ==> AreCounted(next, l.hits, l.policies)
  {
    next := admissions;
    match e {
      case Request(client, now) =>
        var admitted;
        ghost var checked;
        admitted, checked := l.Access(client, now);
        if l.exhausted == 0 {
          OthersGrow(admissions, old(l.hits), l.hits, l.policies);
          if admitted {
            AdmissionIsCounted(admissions, old(l.hits), l.hits, l.policies, client, now);
          }
        }
        if admitted {
          next := admissions + [Admission(client, now)];
        }
      case Reply(client, statusClass, now) =>
        ghost var lost := l.Response(client, statusClass, now);
        if l.exhausted == 0 {
          OthersGrow(admissions, old(l.hits), l.hits, l.policies);
        }
    }
  }

  predicate Matches(p: Policy, statusClass: int) {
    !p.counts && statusClass in p.statuses
  }

  // What the first `n` policies count of a reply: those that match, each once,
  // but for the lost ones.
  function Replies(policies: seq<Policy>, n: nat, lost: set<nat>, client: string, statusClass: int, now: real): seq<Hit>
    requires n <= |policies|
  {
    if n == 0 then []
    else
      Replies(policies, n - 1, lost, client, statusClass, now)
      + if Matches(policies[n - 1], statusClass) && n - 1 !in lost then [Hit(policies[n - 1].id, client, now, false)]
        else []
  }

  ghost predicate HaveReplied(policies: seq<Policy>, n: nat, lost: set<nat>, before: seq<Hit>, hits: seq<Hit>,
                              client: string, statusClass: int, now: real)
  {
    && n <= |policies| && hits == before + Replies(policies, n, lost, client, statusClass, now)
    && forall i :: i in lost ==> i < n && Matches(policies[i], statusClass)
  }

  lemma {:induction false} LostLater(policies: seq<Policy>, n: nat, lost: set<nat>, lost': set<nat>, client: string,
                                     statusClass: int, now: real)
    requires n <= |policies| && forall i :: i < n ==> (i in lost <==> i in lost')
    ensures Replies(policies, n, lost, client, statusClass, now) == Replies(policies, n, lost', client, statusClass, now)
  {
    if n > 0 {
      LostLater(policies, n - 1, lost, lost', client, statusClass, now);
    }
  }

  lemma RepliesOneMore(policies: seq<Policy>, n: nat, lost: set<nat>, lost': set<nat>, before: seq<Hit>,
                       hits: seq<Hit>, next: seq<Hit>, client: string, statusClass: int, now: real)
    requires n < |policies| && HaveReplied(policies, n, lost, before, hits, client, statusClass, now)
    requires lost' == lost || (lost' == lost + {n} && Matches(policies[n], statusClass))
    requires next ==
      if lost' == lost && Matches(policies[n], statusClass) then hits + [Hit(policies[n].id, client, now, false)] else hits
    ensures HaveReplied(policies, n + 1, lost', before, next, client, statusClass, now)
    ensures |lost'| == |lost| + if lost' == lost then 0 else 1
  {
    LostLater(policies, n, lost, lost', client, statusClass, now);
    assert n !in lost;
    var list := Replies(policies, n, lost, client, statusClass, now);
    if lost' == lost && Matches(policies[n], statusClass) {
      var h := Hit(policies[n].id, client, now, false);
      assert (before + list) + [h] == before + (list + [h]);
    } else {
      assert list + [] == list;
    }
  }

  // ---------- one more than the limit ----------

  // A limiter in the course of one second: n requests were admitted, all at once.
  ghost predicate HasAdmitted(l: Limiter, p: Policy, client: string, a: real, n: nat, admissions: seq<Admission>)
    reads l
  {
    && l.Valid() && l.policies == [p] && l.Until(a)
    && (l.exhausted == 0 ==>
          l.hits == Volley(p.id, client, a, n) && Admitted(admissions, client, a, a + 1.0) == n)
  }

  lemma NoneExceeded(p: Policy, client: string, a: real, n: nat, passed: bool)
    requires p.counts && n < p.limit
    ensures !Exceeds(Volley(p.id, client, a, n) + [Hit(p.id, client, a, passed)], p, client, a)
  {
    var hits := Volley(p.id, client, a, n) + [Hit(p.id, client, a, passed)];
    assert hits[..n] == Volley(p.id, client, a, n) by {
      VolleyIs(p.id, client, a, n);
    }
    VolleyTally(p.id, client, a, n, a.Floor);
    VolleyTally(p.id, client, a, n, a.Floor - 1);
    NoneIsCovered(Tally(hits, p.id, client, a.Floor - 1), Fraction(a));
  }

  lemma LastIsNotExceeded(p: Policy, client: string, a: real, g: real, passed: bool)
    requires p.counts && 0.0 < g < 1.0 && 1.0 + Covered(p.limit, g) == p.limit as real
    ensures var last := (a.Floor + 1) as real + g;
      !Exceeds(Volley(p.id, client, a, p.limit) + [Hit(p.id, client, last, passed)], p, client, last)
  {
    var last := (a.Floor + 1) as real + g;
    FractionOf(a.Floor + 1, g);
    var hits := Volley(p.id, client, a, p.limit) + [Hit(p.id, client, last, passed)];
    assert hits[..p.limit] == Volley(p.id, client, a, p.limit) by {
      VolleyIs(p.id, client, a, p.limit);
    }
    VolleyTally(p.id, client, a, p.limit, a.Floor);
    VolleyTally(p.id, client, a, p.limit, a.Floor + 1);
  }

  lemma OnePolicy(p: Policy, n: nat, client: string, now: real, admitted: bool)
    requires p.counts && (if admitted then n == 1 else n == 0)
    ensures Verdicts([p], n, client, now, admitted) == [Hit(p.id, client, now, admitted)]
  {
    assert Counted([p], 0, client, now) == [];
  }

  method AdmitOne(l: Limiter, p: Policy, client: string, a: real, n: nat, ghost admissions: seq<Admission>)
    returns (ghost next: seq<Admission>)
    requires HasAdmitted(l, p, client, a, n, admissions) && p.counts && n < p.limit
    modifies l
    ensures HasAdmitted(l, p, client, a, n + 1, next) && l.exhausted >= old(l.exhausted)
  {
    var admitted;
    ghost var checked;
    admitted, checked := l.Access(client, a);
    next := if admitted then admissions + [Admission(client, a)] else admissions;
    if l.exhausted == 0 {
      OnePolicy(p, checked, client, a, admitted);
      NoneExceeded(p, client, a, n, admitted);
      OneMoreAdmitted(admissions, client, a, a, a + 1.0);
    }
  }

  lemma OneMoreAdmitted(admissions: seq<Admission>, client: string, time: real, from: real, to: real)
    requires from <= time < to
    ensures Admitted(admissions + [Admission(client, time)], client, from, to) ==
      Admitted(admissions, client, from, to) + 1
  {
    assert (admissions + [Admission(client, time)])[..|admissions|] == admissions;
  }

  // Requests through the limiter, and unless memory runs out one more of them
  // is admitted than the limit in the second that starts at `a`.
  method ExceedLimit(p: Policy, client: string, a: real) returns (l: Limiter, ghost admissions: seq<Admission>)
    requires p.counts && Times(p.limit, Fraction(a)) > 1.0
    ensures fresh(l) && l.Valid() && l.policies == [p]
    ensures l.exhausted == 0 ==> Admitted(admissions, client, a, a + 1.0) == p.limit + 1
  {
    l := new Limiter([p]);
    admissions := [];
    for n := 0 to p.limit
      invariant fresh(l) && HasAdmitted(l, p, client, a, n, admissions)
    {
      admissions := AdmitOne(l, p, client, a, n, admissions);
    }
    RoomInNextSecond(p.limit, Fraction(a));
    admissions := AdmitLast(l, p, client, a, Share(p.limit), admissions);
  }

  method AdmitLast(l: Limiter, p: Policy, client: string, a: real, g: real, ghost admissions: seq<Admission>)
    returns (ghost next: seq<Admission>)
    requires HasAdmitted(l, p, client, a, p.limit, admissions) && p.counts
    requires 0.0 < g < Fraction(a) && 1.0 + Covered(p.limit, g) == p.limit as real
    modifies l
    ensures l.Valid() && l.policies == [p]
    ensures l.exhausted == 0 ==> Admitted(next, client, a, a + 1.0) == p.limit + 1
  {
    var last := (a.Floor + 1) as real + g;
    var admitted;
    ghost var checked;
    admitted, checked := l.Access(client, last);
    next := if admitted then admissions + [Admission(client, last)] else admissions;
    if l.exhausted == 0 {
      OnePolicy(p, checked, client, last, admitted);
      LastIsNotExceeded(p, client, a, g, admitted);
      OneMoreAdmitted(admissions, client, last, a, a + 1.0);
    }
  }
}
