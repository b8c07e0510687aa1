/** The every-N counters of the logging header, which fold back at 100000. */
module HitCounter {

  const MAX_PER_COUNTER := 100000

  /** A call site. */
  datatype Site = Site(file: string, line: nat)

  datatype Counter = Counter(site: Site, hits: nat)

  /** `validateHitCounts`. */
  function Hit(hits: nat, n: nat): nat {
    (if hits >= MAX_PER_COUNTER then (if n >= 1 then MAX_PER_COUNTER % n else 0) else hits) + 1
  }

  predicate Fires(hits: nat, n: nat) {
    n >= 1 && hits != 0 && hits % n == 0
  }

  /** The stored count after `k` calls with the same `n`. */
  function HitsAfter(n: nat, k: nat): nat {
    if k == 0 then 0 else Hit(HitsAfter(n, k - 1), n)
  }

  lemma NextRemainder(a: nat, b: nat, n: nat)
    requires n >= 1 && a % n == b % n
    ensures (a + 1) % n == (b + 1) % n
  {
    Successor(a, n);
    Successor(b, n);
  }

  lemma Successor(a: nat, n: nat)
    requires n >= 1
    ensures (a + 1) % n == if a % n == n - 1 then 0 else a % n + 1
  {
    var q, r := a / n, a % n;
    assert a == q * n + r;
    if r == n - 1 {
      assert a + 1 == (q + 1) * n;
      Remainder(q + 1, 0, n);
    } else {
      Remainder(q, r + 1, n);
    }
  }

  lemma Multiple(d: nat, n: nat)
    ensures d >= 1 ==> d * n >= n
  {
    if d >= 1 {
      assert (d - 1) * n >= 0;
      assert d * n == (d - 1) * n + n;
    }
  }

  lemma UniqueRemainder(p: nat, t: nat, q: nat, r: nat, n: nat)
    requires t < n && r < n && p * n + t == q * n + r
    ensures t == r
  {
    Difference(p, q, n);
    Difference(q, p, n);
  }

  lemma Difference(p: nat, q: nat, n: nat)
    ensures p > q ==> p * n - q * n >= n
  {
    if p > q {
      Multiple(p - q, n);
      assert (p - q) * n == p * n - q * n;
    }
  }

  lemma Remainder(q: nat, r: nat, n: nat)
    requires r < n
    ensures 0 <= q * n && (q * n + r) % n == r
  {
    assert 0 <= q * n;
    var a := q * n + r;
    UniqueRemainder(a / n, a % n, q, r, n);
  }

  /** The folded counter keeps the remainder of the true count. */
  lemma {:induction false} FoldKeepsRemainder(n: nat, k: nat)
    requires 1 <= n <= MAX_PER_COUNTER
    ensures HitsAfter(n, k) % n == k % n && HitsAfter(n, k) <= MAX_PER_COUNTER
    ensures k > 0 ==> HitsAfter(n, k) > 0
  {
    if k > 0 {
      FoldKeepsRemainder(n, k - 1);
      var h := HitsAfter(n, k - 1);
      NextRemainder(h, k - 1, n);
      if h == MAX_PER_COUNTER {
        Remainder(0, h % n, n);
        NextRemainder(h % n, k - 1, n);
      }
    }
  }

  /** Beyond 100000 the count sticks at 100001. */
  lemma {:induction false} FoldSticks(n: nat, k: nat)
    requires n > MAX_PER_COUNTER
    ensures HitsAfter(n, k) == if k <= MAX_PER_COUNTER then k else MAX_PER_COUNTER + 1
  {
    if k > 0 {
      FoldSticks(n, k - 1);
    }
  }

  /** The k-th call fires exactly when `n` divides `k`, for every k. */
  ghost predicate FiresEveryN(n: nat) {
    forall k :: k >= 1 ==> (Fires(HitsAfter(n, k), n) <==> n >= 1 && k % n == 0)
  }

  /** The folding counter behaves like an unbounded one exactly for `n` up to 100000. */
  lemma EveryNIff(n: nat)
    ensures FiresEveryN(n) <==> n <= MAX_PER_COUNTER
  {
    if n <= MAX_PER_COUNTER {
      forall k | k >= 1
        ensures Fires(HitsAfter(n, k), n) <==> n >= 1 && k % n == 0
      {
        if n >= 1 {
          FoldKeepsRemainder(n, k);
        }
      }
    } else {
      var k := if n == MAX_PER_COUNTER + 1 then n + 1 else n;
      FoldSticks(n, k);
      assert Fires(HitsAfter(n, k), n) != (k % n == 0);
    }
  }

  /** Beyond 100000 the counter never fires, except that with 100001 it fires on every call from
      the 100001st on. */
  lemma BeyondLimit(n: nat, k: nat)
    requires n > MAX_PER_COUNTER
    ensures Fires(HitsAfter(n, k), n) <==> n == MAX_PER_COUNTER + 1 && k > MAX_PER_COUNTER
  {
    FoldSticks(n, k);
  }

  function CallsAt(calls: seq<Site>, site: Site): nat
    decreases |calls|
  {
    if |calls| == 0 then 0
    else CallsAt(calls[..|calls| - 1], site) + if calls[|calls| - 1] == site then 1 else 0
  }

  /** The registered counters; a site that is not listed has not been hit. */
  class Registry {
    var counters: seq<Counter>

    ghost predicate Valid()
      reads this
    {
      forall i, j :: 0 <= i < j < |counters| ==> counters[i].site != counters[j].site
    }

    ghost function HitsAt(site: Site): nat
      requires Valid()
      reads this
    {
      if exists i :: 0 <= i < |counters| && counters[i].site == site
      then var i :| 0 <= i < |counters| && counters[i].site == site; counters[i].hits
      else 0
    }

    constructor ()
      ensures Valid() && counters == []
    {
      counters := [];
    }

    /** `get`, and `registerNew` if nothing is found. */
    method Find(site: Site) returns (at: nat)
      requires Valid()
      modifies this
      ensures Valid() && at < |counters| && counters[at].site == site
      ensures forall other :: HitsAt(other) == old(HitsAt(other))
    {
      at := 0;
      while at < |counters|
        invariant 0 <= at <= |counters|
        invariant forall i :: 0 <= i < at ==> counters[i].site != site
      {
        if counters[at].site == site {
          return;
        }
        at := at + 1;
      }
      ghost var before := counters;
      counters := counters + [Counter(site, 0)];
      forall other
        ensures HitsAt(other) == old(HitsAt(other))
      {
        if i :| 0 <= i < |before| && before[i].site == other {
          assert counters[i] == before[i];
        } else {
          assert other == site ==> counters[|before|].site == other;
        }
      }
    }

    /** `validateEveryN`: exactly this site's count advances, and the result says whether it
        then is a multiple of `n`. */
    method ValidateEveryN(site: Site, n: nat) returns (result: bool)
      requires Valid()
      modifies this
      ensures Valid() && HitsAt(site) == Hit(old(HitsAt(site)), n) && result == Fires(HitsAt(site), n)
      ensures forall other :: other != site ==> HitsAt(other) == old(HitsAt(other))
    {
      var at := Find(site);
      var hits := counters[at].hits;
      assert HitsAt(site) == hits;
      if hits >= MAX_PER_COUNTER {
        hits := if n >= 1 then MAX_PER_COUNTER % n else 0;
      }
      hits := hits + 1;
      ghost var before := counters;
      label Found:
      counters := counters[at := Counter(site, hits)];
      assert counters[at].site == site;
      forall other | other != site
        ensures HitsAt(other) == old@Found(HitsAt(other))
      {
        if i :| 0 <= i < |before| && before[i].site == other {
          assert counters[i] == before[i];
        }
      }
      result := n >= 1 && hits != 0 && hits % n == 0;
    }
  }

  lemma CallsSnoc(calls: seq<Site>, k: nat, site: Site)
    requires k < |calls|
    ensures CallsAt(calls[..k + 1], site) == CallsAt(calls[..k], site) + if calls[k] == site then 1 else 0
  {
    assert calls[..k + 1][..k] == calls[..k];
  }

  /** What the call at position `i` should return. */
  ghost predicate FiresAt(calls: seq<Site>, every: Site -> nat, i: nat)
    requires i < |calls|
  {
    Fires(HitsAfter(every(calls[i]), CallsAt(calls[..i + 1], calls[i])), every(calls[i]))
  }

  lemma FiresOnMultiples(calls: seq<Site>, every: Site -> nat, i: nat)
    requires i < |calls| && 1 <= every(calls[i]) <= MAX_PER_COUNTER
    ensures FiresAt(calls, every, i) <==> CallsAt(calls[..i + 1], calls[i]) % every(calls[i]) == 0
  {
    hide HitsAfter, CallsAt, Fires;
    CallsSnoc(calls, i, calls[i]);
    EveryNIff(every(calls[i]));
  }

  /** Calls of `ValidateEveryN` on a new registry, at many sites in any order, where the calls at
      a site always pass `every(site)`. Whatever other sites do in between, each call finds as
      many hits as its site has had calls; so, for an interval of up to 100000, it fires exactly
      if the number of its site's calls so far is a multiple of the interval. */
  method ValidateAll(calls: seq<Site>, every: Site -> nat) returns (fired: seq<bool>)
    ensures |fired| == |calls|
    ensures forall i :: 0 <= i < |calls| ==> fired[i] == FiresAt(calls, every, i)
    ensures forall i :: 0 <= i < |calls| && 1 <= every(calls[i]) <= MAX_PER_COUNTER ==>
              (fired[i] <==> CallsAt(calls[..i + 1], calls[i]) % every(calls[i]) == 0)
  {
    hide HitsAfter, CallsAt, Fires, Hit;
    var r := new Registry();
    fired := [];
    var k := 0;
    forall site
      ensures r.HitsAt(site) == HitsAfter(every(site), CallsAt(calls[..0], site))
    {
      NoHits(every(site), calls, site);
    }
    while k < |calls|
      invariant 0 <= k <= |calls| && |fired| == k && fresh(r) && r.Valid()
      invariant forall site :: r.HitsAt(site) == HitsAfter(every(site), CallsAt(calls[..k], site))
      invariant forall i :: 0 <= i < k ==> fired[i] == FiresAt(calls, every, i)
    {
      var site := calls[k];
      var result := r.ValidateEveryN(site, every(site));
      forall other
        ensures r.HitsAt(other) == HitsAfter(every(other), CallsAt(calls[..k + 1], other))
      {
        CallsSnoc(calls, k, other);
        OneHit(every(other), CallsAt(calls[..k], other));
      }
      fired := fired + [result];
      k := k + 1;
    }
    forall i | 0 <= i < |calls| && 1 <= every(calls[i]) <= MAX_PER_COUNTER
      ensures fired[i] <==> CallsAt(calls[..i + 1], calls[i]) % every(calls[i]) == 0
    {
      FiresOnMultiples(calls, every, i);
    }
  }

  lemma NoHits(n: nat, calls: seq<Site>, site: Site)
    ensures HitsAfter(n, CallsAt(calls[..0], site)) == 0
  {
  }

  lemma OneHit(n: nat, k: nat)
    ensures HitsAfter(n, k + 1) == Hit(HitsAfter(n, k), n)
  {
  }
}
