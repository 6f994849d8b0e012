/** Positions on a ring, counted from a cursor: the scan of take in services/pipeline/internal/session/scheduler.go. */
module Rings {

  /** Position reached after i steps from the cursor on a ring of n. */
  function At(next: nat, i: nat, n: nat): (pos: nat)
    requires n > 0
    ensures pos < n
  {
    (next + i) % n
  }

  /** How many positions the cursor passes before it stands at p. */
  function Distance(next: nat, p: nat, n: nat): (d: nat)
    requires next < n && p < n
    ensures d < n
  {
    if next <= p then p - next else p + n - next
  }

  lemma OnceAround(x: nat, n: nat)
    requires n <= x < 2 * n
    ensures x % n == x - n
  {
    var q, r := x / n, x % n;
    assert x == q * n + r;
    assert q >= 2 ==> (q - 2) * n >= 0;
    assert (q - 2) * n == q * n - 2 * n;
  }

  lemma NotAround(x: nat, n: nat)
    requires x < n
    ensures x % n == x
  {
  }

  lemma RingPosition(next: nat, i: nat, n: nat)
    requires next < n && i < n
    ensures At(next, i, n) == if next + i < n then next + i else next + i - n
  {
    if next + i < n {
      NotAround(next + i, n);
    } else {
      OnceAround(next + i, n);
    }
  }

  lemma AtDistance(next: nat, p: nat, n: nat)
    requires next < n && p < n
    ensures At(next, Distance(next, p, n), n) == p
  {
    RingPosition(next, Distance(next, p, n), n);
  }

  /** pos is the first ready position on the ring, counted from the cursor. */
  ghost predicate FirstReady(ready: seq<bool>, next: nat, pos: nat)
    requires next < |ready|
  {
    && pos < |ready| && ready[pos]
    && forall q: nat | q < |ready| && ready[q] :: Distance(next, pos, |ready|) <= Distance(next, q, |ready|)
  }

  lemma DistanceAt(next: nat, i: nat, n: nat)
    requires next < n && i < n
    ensures Distance(next, At(next, i, n), n) == i
  {
    RingPosition(next, i, n);
  }

  lemma FirstReadyAt(ready: seq<bool>, next: nat, i: nat)
    requires next < |ready| && i < |ready| && ready[At(next, i, |ready|)]
    requires forall k | 0 <= k < i :: !ready[At(next, k, |ready|)]
    ensures FirstReady(ready, next, At(next, i, |ready|))
  {
    var n := |ready|;
    DistanceAt(next, i, n);
    forall q: nat | q < n && ready[q]
      ensures i <= Distance(next, q, n)
    {
      AtDistance(next, q, n);
    }
  }

  lemma NoneReady(ready: seq<bool>, next: nat)
    requires next < |ready| && forall k | 0 <= k < |ready| :: !ready[At(next, k, |ready|)]
    ensures forall q | 0 <= q < |ready| :: !ready[q]
  {
    forall q: nat | q < |ready|
      ensures !ready[q]
    {
      AtDistance(next, q, |ready|);
    }
  }

  lemma NextPosition(q: nat, n: nat)
    requires q < n
    ensures (q + 1) % n == if q + 1 < n then q + 1 else 0
  {
    if q + 1 < n {
      NotAround(q + 1, n);
    } else {
      OnceAround(q + 1, n);
    }
  }
}
