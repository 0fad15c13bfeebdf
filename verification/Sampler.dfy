/** Sampling counters by difference: every monitor keeps the last sample per key, compares each new sample with it,
    and replaces it. */
module Sampler {
  import opened Messages

  /** History: a sample taken for a key, with the cached one it was compared with. */
  datatype Sent<K, S> = Sent(key: K, prev: Option<S>, curr: S)

  datatype Cache<K, S> = Cache(latest: map<K, S>, log: seq<Sent<K, S>>)

  function Cached<K, S>(latest: map<K, S>, k: K): Option<S> {
    if k in latest then Some(latest[k]) else None
  }

  function Take<K, S>(c: Cache<K, S>, k: K, s: S): Cache<K, S> {
    Cache(c.latest[k := s], c.log + [Sent(k, Cached(c.latest, k), s)])
  }

  /** What has been sent for one key. */
  function HistoryOf<K(==), S>(log: seq<Sent<K, S>>, k: K): seq<Sent<K, S>> {
    if log == [] then []
    else
      var h, x := HistoryOf(log[..|log| - 1], k), log[|log| - 1];
      if x.key == k then h + [x] else h
  }

  function Previous<K, S>(h: seq<Sent<K, S>>, n: nat): Option<S>
    requires n <= |h|
  {
    if n == 0 then None else Some(h[n - 1].curr)
  }

  /** Every sample of a history is compared with the one before it. */
  ghost predicate Chained<K, S>(h: seq<Sent<K, S>>) {
    forall n: nat | n < |h| :: h[n].prev == Previous(h, n)
  }

  /** The history of a key is chained and its cache entry is the last sample taken, whatever happened to other
      keys in between. */
  ghost predicate Consistent<K, S>(c: Cache<K, S>, k: K) {
    var h := HistoryOf(c.log, k);
    Cached(c.latest, k) == Previous(h, |h|) && Chained(h)
  }

  lemma ChainedSnoc<K, S>(h: seq<Sent<K, S>>, x: Sent<K, S>)
    requires Chained(h) && x.prev == Previous(h, |h|)
    ensures Chained(h + [x])
  {
    forall n: nat | n < |h + [x]|
      ensures (h + [x])[n].prev == Previous(h + [x], n)
    {
      assert Previous(h + [x], n) == Previous(h, n);
    }
  }

  lemma TakeConsistent<K, S>(c: Cache<K, S>, j: K, s: S, k: K)
    requires Consistent(c, k)
    ensures Consistent(Take(c, j, s), k)
  {
    var x := Sent(j, Cached(c.latest, j), s);
    assert (c.log + [x])[..|c.log|] == c.log;
    if j == k {
      ChainedSnoc(HistoryOf(c.log, k), x);
    }
  }

  lemma ChainedInit<K, S>(h: seq<Sent<K, S>>, n: nat)
    requires Chained(h) && n <= |h|
    ensures Chained(h[..n])
  {
  }
}
