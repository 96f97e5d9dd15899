/** Ring buffers filled and emptied by block copies that wrap at the end: what
    the two-part memcpy of several drivers does, element by element. */
module Rings {
  // ---------------------------------------------------------------------
  // Element by element
  // ---------------------------------------------------------------------

  function Next(p: nat, size: nat): (q: nat)
    requires p < size
    ensures q < size
  {
    if p + 1 == size then 0 else p + 1
  }

  /** The position n elements after p. */
  function Forward(p: nat, n: nat, size: nat): (q: nat)
    requires p < size
    ensures q < size
    decreases n
  {
    if n == 0 then p else Forward(Next(p, size), n - 1, size)
  }

  function Store<T>(ring: seq<T>, p: nat, data: seq<T>): (r: seq<T>)
    requires p < |ring|
    ensures |r| == |ring|
    decreases |data|
  {
    if data == [] then ring else Store(ring[p := data[0]], Next(p, |ring|), data[1..])
  }

  function Fetch<T>(ring: seq<T>, p: nat, n: nat): (r: seq<T>)
    requires p < |ring|
    ensures |r| == n
    decreases n
  {
    if n == 0 then [] else [ring[p]] + Fetch(ring, Next(p, |ring|), n - 1)
  }

  /** A position up to one lap ahead. */
  function Wrap(p: nat, size: nat): nat { if p < size then p else p - size }

  /** How far k lies ahead of p. */
  function Ahead(p: nat, k: nat, size: nat): nat
    requires p < size && k < size
  {
    if k >= p then k - p else k + size - p
  }

  lemma {:induction false} ForwardIsWrap(p: nat, n: nat, size: nat)
    requires p < size && n <= size
    ensures Forward(p, n, size) == Wrap(p + n, size)
    decreases n
  {
    if n > 0 {
      if p + 1 == size {
        ForwardIsWrap(0, n - 1, size);
      } else {
        ForwardIsWrap(p + 1, n - 1, size);
      }
    }
  }

  lemma {:induction false} ForwardAdd(p: nat, a: nat, b: nat, size: nat)
    requires p < size
    ensures Forward(p, a + b, size) == Forward(Forward(p, a, size), b, size)
    decreases a
  {
    if a > 0 {
      ForwardAdd(Next(p, size), a - 1, b, size);
    }
  }

  lemma {:induction false} ForwardAligned(p: nat, n: nat, size: nat)
    requires p < size && size % 4 == 0
    ensures Forward(p, n, size) % 4 == (p + n) % 4
    decreases n
  {
    if n > 0 {
      ForwardAligned(Next(p, size), n - 1, size);
    }
  }

  lemma {:induction false} FetchAt<T>(ring: seq<T>, p: nat, n: nat, i: nat)
    requires p < |ring| && i < n <= |ring|
    ensures Fetch(ring, p, n)[i] == ring[Wrap(p + i, |ring|)]
    decreases n
  {
    if i > 0 {
      FetchAt(ring, Next(p, |ring|), n - 1, i - 1);
    }
  }

  /** Storing changes exactly the positions up to |data| ahead of p. */
  lemma {:induction false} StoreAt<T>(ring: seq<T>, p: nat, data: seq<T>, k: nat)
    requires p < |ring| && k < |ring| && |data| <= |ring|
    ensures Store(ring, p, data)[k] == if Ahead(p, k, |ring|) < |data| then data[Ahead(p, k, |ring|)] else ring[k]
    decreases |data|
  {
    if data != [] {
      StoreAt(ring[p := data[0]], Next(p, |ring|), data[1..], k);
    }
  }

  lemma {:induction false} FetchAdd<T>(ring: seq<T>, p: nat, a: nat, b: nat)
    requires p < |ring|
    ensures Fetch(ring, p, a + b) == Fetch(ring, p, a) + Fetch(ring, Forward(p, a, |ring|), b)
    decreases a
  {
    if a > 0 {
      FetchAdd(ring, Next(p, |ring|), a - 1, b);
    }
  }

  lemma {:induction false} StoreAdd<T>(ring: seq<T>, p: nat, a: seq<T>, b: seq<T>)
    requires p < |ring|
    ensures Store(ring, p, a + b) == Store(Store(ring, p, a), Forward(p, |a|, |ring|), b)
    decreases |a|
  {
    if a == [] {
      assert a + b == b;
    } else {
      assert (a + b)[1..] == a[1..] + b;
      StoreAdd(ring[p := a[0]], Next(p, |ring|), a[1..], b);
    }
  }

  /** However much is stored, the last |ring| elements are found again. */
  lemma StoredLast<T>(ring: seq<T>, p: nat, data: seq<T>, i: nat)
    requires p < |ring| && i < |data| <= i + |ring|
    ensures Store(ring, p, data)[Forward(p, i, |ring|)] == data[i]
  {
    var q := Forward(p, i, |ring|);
    assert data == data[..i] + data[i..];
    StoreAdd(ring, p, data[..i], data[i..]);
    StoreAt(Store(ring, p, data[..i]), q, data[i..], q);
  }

  /** What is stored is fetched again. */
  lemma FetchStored<T>(ring: seq<T>, p: nat, data: seq<T>)
    requires p < |ring| && |data| <= |ring|
    ensures Fetch(Store(ring, p, data), p, |data|) == data
  {
    var stored := Store(ring, p, data);
    forall i | 0 <= i < |data| ensures Fetch(stored, p, |data|)[i] == data[i] {
      FetchAt(stored, p, |data|, i);
      StoreAt(ring, p, data, Wrap(p + i, |ring|));
    }
  }

  /** Storing behind n elements keeps them while everything fits. */
  lemma FetchKept<T>(ring: seq<T>, p: nat, n: nat, data: seq<T>)
    requires p < |ring| && n + |data| <= |ring|
    ensures Fetch(Store(ring, Forward(p, n, |ring|), data), p, n) == Fetch(ring, p, n)
  {
    var stored := Store(ring, Forward(p, n, |ring|), data);
    forall i | 0 <= i < n ensures Fetch(stored, p, n)[i] == Fetch(ring, p, n)[i] {
      KeptAt(ring, p, n, data, i);
      FetchAt(stored, p, n, i);
      FetchAt(ring, p, n, i);
    }
  }

  lemma KeptAt<T>(ring: seq<T>, p: nat, n: nat, data: seq<T>, i: nat)
    requires p < |ring| && i < n && n + |data| <= |ring|
    ensures Store(ring, Forward(p, n, |ring|), data)[Wrap(p + i, |ring|)] == ring[Wrap(p + i, |ring|)]
  {
    ForwardIsWrap(p, n, |ring|);
    StoreAt(ring, Forward(p, n, |ring|), data, Wrap(p + i, |ring|));
  }

  /** The ring holds the elements from the pull position up to the push position. */
  ghost predicate Holds<T>(ring: seq<T>, pull: nat, push: nat, elements: seq<T>) {
    && pull < |ring| && |elements| <= |ring|
    && push == Forward(pull, |elements|, |ring|)
    && Fetch(ring, pull, |elements|) == elements
  }

  lemma HoldsDistance<T>(ring: seq<T>, pull: nat, push: nat, elements: seq<T>)
    requires Holds(ring, pull, push, elements)
    ensures push == Wrap(pull + |elements|, |ring|) < |ring|
  {
    ForwardIsWrap(pull, |elements|, |ring|);
  }

  lemma Append<T>(ring: seq<T>, pull: nat, push: nat, elements: seq<T>, data: seq<T>)
    requires Holds(ring, pull, push, elements) && |elements| + |data| <= |ring|
    ensures push < |ring| && Holds(Store(ring, push, data), pull, Forward(push, |data|, |ring|), elements + data)
  {
    hide Fetch;
    FetchKept(ring, pull, |elements|, data);
    FetchStored(ring, push, data);
    FetchAdd(Store(ring, push, data), pull, |elements|, |data|);
    ForwardAdd(pull, |elements|, |data|, |ring|);
  }

  lemma Remove<T>(ring: seq<T>, pull: nat, push: nat, first: seq<T>, rest: seq<T>)
    requires Holds(ring, pull, push, first + rest)
    ensures Fetch(ring, pull, |first|) == first
    ensures Holds(ring, Forward(pull, |first|, |ring|), push, rest)
  {
    var q := Forward(pull, |first|, |ring|);
    FetchAdd(ring, pull, |first|, |rest|);
    ForwardAdd(pull, |first|, |rest|, |ring|);
    SameSplit(Fetch(ring, pull, |first|), Fetch(ring, q, |rest|), first, rest);
  }

  lemma SameSplit<T>(a: seq<T>, b: seq<T>, c: seq<T>, d: seq<T>)
    requires a + b == c + d && |a| == |c|
    ensures a == c && b == d
  {
    assert a == (a + b)[..|a|] && c == (c + d)[..|a|];
    assert b == (a + b)[|a|..] && d == (c + d)[|a|..];
  }

  // ---------------------------------------------------------------------
  // Block by block
  // ---------------------------------------------------------------------

  lemma {:induction false} StoreBlock<T>(ring: seq<T>, p: nat, data: seq<T>, n: nat)
    requires p < |ring| && n <= |data| && p + n <= |ring|
    ensures Store(ring, p, data) == Store(ring[..p] + data[..n] + ring[p + n..], Wrap(p + n, |ring|), data[n..])
    decreases n
  {
    if n == 0 {
      assert ring[..p] + data[..0] + ring[p..] == ring;
      assert data[0..] == data;
    } else if n == 1 {
      assert ring[..p] + data[..1] + ring[p + 1..] == ring[p := data[0]];
    } else {
      var one := ring[p := data[0]];
      StoreBlock(one, p + 1, data[1..], n - 1);
      assert one[..p + 1] + data[1..][..n - 1] + one[p + n..] == ring[..p] + data[..n] + ring[p + n..];
      assert data[1..][n - 1..] == data[n..];
    }
  }

  lemma {:induction false} FetchBlock<T>(ring: seq<T>, p: nat, n: nat, k: nat)
    requires p < |ring| && k <= n && p + k <= |ring|
    ensures Fetch(ring, p, n) == ring[p..p + k] + Fetch(ring, Wrap(p + k, |ring|), n - k)
    decreases k
  {
    if k == 1 {
      assert ring[p..p + 1] == [ring[p]];
    } else if k > 1 {
      FetchBlock(ring, p + 1, n - 1, k - 1);
      assert ring[p..p + k] == [ring[p]] + ring[p + 1..p + k];
    }
  }

  /** memcpy into a ring. */
  method CopyBlock<T>(ring: array<T>, p: nat, data: seq<T>)
    requires p + |data| <= ring.Length
    modifies ring
    ensures ring[..] == old(ring[..p]) + data + old(ring[p + |data|..])
  {
    var i := 0;
    while i < |data|
      invariant i <= |data|
      invariant ring[..] == old(ring[..p]) + data[..i] + old(ring[p + i..])
    {
      ring[p + i] := data[i];
      i := i + 1;
    }
  }

  lemma StoreStraight<T>(ring: seq<T>, p: nat, data: seq<T>)
    requires p < |ring| && p + |data| <= |ring|
    ensures Store(ring, p, data) == ring[..p] + data + ring[p + |data|..]
  {
    StoreBlock(ring, p, data, |data|);
    assert data[|data|..] == [] && data[..|data|] == data;
  }

  /** Storing in two parts, the second one at the start of the ring. */
  lemma StoreAround<T>(ring: seq<T>, p: nat, data: seq<T>)
    requires p < |ring| && |data| <= |ring| < p + |data|
    ensures var n := |ring| - p;
            var first := ring[..p] + data[..n];
            Store(ring, p, data) == data[n..] + first[|data| - n..]
  {
    var n := |ring| - p;
    StoreBlock(ring, p, data, n);
    var first := ring[..p] + data[..n];
    assert ring[..p] + data[..n] + ring[p + n..] == first;
    var rest := data[n..];
    StoreBlock(first, 0, rest, |rest|);
    assert first[..0] + rest[..|rest|] + first[|rest|..] == rest + first[|rest|..];
    assert rest[|rest|..] == [];
  }

  method CopyIn<T>(ring: array<T>, p: nat, data: seq<T>) returns (q: nat)
    requires p < ring.Length
    modifies ring
    ensures ring[..] == Store(old(ring[..]), p, data)
    ensures q == Forward(p, |data|, ring.Length)
  {
    q := p;
    var left := data;
    while left != []
      invariant q < ring.Length && Store(ring[..], q, left) == Store(old(ring[..]), p, data)
      invariant Forward(q, |left|, ring.Length) == Forward(p, |data|, ring.Length)
      decreases |left|
    {
      var tillEnd := if |left| < ring.Length - q then |left| else ring.Length - q;
      StoreBlock(ring[..], q, left, tillEnd);
      ForwardAdd(q, tillEnd, |left| - tillEnd, ring.Length);
      ForwardIsWrap(q, tillEnd, ring.Length);
      CopyBlock(ring, q, left[..tillEnd]);
      q := q + tillEnd;
      if q >= ring.Length {
        q := q - ring.Length;
      }
      left := left[tillEnd..];
    }
  }

  method CopyOut<T>(ring: array<T>, p: nat, n: nat) returns (q: nat, data: seq<T>)
    requires p < ring.Length
    ensures data == Fetch(ring[..], p, n)
    ensures q == Forward(p, n, ring.Length)
  {
    q, data := p, [];
    var left: nat := n;
    while left > 0
      invariant q < ring.Length && data + Fetch(ring[..], q, left) == Fetch(ring[..], p, n)
      invariant Forward(q, left, ring.Length) == Forward(p, n, ring.Length)
    {
      var tillEnd := if left < ring.Length - q then left else ring.Length - q;
      FetchBlock(ring[..], q, left, tillEnd);
      ForwardAdd(q, tillEnd, left - tillEnd, ring.Length);
      ForwardIsWrap(q, tillEnd, ring.Length);
      var block := ring[q..q + tillEnd];
      assert block == ring[..][q..q + tillEnd];
      data := data + block;
      q := q + tillEnd;
      if q >= ring.Length {
        q := q - ring.Length;
      }
      left := left - tillEnd;
    }
  }
}
