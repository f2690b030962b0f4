/** The choice of an io service: a counter that runs round the pool. */
module RoundRobin {
  class AsioIOServicePool {
    const size: nat
    var nextIoService: nat

    ghost predicate Valid()
      reads this
    {
      nextIoService < size
    }

    constructor (size: nat)
      requires size >= 1
      ensures Valid() && this.size == size && nextIoService == 0
    {
      this.size, nextIoService := size, 0;
    }

    /** The index handed out; the counter is advanced, and reset at the end. */
    method GetIOService() returns (service: nat)
      requires Valid()
      modifies this
      ensures Valid() && service == old(nextIoService) < size
      ensures nextIoService == if service + 1 == size then 0 else service + 1
    {
      service := nextIoService;
      nextIoService := nextIoService + 1;
      if nextIoService == size {
        nextIoService := 0;
      }
    }

    /** k calls in a row from the start: call j gets service j mod size. */
    method HandOut(k: nat) returns (services: seq<nat>)
      requires Valid() && nextIoService == 0
      modifies this
      ensures Valid() && services == Served(size, k)
    {
      services := [];
      for j := 0 to k
        invariant Valid() && nextIoService == j % size
        invariant services == Served(size, j)
      {
        var s := GetIOService();
        services := services + [s];
        NextMod(j, size);
      }
    }
  }

  function Served(n: nat, k: nat): (r: seq<nat>)
    requires n >= 1
    ensures |r| == k
  {
    if k == 0 then [] else Served(n, k - 1) + [(k - 1) % n]
  }

  // ---- division, as far as it is needed ----

  lemma DivDefinition(a: nat, n: nat)
    requires n >= 1
    ensures a == (a / n) * n + a % n && a % n < n
  {
  }

  lemma ProductNotNegative(d: nat, n: nat)
    ensures d * n >= 0
  {
  }

  lemma ProductAtLeast(d: nat, n: nat)
    requires d >= 1
    ensures d * n >= n
  {
    ProductNotNegative(d - 1, n);
    assert d * n == (d - 1) * n + n;
  }

  lemma DivUnique(n: nat, q: nat, r: nat, q': nat, r': nat)
    requires r < n && r' < n && q * n + r == q' * n + r'
    ensures q == q' && r == r'
  {
    assert (q - q') * n == q * n - q' * n && (q' - q) * n == q' * n - q * n;
    if q > q' {
      ProductAtLeast(q - q', n);
    }
    if q < q' {
      ProductAtLeast(q' - q, n);
    }
  }

  lemma NextMod(j: nat, n: nat)
    requires n >= 1
    ensures (j + 1) % n == if j % n + 1 == n then 0 else j % n + 1
    ensures (j + 1) / n == if j % n + 1 == n then j / n + 1 else j / n
  {
    var q, r := j / n, j % n;
    DivDefinition(j, n);
    DivDefinition(j + 1, n);
    if r + 1 == n {
      assert (q + 1) * n == q * n + n;
      DivUnique(n, (j + 1) / n, (j + 1) % n, q + 1, 0);
    } else {
      DivUnique(n, (j + 1) / n, (j + 1) % n, q, r + 1);
    }
  }

  function Share(n: nat, k: nat, i: nat): (r: nat)
    requires n >= 1
  {
    multiset(Served(n, k))[i]
  }

  /** After k calls, service i was handed out k / n times, and once more if it is among the first
      k mod n. */
  lemma {:induction false} ShareIs(n: nat, k: nat, i: nat)
    requires n >= 1 && i < n
    ensures Share(n, k, i) == k / n + (if i < k % n then 1 else 0)
  {
    if k == 0 {
      DivDefinition(0, n);
    } else {
      ShareIs(n, k - 1, i);
      NextMod(k - 1, n);
    }
  }

  /** Fairness: at any moment two services were handed out equally often, or once apart. */
  lemma Fair(n: nat, k: nat, i: nat, j: nat)
    requires n >= 1 && i < n && j < n
    ensures -1 <= Share(n, k, i) - Share(n, k, j) <= 1
  {
    ShareIs(n, k, i);
    ShareIs(n, k, j);
  }
}
