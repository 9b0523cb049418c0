/** Index arithmetic on a chained descriptor ring of n entries: the last entry links to the first. */
module Ring {

  /** The entry `next_desc` points at. */
  function Next(i: nat, n: nat): nat
    requires i < n
  {
    if i + 1 == n then 0 else i + 1
  }

  /** The entry reached from i after following k links, k at most once round the ring. */
  function Wrap(i: nat, k: nat, n: nat): nat
    requires i < n && k <= n
  {
    if i + k < n then i + k else i + k - n
  }

  /** The entry reached by following any number of links. */
  function Onwards(i: nat, k: nat, n: nat): (r: nat)
    requires i < n
    ensures r < n
    decreases k
  {
    if k == 0 then i else Onwards(Next(i, n), k - 1, n)
  }

  lemma {:induction false} OnwardsIsWrap(i: nat, k: nat, n: nat)
    requires i < n && k <= n
    ensures Onwards(i, k, n) == Wrap(i, k, n)
    decreases k
  {
    if k > 0 {
      OnwardsIsWrap(Next(i, n), k - 1, n);
    }
  }

  /** How many links lead from entry `from` to entry i. */
  function Dist(i: nat, from: nat, n: nat): nat
    requires i < n && from < n
  {
    if i >= from then i - from else i + n - from
  }

  /** The driver's `++cnt % count` follows the same links as the hardware. */
  lemma ModIsNext(i: nat, n: nat)
    requires i < n
    ensures (i + 1) % n == Next(i, n)
  {
    if i + 1 < n {
      assert (i + 1) / n == 0;
    }
  }
}
