/** Sets of known heights of a chain, their gaps, and how asking for parents closes them. */
module Gaps {
  /** How many of the first `n` blocks are known without a gap. */
  function Front(known: set<nat>, n: nat): (r: nat)
    ensures r <= n && (forall i :: 0 <= i < r ==> i in known) && (r < n ==> r !in known)
  {
    if n == 0 then 0
    else
      var g := Front(known, n - 1);
      if g < n - 1 || n - 1 !in known then g else n
  }

  lemma FrontIs(known: set<nat>, n: nat, g: nat)
    requires g <= n && (forall i :: 0 <= i < g ==> i in known) && (g < n ==> g !in known)
    ensures Front(known, n) == g
  {
    hide Front;
    var f := Front(known, n);
    assert (f < g ==> f in known) && (g < f ==> g in known);
  }

  /** One more known block: the front moves exactly if the block was the first missing one. */
  lemma FrontGrows(known: set<nat>, n: nat, j: nat)
    ensures Front(known, n) <= Front(known + {j}, n)
    ensures j != Front(known, n) ==> Front(known + {j}, n) == Front(known, n)
    ensures j == Front(known, n) < n ==> j < Front(known + {j}, n)
  {
    hide Front;
    var f, g := Front(known, n), Front(known + {j}, n);
    if j != f { FrontIs(known + {j}, n, f); }
    assert g < f ==> g in known;
    assert j == f ==> f in known + {j};
  }

  lemma FrontStays(known: set<nat>, more: set<nat>, n: nat)
    requires known <= more
    ensures Front(known, n) !in more ==> Front(more, n) == Front(known, n)
  {
    hide Front;
    if Front(known, n) !in more { FrontIs(more, n, Front(known, n)); }
  }

  /** Every known height, and the height below it. */
  function Down(known: set<nat>): (r: set<nat>)
    ensures known <= r && forall k :: k in known && k > 0 ==> k - 1 in r
    ensures forall i :: i in r ==> i in known || i + 1 in known
  {
    known + (set k | k in known && k > 0 :: k - 1)
  }

  ghost predicate Near(known: set<nat>, i: nat, n: nat)
  {
    exists j :: j in known && i <= j <= i + n
  }

  /** No gap below a known height is longer than `n`. */
  ghost predicate GapsWithin(known: set<nat>, n: nat)
  {
    forall x, i: nat :: x in known && i <= x ==> Near(known, i, n)
  }

  /** Asking for every missing parent shortens every gap by one. */
  lemma DownCloses(known: set<nat>, n: nat)
    requires GapsWithin(known, n + 1)
    ensures GapsWithin(Down(known), n)
  {
    hide Down;
    var more := Down(known);
    forall x, i: nat | x in more && i <= x ensures Near(more, i, n) {
      var y := if x in known then x else x + 1;
      assert y in known && Near(known, i, n + 1);
      var j :| j in known && i <= j <= i + n + 1;
      assert if j <= i + n then j in more else j - 1 in more;
    }
  }

  lemma NoGaps(known: set<nat>, n: nat, i: nat, x: nat)
    requires GapsWithin(known, 0) && x in known && x < n && i <= x
    ensures i in known && x < Front(known, n)
  {
    hide Front;
    assert Near(known, i, 0);
    var f := Front(known, n);
    assert f <= x ==> Near(known, f, 0);
  }

  lemma GapsWithinMore(known: set<nat>, n: nat, m: nat)
    requires GapsWithin(known, n) && n <= m
    ensures GapsWithin(known, m)
  {
    forall x, i: nat | x in known && i <= x ensures Near(known, i, m) {
      assert Near(known, i, n);
    }
  }

  /** A range that starts at or below the first missing height opens no gap. */
  lemma RangeOpensNoGap(known: set<nat>, len: nat, lo: nat, range: set<nat>, n: nat)
    requires GapsWithin(known, n) && lo <= Front(known, len)
    requires forall i, x :: x in range && lo <= i <= x ==> i in range
    ensures GapsWithin(known + range, n)
    ensures OneGap(known) ==> OneGap(known + range)
  {
    hide Front;
    var more := known + range;
    forall x, i: nat | x in more && i <= x ensures Near(more, i, n) {
      if i !in more {
        assert x in known && Near(known, i, n);
        var j :| j in known && i <= j <= i + n;
        assert j in more;
      }
    }
    forall k: nat | Opens(more, k) ensures Opens(known, k) {
    }
  }

  /** `k` is known and the height below it is not. */
  predicate Opens(known: set<nat>, k: nat)
  {
    k > 0 && k in known && k - 1 !in known
  }

  /** At most one gap. */
  ghost predicate OneGap(known: set<nat>)
  {
    forall k, m :: Opens(known, k) && Opens(known, m) ==> k == m
  }

  lemma DownKeepsOneGap(known: set<nat>)
    requires OneGap(known)
    ensures OneGap(Down(known))
  {
    hide Down;
    forall k: nat | Opens(Down(known), k) ensures Opens(known, k + 1) {
    }
  }

  /** When the only gap closes, the one height that was missing is the first missing one. */
  lemma LastMissing(known: set<nat>, len: nat, j: nat)
    requires OneGap(known) && GapsWithin(known, 1) && j !in known && j in Down(known) && 0 in known
    requires forall i :: i in known ==> i < len
    ensures j == Front(known, len)
  {
    hide Down, Front;
    var f := Front(known, len);
    assert j + 1 in known && f <= j;
    assert Near(known, f, 1);
    assert Opens(known, f + 1) && Opens(known, j + 1);
  }

  function Prefix(n: nat): (r: set<nat>)
    ensures forall i: nat :: i in r <==> i < n
  {
    if n == 0 then {} else Prefix(n - 1) + {n - 1}
  }
}
