/** The walk that scatters symbols over an FSE table: stepping through the residues modulo a power
    of two by an odd step visits every residue once before it comes back to 0, and so does the
    walk that skips the residues at or above a limit. */
module Walk {
  import opened Powers

  /** `FSE_TABLESTEP` */
  function TableStep(size: nat): nat {
    size / 2 + size / 8 + 3
  }

  /** Position after k steps from 0: `position = (position + step) & tableMask`. */
  function At(size: nat, step: nat, k: nat): (p: nat)
    requires size > 0
    ensures p < size
  {
    if k == 0 then 0 else (At(size, step, k - 1) + step) % size
  }

  /** The positions below `limit` among the first k visited, in visiting order. */
  function Kept(size: nat, step: nat, limit: nat, k: nat): seq<nat>
    requires size > 0
  {
    if k == 0 then []
    else Kept(size, step, limit, k - 1)
         + if At(size, step, k - 1) < limit then [At(size, step, k - 1)] else []
  }

  function Order(size: nat, step: nat, limit: nat): seq<nat>
    requires size > 0
  {
    Kept(size, step, limit, size)
  }

  ghost predicate Distinct(s: seq<nat>) {
    forall i, j :: 0 <= i < j < |s| ==> s[i] != s[j]
  }

  /** The walk is multiplication by the step, up to whole turns. */
  lemma {:induction false} AtTurns(size: nat, step: nat, k: nat) returns (turns: nat)
    requires size > 0
    ensures At(size, step, k) + turns * size == k * step
  {
    if k == 0 {
      turns := 0;
    } else {
      var before := AtTurns(size, step, k - 1);
      turns := OneTurn(At(size, step, k - 1), before, k - 1, step, size);
    }
  }

  lemma OneTurn(p: nat, turns: nat, k: nat, s: nat, t: nat) returns (turns': nat)
    requires t > 0
    requires p + turns * t == k * s
    ensures (p + s) % t + turns' * t == (k + 1) * s
  {
    var q := (p + s) / t;
    DivMod(p + s, t);
    turns' := turns + q;
    assert turns' * t == turns * t + q * t;
    assert (k + 1) * s == k * s + s;
  }

  lemma MultipleBelow(p: nat, m: int, t: nat)
    requires p == m * t && p < t
    ensures p == 0
  {
    if m >= 1 {
      MulMonotone(1, m, t);
    } else if m <= -1 {
      MulMonotone(m, -1, t);
    }
  }

  lemma AtFullCircle(size: nat, step: nat)
    requires size > 0
    ensures At(size, step, size) == 0
  {
    var turns := AtTurns(size, step, size);
    assert At(size, step, size) == (step - turns) * size;
    MultipleBelow(At(size, step, size), step - turns, size);
  }

  lemma StepIsOdd(tableLog: nat)
    requires tableLog >= 4
    ensures TableStep(Pow2(tableLog)) % 2 == 1
  {
    Pow2Add(4, tableLog - 4);
    StepOfSixteens(Pow2(tableLog - 4));
  }

  lemma StepOfSixteens(m: nat)
    ensures TableStep(16 * m) == 10 * m + 3
    ensures TableStep(16 * m) % 2 == 1
  {
    var size := 16 * m;
    assert size / 2 == 8 * m;
    assert size / 8 == 2 * m;
  }

  /** An odd factor carries no power of two. */
  lemma {:induction false} OddFactor(d: nat, s: nat, m: nat, n: nat) returns (c: nat)
    requires s % 2 == 1
    requires d * s == m * Pow2(n)
    ensures d == c * Pow2(n)
  {
    if n == 0 {
      c := d;
    } else {
      var p := Pow2(n - 1);
      Halve(d, s, m, p);
      c := OddFactor(d / 2, s, m, n - 1);
      assert c * (2 * p) == 2 * (c * p);
    }
  }

  lemma Halve(d: nat, s: nat, m: nat, p: nat)
    requires s % 2 == 1
    requires d * s == m * (2 * p)
    ensures d % 2 == 0
    ensures (d / 2) * s == m * p
  {
    var e, f := d / 2, s / 2;
    assert m * (2 * p) == 2 * (m * p);
    assert d * s == (2 * e + d % 2) * s == 2 * (e * s) + (d % 2) * s;
  }

  lemma AtInjective(n: nat, step: nat, a: nat, b: nat)
    requires step % 2 == 1
    requires a < b < Pow2(n)
    ensures At(Pow2(n), step, a) != At(Pow2(n), step, b)
  {
    var t := Pow2(n);
    if At(t, step, a) == At(t, step, b) {
      var i := AtTurns(t, step, a);
      var j := AtTurns(t, step, b);
      var m := TurnsBetween(a, b, step, i, j, t);
      var c := OddFactor(b - a, step, m, n);
      MultipleBelow(b - a, c, t);
    }
  }

  lemma TurnsBetween(a: nat, b: nat, s: nat, i: nat, j: nat, t: nat) returns (m: nat)
    requires a < b
    requires b * s - a * s == j * t - i * t
    ensures (b - a) * s == m * t
  {
    assert (b - a) * s == b * s - a * s;
    assert (j - i) * t == j * t - i * t;
    if j < i {
      MulMonotone(j - i, -1, t);
      MulMonotone(0, b - a, s);
      assert t == 0;
      m := 0;
    } else {
      m := j - i;
    }
  }

  // ----- the kept positions

  ghost predicate Visited(size: nat, step: nat, k: nat, p: nat)
    requires size > 0
  {
    exists j: nat :: j < k && At(size, step, j) == p
  }

  lemma {:induction false} KeptElements(size: nat, step: nat, limit: nat, k: nat)
    requires size > 0
    ensures forall p: nat :: p in Kept(size, step, limit, k) <==> p < limit && Visited(size, step, k, p)
  {
    if k > 0 {
      KeptElements(size, step, limit, k - 1);
      forall p: nat
        ensures Visited(size, step, k, p) <==> Visited(size, step, k - 1, p) || p == At(size, step, k - 1)
      {
      }
    }
  }

  lemma {:induction false} KeptDistinct(n: nat, step: nat, limit: nat, k: nat)
    requires step % 2 == 1
    requires k <= Pow2(n)
    ensures Distinct(Kept(Pow2(n), step, limit, k))
  {
    if k > 0 {
      KeptDistinct(n, step, limit, k - 1);
      KeptElements(Pow2(n), step, limit, k - 1);
      var p := At(Pow2(n), step, k - 1);
      if Visited(Pow2(n), step, k - 1, p) {
        var j: nat :| j < k - 1 && At(Pow2(n), step, j) == p;
        AtInjective(n, step, j, k - 1);
      }
      assert p !in Kept(Pow2(n), step, limit, k - 1);
    }
  }

  lemma {:induction false} KeptPrefix(size: nat, step: nat, limit: nat, k: nat, n: nat)
    requires size > 0
    requires k <= n
    ensures Kept(size, step, limit, k) <= Kept(size, step, limit, n)
  {
    if k < n {
      KeptPrefix(size, step, limit, k, n - 1);
    }
  }

  ghost function Elements(s: seq<nat>): set<nat> {
    set x | x in s
  }

  lemma {:induction false} DistinctCardinality(s: seq<nat>)
    requires Distinct(s)
    ensures |Elements(s)| == |s|
  {
    if |s| > 0 {
      var last := |s| - 1;
      DistinctCardinality(s[..last]);
      assert s == s[..last] + [s[last]];
      assert s[last] !in s[..last];
      assert Elements(s) == Elements(s[..last]) + {s[last]};
    }
  }

  function Below(n: nat): (r: set<nat>)
    ensures |r| == n
    ensures forall x: nat :: x in r <==> x < n
  {
    if n == 0 then {} else Below(n - 1) + {n - 1}
  }

  lemma SubsetOfSameSize<T>(a: set<T>, b: set<T>)
    requires a <= b && |a| == |b|
    ensures a == b
  {
    assert b == a + (b - a);
    assert |b - a| == 0;
  }

  lemma {:induction false} KeptAll(size: nat, step: nat, k: nat)
    requires size > 0
    ensures |Kept(size, step, size, k)| == k
  {
    if k > 0 {
      KeptAll(size, step, k - 1);
    }
  }

  /** The walk with skipping is a permutation of the positions below the limit. */
  lemma OrderIsPermutation(n: nat, step: nat, limit: nat)
    requires step % 2 == 1
    requires limit <= Pow2(n)
    ensures Distinct(Order(Pow2(n), step, limit))
    ensures |Order(Pow2(n), step, limit)| == limit
    ensures forall p: nat :: p in Order(Pow2(n), step, limit) <==> p < limit
  {
    var t := Pow2(n);
    var all := Order(t, step, t);
    KeptElements(t, step, t, t);
    KeptDistinct(n, step, t, t);
    KeptAll(t, step, t);
    DistinctCardinality(all);
    SubsetOfSameSize(Elements(all), Below(t));
    KeptElements(t, step, limit, t);
    KeptDistinct(n, step, limit, t);
    var kept := Order(t, step, limit);
    forall p: nat | p < limit
      ensures p in kept
    {
      assert p in Below(t);
      assert p in Elements(all);
    }
    DistinctCardinality(kept);
    assert Elements(kept) == Below(limit);
  }

  /** The walk is back at 0 exactly when it has kept nothing yet or everything. */
  lemma BackAtZero(n: nat, step: nat, limit: nat, k: nat)
    requires step % 2 == 1
    requires 0 < limit <= Pow2(n)
    requires k <= Pow2(n)
    requires k < Pow2(n) ==> At(Pow2(n), step, k) < limit
    ensures At(Pow2(n), step, k) == 0 <==> |Kept(Pow2(n), step, limit, k)| in {0, limit}
    ensures k == Pow2(n) <==> |Kept(Pow2(n), step, limit, k)| == limit
    ensures k < Pow2(n) ==>
              Kept(Pow2(n), step, limit, k) + [At(Pow2(n), step, k)] <= Order(Pow2(n), step, limit)
  {
    var t := Pow2(n);
    AtFullCircle(t, step);
    OrderIsPermutation(n, step, limit);
    if k < t {
      KeptPrefix(t, step, limit, k + 1, t);
      assert |Kept(t, step, limit, k + 1)| <= limit;
    }
    if k > 0 {
      KeptPrefix(t, step, limit, 1, k);
      assert Kept(t, step, limit, 1) == Kept(t, step, limit, 0) + [0];
      if k < t {
        AtInjective(n, step, 0, k);
      }
    }
  }
}
