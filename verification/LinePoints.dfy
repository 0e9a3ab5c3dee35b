/** Line points: a pair of table positions as one number, and the bitwise search that takes it apart. */
module LinePoints {
  import opened Powers

  const WORD: nat := 0x1_0000_0000_0000_0000

  /** 0 + 1 + ... + (x - 1) */
  function Tri(x: nat): nat {
    if x == 0 then 0 else Tri(x - 1) + (x - 1)
  }

  /** `GetXEnc`: x * (x - 1) / 2 with the division first, on 64-bit words. */
  function GetXEnc(x: nat): nat {
    HalfProduct(x, (x - 1) % WORD)
  }

  function HalfProduct(a: nat, b: nat): nat {
    if a % 2 == 0 then (a / 2) * b else a * (b / 2)
  }

  function SquareToLinePoint(x: nat, y: nat): nat {
    if y > x then GetXEnc(y) + x else GetXEnc(x) + y
  }

  lemma {:induction false} TriClosed(x: nat)
    ensures 2 * Tri(x) == x * (x - 1)
  {
    if x > 0 {
      TriClosed(x - 1);
      assert x * (x - 1) == (x - 1) * (x - 2) + 2 * (x - 1);
    }
  }

  lemma GetXEncIsTri(x: nat)
    requires x < WORD
    ensures GetXEnc(x) == Tri(x)
  {
    hide HalfProduct, Tri;
    TriClosed(x);
    if x > 0 {
      HalfFirst(x, x - 1);
    } else {
      HalfOfZero((x - 1) % WORD);
    }
  }

  lemma HalfOfZero(b: nat)
    ensures HalfProduct(0, b) == 0
  {
  }

  lemma HalfFirst(a: nat, b: nat)
    requires a == b + 1
    ensures 2 * HalfProduct(a, b) == a * b
  {
    if a % 2 == 0 {
      assert a == 2 * (a / 2);
      assert 2 * ((a / 2) * b) == (2 * (a / 2)) * b;
    } else {
      assert b == 2 * (b / 2);
      assert 2 * (a * (b / 2)) == a * (2 * (b / 2));
    }
  }

  lemma {:induction false} TriMonotone(x: nat, y: nat)
    requires x <= y
    ensures Tri(x) <= Tri(y)
    ensures x < y ==> Tri(x) + x <= Tri(y)
  {
    if x < y {
      TriMonotone(x, y - 1);
    }
  }

  // ----- taking a line point apart

  /** x is the largest 64-bit number whose line point with 0 does not exceed the index. */
  ghost predicate IsRoot(index: nat, x: nat) {
    x < WORD && GetXEnc(x) <= index && (x + 1 < WORD ==> index < GetXEnc(x + 1))
  }

  lemma RootFrom(index: nat, x: nat) returns (r: nat)
    requires x < WORD && GetXEnc(x) <= index
    ensures IsRoot(index, r)
    decreases WORD - x
  {
    hide GetXEnc;
    if x + 1 < WORD && GetXEnc(x + 1) <= index {
      r := RootFrom(index, x + 1);
    } else {
      r := x;
    }
  }

  lemma RootExists(index: nat)
    ensures exists x: nat :: IsRoot(index, x)
  {
    GetXEncIsTri(0);
    var r := RootFrom(index, 0);
  }

  lemma RootUnique(index: nat, x: nat, y: nat)
    requires IsRoot(index, x) && IsRoot(index, y)
    ensures x == y
  {
    hide GetXEnc, Tri;
    GetXEncIsTri(x);
    GetXEncIsTri(y);
    if x < y {
      GetXEncIsTri(x + 1);
      TriMonotone(x + 1, y);
    } else if y < x {
      GetXEncIsTri(y + 1);
      TriMonotone(y + 1, x);
    }
  }

  /** The pair that a line point stands for. */
  ghost function LinePointToSquare(index: nat): (nat, nat) {
    RootExists(index);
    var x: nat :| IsRoot(index, x);
    (x, (index - GetXEnc(x)) % WORD)
  }

  lemma RootFound(index: nat)
    ensures var x := LinePointToSquare(index).0;
            x < WORD && Tri(x) <= index && (index < Tri(x + 1) || x + 1 == WORD)
    ensures LinePointToSquare(index).1 == (index - Tri(LinePointToSquare(index).0)) % WORD
  {
    RootExists(index);
    var x: nat :| IsRoot(index, x);
    var r := LinePointToSquare(index).0;
    assert IsRoot(index, r);
    hide GetXEnc, Tri;
    GetXEncIsTri(r);
    if r + 1 < WORD {
      GetXEncIsTri(r + 1);
    }
  }

  lemma WordIsPower()
    ensures Pow2(64) == WORD
  {
    assert Pow2(8) == 256;
    hide Pow2;
    Pow2Add(8, 8);
    Pow2Add(16, 16);
    Pow2Add(32, 32);
  }

  /** The search for the root, bit by bit from the top. */
  method Unpair(index: nat) returns (x: nat, y: nat)
    ensures (x, y) == LinePointToSquare(index)
  {
    hide GetXEnc, Pow2, LinePointToSquare;
    x := 0;
    var i := 63;
    WordIsPower();
    GetXEncIsTri(0);
    while i >= 0
      invariant -1 <= i <= 63 && GetXEnc(x) <= index && x + Pow2(i + 1) <= WORD
      invariant x + Pow2(i + 1) < WORD ==> index < GetXEnc(x + Pow2(i + 1))
    {
      NextPower(i);
      var newX := x + Pow2(i);
      if GetXEnc(newX) <= index {
        x := newX;
      }
      i := i - 1;
    }
    NoBits();
    RootIs(index, x);
    y := (index - GetXEnc(x)) % WORD;
  }

  lemma RootIs(index: nat, x: nat)
    requires IsRoot(index, x)
    ensures LinePointToSquare(index) == (x, (index - GetXEnc(x)) % WORD)
  {
    hide GetXEnc;
    RootUnique(index, x, LinePointToSquare(index).0);
  }

  /** On pairs of different 64-bit numbers the search inverts the encoding. On equal ones it cannot:
      (x, x) shares its line point with (x + 1, 0), and the search prefers the latter, unless x + 1 is
      no longer a 64-bit number. */
  lemma PairRecovered(x: nat, y: nat)
    requires y <= x < WORD
    ensures LinePointToSquare(SquareToLinePoint(x, y)) == (x, y) <==> x != y || x == WORD - 1
    ensures SquareToLinePoint(x, y) == SquareToLinePoint(y, x)
  {
    hide LinePointToSquare, GetXEnc;
    GetXEncIsTri(x);
    var index := SquareToLinePoint(x, y);
    var r := LinePointToSquare(index).0;
    RootFound(index);
    if r < x {
      TriMonotone(r + 1, x);
    } else if r > x {
      TriMonotone(x + 1, r);
    }
  }

  /** The pair that the search prefers for an equal pair. */
  lemma DiagonalCollides(x: nat)
    requires x + 1 < WORD
    ensures SquareToLinePoint(x, x) == SquareToLinePoint(x + 1, 0)
  {
    GetXEncIsTri(x);
    GetXEncIsTri(x + 1);
  }

  /** Line points order pairs by their larger member, then by their smaller one. */
  lemma PairsInOrder(x: nat, y: nat, x': nat, y': nat)
    requires y < x < WORD && y' < x' < WORD
    ensures SquareToLinePoint(x, y) < SquareToLinePoint(x', y') <==> x < x' || (x == x' && y < y')
  {
    GetXEncIsTri(x);
    GetXEncIsTri(x');
    if x < x' {
      TriMonotone(x, x');
    } else if x' < x {
      TriMonotone(x', x);
    }
  }

  /** Pairs of k-bit numbers, also of equal ones, stay below 2^(2k - 1), the key size of the line point
      sort, and no pair of 64-bit words comes near the end of a 128-bit one. */
  lemma PairsFitKey(x: nat, y: nat, k: nat)
    requires y <= x < Pow2(k) && k <= 64
    ensures SquareToLinePoint(x, y) < Pow2(127)
    ensures y < x ==> k >= 1
    ensures k >= 1 ==> SquareToLinePoint(x, y) < Pow2(2 * k - 1)
  {
    hide Pow2, GetXEnc;
    WordIsPower();
    Pow2Monotone(k, 64);
    GetXEncIsTri(x);
    TriMonotone(x, Pow2(k));
    TriOfPower(k);
    Pow2Monotone(2 * k, 128);
    NextPower(127);
    if k >= 1 {
      NextPower(2 * k - 1);
    } else {
      NoBits();
    }
  }

  lemma NextPower(n: nat)
    ensures Pow2(n + 1) == 2 * Pow2(n)
  {
  }

  lemma NoBits()
    ensures Pow2(0) == 1
  {
  }

  lemma TriOfPower(k: nat)
    ensures 2 * Tri(Pow2(k)) < Pow2(2 * k)
  {
    TriClosed(Pow2(k));
    Pow2Add(k, k);
    assert Pow2(k) * (Pow2(k) - 1) == Pow2(k) * Pow2(k) - Pow2(k);
  }
}
