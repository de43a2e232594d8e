/** `Math.floor`, `Math.round` and `Math.ceil` of a quotient of integers,
    computed exactly.  Dafny's `/` is Euclidean; with a positive divisor it
    is the floor of the quotient, and the quotient of two negated operands
    is the same real number. */
module JsMath {

  /** `Math.floor(a / b)`. */
  function FloorDiv(a: int, b: int): (q: int)
    requires b != 0
    ensures b > 0 ==> b * q <= a < b * q + b
    ensures b < 0 ==> b * q >= a > b * q + b
  {
    if b > 0 then a / b else (-a) / (-b)
  }

  /** `Math.round(a / b)`: the floor of `a / b + 1/2`, so halves round up. */
  function Round(a: int, b: int): int
    requires b != 0
  {
    FloorDiv(2 * a + b, 2 * b)
  }

  /** `Math.ceil(a / b)` for a positive divisor. */
  function CeilDiv(a: int, b: int): (q: int)
    requires b > 0
    ensures b * q - b < a <= b * q
  {
    (a + b - 1) / b
  }

  /** `Math.round(a / b)` is the one integer within half of `a / b`,
      halves going up: `r - 1/2 <= a / b < r + 1/2`. */
  lemma RoundCharacterised(a: int, b: int, r: int)
    requires b > 0
    ensures r == Round(a, b) <==> 2 * b * r - b <= 2 * a < 2 * b * r + b
  {
    var q := Round(a, b);
    assert 2 * b * q <= 2 * a + b < 2 * b * q + 2 * b;
    if 2 * b * r - b <= 2 * a < 2 * b * r + b {
      if r < q {
        assert 2 * b * r + 2 * b <= 2 * b * q by {
          assert r + 1 <= q;
          MulMono(2 * b, r + 1, q);
        }
      } else if r > q {
        assert 2 * b * q + 2 * b <= 2 * b * r by {
          assert q + 1 <= r;
          MulMono(2 * b, q + 1, r);
        }
      }
    }
  }

  lemma MulMono(k: int, x: int, y: int)
    requires k > 0 && x <= y
    ensures k * x <= k * y
  {
  }

  /** A rounded percentage of `part` out of `whole` stays in [0, 100] when
      the part does not exceed the whole. */
  lemma PercentBounds(part: nat, whole: nat)
    requires 0 < whole && part <= whole
    ensures 0 <= Round(100 * part, whole) <= 100
    ensures part == whole ==> Round(100 * part, whole) == 100
  {
    var r := Round(100 * part, whole);
    RoundCharacterised(100 * part, whole, r);
    assert 2 * whole * r - whole <= 200 * part < 2 * whole * r + whole;
    if r > 100 {
      MulMono(2 * whole, 101, r);
      assert false;
    }
    if r < 0 {
      MulMono(2 * whole, r, -1);
      assert false;
    }
    if part == whole {
      RoundCharacterised(100 * part, whole, 100);
    }
  }

  /** A rounded percentage can reach 100 before the part reaches the whole:
      199 out of 200 is 99.5, which rounds up. */
  lemma PercentReaches100Early()
    ensures Round(100 * 199, 200) == 100
  {
  }

  /** Rounding preserves order. */
  lemma RoundMono(a: int, a': int, b: int)
    requires b > 0 && a <= a'
    ensures Round(a, b) <= Round(a', b)
  {
    var r, r' := Round(a, b), Round(a', b);
    RoundCharacterised(a, b, r);
    RoundCharacterised(a', b, r');
    if r > r' {
      MulMono(2 * b, r' + 1, r);
    }
  }
}
