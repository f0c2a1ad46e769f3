// From a pixel position to the character boundary nearest to it.
module Measuring {

  // Where the boundaries of a text of n characters lie; the measure itself comes from the browser.
  ghost predicate Measure(getX: nat -> real, n: nat) {
    getX(0) == 0.0 && forall i: nat, j: nat | i <= j <= n :: getX(i) <= getX(j)
  }

  function Distance(a: real, b: real): real {
    if a < b then b - a else a - b
  }

  function Ceil(r: real): int {
    -((-r).Floor)
  }

  function Least(a: int, b: int): int {
    if a < b then a else b
  }

  /** Guesses an upper bound and grows it by a fifth until it is one, guesses a lower bound, and halves the
      range between them. */
  method CharFromX(getX: nat -> real, length: nat, x: real, charWidth: real) returns (ch: nat)
    requires Measure(getX, length) && charWidth > 0.0
    ensures ch <= length
    ensures forall k: nat | k <= length ::
      (if getX(ch) < x then x - getX(ch) else getX(ch) - x) <= (if getX(k) < x then x - getX(k) else getX(k) - x)
  {
    if x <= 0.0 {
      Nearest(getX, length, 0, 0, x);
      return 0;
    }
    CeilPositive(x / charWidth);
    var to, toX := UpperBound(getX, length, x, Least(length, Ceil(x / charWidth)));
    if x > toX {
      Nearest(getX, length, to, to, x);
      return to;
    }
    var from, fromX := 0, 0.0;
    var estimated := (4 * to) / 5;
    var estX := getX(estimated);
    if estX < x { from, fromX := estimated, estX; }
    while to - from > 1
      invariant 0 <= from < to <= length
      invariant fromX == getX(from) <= x <= toX == getX(to)
    {
      var middle := (from + to + 1) / 2;
      var middleX := getX(middle);
      if middleX > x { to, toX := middle, middleX; } else { from, fromX := middle, middleX; }
    }
    Nearest(getX, length, from, to, x);
    ch := if toX - x > x - fromX then from else to;
  }

  // Grows the guess until it lies behind x, or is the end of the text.
  method UpperBound(getX: nat -> real, length: nat, x: real, guess: int) returns (to: int, toX: real)
    requires Measure(getX, length) && x > 0.0 && 0 <= guess <= length && (length > 0 ==> guess > 0)
    ensures 0 <= to <= length && toX == getX(to) && (toX > x || to == length)
    ensures to == 0 ==> x > toX
  {
    var estimated := guess;
    while true
      invariant 0 <= estimated <= length && (length > 0 ==> estimated > 0)
      decreases length - estimated
    {
      var estX := getX(estimated);
      if estX <= x && estimated < length {
        estimated := Least(length, (6 * estimated + 4) / 5);
      } else {
        return estimated, estX;
      }
    }
  }

  lemma CeilPositive(r: real)
    requires r > 0.0
    ensures Ceil(r) >= 1
  {
  }

  // Outside two neighbouring boundaries around x, or beyond the last or the first, nothing is nearer.
  lemma Nearest(getX: nat -> real, n: nat, from: nat, to: nat, x: real)
    requires Measure(getX, n) && from <= to <= n && to - from <= 1
    requires (getX(from) <= x || from == 0) && (x <= getX(to) || to == n)
    ensures forall k: nat | k <= n ::
        Distance(getX(from), x) <= Distance(getX(k), x) || Distance(getX(to), x) <= Distance(getX(k), x)
  {
    forall k: nat | k <= n
      ensures Distance(getX(from), x) <= Distance(getX(k), x) || Distance(getX(to), x) <= Distance(getX(k), x)
    {
      if k <= from { assert getX(k) <= getX(from); } else { assert getX(to) <= getX(k); }
    }
  }
}
