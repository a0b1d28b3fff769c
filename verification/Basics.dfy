/** Facts about numbers and sequences used throughout. */
module Basics {
  function Min(x: int, y: int): int {
    if x < y then x else y
  }

  lemma AtLeastOnce(d: int, w: nat)
    requires d >= 1
    ensures d * w >= w
  {
  }

  /** Only the multiple by zero is smaller than the number itself. */
  lemma NoMultiple(d: int, w: nat)
    requires -(w as int) < d * w < w
    ensures d == 0
  {
    if d > 0 {
      AtLeastOnce(d, w);
    } else if d < 0 {
      AtLeastOnce(-d, w);
    }
  }

  lemma Associative<T>(x: seq<T>, y: seq<T>, z: seq<T>)
    ensures (x + y) + z == x + (y + z)
  {
  }
}
