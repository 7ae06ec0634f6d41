/** What every component uses. */
module Basics {

  type Byte = v: int | 0 <= v < 256

  datatype Option<+T> = None | Some(value: T)

  /** A multiple of a unit other than nought is at least a unit away from it. */
  lemma {:induction false} MultipleIsFar(d: int, unit: int)
    requires unit > 0
    ensures d >= 1 ==> d * unit >= unit
    ensures d <= -1 ==> d * unit <= -unit
  {
  }

  lemma {:induction false} DivideExactly(v: int, w: int, q: int, r: int)
    requires w > 0 && 0 <= r < w && v == r + w * q
    ensures v / w == q && v % w == r
  {
    var d := v / w - q;
    MultipleIsFar(d, w);
    assert d * w == r - v % w;
  }
}
