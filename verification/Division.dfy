/** Floor division by a positive number. */
module Division {
  lemma MultiplyMonotone(w: int, a: int, b: int)
    requires w > 0 && a <= b
    ensures w * a <= w * b && w * (a - 1) == w * a - w
  {
  }

  lemma FloorIs(x: int, w: int, i: int)
    requires w > 0
    ensures x / w == i <==> w * i <= x < w * i + w
  {
    var q := x / w;
    assert w * q <= x < w * q + w;
    if i < q {
      MultiplyMonotone(w, i + 1, q);
    } else if i > q {
      MultiplyMonotone(w, q + 1, i);
    }
  }

  lemma QuotientMonotone(x: int, y: int, w: int)
    requires w > 0 && x <= y
    ensures x / w <= y / w
  {
    FloorIs(x, w, x / w);
    FloorIs(y, w, y / w);
    if y / w < x / w { MultiplyMonotone(w, y / w + 1, x / w); }
  }

  /** A quotient is below i exactly when the dividend is below w * i. */
  lemma QuotientBelow(x: int, w: int, i: int)
    requires w > 0
    ensures x / w < i <==> x < w * i
  {
    var q := x / w;
    FloorIs(x, w, q);
    if q < i {
      MultiplyMonotone(w, q + 1, i);
    } else {
      MultiplyMonotone(w, i, q);
    }
  }
}
