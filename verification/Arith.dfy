/** Facts about products and quotients that the solver does not find on its own. */
module Arith {

  lemma MulMono(a: int, b: int, w: int)
    requires a <= b && w >= 0
    ensures a * w <= b * w
  {
  }

  lemma MulSucc(a: int, w: int)
    ensures (a + 1) * w == a * w + w
  {
  }

  lemma DivModUnique(w: int, q: int, r: int)
    requires w > 0 && q >= 0 && 0 <= r < w
    ensures q * w + r >= 0 && (q * w + r) / w == q && (q * w + r) % w == r
  {
    var n := q * w + r;
    var q', r' := n / w, n % w;
    assert n == q' * w + r' && 0 <= r' < w;
    MulMono(0, q, w);
    if q' < q {
      MulMono(q' + 1, q, w);
      MulSucc(q', w);
    } else if q < q' {
      MulMono(q + 1, q', w);
      MulSucc(q, w);
    }
  }
}
