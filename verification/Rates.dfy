/** Products of a time and a rate, as both token buckets use them. */
module Rates {

  lemma DivMul(x: real, rate: real)
    requires 0.0 < rate
    ensures x / rate * rate == x
    ensures 0.0 <= x ==> 0.0 <= x / rate
    ensures 0.0 < x ==> 0.0 < x / rate
  {
  }

  lemma MulMono(x: real, y: real, rate: real)
    requires 0.0 < rate && x <= y
    ensures x * rate <= y * rate
  {
  }

  lemma MulLess(x: real, y: real, rate: real)
    requires 0.0 < rate && x * rate < y * rate
    ensures x < y
  {
    if y <= x {
      MulMono(y, x, rate);
    }
  }

  lemma GainIsTime(x: real, rate: real)
    requires 0.0 < rate && 0.0 < x * rate
    ensures 0.0 < x
  {
  }

  lemma GainSign(x: real, rate: real)
    requires 0.0 < rate
    ensures x < 0.0 ==> x * rate < 0.0
    ensures 0.0 <= x ==> 0.0 <= x * rate
  {
  }

  lemma Distribute(x: real, y: real, rate: real)
    ensures (x + y) * rate == x * rate + y * rate
  {
  }
}
