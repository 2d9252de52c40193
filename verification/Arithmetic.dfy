/** The few facts about products and quotients that several proofs use. */
module Arithmetic {

  lemma MulMonotone(a: int, b: int, p: int)
    requires a <= b && 0 <= p
    ensures a * p <= b * p
  {
    assert b * p == a * p + (b - a) * p;
  }

  lemma MulSuccessor(n: int, p: int)
    ensures (n + 1) * p == n * p + p
  {}

  lemma Cancel(a: int, b: int, p: int)
    requires 0 < p && a * p < b * p
    ensures a < b
  {
    if b <= a { MulMonotone(b, a, p); }
  }

  lemma Quotient(k: int, p: int, e: int)
    requires 0 < p && k * p <= e
    ensures k <= e / p
  {
    var q := e / p;
    MulSuccessor(q, p);
    Cancel(k, q + 1, p);
  }

  /** The five-minute bucket of minute b starts between any five-minute boundary not after
      the minute and the minute itself. */
  lemma FiveOfMinute(b: int, boundary: int)
    requires boundary % 300_000 == 0 && boundary <= b * 60_000
    ensures boundary <= b / 5 * 300_000 <= b * 60_000
  {
    var z := boundary / 300_000;
    assert boundary == z * 300_000;
  }

  /** Cutting to whole minutes and to whole five minutes a number given in minutes and a rest. */
  lemma FloorMinutes(minutes: int, rest: int)
    requires 0 <= rest < 60_000
    ensures (minutes * 60_000 + rest) / 60_000 * 60_000 == minutes * 60_000
  {}

  lemma FloorFives(fives: int, rest: int)
    requires 0 <= rest < 300_000
    ensures (fives * 300_000 + rest) / 300_000 * 300_000 == fives * 300_000
  {}

  /** An instant is before an aligned boundary exactly when the start of its bucket is. */
  lemma BeforeMinuteBoundary(ts: int, boundary: int)
    requires boundary % 60_000 == 0
    ensures ts / 60_000 * 60_000 < boundary <==> ts < boundary
  {
    var z := boundary / 60_000;
    assert boundary == z * 60_000;
  }

  lemma BeforeFiveBoundary(ts: int, boundary: int)
    requires boundary % 300_000 == 0
    ensures ts / 60_000 * 60_000 < boundary <==> ts < boundary
    ensures ts / 300_000 * 300_000 < boundary <==> ts < boundary
  {
    var z := boundary / 300_000;
    assert boundary == z * 300_000;
  }

  /** A bucket that starts before an aligned boundary ends by it. */
  lemma BucketEndsBy(bucket: int, boundary: int)
    requires boundary % 300_000 == 0 && bucket * 300_000 < boundary
    ensures bucket * 300_000 + 300_000 <= boundary
  {
    var z := boundary / 300_000;
    assert boundary == z * 300_000;
  }
}
