/**
 * Floor division by the leap-year divisors, stated on plain integers so that
 * no calendar definition is in scope when they are proved.
 */
module Divisions {

  /** `y // 4` goes up by one exactly at the multiples of 4. */
  lemma Step4(y: int)
    ensures y / 4 - (y - 1) / 4 == if y % 4 == 0 then 1 else 0
  {
  }

  /** `y // 100` goes up by one exactly at the multiples of 100. */
  lemma Step100(y: int)
    ensures y / 100 - (y - 1) / 100 == if y % 100 == 0 then 1 else 0
  {
  }

  /** `y // 400` goes up by one exactly at the multiples of 400. */
  lemma Step400(y: int)
    ensures y / 400 - (y - 1) / 400 == if y % 400 == 0 then 1 else 0
  {
  }

  /** The divisors nest: a multiple of 400 is one of 100, and a multiple of 100 is one of 4. */
  lemma Nested(y: int)
    ensures y % 400 == 0 ==> y % 100 == 0
    ensures y % 100 == 0 ==> y % 4 == 0
  {
  }
}
