/** The order pricing rule: a price from word count, academic level and deadline.
    Timestamps are whole seconds; the current time is a parameter instead of a clock read.
    Prices are exact reals, so the binary floating-point rounding of the service's Python code is not modelled. */
module Pricing {

  /** Seconds in one day. */
  const SecondsPerDay: int := 86400

  /** Currency units charged per word before the multipliers are applied. */
  const BaseRate: real := 0.05

  /** The level table: multiplier per known level. */
  const LevelTable: map<string, real> := map["Undergrad" := 1.0, "Masters" := 1.5, "PhD" := 2.0]

  /** Whole days from `now` to `deadline`, as the `days` of a time difference:
      the floor of the difference in days, negative once the deadline has passed. */
  function DaysLeft(deadline: int, now: int): (d: int)
    ensures d * SecondsPerDay <= deadline - now < (d + 1) * SecondsPerDay
  {
    (deadline - now) / SecondsPerDay
  }

  /** 2.0 when at most one whole day is left, else 1.0.
      At most one whole day left means less than two full days, past deadlines included. */
  function UrgencyMultiplier(deadline: int, now: int): (u: real)
    ensures u == 2.0 <==> deadline - now < 2 * SecondsPerDay
    ensures u == 1.0 <==> deadline - now >= 2 * SecondsPerDay
  {
    if DaysLeft(deadline, now) <= 1 then 2.0 else 1.0
  }

  /** Multiplier of an academic level; a level the table does not know is charged like "Undergrad". */
  function LevelMultiplier(level: string): (m: real)
    ensures level == "Undergrad" ==> m == 1.0
    ensures level == "Masters" ==> m == 1.5
    ensures level == "PhD" ==> m == 2.0
    ensures level !in LevelTable ==> m == 1.0
  {
    if level in LevelTable then LevelTable[level] else 1.0
  }

  /** The price of an order from its word count, level and deadline, at time `now`. */
  function CalculatePrice(wordCount: int, level: string, deadline: int, now: int): (price: real)
    ensures wordCount == 0 ==> price == 0.0
    ensures wordCount >= 0 ==> price >= 0.0
    ensures wordCount < 0 ==> price < 0.0
  {
    wordCount as real * BaseRate * UrgencyMultiplier(deadline, now) * LevelMultiplier(level)
  }

  /** Urgency factor as a whole number: 2 for less than two days left, else 1. */
  function UrgencyFactor(deadline: int, now: int): int
  {
    if deadline - now < 2 * SecondsPerDay then 2 else 1
  }

  /** Level factor in halves: 3 for "Masters", 4 for "PhD", 2 for every other level. */
  function LevelHalves(level: string): int
  {
    if level == "Masters" then 3 else if level == "PhD" then 4 else 2
  }

  /** Integer reference for the price: in units of 1/40, a price is
      word count times the urgency factor times the level factor in halves
      (0.05 is 2/40 and the level factor is halves/2). */
  lemma PriceInFortieths(wordCount: int, level: string, deadline: int, now: int)
    ensures CalculatePrice(wordCount, level, deadline, now) * 40.0
         == (wordCount * UrgencyFactor(deadline, now) * LevelHalves(level)) as real
  {
    var w := wordCount as real;
    var u := UrgencyMultiplier(deadline, now);
    var l := LevelMultiplier(level);
    assert u == UrgencyFactor(deadline, now) as real;
    assert l * 2.0 == LevelHalves(level) as real;
    calc {
      CalculatePrice(wordCount, level, deadline, now) * 40.0;
      w * BaseRate * u * l * 40.0;
      w * u * (l * 2.0);
      (wordCount * UrgencyFactor(deadline, now) * LevelHalves(level)) as real;
    }
  }

  /** A level outside the table is priced exactly as "Undergrad". */
  lemma UnknownLevelPricesAsUndergrad(wordCount: int, level: string, deadline: int, now: int)
    requires level !in LevelTable
    ensures CalculatePrice(wordCount, level, deadline, now) == CalculatePrice(wordCount, "Undergrad", deadline, now)
  {
  }

  /** With the same word count and level, a deadline less than two days away costs
      exactly twice as much as one at least two days away. */
  lemma UrgentPriceIsDouble(wordCount: int, level: string, urgent: int, relaxed: int, now: int)
    requires urgent - now < 2 * SecondsPerDay <= relaxed - now
    ensures CalculatePrice(wordCount, level, urgent, now) == 2.0 * CalculatePrice(wordCount, level, relaxed, now)
  {
    var w := wordCount as real;
    var l := LevelMultiplier(level);
    assert CalculatePrice(wordCount, level, urgent, now) == w * BaseRate * 2.0 * l;
    assert CalculatePrice(wordCount, level, relaxed, now) == w * BaseRate * 1.0 * l;
  }

  /** For non-negative word counts the price never decreases as the word count grows. */
  lemma PriceMonotonicInWords(fewer: int, more: int, level: string, deadline: int, now: int)
    requires 0 <= fewer <= more
    ensures CalculatePrice(fewer, level, deadline, now) <= CalculatePrice(more, level, deadline, now)
  {
    PriceInFortieths(fewer, level, deadline, now);
    PriceInFortieths(more, level, deadline, now);
    var k := UrgencyFactor(deadline, now) * LevelHalves(level);
    assert k > 0;
    assert fewer * k <= more * k;
    assert fewer * UrgencyFactor(deadline, now) * LevelHalves(level) == fewer * k;
    assert more * UrgencyFactor(deadline, now) * LevelHalves(level) == more * k;
  }

  /** Worked prices: two days left is not urgent, twelve or thirty-six hours left is. */
  lemma PriceExamples(now: int)
    ensures CalculatePrice(1000, "PhD", now + 2 * SecondsPerDay, now) == 100.0
    ensures CalculatePrice(1000, "PhD", now + 12 * 3600, now) == 200.0
    ensures CalculatePrice(1000, "PhD", now + 36 * 3600, now) == 200.0
    ensures CalculatePrice(500, "Masters", now + 10 * SecondsPerDay, now) == 37.5
    ensures CalculatePrice(2000, "Undergrad", now + 5 * SecondsPerDay, now) == 100.0
    ensures CalculatePrice(1000, "Doctorate", now - SecondsPerDay, now) == 100.0
  {
  }
}
