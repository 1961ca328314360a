/**
 Price arithmetic of r2/r2/controllers/ipn.py.  Python's integer `/` floors, which for
 the positive divisors here is Dafny's `/`.
 */
module GoldPrices {
  import opened Wrappers

  const DAYS_PER_MONTH := 31
  const DAYS_PER_YEAR := 366

  datatype Bought = Bought(months: int, days: int)

  /** `months_and_days_from_pennies`, given the prices of a year and of a month in pennies. */
  function MonthsAndDays(pennies: int, year: int, month: int): Bought
    requires year > 0 && month > 0
  {
    if pennies >= year then
      var years := pennies / year;
      Bought(12 * years, DAYS_PER_YEAR * years)
    else
      var months := pennies / month;
      Bought(months, DAYS_PER_MONTH * months)
  }

  /** `days_from_months`; None when its assertion fails. */
  function DaysFromMonths(months: int): Option<int> {
    if months >= 12 then
      if months % 12 == 0 then Some(months / 12 * DAYS_PER_YEAR) else None
    else Some(months * DAYS_PER_MONTH)
  }

  // ---------------------------------------------------------------- division facts

  lemma FloorBelow(a: int, d: int, q: int)
    requires d > 0 && a < q * d
    ensures a / d < q
  {
    if a / d >= q {
      assert (a / d) * d >= q * d by { MulMonotone(q, a / d, d); }
      assert false;
    }
  }

  lemma FloorMonotone(a: int, b: int, d: int)
    requires d > 0 && a <= b
    ensures a / d <= b / d
  {
    if b / d < a / d {
      assert (b / d + 1) * d <= (a / d) * d by { MulMonotone(b / d + 1, a / d, d); }
      assert false;
    }
  }

  lemma MulMonotone(x: int, y: int, d: int)
    requires x <= y && d > 0
    ensures x * d <= y * d
  {
  }

  lemma FloorOfMultiple(q: int, d: int)
    requires d > 0
    ensures (q * d) / d == q
  {
    FloorBelow(q * d, d, q + 1);
    if (q * d) / d < q {
      MulMonotone((q * d) / d + 1, q, d);
      assert false;
    }
  }

  // ---------------------------------------------------------------- what is bought

  lemma FloorWithRest(n: int, d: int, rest: int)
    requires 0 <= rest < d
    ensures (n * d + rest) / d == n
  {
    FloorOfMultiple(n, d);
    FloorMonotone(n * d, n * d + rest, d);
    assert n * d + rest < (n + 1) * d;
    FloorBelow(n * d + rest, d, n + 1);
  }

  /** From a year's price on, every full year's price buys twelve months and 366 days; below
      it, every full month's price buys a month and 31 days; the rest buys nothing. */
  lemma WhatPenniesBuy(n: int, rest: int, year: int, month: int)
    requires year > 0 && month > 0
    ensures n >= 1 && 0 <= rest < year ==> MonthsAndDays(n * year + rest, year, month) == Bought(12 * n, 366 * n)
    ensures 0 <= rest < month && n * month + rest < year ==>
      MonthsAndDays(n * month + rest, year, month) == Bought(n, 31 * n)
  {
    if n >= 1 && 0 <= rest < year {
      FloorWithRest(n, year, rest);
      MulMonotone(1, n, year);
    }
    if 0 <= rest < month { FloorWithRest(n, month, rest); }
  }

  /** Fewer than twelve months are worth 31 days each, full years 366, and nothing else is
      accepted. */
  lemma WhatMonthsAreWorth(months: int)
    ensures months < 12 ==> DaysFromMonths(months) == Some(31 * months)
    ensures forall years: int :: years >= 1 && months == 12 * years ==> DaysFromMonths(months) == Some(366 * years)
    ensures months >= 12 && (forall years: int :: months != 12 * years) ==> DaysFromMonths(months) == None
  {
    if months >= 12 && months % 12 == 0 { assert months == 12 * (months / 12); }
  }

  // ---------------------------------------------------------------- the two routes to days

  ghost predicate RoutesAgree(pennies: int, year: int, month: int)
    requires year > 0 && month > 0
  {
    var bought := MonthsAndDays(pennies, year, month);
    DaysFromMonths(bought.months) == Some(bought.days)
  }

  /** Recomputing the days from the months gives the days that were sold, for every
      amount, if and only if a year costs no more than twelve months. */
  lemma RoutesAgreeIff(year: int, month: int)
    requires year > 0 && month > 0
    ensures (forall pennies :: RoutesAgree(pennies, year, month)) <==> year <= 12 * month
  {
    if year <= 12 * month {
      forall pennies
        ensures RoutesAgree(pennies, year, month)
      {
        if pennies < year { FloorBelow(pennies, month, 12); }
      }
    } else {
      FloorOfMultiple(12, month);
      assert !RoutesAgree(12 * month, year, month);
    }
  }

  ghost predicate AssertionHolds(pennies: int, year: int, month: int)
    requires year > 0 && month > 0
  {
    DaysFromMonths(MonthsAndDays(pennies, year, month).months).Some?
  }

  /** The multiple-of-twelve assertion holds for every amount if and only if a year costs
      no more than thirteen months. */
  lemma AssertionHoldsIff(year: int, month: int)
    requires year > 0 && month > 0
    ensures (forall pennies :: AssertionHolds(pennies, year, month)) <==> year <= 13 * month
  {
    if year <= 13 * month {
      forall pennies
        ensures AssertionHolds(pennies, year, month)
      {
        if pennies < year { FloorBelow(pennies, month, 13); }
      }
    } else {
      FloorOfMultiple(13, month);
      assert !AssertionHolds(13 * month, year, month);
    }
  }

  ghost predicate NoLoss(less: int, more: int, year: int, month: int)
    requires year > 0 && month > 0
  {
    less <= more ==> MonthsAndDays(less, year, month).days <= MonthsAndDays(more, year, month).days
  }

  /** Paying more never buys fewer days if and only if a year costs no more than twelve months. */
  lemma PayingMoreNeverLosesIff(year: int, month: int)
    requires year > 0 && month > 0
    ensures (forall less, more :: NoLoss(less, more, year, month)) <==> year <= 12 * month
  {
    if year <= 12 * month {
      forall less, more
        ensures NoLoss(less, more, year, month)
      {
        if less <= more { PayingMoreNeverLoses(less, more, year, month); }
      }
    } else {
      FloorOfMultiple(12, month);
      FloorOfMultiple(1, year);
      assert !NoLoss(12 * month, year, year, month);
    }
  }

  lemma PayingMoreNeverLoses(less: int, more: int, year: int, month: int)
    requires year > 0 && month > 0 && year <= 12 * month && less <= more
    ensures NoLoss(less, more, year, month)
  {
    if less >= year {
      FloorMonotone(less, more, year);
    } else if more < year {
      FloorMonotone(less, more, month);
    } else {
      FloorBelow(less, month, 12);
      FloorOfMultiple(1, year);
      FloorMonotone(year, more, year);
    }
  }

  // ---------------------------------------------------------------- reversing creddits

  /** The months that `reverse_gold_purchase` takes back for a row of `days` days. */
  function ReversedMonths(days: int): int {
    days / DAYS_PER_MONTH
  }

  /** Buying creddits and reversing the purchase restores the balance when fewer than
      twelve months were bought; for `y` years it leaves ceil(6y/31) creddits behind. */
  lemma CredditsLeftAfterReversal(months: nat)
    requires DaysFromMonths(months).Some?
    ensures var left := months - ReversedMonths(DaysFromMonths(months).value);
      && left >= 0
      && (months < 12 ==> left == 0)
      && (months >= 12 ==> var y := months / 12; left == (6 * y + 30) / 31 > 0)
  {
  }
}
