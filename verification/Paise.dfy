// Turning a price with two decimals into an integer amount of paise by way of double
// precision: both roundings are carried out over the reals.
module Paise {

  import opened Options
  import opened Doubles

  // ---- The amount ----

  // Rounding to an integer, halves upwards.
  function Round(y: real): int {
    (y + 0.5).Floor
  }

  // The integer nearest to a number; half-way between two, the upper one.
  lemma RoundIs(y: real)
    ensures Round(y) as real - 0.5 <= y < Round(y) as real + 0.5
  {
  }

  const Limit: int := 0x8_0000_0000_0000 // 2 to the power 51

  function Price(paise: int): real { paise as real / 100.0 }

  // The rounded amount is exact when the decimal conversion and the product each stay
  // within the relative error ...
  lemma RoundsBack(n: int, x: real, y: real)
    requires -Limit < n < Limit
    requires Within(Price(n), x) && Within(x * 100.0, y)
    ensures Round(y) == n
  {
    var a := Abs(n as real);
    assert Abs(x * 100.0 - n as real) <= Unit * a;
    assert Abs(x * 100.0) <= a + Unit * a;
    assert Abs(y - n as real) <= Unit * a + Unit * (a + Unit * a);
    assert Unit * a + Unit * (a + Unit * a) < 0.5;
  }

  // ... whatever those errors are, exactly below 2 to the power 51.
  lemma ExactIff(n: int)
    ensures (forall x, y :: Within(Price(n), x) && Within(x * 100.0, y) ==> Round(y) == n)
            <==> -Limit < n < Limit
  {
    forall x, y | -Limit < n < Limit && Within(Price(n), x) && Within(x * 100.0, y) ensures Round(y) == n {
      RoundsBack(n, x, y);
    }
    if !(-Limit < n < Limit) {
      var x := Price(n) + Unit * Price(n);
      var y := x * 100.0 + Unit * (x * 100.0);
      assert Within(Price(n), x) && Within(x * 100.0, y);
      assert Round(y) != n;
    }
  }

  // At 2 to the power 51 the amount can come out one paisa too high.
  lemma LimitFails()
    ensures exists x, y :: Within(Price(Limit), x) && Within(x * 100.0, y) && Round(y) == Limit + 1
  {
    var x := Price(Limit) + Unit * Price(Limit);
    var y := x * 100.0 + Unit * (x * 100.0);
    assert Within(Price(Limit), x) && Within(x * 100.0, y) && Round(y) == Limit + 1;
  }

  // For every price with two decimals below that limit, the amount computed in double
  // precision is the exact number of paise.
  lemma ExactPaise(n: int)
    requires -Limit < n < Limit
    ensures Round(Nearest(Nearest(Price(n)) * 100.0)) == n
  {
    hide Nearest;
    NearestWithin(Price(n));
    NearestWithin(Nearest(Price(n)) * 100.0);
    RoundsBack(n, Nearest(Price(n)), Nearest(Nearest(Price(n)) * 100.0));
  }

  // ---- Orders ----

  datatype Interval = Monthly | Yearly

  // Prices as they are stored, in hundredths; the column holds at most ten digits.
  type Hundredths = n: int | -10_000_000_000 < n < 10_000_000_000

  datatype Plan = Plan(monthlyPrice: Hundredths, yearlyPrice: Hundredths)

  datatype Payment = Payment(userId: string, amount: Hundredths, orderId: string, planId: string, interval: Interval)

  class PaymentsService {
    var plans: map<string, Plan>
    var payments: seq<Payment>

    constructor (plans: map<string, Plan>)
      ensures this.plans == plans && payments == []
    {
      this.plans, payments := plans, [];
    }

    // The amount ordered is the price of the chosen interval to the last paisa, and the
    // pending payment records that same price.
    method CreateOrder(planId: string, userId: string, interval: Interval, orderId: string) returns (amount: Option<int>)
      modifies this`payments
      ensures amount.Some? <==> planId in plans
      ensures planId !in plans ==> payments == old(payments)
      ensures planId in plans ==>
        var price := if interval.Yearly? then plans[planId].yearlyPrice else plans[planId].monthlyPrice;
        amount == Some(price) && payments == old(payments) + [Payment(userId, price, orderId, planId, interval)]
    {
      if planId !in plans { return None; }
      var plan := plans[planId];
      var price := match interval { case Yearly => plan.yearlyPrice case Monthly => plan.monthlyPrice };
      hide Nearest, Round;
      var number := Nearest(Price(price));
      var amountInPaise := Round(Nearest(number * 100.0));
      ExactPaise(price);
      payments := payments + [Payment(userId, price, orderId, planId, interval)];
      return Some(amountInPaise);
    }
  }
}
