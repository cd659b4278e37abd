/** The arithmetic behind a job's insolvency deadline, and what its rate buys. */
module Solvency {
  import opened Bytes
  import opened Market

  /** Balances whose product with the rate scale fits in 256 bits. */
  predicate Covered(balance: U256) { balance * RATE_SCALE < MOD256 }

  /** Seconds from the last settlement the balance pays for, by exact division. */
  function ExactSeconds(balance: nat, rate: nat): nat
    requires rate > 0
  {
    Quotient(balance * RATE_SCALE, rate)
  }

  /** What the contract charges for `d` seconds at `rate`, rounded up. */
  function Charge(rate: nat, d: nat): nat { (rate * d + RATE_SCALE - 1) / RATE_SCALE }

  lemma QuotientSpec(a: nat, b: nat)
    requires b > 0
    ensures Quotient(a, b) * b <= a < Quotient(a, b) * b + b
  {
  }

  /** `q` seconds at rate `b` are affordable exactly up to the quotient. */
  lemma QuotientIsGreatest(a: nat, b: nat, q: int)
    requires b > 0
    ensures q * b <= a <==> q <= Quotient(a, b)
  {
    QuotientSpec(a, b);
    hide Quotient;
    ProductOrder(q, Quotient(a, b), b);
  }

  lemma ProductOrder(q: int, p: int, b: nat)
    ensures q <= p ==> q * b <= p * b
    ensures q > p ==> q * b >= p * b + b
  {
    if q <= p {
      assert (p - q) * b >= 0;
    } else {
      assert (q - p - 1) * b >= 0;
    }
  }

  lemma PaidSecondsExact(balance: U256, rate: U256)
    requires rate > 0 && Covered(balance)
    ensures PaidSeconds(balance, rate) == Min(ExactSeconds(balance, rate), U64_MAX)
  {
    SmallModulo(balance * RATE_SCALE, MOD256);
    hide Quotient;
  }

  lemma SmallModulo(a: nat, m: nat)
    requires a < m
    ensures a % m == a
  {
  }

  /** The code's division is exact at every rate exactly for the covered balances: at the highest rate
      any other balance counts as nothing. */
  lemma ExactIffCovered(balance: U256)
    ensures Covered(balance)
       <==> forall rate: U256 :: rate > 0 ==> PaidSeconds(balance, rate) == Min(ExactSeconds(balance, rate), U64_MAX)
  {
    if Covered(balance) {
      forall rate: U256 | rate > 0 ensures PaidSeconds(balance, rate) == Min(ExactSeconds(balance, rate), U64_MAX) {
        PaidSecondsExact(balance, rate);
      }
    } else {
      var p, top := balance * RATE_SCALE, MOD256 - 1;
      EvenResidue(p, MOD256);
      QuotientIsGreatest(p, top, 1);
      QuotientIsGreatest(p % MOD256, top, 1);
      assert PaidSeconds(balance, top) == 0 && ExactSeconds(balance, top) >= 1;
    }
  }

  lemma EvenResidue(a: nat, m: nat)
    requires m > 0 && a % 2 == 0 && m % 2 == 0
    ensures a % m % 2 == 0
  {
    var q, h := a / m, m / 2;
    assert a == m * q + a % m;
    assert m * q == 2 * (h * q);
  }

  /** Balances below 2^216 are covered. */
  lemma SmallBalancesAreCovered(balance: U256)
    requires balance < 0x100_0000_0000_0000_0000_0000_0000_0000_0000_0000_0000_0000_0000_0000
    ensures Covered(balance)
  {
  }

  /** A deposit never brings the deadline closer, a withdrawal never moves it away. */
  lemma DeadlineGrowsWithBalance(less: U256, more: U256, rate: U256)
    requires rate > 0 && less <= more && Covered(more)
    ensures PaidSeconds(less, rate) <= PaidSeconds(more, rate)
  {
    PaidSecondsExact(less, rate);
    PaidSecondsExact(more, rate);
    QuotientSpec(less * RATE_SCALE, rate);
    QuotientIsGreatest(more * RATE_SCALE, rate, ExactSeconds(less, rate));
  }

  /** A higher rate never moves the deadline away. */
  lemma DeadlineShrinksWithRate(balance: U256, low: U256, high: U256)
    requires 0 < low <= high && Covered(balance)
    ensures PaidSeconds(balance, high) <= PaidSeconds(balance, low)
  {
    PaidSecondsExact(balance, low);
    PaidSecondsExact(balance, high);
    hide PaidSeconds;
    hide Quotient;
    QuotientShrinks(balance * RATE_SCALE, low, high);
  }

  lemma QuotientShrinks(a: nat, low: nat, high: nat)
    requires 0 < low <= high
    ensures Quotient(a, high) <= Quotient(a, low)
  {
    QuotientSpec(a, high);
    hide Quotient;
    var q := Quotient(a, high);
    assert q * low <= q * high by { assert q * (high - low) >= 0; }
    QuotientIsGreatest(a, low, q);
  }

  /** A settlement of `d` seconds, charged rounded up, moves the deadline earlier by at most the time
      one unit of balance pays for, rounded up; and it never moves the deadline later exactly as long
      as the seconds after it do not saturate. */
  lemma SettlementKeepsDeadline(balance: U256, rate: U256, d: nat)
    requires rate > 0 && Covered(balance) && Charge(rate, d) <= balance
    ensures
      var left: U256 := balance - Charge(rate, d);
      var after := PaidSeconds(left, rate);
      && (d + after <= PaidSeconds(balance, rate) <==> d == 0 || d + ExactSeconds(left, rate) <= U64_MAX)
      && PaidSeconds(balance, rate) <= d + after + Quotient(RATE_SCALE + rate - 1, rate)
  {
    var left: U256 := balance - Charge(rate, d);
    ExactSettlement(balance, rate, d);
    PaidSecondsExact(balance, rate);
    PaidSecondsExact(left, rate);
    assert d == 0 ==> left == balance;
    hide Quotient;
    hide Charge;
  }

  lemma Distribute(x: int, y: int, r: int)
    ensures (x + y) * r == x * r + y * r
  {
  }

  /** A charge is a cost rounded up to whole units. */
  lemma ChargeRoundsUp(rate: nat, d: nat)
    ensures d * rate <= Charge(rate, d) * RATE_SCALE <= d * rate + RATE_SCALE - 1
  {
    assert rate * d == d * rate;
  }

  /** The same in exact arithmetic. */
  lemma ExactSettlement(balance: nat, rate: nat, d: nat)
    requires rate > 0 && Charge(rate, d) <= balance
    ensures d + ExactSeconds(balance - Charge(rate, d), rate) <= ExactSeconds(balance, rate)
    ensures ExactSeconds(balance, rate)
         <= d + ExactSeconds(balance - Charge(rate, d), rate) + Quotient(RATE_SCALE + rate - 1, rate)
  {
    ChargeRoundsUp(rate, d);
    hide Charge;
    var before, after := balance * RATE_SCALE, (balance - Charge(rate, d)) * RATE_SCALE;
    QuotientSpec(before, rate);
    QuotientSpec(after, rate);
    QuotientSpec(RATE_SCALE + rate - 1, rate);
    hide Quotient;
    var q, q', c := Quotient(before, rate), Quotient(after, rate), Quotient(RATE_SCALE + rate - 1, rate);
    Distribute(d, q', rate);
    QuotientIsGreatest(before, rate, d + q');
    Distribute(q - d - c, d + c, rate);
    Distribute(d, c, rate);
    QuotientIsGreatest(after, rate, q - d - c);
  }

  /** Beyond the covered balances the product wraps around, and a deposit of one unit can take
      the deadline from its far end to the settlement itself. */
  lemma OverflowingDepositShortens()
    ensures
      var most := (MOD256 - 1) / RATE_SCALE;
      && Covered(most) && !Covered(most + 1)
      && PaidSeconds(most, 1_000_000_000_000) == U64_MAX
      && PaidSeconds(most + 1, 1_000_000_000_000) == 0
  {
  }

  /** A deposit up to `balance` never shortens the paid time, at any rate, exactly if the balance is
      covered. */
  lemma MonotoneIffCovered(balance: U256)
    ensures Covered(balance)
       <==> forall less: U256, more: U256, rate: U256 ::
              less <= more <= balance && rate > 0 ==> PaidSeconds(less, rate) <= PaidSeconds(more, rate)
  {
    hide PaidSeconds;
    if Covered(balance) {
      forall less: U256, more: U256, rate: U256 | less <= more <= balance && rate > 0
        ensures PaidSeconds(less, rate) <= PaidSeconds(more, rate)
      {
        DeadlineGrowsWithBalance(less, more, rate);
      }
    } else {
      OverflowingDepositShortens();
      var most: U256 := (MOD256 - 1) / RATE_SCALE;
      assert most + 1 <= balance;
    }
  }

  /** The solvency test of the event loop is conservative: a job that has not reached its
      deadline can pay, by exact arithmetic, for all the time since its last settlement and
      five minutes more, whatever wrapped or saturated on the way. */
  lemma SolventMeansPaid(t: Terms, seconds: nat)
    requires t.rate > 0
    requires seconds <= PaidSeconds(t.balance, t.rate)
    ensures seconds * t.rate <= t.balance * RATE_SCALE
  {
    var p := t.balance * RATE_SCALE;
    QuotientSpec(p % MOD256, t.rate);
    assert p % MOD256 <= p;
    QuotientIsGreatest(p % MOD256, t.rate, seconds);
  }

  /** The bandwidth bought is the most that what is paid above the minimum covers at the region's
      price, in units of 2^-23 and up to the largest word. */
  lemma BandwidthIsGreatest(t: Terms, gbRates: seq<GBRateCard>, units: nat)
    requires t.rate >= t.minRate && FindGBRate(gbRates, t.region).Some?
    ensures units <= Bandwidth(t, gbRates)
       <==> units <= U64_MAX
            && units * FindGBRate(gbRates, t.region).value.rate <= Min((t.rate - t.minRate) * 0x80_0000, MOD256 - 1)
  {
    var paid := Min((t.rate - t.minRate) * 0x80_0000, MOD256 - 1);
    QuotientIsGreatest(paid, FindGBRate(gbRates, t.region).value.rate, units);
    hide Quotient;
  }

  /** Balances are 256-bit words: what goes beyond either end comes back from the other. */
  lemma WrapsAround(a: U256, b: U256)
    ensures WrapAdd(a, b) == if a + b < MOD256 then a + b else a + b - MOD256
    ensures WrapSub(a, b) == if b <= a then a - b else a - b + MOD256
    ensures WrapSub(WrapAdd(a, b), b) == a == WrapAdd(WrapSub(a, b), b)
  {
  }

  /** The price of a region is that of the first card for it. */
  lemma {:induction false} GBRateIsFirst(gbRates: seq<GBRateCard>, region: string, i: nat)
    requires forall k :: 0 <= k < i && k < |gbRates| ==> gbRates[k].regionCode != region
    requires i < |gbRates| ==> gbRates[i].regionCode == region
    ensures FindGBRate(gbRates, region) == if i < |gbRates| then Some(gbRates[i]) else None
    decreases |gbRates|
  {
    if i > 0 && gbRates != [] {
      assert forall k :: 0 <= k < i - 1 && k < |gbRates[1..]| ==> gbRates[1..][k] == gbRates[k + 1];
      GBRateIsFirst(gbRates[1..], region, i - 1);
    }
  }

  /** Without a card for its region a job keeps the bandwidth it has. */
  lemma NoCardKeepsBandwidth(t: Terms, gbRates: seq<GBRateCard>)
    requires t.rate >= t.minRate && forall k :: 0 <= k < |gbRates| ==> gbRates[k].regionCode != t.region
    ensures Bandwidth(t, gbRates) == t.bandwidth
  {
    GBRateIsFirst(gbRates, t.region, |gbRates|);
  }

  /** The minimum rate is that of the first card for the instance in the first entry for the region,
      and there is none exactly when that entry or that card is missing. */
  lemma {:induction false} MinRateIsFirst(rates: seq<RegionalRates>, region: string, instance: string, i: nat)
    requires forall k :: 0 <= k < i && k < |rates| ==> rates[k].region != region
    requires i < |rates| ==> rates[i].region == region
    ensures FindMinRate(rates, region, instance)
         == if i < |rates| then CardRate(rates[i].rateCards, instance) else None
    decreases |rates|
  {
    if i > 0 && rates != [] {
      assert forall k :: 0 <= k < i - 1 && k < |rates[1..]| ==> rates[1..][k] == rates[k + 1];
      MinRateIsFirst(rates[1..], region, instance, i - 1);
    }
  }

  lemma {:induction false} CardIsFirst(cards: seq<RateCard>, instance: string, k: nat)
    requires forall i :: 0 <= i < k && i < |cards| ==> cards[i].instance != instance
    requires k < |cards| ==> cards[k].instance == instance
    ensures CardRate(cards, instance) == if k < |cards| then Some(cards[k].minRate) else None
    decreases |cards|
  {
    if k > 0 && cards != [] {
      assert forall i :: 0 <= i < k - 1 && i < |cards[1..]| ==> cards[1..][i] == cards[i + 1];
      CardIsFirst(cards[1..], instance, k - 1);
    }
  }
}
