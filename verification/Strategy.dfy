/** The strategy: an integer exponential average of prices and a band test against it. */
module Strategy {
  import opened Machine
  import opened Messages

  const DEFAULT_BAND_BPS: int := 10

  /** `update_ref_price`: the first price, then one eighth of the way to the new price, rounded
      toward the old reference. All arithmetic is 32-bit. */
  function UpdateRef(ref: int, price: int): int {
    if ref == 0 then price else Int32(ref + TruncDiv(Int32(price - ref), 8))
  }

  function Band(ref: int, bps: int): int {
    TruncDiv(Int32(ref * bps), 10000)
  }

  /** `evaluate`. */
  function Evaluate(ref: int, price: int, bps: int): Side {
    if ref <= 0 || price <= 0 then NoSide
    else
      var band := Band(ref, bps);
      if band <= 0 then NoSide
      else if price <= ref - band then Buy
      else if price >= ref + band then Sell
      else NoSide
  }

  /** One tick of a producer: update the reference, then test against the new one. */
  function Tick(ref: int, price: int, bps: int): (int, Side) {
    var ref' := UpdateRef(ref, price);
    (ref', Evaluate(ref', price, bps))
  }

  predicate Price(p: int) {
    0 < p < 0x8000_0000
  }

  // ----- The reference follows the prices -----

  /** The rounded step from a positive reference to a positive price, without any 32-bit effect. */
  lemma UpdateIsPlain(ref: int, price: int)
    requires Price(ref) && Price(price)
    ensures UpdateRef(ref, price) == ref + TruncDiv(price - ref, 8)
    ensures ref <= price ==> ref <= UpdateRef(ref, price) <= price
    ensures price <= ref ==> price <= UpdateRef(ref, price) <= ref
  {
    FittingValueIsKept(price - ref);
    FittingValueIsKept(ref + TruncDiv(price - ref, 8));
  }

  function RefAfter(ref: int, prices: seq<int>): int {
    if prices == [] then ref else UpdateRef(RefAfter(ref, prices[..|prices| - 1]), prices[|prices| - 1])
  }

  /** The reference never leaves the range of the prices seen. */
  lemma {:induction false} RefStaysInRange(prices: seq<int>, lo: int, hi: int)
    requires prices != [] && 0 < lo <= hi < 0x8000_0000
    requires forall p :: p in prices ==> lo <= p <= hi
    ensures lo <= RefAfter(0, prices) <= hi
  {
    var front, last := prices[..|prices| - 1], prices[|prices| - 1];
    assert last in prices && forall p :: p in front ==> p in prices;
    if front != [] {
      RefStaysInRange(front, lo, hi);
      UpdateIsPlain(RefAfter(0, front), last);
    }
  }

  function Distance(a: int, b: int): nat {
    if a >= b then a - b else b - a
  }

  /** Under a price, the distance of the reference to it shrinks strictly until it is at most 7; then
      the reference stays where it is. */
  lemma DistanceShrinks(ref: int, price: int)
    requires Price(ref) && Price(price)
    ensures Price(UpdateRef(ref, price))
    ensures Distance(ref, price) > 7 ==> Distance(UpdateRef(ref, price), price) < Distance(ref, price)
    ensures Distance(ref, price) <= 7 <==> UpdateRef(ref, price) == ref
  {
    UpdateIsPlain(ref, price);
  }

  /** n ticks at one price. */
  function Constant(price: int, n: nat): seq<int> {
    if n == 0 then [] else Constant(price, n - 1) + [price]
  }

  lemma OneTickMore(ref: int, price: int, n: nat)
    requires n > 0
    ensures RefAfter(ref, Constant(price, n)) == UpdateRef(RefAfter(ref, Constant(price, n - 1)), price)
  {
    var c := Constant(price, n);
    assert c[..|c| - 1] == Constant(price, n - 1) && c[|c| - 1] == price;
  }

  lemma {:induction false} ConstantPriceSettles(ref: int, price: int, n: nat)
    requires Price(ref) && Price(price)
    ensures Price(RefAfter(ref, Constant(price, n)))
    ensures Distance(RefAfter(ref, Constant(price, n)), price)
         <= if Distance(ref, price) > n + 7 then Distance(ref, price) - n
            else if Distance(ref, price) > 7 then 7
            else Distance(ref, price)
  {
    if n > 0 {
      ConstantPriceSettles(ref, price, n - 1);
      OneTickMore(ref, price, n);
      DistanceShrinks(RefAfter(ref, Constant(price, n - 1)), price);
      UpdateIsPlain(RefAfter(ref, Constant(price, n - 1)), price);
    }
  }

  /** Where the reference stops under a constant price: as soon as it is within 7 of it. */
  function Settled(ref: int, price: int): int {
    if ref > price + 7 then price + 7 else if ref < price - 7 then price - 7 else ref
  }

  lemma StepStaysAway(r: int, price: int)
    requires Price(r) && Price(price)
    ensures r >= price + 7 ==> UpdateRef(r, price) >= price + 7
    ensures r <= price - 7 ==> UpdateRef(r, price) <= price - 7
    ensures Distance(r, price) <= 7 ==> UpdateRef(r, price) == r
  {
    UpdateIsPlain(r, price);
    DistanceShrinks(r, price);
  }

  /** The reference never comes closer to the price than 7, and never passes it. */
  lemma {:induction false} NeverCloser(ref: int, price: int, n: nat)
    requires Price(ref) && Price(price)
    ensures Price(RefAfter(ref, Constant(price, n)))
    ensures ref >= price + 7 ==> RefAfter(ref, Constant(price, n)) >= price + 7
    ensures ref <= price - 7 ==> RefAfter(ref, Constant(price, n)) <= price - 7
    ensures Distance(ref, price) <= 7 ==> RefAfter(ref, Constant(price, n)) == ref
  {
    if n > 0 {
      NeverCloser(ref, price, n - 1);
      OneTickMore(ref, price, n);
      StepStaysAway(RefAfter(ref, Constant(price, n - 1)), price);
      DistanceShrinks(RefAfter(ref, Constant(price, n - 1)), price);
    }
  }

  lemma ReferenceStops(ref: int, price: int, n: nat)
    requires Price(ref) && Price(price) && n >= Distance(ref, price)
    ensures RefAfter(ref, Constant(price, n)) == Settled(ref, price)
  {
    ConstantPriceSettles(ref, price, n);
    NeverCloser(ref, price, n);
  }

  /** MAIN RESULT 12. Exactly when a constant price falls silent. After |ref - p| ticks the reference has
      stopped, for every band width, and whether the next tick signals is decided for ever: it is silent
      exactly when the band at the place where it stopped is not positive or wider than the distance left. */
  lemma SilentExactly(ref: int, price: int, bps: int, n: nat)
    requires Price(ref) && Price(price) && n >= Distance(ref, price)
    ensures var s := Settled(ref, price);
      && RefAfter(ref, Constant(price, n)) == s
      && (Tick(s, price, bps).1 == NoSide <==> Band(s, bps) <= 0 || Distance(s, price) < Band(s, bps))
  {
    ReferenceStops(ref, price, n);
    DistanceShrinks(Settled(ref, price), price);
  }

  lemma NarrowTick(ref: int, price: int)
    requires 7991 <= ref <= 7993 && price == 8000
    ensures 7991 <= UpdateRef(ref, price) <= 7993 && Tick(ref, price, DEFAULT_BAND_BPS).1 == Sell
  {
    UpdateIsPlain(ref, price);
    var r := UpdateRef(ref, price);
    FittingValueIsKept(r * DEFAULT_BAND_BPS);
    assert Band(r, DEFAULT_BAND_BPS) == 7;
  }

  /** So it can signal for ever: at price 8000 with the default band every tick is a sell when the reference
      begins between 7991 and 7993, where it stays and the band is 7. */
  lemma {:induction false} NarrowBandSignalsForEver(ref: int, price: int, n: nat)
    requires 7991 <= ref <= 7993 && price == 8000
    ensures 7991 <= RefAfter(ref, Constant(price, n)) <= 7993
    ensures Tick(RefAfter(ref, Constant(price, n)), price, DEFAULT_BAND_BPS).1 == Sell
  {
    if n > 0 {
      OneTickMore(ref, price, n);
      NarrowBandSignalsForEver(ref, price, n - 1);
      NarrowTick(RefAfter(ref, Constant(price, n - 1)), price);
    }
    NarrowTick(RefAfter(ref, Constant(price, n)), price);
  }

  /** A band of at least 8 for every reference within 7 of the price is enough. */
  lemma ConstantPriceFallsSilent(ref: int, price: int, bps: int, n: nat)
    requires Price(ref) && Price(price)
    requires forall r :: Distance(r, price) <= 7 && Price(r) ==> Band(r, bps) >= 8
    requires n >= Distance(ref, price)
    ensures Tick(RefAfter(ref, Constant(price, n)), price, bps).1 == NoSide
  {
    SilentExactly(ref, price, bps, n);
    assert Band(Settled(ref, price), bps) >= 8;
  }

  /** The band is at least 8 there for every price a little above 80000 / bps whose product fits. */
  lemma BandIsWide(price: int, bps: int)
    requires 0 < bps && price - 7 > 0 && (price - 7) * bps >= 80000 && (price + 7) * bps < 0x8000_0000
    ensures forall r :: Distance(r, price) <= 7 && Price(r) ==> Band(r, bps) >= 8
  {
    forall r | Distance(r, price) <= 7 && Price(r) ensures Band(r, bps) >= 8 {
      MulMonotone(price - 7, r, bps);
      MulMonotone(r, price + 7, bps);
      FittingValueIsKept(r * bps);
    }
  }

  lemma MulMonotone(a: int, b: int, c: int)
    requires a <= b && 0 <= c
    ensures a * c <= b * c
  {
    assert b * c == a * c + (b - a) * c;
    MulNonNegative(b - a, c);
  }

  lemma MulNonNegative(a: int, b: int)
    requires 0 <= a && 0 <= b
    ensures 0 <= a * b
  {
  }

  // ----- The band in prices -----

  /** What `evaluate` decides, without division: with x = ref * bps, where it fits, a price signals when x is
      at least 10000 and ten thousand times its distance to the reference exceeds x less ten thousand. */
  lemma EvaluateMeans(ref: int, price: int, bps: int)
    requires Price(ref) && Price(price) && 0 <= bps && ref * bps < 0x8000_0000
    ensures Evaluate(ref, price, bps) == Buy <==> ref * bps >= 10000 && 10000 * (ref - price + 1) > ref * bps
    ensures Evaluate(ref, price, bps) == Sell <==> ref * bps >= 10000 && 10000 * (price - ref + 1) > ref * bps
  {
    MulNonNegative(ref, bps);
    FittingValueIsKept(ref * bps);
  }

  /** With a width that is not positive, or a price or reference that is not, nothing signals. */
  lemma NothingToEvaluate(ref: int, price: int, bps: int)
    requires ref <= 0 || price <= 0 || (bps <= 0 && ref * bps >= -0x8000_0000)
    ensures Evaluate(ref, price, bps) == NoSide
  {
    if ref > 0 && price > 0 {
      MulNonNegative(ref, -bps);
      assert ref * bps == -(ref * (-bps));
      FittingValueIsKept(ref * bps);
    }
  }

  // ----- The direction of a signal -----

  /** The first tick never signals; a buy is below the old reference, a sell above it. */
  lemma SignalDirection(ref: int, price: int, bps: int)
    requires ref == 0 || (Price(ref) && Price(price))
    ensures ref == 0 ==> Tick(ref, price, bps) == (price, NoSide)
    ensures Price(ref) && Tick(ref, price, bps).1 == Buy ==> price < ref
    ensures Price(ref) && Tick(ref, price, bps).1 == Sell ==> price > ref
  {
    if ref != 0 { UpdateIsPlain(ref, price); }
  }

  /** How far the price is beyond the updated reference: seven eighths of the way, rounded up. */
  lemma GapAfterUpdate(ref: int, price: int)
    requires Price(ref) && Price(price)
    ensures Distance(UpdateRef(ref, price), price) == Distance(ref, price) - Distance(ref, price) / 8
    ensures Distance(UpdateRef(ref, price), ref) == Distance(ref, price) / 8
  {
    UpdateIsPlain(ref, price);
  }

  /** The bands of two positive references whose products fit 32 bits. */
  lemma BandsCompare(r: int, s: int, bps: int)
    requires 0 < r <= s && 0 <= bps && s * bps < 0x8000_0000
    ensures 0 <= Band(r, bps) <= Band(s, bps)
    ensures bps <= 10000 ==> Band(s, bps) <= Band(r, bps) + (s - r)
  {
    MulMonotone(r, s, bps);
    MulNonNegative(r, bps);
    FittingValueIsKept(r * bps);
    FittingValueIsKept(s * bps);
    if bps <= 10000 {
      MulMonotone(bps, 10000, s - r);
      assert s * bps == r * bps + bps * (s - r);
    }
  }

  /** Lowering a price that signals buy still signals buy, while the new band stays positive. */
  lemma BuyIsMonotone(ref: int, price: int, lower: int, bps: int)
    requires Price(ref) && Price(price) && Price(lower) && lower <= price
    requires 0 <= bps && ref * bps < 0x8000_0000
    requires Tick(ref, price, bps).1 == Buy
    ensures Tick(ref, lower, bps).1 == Buy <==> Band(UpdateRef(ref, lower), bps) > 0
  {
    SignalDirection(ref, price, bps);
    GapAfterUpdate(ref, price);
    GapAfterUpdate(ref, lower);
    UpdateIsPlain(ref, price);
    UpdateIsPlain(ref, lower);
    var r, s := UpdateRef(ref, lower), UpdateRef(ref, price);
    MulMonotone(s, ref, bps);
    BandsCompare(r, s, bps);
  }

  /** The sell side has no such monotonicity: at reference 7999 a price of 8006 signals sell and 8007
      does not. */
  lemma SellIsNotMonotone()
    ensures Tick(7999, 8006, DEFAULT_BAND_BPS).1 == Sell
    ensures Tick(7999, 8007, DEFAULT_BAND_BPS).1 == NoSide
  {
    assert UpdateRef(7999, 8006) == 7999 && UpdateRef(7999, 8007) == 8000;
    assert Band(7999, DEFAULT_BAND_BPS) == 7 && Band(8000, DEFAULT_BAND_BPS) == 8;
  }

  /** MAIN RESULT 13. Exactly when raising a selling price loses the signal: only a raise by one can,
      and it does when the distance to the reference becomes a multiple of eight, the old price stood
      on the edge of its band, and the band grows with the reference. Any larger raise keeps it. */
  lemma SellSurvivesARaise(ref: int, price: int, raise: int, bps: int)
    requires Price(ref) && Price(price) && 0 < raise && Price(price + raise)
    requires 0 <= bps <= 10000 && (price + raise) * bps < 0x8000_0000
    requires Tick(ref, price, bps).1 == Sell
    ensures Tick(ref, price + raise, bps).1 != Sell <==>
              && raise == 1 && (price - ref) % 8 == 7
              && price == UpdateRef(ref, price) + Band(UpdateRef(ref, price), bps)
              && Band(UpdateRef(ref, price) + 1, bps) == Band(UpdateRef(ref, price), bps) + 1
  {
    var high := price + raise;
    SignalDirection(ref, price, bps);
    GapAfterUpdate(ref, price);
    GapAfterUpdate(ref, high);
    UpdateIsPlain(ref, price);
    UpdateIsPlain(ref, high);
    var r, s := UpdateRef(ref, price), UpdateRef(ref, high);
    MulMonotone(s, high, bps);
    BandsCompare(r, s, bps);
    EighthsGrow(price - ref, raise);
  }

  /** The same for every band, however wide: the reference follows a raise by `step`, and the signal is lost
      exactly when the band grows by more than what the raise and the old slack leave. */
  lemma SellSurvivesExactly(ref: int, price: int, raise: int, bps: int)
    requires Price(ref) && Price(price) && 0 < raise && Price(price + raise)
    requires 0 <= bps && (price + raise) * bps < 0x8000_0000
    requires Tick(ref, price, bps).1 == Sell
    ensures var r, step := UpdateRef(ref, price), ((price - ref) % 8 + raise) / 8;
            var slack, growth := price - r - Band(r, bps), Band(r + step, bps) - Band(r, bps);
      && UpdateRef(ref, price + raise) == r + step
      && slack >= 0 && growth >= 0
      && (Tick(ref, price + raise, bps).1 != Sell <==> growth > slack + (raise - step))
  {
    var high := price + raise;
    SignalDirection(ref, price, bps);
    GapAfterUpdate(ref, price);
    GapAfterUpdate(ref, high);
    UpdateIsPlain(ref, price);
    UpdateIsPlain(ref, high);
    var r, s := UpdateRef(ref, price), UpdateRef(ref, high);
    MulMonotone(s, high, bps);
    BandsCompare(r, s, bps);
  }

  /** Below seven times the reference, a raise that is large enough always keeps the signal. */
  lemma LargeRaiseKeepsSell(ref: int, price: int, raise: int, bps: int)
    requires Price(ref) && Price(price) && 0 < raise && Price(price + raise)
    requires 0 <= bps < 70000 && (price + raise) * bps < 0x8000_0000
    requires raise * (70000 - bps) >= 7 * (10000 + bps)
    requires Tick(ref, price, bps).1 == Sell
    ensures Tick(ref, price + raise, bps).1 == Sell
  {
    var r, step := UpdateRef(ref, price), ((price - ref) % 8 + raise) / 8;
    SellSurvivesExactly(ref, price, raise, bps);
    UpdateIsPlain(ref, price);
    SignalDirection(ref, price, bps);
    UpdateIsPlain(ref, price + raise);
    MulMonotone(r + step, price + raise, bps);
    BandGrowth(r, step, bps);
    RaiseOutgrows(raise, step, bps);
  }

  lemma RaiseOutgrows(raise: int, step: int, bps: int)
    requires 0 <= bps < 70000 && 0 < raise && 8 * step <= raise + 7
    requires raise * (70000 - bps) >= 7 * (10000 + bps)
    ensures step * bps <= 10000 * (raise - step)
  {
    var k, x := bps + 10000, raise * bps;
    assert raise * (70000 - bps) == 70000 * raise - x;
    MulMonotone(8 * step, raise + 7, k);
    assert (8 * step) * k == 8 * (step * k) && step * k == step * bps + 10000 * step;
    assert (raise + 7) * k == x + 10000 * raise + 7 * k;
  }

  lemma BandGrowth(r: int, step: int, bps: int)
    requires 0 < r && 0 <= step && 0 <= bps && (r + step) * bps < 0x8000_0000
    ensures 10000 * (Band(r + step, bps) - Band(r, bps)) <= step * bps + 9999
  {
    BandsCompare(r, r + step, bps);
    MulMonotone(r, r + step, bps);
    MulNonNegative(r, bps);
    FittingValueIsKept(r * bps);
    FittingValueIsKept((r + step) * bps);
    assert (r + step) * bps == r * bps + step * bps;
  }

  lemma EighthsGrow(d: nat, raise: nat)
    ensures (d + raise) / 8 - d / 8 <= (raise + 7) / 8
    ensures raise == 1 ==> (d + 1) / 8 == d / 8 + (if d % 8 == 7 then 1 else 0)
  {
  }
}
