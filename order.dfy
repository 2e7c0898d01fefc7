/**
 * Orders and their validation against an instrument (Order.hpp / Order.cpp).
 *
 * Prices are integers counted in units of 10^-PriceScale of the currency,
 * times are integers counted in seconds since the epoch.
 */
module Orders {
  import opened Instruments

  datatype TimeInForce = GTD | DAY
  datatype OrderType = BID | ASK
  datatype LimitType = LIMIT | NONE

  datatype Order = Order(
    idorder: int,
    marketIdentificationCode: string,
    tradingCurrency: string,
    priority: int,          // submission time; never read by matching
    expirationDate: int,
    price: int,
    quantity: int,          // remaining quantity, lowered by matching
    originalqty: int,
    timeinforce: TimeInForce,
    ordertype: OrderType,
    limitType: LimitType,   // carried, never interpreted
    idinstrument: int,
    idfirm: int)            // carried, never interpreted

  /** The epoch, `time_point{}`. */
  const Epoch: int := 0

  /** Number of decimal digits below the currency unit that a price can carry. */
  const PriceScale: nat := 8

  function Pow10(n: nat): (r: nat)
    ensures r >= 1
  {
    if n == 0 then 1 else 10 * Pow10(n - 1)
  }

  /** The default constructor: zero / empty fields, both time stamps at the current time. */
  function DefaultOrder(now: int): (r: Order)
    ensures r.idorder == 0 && r.price == 0 && r.quantity == 0 && r.originalqty == 0
    ensures r.marketIdentificationCode == "" && r.tradingCurrency == ""
    ensures r.priority == now && r.expirationDate == now
    ensures r.timeinforce == DAY && r.ordertype == BID && r.limitType == LIMIT
    ensures r.idinstrument == 0 && r.idfirm == 0
  {
    Order(0, "", "", now, now, 0, 0, 0, DAY, BID, LIMIT, 0, 0)
  }

  /** The constructor taking an expiration date: every argument lands in its own field. */
  function NewOrder(idorder: int, mic: string, currency: string, priority: int, price: int, quantity: int,
                    timeinforce: TimeInForce, ordertype: OrderType, limitType: LimitType, idinstrument: int,
                    originalqty: int, idfirm: int, expirationDate: int): (r: Order)
    ensures r.idorder == idorder && r.marketIdentificationCode == mic && r.tradingCurrency == currency
    ensures r.priority == priority && r.price == price && r.quantity == quantity
    ensures r.timeinforce == timeinforce && r.ordertype == ordertype && r.limitType == limitType
    ensures r.idinstrument == idinstrument && r.originalqty == originalqty && r.idfirm == idfirm
    ensures r.expirationDate == expirationDate
  {
    Order(idorder, mic, currency, priority, expirationDate, price, quantity, originalqty,
          timeinforce, ordertype, limitType, idinstrument, idfirm)
  }

  /**
   * The constructor without an expiration date. It stores the epoch as the
   * expiration date; the time in force is whatever the caller passes.
   */
  function NewDayOrder(idorder: int, mic: string, currency: string, priority: int, price: int, quantity: int,
                       timeinforce: TimeInForce, ordertype: OrderType, limitType: LimitType, idinstrument: int,
                       originalqty: int, idfirm: int): (r: Order)
    ensures r.expirationDate == Epoch
    ensures r == NewOrder(idorder, mic, currency, priority, price, quantity, timeinforce, ordertype,
                          limitType, idinstrument, originalqty, idfirm, Epoch)
  {
    Order(idorder, mic, currency, priority, Epoch, price, quantity, originalqty,
          timeinforce, ordertype, limitType, idinstrument, idfirm)
  }

  /**
   * validatePrice: the price must be positive and lie on the instrument's
   * tick grid, i.e. price * 10^pricedecimal must be a whole number.
   */
  predicate ValidatePrice(o: Order, inst: Instrument) {
    if o.price <= 0 then false
    else if inst.pricedecimal >= PriceScale then true
    else o.price % Pow10(PriceScale - inst.pricedecimal) == 0
  }

  /**
   * validateQuantity: the quantity must be positive and a whole number of
   * lots. The source's "is an integer" test cannot fail on an int. The lot
   * size divides only a positive quantity, and a zero lot size there is a
   * division by zero, so only that case is excluded here.
   */
  predicate ValidateQuantity(o: Order, inst: Instrument)
    requires o.quantity > 0 ==> inst.lotsize != 0
  {
    if o.quantity <= 0 then false
    else o.quantity % inst.lotsize == 0
  }

  /**
   * Reference reading of the tick rule: the price, which is price / 10^PriceScale
   * currency units, multiplied by 10^d is a whole number.
   */
  ghost predicate OnTickGrid(price: int, d: int) {
    if d >= 0 then (price * Pow10(d)) % Pow10(PriceScale) == 0
    else price % Pow10(PriceScale - d) == 0
  }

  /** C++ `a % b`: the remainder of division truncated toward zero; it takes the sign of `a`. */
  function CRem(a: int, b: int): int
    requires b != 0
  {
    var m := if b < 0 then -b else b;
    if a >= 0 then a % m else -((-a) % m)
  }

  lemma Pow10Add(a: nat, b: nat)
    ensures Pow10(a + b) == Pow10(a) * Pow10(b)
  {
    if a > 0 {
      Pow10Add(a - 1, b);
    }
  }

  /** Euclidean division has only one quotient and remainder. */
  lemma {:induction false} ModUnique(x: int, m: int, q: int, r: int)
    requires m > 0 && x == q * m + r && 0 <= r < m
    ensures x % m == r && x / m == q
  {
    var q', r' := x / m, x % m;
    assert x == q' * m + r';
    assert (q - q') * m == r' - r;
    var d := q - q';
    var ad := if d >= 0 then d else -d;
    assert ad * m == if d >= 0 then r' - r else r - r';
    assert ad < 1 by {
      if ad >= 1 { MulAtLeast(ad, m); }
    }
  }

  lemma MulAtLeast(a: int, m: int)
    requires m > 0 && a >= 1
    ensures a * m >= m
  {
  }

  /** Scaling both the dividend and the divisor by f >= 1 scales the remainder by f. */
  lemma {:induction false} ModScaled(p: int, m: int, f: int)
    requires m > 0 && f > 0
    ensures (p * f) % (m * f) == (p % m) * f
  {
    var q, r := p / m, p % m;
    assert p == q * m + r;
    assert p * f == q * (m * f) + r * f;
    assert r * f < m * f by {
      assert (m - r) * f > 0;
    }
    ModUnique(p * f, m * f, q, r * f);
  }

  /** Dividing by -m or by m leaves the same Euclidean remainder. */
  lemma {:induction false} ModNegDivisor(a: int, m: int)
    requires m > 0
    ensures a % (-m) == a % m
  {
    var q, r := a / m, a % m;
    assert a == (-q) * (-m) + r;
    ModUnique(a, m, q, r);
  }

  /** validatePrice accepts exactly the positive prices on the instrument's tick grid. */
  lemma ValidatePriceMeansTick(o: Order, inst: Instrument)
    ensures ValidatePrice(o, inst) <==> o.price > 0 && OnTickGrid(o.price, inst.pricedecimal)
  {
    var d := inst.pricedecimal;
    if o.price > 0 && d >= 0 {
      if d >= PriceScale {
        var k: nat := d - PriceScale;
        Pow10Add(k, PriceScale);
        ModUnique(o.price * Pow10(d), Pow10(PriceScale), o.price * Pow10(k), 0);
      } else {
        var e: nat := PriceScale - d;
        Pow10Add(e, d);
        ModScaled(o.price, Pow10(e), Pow10(d));
        assert (o.price % Pow10(e)) * Pow10(d) == 0 <==> o.price % Pow10(e) == 0;
      }
    }
  }

  /**
   * validateQuantity gives the answer the C++ remainder gives: the model's
   * Euclidean `%` and the source's truncating `%` agree on "divides".
   */
  lemma ValidateQuantityMeansLots(o: Order, inst: Instrument)
    requires o.quantity > 0 ==> inst.lotsize != 0
    ensures ValidateQuantity(o, inst) <==> o.quantity > 0 && CRem(o.quantity, inst.lotsize) == 0
  {
    var l := inst.lotsize;
    if o.quantity > 0 && l < 0 {
      ModNegDivisor(o.quantity, -l);
    }
  }
}
