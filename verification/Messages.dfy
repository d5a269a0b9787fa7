/** The messages that travel through the pool and the queues. A pool slot's `kind` byte and body are
    one value here: the constructor is the kind, its arguments are the fields of the struct that is
    copied into the body. Struct fields the program never sets are left out. */
module Messages {
  import opened Machine

  type Byte = b: nat | b < 256

  type Bytes = seq<Byte>

  /** The market feed a signal came from (`StrategySignal::feed`). */
  datatype Feed = ItchFeed | MtbtFeed | SbeFeed | McxFeed

  /** One value per feed. */
  datatype PerFeed<T> = PerFeed(itch: T, mtbt: T, sbe: T, mcx: T)
  {
    function Get(f: Feed): T {
      match f case ItchFeed => itch case MtbtFeed => mtbt case SbeFeed => sbe case McxFeed => mcx
    }

    function Put(f: Feed, t: T): (r: PerFeed<T>)
      ensures forall e :: r.Get(e) == if e == f then t else Get(e)
    {
      match f
      case ItchFeed => this.(itch := t)
      case MtbtFeed => this.(mtbt := t)
      case SbeFeed => this.(sbe := t)
      case McxFeed => this.(mcx := t)
    }
  }

  datatype Side = NoSide | Buy | Sell

  datatype StrategySignal = StrategySignal(
    feed: Feed, side: Side, price: int, quantity: int, orderToken: nat,
    stock: Bytes, token: int, symbol: Bytes, series: Bytes)

  datatype OuchOrder = OuchOrder(orderToken: nat, side: char, shares: nat, stock: Bytes, price: nat)

  datatype NnfOrder = NnfOrder(
    traderId: int, buySell: int, volume: int, price: int, symbol: Bytes, series: Bytes, transactionId: int)

  datatype SbeOrder = SbeOrder(symbolId: int, side: nat, qty: int, price: int, orderLinkId: Bytes)

  datatype McxOrder = McxOrder(
    msgSeqNum: nat, senderSubId: nat, price: int, clOrdId: nat, orderQty: int, securityId: nat, side: nat,
    freeText: Bytes)

  datatype OuchAck = OuchAck(orderToken: Bytes, side: char, shares: nat, stock: Bytes, price: nat, reference: nat)

  datatype NnfAck = NnfAck(token: int, orderNumber: nat, buySell: int, volume: int, price: int, traderId: int)

  datatype SbeAck = SbeAck(
    side: nat, price: int, leavesQty: int, symbolId: int, seqNo: nat, orderId: Bytes, orderLinkId: Bytes)

  datatype McxAck = McxAck(msgSeqNum: nat, orderId: nat, clOrdId: nat, securityId: nat, execId: nat)

  datatype Message =
    | ItchTick(itch: Bytes)           // a 36-byte ItchAddOrder
    | MtbtTick(mtbt: Bytes)           // a 26-byte MtbtNewOrder
    | McxTick(mcx: Bytes)             // a 56-byte TopOfBook
    | SbeTick(bid: int, ask: int, exponent: int, bidSize: int, sizeExponent: int, updateId: int, name: Bytes)
    | Signal(signal: StrategySignal)
    | OuchRequest(ouch: OuchOrder)
    | NnfRequest(nnf: NnfOrder)
    | SbeRequest(sbe: SbeOrder)
    | McxRequest(mcxOrder: McxOrder)
    | OuchConfirm(ouchAck: OuchAck)
    | NnfConfirm(nnfAck: NnfAck)
    | SbeConfirm(sbeAck: SbeAck)
    | McxConfirm(mcxAck: McxAck)
  {
    /** `is_order_request` on the message's kind. */
    predicate IsRequest() {
      OuchRequest? || NnfRequest? || SbeRequest? || McxRequest?
    }

    /** `is_order_confirm` on the message's kind. */
    predicate IsConfirm() {
      OuchConfirm? || NnfConfirm? || SbeConfirm? || McxConfirm?
    }
  }

  function Repeat(b: Byte, n: nat): (r: Bytes)
    ensures |r| == n && forall i :: 0 <= i < n ==> r[i] == b
  {
    if n == 0 then [] else [b] + Repeat(b, n - 1)
  }

  /** What `acquire` leaves in a slot: kind itch and a zeroed body. */
  const CLEARED: Message := ItchTick(Repeat(0, ITCH_SIZE))

  const ITCH_SIZE: nat := 36
  const MTBT_SIZE: nat := 26
  const MTBT_HEADER: nat := 8
  const MCX_SIZE: nat := 56

  // ----- Reading little-endian struct fields -----

  function Le16(data: Bytes, at: nat): nat
    requires at + 2 <= |data|
  {
    data[at] as nat + 256 * (data[at + 1] as nat)
  }

  function Le32(data: Bytes, at: nat): nat
    requires at + 4 <= |data|
  {
    Le16(data, at) + 0x1_0000 * Le16(data, at + 2)
  }

  function Le64(data: Bytes, at: nat): nat
    requires at + 8 <= |data|
  {
    Le32(data, at) + 0x1_0000_0000 * Le32(data, at + 4)
  }

  function Int16(w: nat): int {
    if w < 0x8000 then w else w - 0x1_0000
  }

  function Int64(w: nat): int {
    if w < 0x8000_0000_0000_0000 then w else w - TWO_64
  }

  /** The bytes of a little-endian 32-bit field. */
  function ToLe32(x: int): (b: Bytes)
    ensures |b| == 4
  {
    var w := Word(x);
    [w % 256, (w / 0x100) % 256, (w / 0x1_0000) % 256, w / 0x100_0000]
  }

  /** The four base-256 digits of a 32-bit number. */
  lemma Digits(w: nat)
    requires w < TWO_32
    ensures w / 0x100_0000 < 256
    ensures w == w % 256 + 256 * ((w / 0x100) % 256) + 0x1_0000 * ((w / 0x1_0000) % 256 + 256 * (w / 0x100_0000))
  {
    var q := w / 0x100;
    assert q / 256 == w / 0x1_0000;
    assert (w / 0x1_0000) / 256 == w / 0x100_0000;
  }

  lemma Le32RoundTrip(data: Bytes, at: nat, x: int)
    requires at + 4 <= |data| && data[at..at + 4] == ToLe32(x)
    ensures Le32(data, at) == Word(x)
  {
    var b, d := ToLe32(x), data[at..at + 4];
    assert d[0] == b[0] && d[1] == b[1] && d[2] == b[2] && d[3] == b[3];
    Digits(Word(x));
  }

  function ToLe64(x: int): (b: Bytes)
    ensures |b| == 8
  {
    ToLe32(x) + ToLe32(x / TWO_32)
  }

  predicate FitsInt64(x: int) {
    -0x8000_0000_0000_0000 <= x < 0x8000_0000_0000_0000
  }

  /** A signed 64-bit field reads back, and its low word is the low word of the number. */
  lemma Le64RoundTrip(data: Bytes, at: nat, x: int)
    requires at + 8 <= |data| && data[at..at + 8] == ToLe64(x) && FitsInt64(x)
    ensures Int64(Le64(data, at)) == x && Word(Le64(data, at)) == Word(x)
  {
    var d, h := data[at..at + 8], x / TWO_32;
    assert data[at..at + 4] == d[..4] == ToLe32(x);
    assert data[at + 4..at + 8] == d[4..] == ToLe32(h);
    Le32RoundTrip(data, at, x);
    Le32RoundTrip(data, at + 4, h);
    assert x == TWO_32 * h + Word(x);
    if x >= 0 {
      ModUnique(h, TWO_32, 0, h);
    } else {
      ModUnique(h, TWO_32, -1, h + TWO_32);
    }
    ModUnique(Le64(data, at), TWO_32, Word(h), Word(x));
  }

  /** A character array: the text, and zeros behind it. */
  function Padded(b: Bytes, n: nat): (r: Bytes)
    requires |b| <= n
    ensures |r| == n && r[..|b|] == b
  {
    b + Repeat(0, n - |b|)
  }

  // ----- Decimal text -----

  const ZERO_CHAR: nat := 48

  /** `%u`: decimal digits, most significant first. */
  function Decimal(n: nat): (d: Bytes)
    ensures |d| > 0
  {
    if n < 10 then [ZERO_CHAR + n] else Decimal(n / 10) + [ZERO_CHAR + n % 10]
  }

  /** The number a digit string denotes. */
  function Parse(d: Bytes): nat {
    if d == [] then 0
    else 10 * Parse(d[..|d| - 1]) + (if d[|d| - 1] >= ZERO_CHAR then d[|d| - 1] - ZERO_CHAR else 0)
  }

  lemma {:induction false} ParseDecimal(n: nat)
    ensures Parse(Decimal(n)) == n
  {
    if n >= 10 {
      ParseDecimal(n / 10);
      assert Decimal(n)[..|Decimal(n)| - 1] == Decimal(n / 10);
    }
  }

  /** Zeros in front do not change the number. */
  lemma {:induction false} ParsePadded(k: nat, d: Bytes)
    ensures Parse(Repeat(ZERO_CHAR, k) + d) == Parse(d)
  {
    var z: Bytes := Repeat(ZERO_CHAR, k);
    if d == [] {
      if k > 0 {
        assert (z + d)[..k - 1] == Repeat(ZERO_CHAR, k - 1) + [];
        ParsePadded(k - 1, []);
      }
    } else {
      assert (z + d)[..|z + d| - 1] == z + d[..|d| - 1];
      ParsePadded(k, d[..|d| - 1]);
    }
  }

  function TenTo(k: nat): (t: nat)
    ensures t > 0
  {
    if k == 0 then 1 else 10 * TenTo(k - 1)
  }

  /** A number below 10^k has at most k digits. */
  lemma {:induction false} DecimalLength(n: nat, k: nat)
    requires 0 < k && n < TenTo(k)
    ensures |Decimal(n)| <= k
  {
    if n >= 10 {
      assert TenTo(k) == 10 * TenTo(k - 1);
      assert k > 1 by { assert TenTo(0) == 1; }
      DecimalLength(n / 10, k - 1);
    }
  }

  lemma {:induction false} TenToGrows(j: nat, k: nat)
    requires j <= k
    ensures TenTo(j) <= TenTo(k)
    decreases k
  {
    if j < k { TenToGrows(j, k - 1); }
  }

  /** The first k digits of a number denote a number below 10^k. */
  lemma {:induction false} LeadingDigits(n: nat, k: nat)
    requires k <= |Decimal(n)|
    ensures Parse(Decimal(n)[..k]) < TenTo(k)
    decreases n
  {
    var d := Decimal(n);
    if n < 10 {
      assert d[..k] == if k == 0 then [] else [ZERO_CHAR + n];
    } else {
      var front := Decimal(n / 10);
      if k < |d| {
        assert d[..k] == front[..k];
        LeadingDigits(n / 10, k);
      } else {
        assert d[..k] == d && front[..k - 1] == front;
        LeadingDigits(n / 10, k - 1);
        ParseDecimal(n);
        ParseDecimal(n / 10);
      }
    }
  }

  /** Decimal text has digits only. */
  lemma {:induction false} DecimalDigits(n: nat)
    ensures forall i :: 0 <= i < |Decimal(n)| ==> ZERO_CHAR <= Decimal(n)[i] < ZERO_CHAR + 10
    decreases n
  {
    if n >= 10 { DecimalDigits(n / 10); }
  }

  const MINUS_CHAR: nat := 45

  /** The number `%d` text denotes. */
  function ParseSigned(d: Bytes): int {
    if d != [] && d[0] == MINUS_CHAR then 0 - (Parse(d[1..]) as int) else Parse(d)
  }

  /** Cutting decimal text to k characters keeps the number exactly when it has at most k digits. */
  lemma CutDecimal(n: nat, k: nat)
    requires 0 < k
    ensures var cut := if |Decimal(n)| <= k then Decimal(n) else Decimal(n)[..k];
      Parse(cut) == n <==> n < TenTo(k)
  {
    var d := Decimal(n);
    if |d| <= k {
      assert d[..|d|] == d;
      ParseDecimal(n);
      LeadingDigits(n, |d|);
      TenToGrows(|d|, k);
    } else {
      LeadingDigits(n, k);
      if n < TenTo(k) { DecimalLength(n, k); }
    }
  }
}
