/** One call of each trading component on a FIFO queue: a producer's `on_tick`, a consumer's
    `poll_once`, the gateway's `poll_once`. The classes in `Trading` are proved against these
    functions, and the whole-run results are about them. */
module TradingSteps {
  import opened Machine
  import opened Messages
  import opened Decoding
  import opened Strategy

  // ----- Producers -----

  /** `ref_price_`, `next_token_` and `signals_` of one producer. */
  datatype Producer = Producer(ref: int, nextToken: nat, emitted: nat)

  /** What a producer reads off a tick of its feed. */
  datatype Quote = Quote(feed: Feed, price: int, quantity: int, stock: Bytes, token: int, symbol: Bytes, series: Bytes)

  /** A signal's symbol holds nine characters and a terminator. */
  const SYMBOL_SIZE: nat := 9

  function Cut(b: Bytes, n: nat): Bytes {
    if |b| <= n then b else b[..n]
  }

  function Terminated(b: Bytes): Bytes {
    if b == [] || b[0] == 0 then [] else [b[0]] + Terminated(b[1..])
  }

  /** `%d`. */
  function SignedDecimal(x: int): Bytes {
    if x < 0 then [MINUS_CHAR] + Decimal(-x) else Decimal(x)
  }

  /** What `apply_exponent` computes: the mantissa times a power of ten, rounded toward zero once. */
  function Scaled(mantissa: int, exponent: int): int {
    if exponent >= 0 then mantissa * TenTo(exponent) else TruncDiv(mantissa, TenTo(-exponent))
  }

  /** Dividing by d and then by ten, rounding toward zero both times, rounds like one division. */
  lemma TruncTwice(x: int, d: nat)
    requires d > 0
    ensures TruncDiv(TruncDiv(x, d), 10) == TruncDiv(x, 10 * d)
  {
    if x >= 0 {
      DivNonNegative(x, d);
      DivTwice(x, d);
    } else {
      DivNonNegative(-x, d);
      DivTwice(-x, d);
      var q := (-x) / d;
      assert TruncDiv(-q, 10) == -(q / 10);
    }
  }

  lemma DivNonNegative(x: nat, d: nat)
    requires d > 0
    ensures x / d >= 0
  {
    var q := x / d;
    MulAtLeast(d, q);
  }

  lemma DivTwice(x: nat, d: nat)
    requires d > 0
    ensures (x / d) / 10 == x / (10 * d)
  {
    var q, r := x / d, x % d;
    var s, u := q / 10, q % 10;
    DigitTimes(d, u);
    assert x == d * q + r && q == 10 * s + u;
    assert d * q == (10 * d) * s + d * u by {
      assert d * (10 * s + u) == d * (10 * s) + d * u;
    }
    ModUnique(x, 10 * d, s, d * u + r);
  }

  lemma DigitTimes(d: nat, u: nat)
    requires u < 10
    ensures 0 <= d * u <= 9 * d
  {
    assert 9 * d - d * u == d * (9 - u);
    assert d * (9 - u) >= 0 by { MulAtLeast(d, 9 - u); }
    MulAtLeast(d, u);
  }

  /** `apply_exponent`, whose loop multiplies or divides by ten again and again. */
  method ApplyExponent(mantissa: int, exponent: int) returns (scaled: int)
    ensures scaled == Scaled(mantissa, exponent)
  {
    if exponent == 0 {
      return mantissa;
    }
    scaled := mantissa;
    var i := 0;
    if exponent > 0 {
      while i < exponent
        invariant 0 <= i <= exponent && scaled == mantissa * TenTo(i)
      {
        assert mantissa * TenTo(i + 1) == 10 * (mantissa * TenTo(i)) by { TenTimes(mantissa, TenTo(i)); }
        scaled := scaled * 10;
        i := i + 1;
      }
      return;
    }
    while i > exponent
      invariant exponent <= i <= 0 && scaled == TruncDiv(mantissa, TenTo(-i))
    {
      TruncTwice(mantissa, TenTo(-i));
      scaled := TruncDiv(scaled, 10);
      i := i - 1;
    }
  }

  lemma TenTimes(x: int, y: int)
    ensures x * (10 * y) == 10 * (x * y)
  {
  }

  function ReadQuote(m: Message): Option<Quote> {
    match m
    case ItchTick(b) =>
      if |b| == ITCH_SIZE then
        Some(Quote(ItchFeed, Int32(ItchPrice(b)), Int32(ItchShares(b)), ItchStock(b), 0, [], []))
      else None
    case MtbtTick(b) =>
      if |b| == MTBT_SIZE then
        Some(Quote(MtbtFeed, MtbtPrice(b), MtbtQuantity(b), [], MtbtToken(b),
                   Cut([84, 75, 78] + SignedDecimal(MtbtToken(b)), SYMBOL_SIZE), [69, 81]))
      else None
    case McxTick(b) =>
      if |b| == MCX_SIZE then
        Some(Quote(McxFeed, Int32(TruncDiv(Int64(Le64(b, 8)) + Int64(Le64(b, 16)), 2)), Int32(Le64(b, 24)), [],
                   Int32(Le32(b, 0)), Cut(Terminated(b[40..52]), SYMBOL_SIZE), []))
      else None
    case SbeTick(bid, ask, exponent, bidSize, sizeExponent, updateId, name) =>
      Some(Quote(SbeFeed, Int32(Scaled(TruncDiv(bid + ask, 2), exponent)),
                 Int32(Scaled(bidSize, sizeExponent)), [], Int32(updateId), Cut(name, SYMBOL_SIZE), []))
    case _ => None
  }

  /** `on_tick` with an owned message: the new producer state, and the signal the message is rewritten
      to, or None when the message is released. */
  function OnTick(p: Producer, q: Quote, bps: int): (Producer, Option<StrategySignal>) {
    var (ref, side) := Tick(p.ref, q.price, bps);
    if side == NoSide then (p.(ref := ref), None)
    else
      (Producer(ref, Word(p.nextToken + 1), p.emitted + 1),
       Some(StrategySignal(q.feed, side, q.price, q.quantity, p.nextToken, q.stock, q.token, q.symbol, q.series)))
  }

  /** A signal buys below the reference before the tick and sells above it; the first tick gives none. The
      tick moves the reference as the strategy says. */
  lemma SideOfSignal(p: Producer, q: Quote, bps: int)
    requires (p.ref == 0 || Price(p.ref)) && Price(q.price)
    ensures var (p', signal) := OnTick(p, q, bps);
      && p'.ref == UpdateRef(p.ref, q.price)
      && (signal.Some? ==>
            && p.ref != 0 && signal.value.side != NoSide
            && (signal.value.side == Buy <==> q.price < p.ref)
            && (signal.value.side == Sell <==> q.price > p.ref))
  {
    SignalDirection(p.ref, q.price, bps);
  }

  /** The series of an MTBT signal is "EQ". Its symbol, "TKN" and the token in nine characters, names the token
      exactly when its decimal text, sign included, has at most six characters; a longer one is cut. */
  lemma SymbolNamesToken(body: Bytes)
    requires |body| == MTBT_SIZE
    ensures var symbol := ReadQuote(MtbtTick(body)).value.symbol;
      && |symbol| >= 3 && symbol[..3] == [84, 75, 78]
      && (ParseSigned(symbol[3..]) == MtbtToken(body) <==> -100_000 < MtbtToken(body) < 1_000_000)
    ensures ReadQuote(MtbtTick(body)).value.series == [69, 81]
  {
    var token, prefix: Bytes := MtbtToken(body), [84, 75, 78];
    var text := SignedDecimal(token);
    var symbol := Cut(prefix + text, SYMBOL_SIZE);
    assert symbol[3..] == Cut(text, 6);
    assert TenTo(3) == 1000 && TenTo(5) == 100 * TenTo(3) && TenTo(6) == 1000 * TenTo(3);
    if token >= 0 {
      DecimalDigits(token);
      CutDecimal(token, 6);
    } else {
      var digits := Decimal(-token);
      assert text[1..] == digits && Cut(text, 6)[1..] == Cut(digits, 5);
      CutDecimal(-token, 5);
    }
  }

  lemma DivMonotone(x: nat, y: nat, d: nat)
    requires x <= y && d > 0
    ensures x / d <= y / d
  {
    var p, q := x / d, y / d;
    MulAtLeast(d, p - q);
    assert d * (p - q) == d * p - d * q;
  }

  lemma TruncMonotone(x: int, y: int, d: nat)
    requires x <= y && d > 0
    ensures TruncDiv(x, d) <= TruncDiv(y, d)
  {
    if x >= 0 {
      DivMonotone(x, y, d);
    } else if y < 0 {
      DivMonotone(-y, -x, d);
    } else {
      DivNonNegative(-x, d);
      DivNonNegative(y, d);
    }
  }

  lemma ScaledMonotone(x: int, y: int, exponent: int)
    requires x <= y
    ensures Scaled(x, exponent) <= Scaled(y, exponent)
  {
    if exponent >= 0 {
      MulMonotone(x, y, TenTo(exponent));
    } else {
      TruncMonotone(x, y, TenTo(-exponent));
    }
  }

  lemma Midpoint(bid: int, ask: int)
    requires bid <= ask
    ensures bid <= TruncDiv(bid + ask, 2) <= ask
  {
  }

  /** The price an SBE tick gives its producer lies between bid and ask, scaled by the exponent. */
  lemma SbeMidIsBetween(m: Message)
    requires m.SbeTick? && m.bid <= m.ask
    requires FitsInt32(Scaled(m.bid, m.exponent)) && FitsInt32(Scaled(m.ask, m.exponent))
    ensures Scaled(m.bid, m.exponent) <= ReadQuote(m).value.price <= Scaled(m.ask, m.exponent)
  {
    var mid := TruncDiv(m.bid + m.ask, 2);
    Midpoint(m.bid, m.ask);
    ScaledMonotone(m.bid, mid, m.exponent);
    ScaledMonotone(mid, m.ask, m.exponent);
    FittingValueIsKept(Scaled(mid, m.exponent));
  }

  /** The price an MCX tick gives its producer lies between bid and ask. */
  lemma McxMidIsBetween(b: Bytes)
    requires |b| == MCX_SIZE
    requires FitsInt32(Int64(Le64(b, 8))) && FitsInt32(Int64(Le64(b, 16))) && Int64(Le64(b, 8)) <= Int64(Le64(b, 16))
    ensures Int64(Le64(b, 8)) <= ReadQuote(McxTick(b)).value.price <= Int64(Le64(b, 16))
  {
    var bid, ask := Int64(Le64(b, 8)), Int64(Le64(b, 16));
    Midpoint(bid, ask);
    FittingValueIsKept(TruncDiv(bid + ask, 2));
  }

  // ----- Consumers -----

  /** What a consumer is constructed with. */
  datatype Account = Account(traderId: int, symbolId: int, senderSubId: nat, securityId: nat)

  /** `submitted_`, and the MCX consumer's `next_seq_`. */
  datatype Consumer = Consumer(submitted: nat, nextSeq: nat)

  function SideChar(side: Side): char { if side == Buy then 'B' else 'S' }
  function SideCode(side: Side): nat { if side == Buy then 1 else 2 }

  /** "lnk" and the token in decimal. */
  function LinkId(token: nat): Bytes {
    [108, 110, 107] + Decimal(token)
  }

  function MakeOrder(feed: Feed, a: Account, c: Consumer, s: StrategySignal): (m: Message)
    ensures m.IsRequest()
  {
    match feed
    case ItchFeed => OuchRequest(OuchOrder(s.orderToken, SideChar(s.side), Word(s.quantity), s.stock, Word(s.price)))
    case MtbtFeed =>
      NnfRequest(NnfOrder(a.traderId, SideCode(s.side), s.quantity, s.price, s.symbol, s.series, s.token))
    case SbeFeed => SbeRequest(SbeOrder(a.symbolId, SideCode(s.side), s.quantity, s.price, LinkId(s.orderToken)))
    case McxFeed => McxRequest(McxOrder(c.nextSeq, a.senderSubId, s.price, s.orderToken, s.quantity, a.securityId,
                                        SideCode(s.side), Cut(Terminated(s.symbol), 11)))
  }

  /** What a consumer of the feed does with the message it takes. */
  datatype Verdict = Drop | Rotate | Submit

  function Judge(feed: Feed, m: Message): Verdict {
    if !m.Signal? then Drop
    else if m.signal.feed != feed then Rotate
    else if m.signal.side == NoSide then Drop
    else Submit
  }

  datatype Polled = Polled(c: Consumer, signals: seq<Message>, pending: seq<Message>)

  function Submitted(c: Consumer, feed: Feed): Consumer {
    Consumer(c.submitted + 1, if feed == McxFeed then Word(c.nextSeq + 1) else c.nextSeq)
  }

  /** `poll_once` of the consumer of a feed. */
  function Poll(feed: Feed, a: Account, p: Polled): Polled {
    if p.signals == [] then p
    else
      var m, rest := p.signals[0], p.signals[1..];
      match Judge(feed, m)
      case Drop => p.(signals := rest)
      case Rotate => p.(signals := rest + [m])
      case Submit => Polled(Submitted(p.c, feed), rest, p.pending + [MakeOrder(feed, a, p.c, m.signal)])
  }

  // ----- Gateway -----

  /** The five counters the gateway numbers orders with, and `confirms_`. */
  datatype Gateway = Gateway(
    ouchRef: nat, nnfOrder: nat, sbeSeq: nat, mcxOrder: nat, mcxExec: nat, confirms: nat)

  const NEW_GATEWAY: Gateway := Gateway(1, 1, 1, 1, 1, 0)

  /** `format_ouch_token`: fourteen characters, zeros in front. */
  function FormatOuchToken(token: nat): Bytes {
    var d := Decimal(token);
    if |d| >= 14 then d[..14] else Repeat(ZERO_CHAR, 14 - |d|) + d
  }

  /** "exch-oid" */
  const EXCHANGE_ID: Bytes := [101, 120, 99, 104, 45, 111, 105, 100]

  const MAX_ID: nat := 32

  /** The confirmation of a request and the gateway after it; None for anything that is no request. */
  function Confirm(g: Gateway, m: Message): Option<(Gateway, Message)> {
    match m
    case OuchRequest(o) =>
      Some((g.(ouchRef := g.ouchRef + 1, confirms := g.confirms + 1),
            OuchConfirm(OuchAck(FormatOuchToken(o.orderToken), o.side, o.shares, o.stock, o.price, g.ouchRef))))
    case NnfRequest(o) =>
      Some((g.(nnfOrder := g.nnfOrder + 1, confirms := g.confirms + 1),
            NnfConfirm(NnfAck(o.transactionId, g.nnfOrder, o.buySell, o.volume, o.price, o.traderId))))
    case SbeRequest(o) =>
      Some((g.(sbeSeq := g.sbeSeq + 1, confirms := g.confirms + 1),
            SbeConfirm(SbeAck(o.side, o.price, o.qty, Int32(o.symbolId), g.sbeSeq, EXCHANGE_ID,
                              Cut(o.orderLinkId, MAX_ID)))))
    case McxRequest(o) =>
      Some((g.(mcxOrder := g.mcxOrder + 1, mcxExec := g.mcxExec + 1, confirms := g.confirms + 1),
            McxConfirm(McxAck(o.msgSeqNum, g.mcxOrder, o.clOrdId, o.securityId, g.mcxExec))))
    case _ => None
  }

  datatype Desk = Desk(g: Gateway, pending: seq<Message>, confirms: seq<Message>)

  /** The gateway's `poll_once`. */
  function PollGateway(d: Desk): Desk {
    if d.pending == [] then d
    else match Confirm(d.g, d.pending[0])
      case None => d.(pending := d.pending[1..])
      case Some((g, ack)) => Desk(g, d.pending[1..], d.confirms + [ack])
  }

  /** A request is confirmed by a confirmation, and only a request is. */
  lemma ConfirmKinds(g: Gateway, m: Message)
    ensures Confirm(g, m).Some? <==> m.IsRequest()
    ensures Confirm(g, m).Some? ==> Confirm(g, m).value.1.IsConfirm()
  {
  }

  /** A 32-bit number has at most ten digits. */
  lemma TokenLength(token: nat)
    requires token < TWO_32
    ensures |Decimal(token)| <= 10
  {
    assert TenTo(3) == 1000 && TenTo(6) == 1000 * TenTo(3) && TenTo(9) == 1000 * TenTo(6) && TenTo(10) == 10 * TenTo(9);
    DecimalLength(token, 10);
  }

  /** Parsing the fourteen characters gives the token back, for every 32-bit token. */
  lemma OuchTokenRoundTrip(token: nat)
    requires token < TWO_32
    ensures |FormatOuchToken(token)| == 14 && Parse(FormatOuchToken(token)) == token
  {
    TokenLength(token);
    ParseDecimal(token);
    ParsePadded(14 - |Decimal(token)|, Decimal(token));
  }
}
