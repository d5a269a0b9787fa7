/** What a producer reads off a tick, said in the fields the publisher filled in. */
module Quotes {
  import opened Machine
  import opened Messages
  import opened Decoding
  import opened FrameContents
  import opened TradingSteps

  // ----- MCX -----

  /** The fields `make_mcx_tob` fills in. */
  datatype TopOfBook = TopOfBook(security: int, bid: int, ask: int, bidQty: int, askQty: int, symbol: Bytes)
  {
    predicate Valid() {
      && FitsInt64(bid) && FitsInt64(ask) && FitsInt64(bidQty) && FitsInt64(askQty)
      && |symbol| <= 12 && forall c :: c in symbol ==> c != 0
    }
  }

  function TobFront(t: TopOfBook): (b: Bytes)
    ensures |b| == 24
  {
    ToLe32(t.security) + Repeat(0, 4) + ToLe64(t.bid) + ToLe64(t.ask)
  }

  function TobBack(t: TopOfBook): (b: Bytes)
    requires t.Valid()
    ensures |b| == 32
  {
    ToLe64(t.bidQty) + ToLe64(t.askQty) + Padded(t.symbol, 12) + Repeat(0, 4)
  }

  /** The struct in memory, with four bytes of padding behind the security and at the end. */
  function TobBytes(t: TopOfBook): (b: Bytes)
    requires t.Valid()
    ensures |b| == 56
  {
    TobFront(t) + TobBack(t)
  }

  lemma FrontFields(t: TopOfBook)
    ensures var b := TobFront(t);
      b[0..4] == ToLe32(t.security) && b[8..16] == ToLe64(t.bid) && b[16..24] == ToLe64(t.ask)
  {
    var head: Bytes := ToLe32(t.security) + Repeat(0, 4);
    assert TobFront(t)[8..16] == (head + ToLe64(t.bid))[8..16];
    LastField(head, ToLe64(t.bid));
    LastField(head + ToLe64(t.bid), ToLe64(t.ask));
  }

  lemma BackFields(t: TopOfBook)
    requires t.Valid()
    ensures TobBack(t)[0..8] == ToLe64(t.bidQty) && TobBack(t)[16..28] == Padded(t.symbol, 12)
  {
    var head, symbol := ToLe64(t.bidQty) + ToLe64(t.askQty), Padded(t.symbol, 12);
    assert TobBack(t)[16..28] == (head + symbol)[16..28];
    LastField(head, symbol);
  }

  lemma TobReadsBack(t: TopOfBook)
    requires t.Valid()
    ensures var b := TobBytes(t);
      && Le32(b, 0) == Word(t.security) && b[40..52] == Padded(t.symbol, 12)
      && Int64(Le64(b, 8)) == t.bid && Int64(Le64(b, 16)) == t.ask
      && Word(Le64(b, 24)) == Word(t.bidQty)
  {
    var b, f, g := TobBytes(t), TobFront(t), TobBack(t);
    FrontFields(t);
    BackFields(t);
    FieldStays(f, g, 0, 4);
    FieldStays(f, g, 8, 16);
    FieldStays(f, g, 16, 24);
    InBack(f, g, 0, 8);
    InBack(f, g, 16, 28);
    Le32RoundTrip(b, 0, t.security);
    Le64RoundTrip(b, 8, t.bid);
    Le64RoundTrip(b, 16, t.ask);
    Le64RoundTrip(b, 24, t.bidQty);
  }

  /** The text before the first zero. */
  lemma {:induction false} TextBeforeZeros(text: Bytes, n: nat)
    requires forall c :: c in text ==> c != 0
    ensures Terminated(text + Repeat(0, n)) == text
  {
    if text != [] {
      assert text[0] in text && forall c :: c in text[1..] ==> c in text;
      assert (text + Repeat(0, n))[0] == text[0] && (text + Repeat(0, n))[1..] == text[1..] + Repeat(0, n);
      TextBeforeZeros(text[1..], n);
    } else {
      assert text + Repeat(0, n) == Repeat(0, n);
    }
  }

  lemma McxFieldsAreRead(b: Bytes)
    requires |b| == MCX_SIZE
    ensures var q := ReadQuote(McxTick(b));
      && q.Some? && q.value.feed == McxFeed && q.value.stock == [] && q.value.series == []
      && q.value.price == Int32(TruncDiv(Int64(Le64(b, 8)) + Int64(Le64(b, 16)), 2))
      && q.value.quantity == Int32(Le64(b, 24)) && q.value.token == Int32(Le32(b, 0))
      && q.value.symbol == Cut(Terminated(b[40..52]), 9)
  {
  }

  /** The middle of bid and ask, rounded toward zero. */
  predicate Middle(bid: int, ask: int, mid: int) {
    if bid + ask >= 0 then 2 * mid <= bid + ask <= 2 * mid + 1 else 2 * mid - 1 <= bid + ask <= 2 * mid
  }

  lemma TruncatedMiddle(bid: int, ask: int)
    ensures Middle(bid, ask, TruncDiv(bid + ask, 2))
    ensures FitsInt32(bid) && FitsInt32(ask) ==> Int32(TruncDiv(bid + ask, 2)) == TruncDiv(bid + ask, 2)
  {
    if FitsInt32(bid) && FitsInt32(ask) { FittingValueIsKept(TruncDiv(bid + ask, 2)); }
  }

  lemma SameWordSameInt(x: int, y: int)
    requires Word(x) == Word(y)
    ensures Int32(x) == Int32(y)
  {
  }

  /** A producer's quote q is what the fields say. */
  predicate ReadsTob(q: Quote, t: TopOfBook) {
    && q.feed == McxFeed && q.stock == [] && q.series == []
    && q.quantity == Int32(t.bidQty) && q.token == Int32(t.security)
    && q.symbol == (if |t.symbol| <= 9 then t.symbol else t.symbol[..9])
    && (FitsInt32(t.bid) && FitsInt32(t.ask) ==> Middle(t.bid, t.ask, q.price))
  }

  lemma FieldsMakeQuote(b: Bytes, t: TopOfBook)
    requires |b| == MCX_SIZE && Le32(b, 0) == Word(t.security) && Terminated(b[40..52]) == t.symbol
    requires Int64(Le64(b, 8)) == t.bid && Int64(Le64(b, 16)) == t.ask && Word(Le64(b, 24)) == Word(t.bidQty)
    ensures ReadQuote(McxTick(b)).Some? && ReadsTob(ReadQuote(McxTick(b)).value, t)
  {
    McxFieldsAreRead(b);
    WordTwice(t.security);
    SameWordSameInt(Le64(b, 24), t.bidQty);
    TruncatedMiddle(t.bid, t.ask);
  }

  lemma TobMakesQuote(t: TopOfBook, b: Bytes)
    requires t.Valid() && b == TobBytes(t)
    ensures ReadQuote(McxTick(b)).Some? && ReadsTob(ReadQuote(McxTick(b)).value, t)
  {
    TobReadsBack(t);
    TextBeforeZeros(t.symbol, 12 - |t.symbol|);
    FieldsMakeQuote(b, t);
  }

  /** MAIN RESULT 33. A published top of book arrives, and its producer reads bid quantity, security and symbol
      (nine characters of it at most), and as price the middle of bid and ask, rounded toward zero. */
  lemma TopOfBookIsRead(lz4: Lz4, f: Frame, t: TopOfBook)
    requires t.Valid() && f.kind == KIND_MCX && f.data == TobBytes(t)
    ensures FrameMessages(lz4, f) == [McxTick(f.data)]
    ensures ReadQuote(McxTick(f.data)).Some? && ReadsTob(ReadQuote(McxTick(f.data)).value, t)
  {
    TopOfBookArrives(lz4, f);
    TobMakesQuote(t, f.data);
  }

  // ----- SBE -----

  /** One decimal shift: a non-negative exponent multiplies, a negative one divides and drops the digits. */
  lemma ShiftMeans(x: int, exponent: int)
    ensures exponent >= 0 ==> Scaled(x, exponent) == x * TenTo(exponent)
    ensures exponent < 0 && x >= 0 ==>
              var q, d := Scaled(x, exponent), TenTo(-exponent); q * d <= x < q * d + d
    ensures exponent < 0 && x < 0 ==>
              var q, d := Scaled(x, exponent), TenTo(-exponent); q * d - d < x <= q * d
  {
    if exponent < 0 {
      var d := TenTo(-exponent);
      if x < 0 {
        var q := (-x) / d;
        assert -q * d == -(q * d);
      }
    }
  }

  /** MAIN RESULT 34. The SBE producer reads, where the numbers fit: as price the middle of bid and ask, and as
      quantity the bid size, each shifted by its own exponent and cut toward zero; the update number as token;
      and at most nine characters of the symbol. */
  lemma BestBidOfferIsRead(m: Message)
    requires m.SbeTick?
    ensures var q := ReadQuote(m);
      && q.Some? && q.value.feed == SbeFeed && q.value.stock == [] && q.value.series == []
      && q.value.token == Int32(m.updateId)
      && q.value.symbol == (if |m.name| <= 9 then m.name else m.name[..9])
    ensures FitsInt32(Scaled(m.bidSize, m.sizeExponent)) ==>
              ReadQuote(m).value.quantity == Scaled(m.bidSize, m.sizeExponent)
    ensures exists mid :: Middle(m.bid, m.ask, mid) &&
              (FitsInt32(Scaled(mid, m.exponent)) ==> ReadQuote(m).value.price == Scaled(mid, m.exponent))
  {
    var mid := TruncDiv(m.bid + m.ask, 2);
    TruncatedMiddle(m.bid, m.ask);
    assert Middle(m.bid, m.ask, mid);
    if FitsInt32(Scaled(m.bidSize, m.sizeExponent)) { FittingValueIsKept(Scaled(m.bidSize, m.sizeExponent)); }
    if FitsInt32(Scaled(mid, m.exponent)) { FittingValueIsKept(Scaled(mid, m.exponent)); }
  }
}
