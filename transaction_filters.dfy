/**
 * Row selections over a bank statement (transaction_filters.py) and the
 * trade-message matcher `match_trading` that its tests describe.
 */
module TransactionFilters {
  import opened Wrappers
  import opened Text
  import opened Money
  import opened Frame

  /** The category code ("Laji") of stock-trading rows. */
  const TradingCode := 700

  // ---------------------------------------------------------------------
  // Description-based selections
  // ---------------------------------------------------------------------

  predicate IsDividendPayment(row: Row)
  {
    Lower(row.selitys) == "arvopaperit"
  }

  /** `find_dividend_payments`: the rows whose description is "Arvopaperit"
      in any letter case. */
  function FindDividendPayments(rows: seq<Row>): (r: seq<Row>)
    ensures forall x :: x in r <==> x in rows && Lower(x.selitys) == "arvopaperit"
    ensures IsSubsequence(r, rows)
  {
    Filter(rows, IsDividendPayment)
  }

  /** The description matches exactly when it spells "arvopaperit" letter
      by letter, each letter in lower or upper case. */
  lemma DividendLabelAnyCase(row: Row)
    ensures IsDividendPayment(row) <==>
      |row.selitys| == |"arvopaperit"| &&
      forall i :: 0 <= i < |row.selitys| ==>
        row.selitys[i] == "arvopaperit"[i] || row.selitys[i] as int == "arvopaperit"[i] as int - 32
  {
    LowerEqualsWord(row.selitys, "arvopaperit");
  }

  /** The label as the bank writes it, in capitals, and in lower case are
      both dividend payments; a longer description is not. */
  lemma DividendLabelExamples()
    ensures IsDividendPayment(Row("12,00", 0, "ARVOPAPERIT", ""))
    ensures IsDividendPayment(Row("12,00", 0, "arvopaperit", ""))
    ensures !IsDividendPayment(Row("12,00", 0, "ARVOPAPERIT X", ""))
  {
    assert Lower("ARVOPAPERIT X")[11] == ' ';
  }

  predicate IsServiceCharge(row: Row)
  {
    Lower(row.selitys) == "palvelumaksu"
  }

  /** `find_service_charges`: the rows whose description is "Palvelumaksu"
      in any letter case. */
  function FindServiceCharges(rows: seq<Row>): (r: seq<Row>)
    ensures forall x :: x in r <==> x in rows && Lower(x.selitys) == "palvelumaksu"
    ensures IsSubsequence(r, rows)
  {
    Filter(rows, IsServiceCharge)
  }

  /** No row is both a dividend payment and a service charge. */
  lemma DividendsAndServiceChargesDisjoint(rows: seq<Row>)
    ensures forall x :: x in FindDividendPayments(rows) ==> x !in FindServiceCharges(rows)
  {
    forall x | x in FindDividendPayments(rows)
      ensures x !in FindServiceCharges(rows)
    {
      assert Lower(x.selitys)[0] == 'a';
    }
  }

  // ---------------------------------------------------------------------
  // Ticker selection
  // ---------------------------------------------------------------------

  predicate IsTickerTrade(row: Row, ticker: string)
  {
    var message := Strip(row.viesti);
    row.laji == TradingCode && ("O:" + ticker <= message || "M:" + ticker <= message)
  }

  /** `find_by_ticker_symbol`: the trading rows whose trimmed message starts
      with "O:" or "M:" followed by the ticker. */
  function FindByTickerSymbol(rows: seq<Row>, ticker: string): (r: seq<Row>)
    ensures forall x :: x in r <==>
      x in rows && x.laji == TradingCode &&
      ("O:" + ticker <= Strip(x.viesti) || "M:" + ticker <= Strip(x.viesti))
    ensures IsSubsequence(r, rows)
  {
    Filter(rows, x => IsTickerTrade(x, ticker))
  }

  /** The match is by prefix: the rows found for a longer ticker are, in
      order, among the rows found for any of its prefixes. */
  lemma TickerExtensionNarrows(rows: seq<Row>, ticker: string, extension: string)
    ensures IsSubsequence(FindByTickerSymbol(rows, ticker + extension), FindByTickerSymbol(rows, ticker))
  {
    var longer, shorter := x => IsTickerTrade(x, ticker + extension), x => IsTickerTrade(x, ticker);
    forall x | longer(x)
      ensures shorter(x)
    {
      TickerTradeExtension(x, ticker, extension);
    }
    FilterMonotone(rows, longer, shorter);
  }

  lemma TickerTradeExtension(x: Row, ticker: string, extension: string)
    requires IsTickerTrade(x, ticker + extension)
    ensures IsTickerTrade(x, ticker)
  {
    var message := Strip(x.viesti);
    if "O:" + (ticker + extension) <= message {
      PrefixOfLongerPrefix("O:", ticker, extension, message);
    } else {
      PrefixOfLongerPrefix("M:", ticker, extension, message);
    }
  }

  lemma PrefixOfLongerPrefix(side: string, ticker: string, extension: string, message: string)
    requires side + (ticker + extension) <= message
    ensures side + ticker <= message
  {
    assert side + (ticker + extension) == (side + ticker) + extension;
  }

  // ---------------------------------------------------------------------
  // Expenses
  // ---------------------------------------------------------------------

  /** Every amount in the frame is a decimal number; otherwise the float
      conversion of the amount column fails for the whole frame. */
  predicate AmountsParse(rows: seq<Row>)
  {
    forall x :: x in rows ==> ParseCents(x.maara).Some?
  }

  predicate HasNegativeAmount(row: Row)
  {
    match ParseCents(row.maara)
    case Some(cents) => cents < 0
    case None => false
  }

  predicate IsExpense(row: Row)
  {
    HasNegativeAmount(row) && row.laji != TradingCode
  }

  /** `find_expenses` as written: the rows with a negative amount outside the
      trading category; no result when some amount is not a number. */
  function FindExpenses(rows: seq<Row>): (r: Option<seq<Row>>)
    ensures r.Some? <==> AmountsParse(rows)
    ensures r.Some? ==>
      (forall x :: x in r.value <==> x in rows && HasNegativeAmount(x) && x.laji != TradingCode) &&
      IsSubsequence(r.value, rows)
  {
    if AmountsParse(rows) then Some(Filter(rows, IsExpense)) else None
  }

  /** An expense never appears in a ticker selection, whatever the ticker. */
  lemma ExpensesAndTickerTradesDisjoint(rows: seq<Row>, ticker: string)
    requires AmountsParse(rows)
    ensures forall x :: x in FindExpenses(rows).value ==> x !in FindByTickerSymbol(rows, ticker)
  {
  }

  // ---------------------------------------------------------------------
  // Trade messages
  // ---------------------------------------------------------------------

  /** "O" (osto, a purchase) or "M" (myynti, a sale). */
  datatype Side = Buy | Sell

  datatype Trade = Trade(side: Side, symbol: string, shares: nat)

  function SideCode(side: Side): char
  {
    match side
    case Buy => 'O'
    case Sell => 'M'
  }

  /** A character of `\w` (ASCII) or a dot, as in "STZ.N". */
  predicate IsSymbolChar(c: char)
  {
    'a' <= c <= 'z' || 'A' <= c <= 'Z' || IsDigit(c) || c == '_' || c == '.'
  }

  predicate IsSymbol(s: string)
  {
    s != [] && forall i :: 0 <= i < |s| ==> IsSymbolChar(s[i])
  }

  /** A character of the ignored token after the symbol (a country code). */
  predicate IsTokenChar(c: char)
  {
    !IsSpace(c) && c != '/'
  }

  /** The text after the symbol with the optional " <token>" and the spaces
      before "/" skipped; a suffix of its input. */
  function CountPart(afterSymbol: string): string
  {
    var w := SpanLen(afterSymbol, IsSpace);
    var a := afterSymbol[w..];
    if w == 0 || (a != [] && a[0] == '/') then a
    else
      var t := SpanLen(a, IsTokenChar);
      var b := a[t..];
      b[SpanLen(b, IsSpace)..]
  }

  lemma CountPartIsSuffix(afterSymbol: string)
    ensures var r := CountPart(afterSymbol);
      |r| <= |afterSymbol| && r == afterSymbol[|afterSymbol| - |r|..]
  {
  }

  /** "/" followed by at least one digit gives the share count. */
  function MatchCount(s: string): (r: Option<nat>)
    ensures r.Some? ==> s != [] && s[0] == '/'
  {
    if s == [] || s[0] != '/' then None
    else
      var d := SpanLen(s[1..], IsDigit);
      if d == 0 then None else Some(DigitsValue(s[1..][..d]))
  }

  /** The symbol and share count of the text after "O:" or "M:". */
  function MatchSymbolAndCount(rest: string): Option<(string, nat)>
  {
    var n := SpanLen(rest, IsSymbolChar);
    match MatchCount(CountPart(rest[n..]))
    case None => None
    case Some(shares) => if n == 0 then None else Some((rest[..n], shares))
  }

  /** A match starts with a symbol and has a "/" further on. */
  lemma MatchSymbolAndCountShape(rest: string)
    ensures var r := MatchSymbolAndCount(rest);
      r.Some? ==> IsSymbol(r.value.0) && r.value.0 <= rest && '/' in rest
  {
    var n := SpanLen(rest, IsSymbolChar);
    var after := rest[n..];
    var tail := CountPart(after);
    if MatchCount(tail).Some? && n > 0 {
      CountPartIsSuffix(after);
      var k := |after| - |tail|;
      assert tail[0] == after[k] == rest[n + k];
      assert forall i :: 0 <= i < n ==> IsSymbolChar(rest[..n][i]);
    }
  }

  /** `match_trading`: a message that starts with "O" or "M", a colon, a
      symbol of word characters and dots, optionally whitespace and one more
      token, optional whitespace, "/" and at least one digit gives the side,
      the symbol and the share count (text after the digits is ignored); any
      other message gives no match. */
  function MatchTrading(message: string): (r: Option<Trade>)
    ensures r.Some? ==> |message| >= 2 && message[0] == SideCode(r.value.side) && message[1] == ':'
  {
    if |message| < 2 || message[1] != ':' || (message[0] != 'O' && message[0] != 'M') then None
    else
      match MatchSymbolAndCount(message[2..])
      case None => None
      case Some((symbol, shares)) => Some(Trade(if message[0] == 'O' then Buy else Sell, symbol, shares))
  }

  /** What a match guarantees about the message: it starts with the side
      code and a colon, then the symbol, and has a "/" further on. */
  lemma MatchTradingShape(message: string)
    ensures var r := MatchTrading(message);
      r.Some? ==>
        |message| >= 2 && message[0] == SideCode(r.value.side) && message[1] == ':' &&
        IsSymbol(r.value.symbol) && r.value.symbol <= message[2..] && '/' in message
  {
    if MatchTrading(message).Some? {
      MatchSymbolAndCountShape(message[2..]);
      var i :| 0 <= i < |message[2..]| && message[2..][i] == '/';
      assert message[i + 2] == '/';
    }
  }

  /** The message the bank writes for a trade: "O:MRNA /20". */
  function FormatTrade(t: Trade): string
  {
    [SideCode(t.side)] + ":" + t.symbol + " /" + NatToDigits(t.shares)
  }

  /** The same with a country token after the symbol: "O:PFE US /100". */
  function FormatTradeWithCountry(t: Trade, country: string): string
  {
    [SideCode(t.side)] + ":" + t.symbol + " " + country + " /" + NatToDigits(t.shares)
  }

  predicate IsToken(s: string)
  {
    s != [] && forall i :: 0 <= i < |s| ==> IsTokenChar(s[i])
  }

  lemma MatchCountOf(n: nat)
    ensures MatchCount("/" + NatToDigits(n)) == Some(n)
  {
    var digits := NatToDigits(n);
    var s := "/" + digits;
    assert s[1..] == digits + [];
    SpanLenConcat(digits, [], IsDigit);
    assert s[1..][..|digits|] == digits;
    DigitsRoundTrip(n);
  }

  lemma CountPartDirect(d: string)
    requires d != [] && d[0] == '/'
    ensures CountPart(" " + d) == d
  {
    SpanLenConcat(" ", d, IsSpace);
    assert (" " + d)[1..] == d;
  }

  lemma CountPartCountry(country: string, d: string)
    requires IsToken(country)
    requires d != [] && d[0] == '/'
    ensures CountPart(" " + country + " " + d) == d
  {
    var s := " " + country + " " + d;
    assert s == " " + (country + " " + d);
    SpanLenConcat(" ", country + " " + d, IsSpace);
    var a := s[1..];
    assert a == country + (" " + d);
    SpanLenConcat(country, " " + d, IsTokenChar);
    var b := a[|country|..];
    assert b == " " + d;
    SpanLenConcat(" ", d, IsSpace);
    assert b[1..] == d;
  }

  lemma MatchSymbolAndCountOf(symbol: string, tail: string)
    requires IsSymbol(symbol)
    requires tail == [] || !IsSymbolChar(tail[0])
    ensures MatchSymbolAndCount(symbol + tail) ==
      match MatchCount(CountPart(tail))
      case None => None
      case Some(k) => Some((symbol, k))
  {
    var rest := symbol + tail;
    SpanLenConcat(symbol, tail, IsSymbolChar);
    assert rest[..|symbol|] == symbol;
    assert rest[|symbol|..] == tail;
  }

  lemma MatchTradingOf(side: Side, rest: string)
    ensures MatchTrading([SideCode(side)] + ":" + rest) ==
      match MatchSymbolAndCount(rest)
      case None => None
      case Some((symbol, k)) => Some(Trade(side, symbol, k))
  {
    assert ([SideCode(side)] + ":" + rest)[2..] == rest;
  }

  /** A formatted trade message reads back as the same trade; a dotted
      symbol such as "STZ.N" is kept whole. */
  lemma MatchTradingFormatRoundTrip(t: Trade)
    requires IsSymbol(t.symbol)
    ensures MatchTrading(FormatTrade(t)) == Some(t)
  {
    var d := "/" + NatToDigits(t.shares);
    var tail := " " + d;
    assert FormatTrade(t) == [SideCode(t.side)] + ":" + (t.symbol + tail);
    MatchCountOf(t.shares);
    CountPartDirect(d);
    MatchSymbolAndCountOf(t.symbol, tail);
    MatchTradingOf(t.side, t.symbol + tail);
  }

  /** A country token between the symbol and the count is skipped. */
  lemma MatchTradingSkipsCountry(t: Trade, country: string)
    requires IsSymbol(t.symbol) && IsToken(country)
    ensures MatchTrading(FormatTradeWithCountry(t, country)) == Some(t)
  {
    var d := "/" + NatToDigits(t.shares);
    var tail := " " + country + " " + d;
    assert FormatTradeWithCountry(t, country) == [SideCode(t.side)] + ":" + (t.symbol + tail);
    MatchCountOf(t.shares);
    CountPartCountry(country, d);
    MatchSymbolAndCountOf(t.symbol, tail);
    MatchTradingOf(t.side, t.symbol + tail);
  }

  lemma MatchTradingBuyExample()
    ensures MatchTrading("O:MRNA /20") == Some(Trade(Buy, "MRNA", 20))
  {
    var t := Trade(Buy, "MRNA", 20);
    assert NatToDigits(20) == "20";
    assert FormatTrade(t) == "O:MRNA /20";
    MatchTradingFormatRoundTrip(t);
  }

  lemma MatchTradingCountryExample()
    ensures MatchTrading("O:PFE US /100") == Some(Trade(Buy, "PFE", 100))
  {
    var t := Trade(Buy, "PFE", 100);
    assert NatToDigits(100) == "100" by {
      assert NatToDigits(10) == "10";
    }
    assert FormatTradeWithCountry(t, "US") == "O:PFE US /100";
    MatchTradingSkipsCountry(t, "US");
  }

  lemma MatchTradingDottedSymbolExample()
    ensures MatchTrading("O:STZ.N /4") == Some(Trade(Buy, "STZ.N", 4))
  {
    var t := Trade(Buy, "STZ.N", 4);
    assert FormatTrade(t) == "O:STZ.N /4";
    MatchTradingFormatRoundTrip(t);
  }

  lemma MatchTradingSellExample()
    ensures MatchTrading("M:SIRI /100") == Some(Trade(Sell, "SIRI", 100))
  {
    var t := Trade(Sell, "SIRI", 100);
    assert NatToDigits(100) == "100" by {
      assert NatToDigits(10) == "10";
    }
    assert FormatTrade(t) == "M:SIRI /100";
    MatchTradingFormatRoundTrip(t);
  }

  /** No match for a word, for a side code other than O and M, or without
      the "/count" part. */
  lemma MatchTradingRejectExamples()
    ensures MatchTrading("invalid") == None
    ensures MatchTrading("X:MRNA /20") == None
    ensures MatchTrading("O:MRNA") == None
  {
    assert '/' !in "O:MRNA";
  }

  /** A trading row whose trimmed message parses as a trade is found by the
      ticker selection for the symbol it names. */
  lemma TradeFoundByItsTicker(rows: seq<Row>, row: Row, t: Trade)
    requires row in rows && row.laji == TradingCode
    requires MatchTrading(Strip(row.viesti)) == Some(t)
    ensures row in FindByTickerSymbol(rows, t.symbol)
  {
    var m := Strip(row.viesti);
    MatchTradingShape(m);
    assert |m| >= 2 && m[0] == SideCode(t.side) && m[1] == ':' && t.symbol <= m[2..];
    SidePrefix(m, t.side, t.symbol);
  }

  /** A message that starts with a side code and a colon, followed by a
      symbol, starts with the symbol prefixed by that code. */
  lemma SidePrefix(m: string, side: Side, symbol: string)
    requires |m| >= 2 && m[0] == SideCode(side) && m[1] == ':' && symbol <= m[2..]
    ensures side == Buy ==> "O:" + symbol <= m
    ensures side == Sell ==> "M:" + symbol <= m
  {
    var prefix := [SideCode(side)] + ":" + symbol;
    forall i | 0 <= i < |prefix|
      ensures prefix[i] == m[i]
    {
      if i >= 2 {
        assert prefix[i] == symbol[i - 2] == m[2..][i - 2];
      }
    }
    if side == Buy {
      assert "O:" + symbol == prefix;
    } else {
      assert "M:" + symbol == prefix;
    }
  }

  // ---------------------------------------------------------------------
  // Expenses by message
  // ---------------------------------------------------------------------

  predicate IsExpenseByMessage(row: Row)
  {
    HasNegativeAmount(row) && MatchTrading(Strip(row.viesti)).None?
  }

  /** The expense rule the tests of `find_expenses` describe: a negative
      amount whose message, stripped as the ticker selection strips it, is
      not a trade, whatever the category code. */
  function FindExpensesByMessage(rows: seq<Row>): (r: Option<seq<Row>>)
    ensures r.Some? <==> AmountsParse(rows)
    ensures r.Some? ==>
      (forall x :: x in r.value <==> x in rows && HasNegativeAmount(x) && MatchTrading(Strip(x.viesti)).None?) &&
      IsSubsequence(r.value, rows)
  {
    if AmountsParse(rows) then Some(Filter(rows, IsExpenseByMessage)) else None
  }

  /** No trade is counted as an expense under the message rule. */
  lemma ExpensesByMessageExcludeTrades(rows: seq<Row>, row: Row, t: Trade)
    requires AmountsParse(rows)
    requires MatchTrading(Strip(row.viesti)) == Some(t)
    ensures row !in FindExpensesByMessage(rows).value
  {
  }

  /** The frame of the expense test: a transfer of -15,49 and a purchase of
      30 PFE shares for -625,7, both in category 700. */
  function ExpenseTestFrame(): seq<Row>
  {
    [Row("-15,49", 700, "TILISIIRTO", ""), Row("-625,7", 700, "NOSTO", "O:PFE US /30")]
  }

  /** Both amounts of the expense test frame are negative. */
  lemma ExpenseTestRowsNegative()
    ensures HasNegativeAmount(Row("-15,49", 700, "TILISIIRTO", ""))
    ensures HasNegativeAmount(Row("-625,7", 700, "NOSTO", "O:PFE US /30"))
  {
    ParseCentsExampleCents();
    ParseCentsExampleTenths();
  }

  /** A frame of two negative amounts is a frame of numbers. */
  lemma TwoNegativeAmountsParse(a: Row, b: Row)
    requires HasNegativeAmount(a) && HasNegativeAmount(b)
    ensures AmountsParse([a, b])
  {
  }

  lemma ExpenseTestFrameParses()
    ensures AmountsParse(ExpenseTestFrame())
    ensures HasNegativeAmount(ExpenseTestFrame()[0]) && HasNegativeAmount(ExpenseTestFrame()[1])
  {
    ExpenseTestRowsNegative();
    TwoNegativeAmountsParse(ExpenseTestFrame()[0], ExpenseTestFrame()[1]);
  }

  /** The rule as written drops both rows of the test frame, so the test's
      single expense is not found. */
  lemma FindExpensesMissesTestExpense()
    ensures FindExpenses(ExpenseTestFrame()) == Some([])
  {
    ExpenseTestFrameParses();
  }

  /** The purchase message of the expense test reads as a trade. */
  lemma MatchTradingPurchaseExample()
    ensures MatchTrading("O:PFE US /30") == Some(Trade(Buy, "PFE", 30))
  {
    var t := Trade(Buy, "PFE", 30);
    assert NatToDigits(30) == "30";
    assert FormatTradeWithCountry(t, "US") == "O:PFE US /30";
    MatchTradingSkipsCountry(t, "US");
  }

  lemma FindExpensesByMessageFirstOfTwo(a: Row, b: Row)
    requires AmountsParse([a, b])
    requires IsExpenseByMessage(a) && !IsExpenseByMessage(b)
    ensures FindExpensesByMessage([a, b]) == Some([a])
  {
    FilterFirstOfTwo(a, b, IsExpenseByMessage);
  }

  /** The empty message is no trade; "O:PFE US /30" needs no stripping and
      reads as a trade. */
  lemma ExpenseTestMessages(empty: string, purchase: string)
    requires empty == "" && purchase == "O:PFE US /30"
    ensures MatchTrading(Strip(empty)).None?
    ensures MatchTrading(Strip(purchase)) == Some(Trade(Buy, "PFE", 30))
  {
    MatchTradingPurchaseExample();
    StripUnpadded(purchase);
    assert Strip(empty) == [];
  }

  /** The message rule finds exactly the transfer, as the test expects. */
  lemma FindExpensesByMessageTestFrame()
    ensures FindExpensesByMessage(ExpenseTestFrame()) == Some([ExpenseTestFrame()[0]])
  {
    var rows := ExpenseTestFrame();
    ExpenseTestFrameParses();
    ExpenseTestMessages(rows[0].viesti, rows[1].viesti);
    FindExpensesByMessageFirstOfTwo(rows[0], rows[1]);
  }
}
