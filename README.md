# Tax-report transaction filters and FIFO lot matching

A model of the core of a small tax-report tool. The tool reads a
bank-statement export and works on rows with four columns:

- "Määrä EUROA", the amount, written as decimal-comma text;
- "Laji", the category code (700 for stock trading);
- "Selitys", the description;
- "Viesti", a free-text message.

The model covers two source files.

- `transaction_filters.py` selects rows with pandas boolean masks:
  - dividend payments and service charges, by description;
  - trades in one ticker, by category code and a message prefix;
  - expenses, by a negative amount outside the trading category.

  Its tests also describe `match_trading`, which reads a trade message such
  as `O:PFE US /100` into a side, a symbol and a share count.
- `transactions_analyzer.py` selects dividend rows and sums a column of
  amounts. Its tests describe `stock_trading_profit_in_fifo`. That function
  books the realised profit of each sale against the oldest open purchase
  lots (first in, first out) and returns the profit together with the lots
  still open.

How the model is built:

- A DataFrame is a `seq<Row>`, and a mask selection is the order-preserving
  `Frame.Filter`.
- Amounts are exact integer cents, read by `Money.ParseCents`.
- The FIFO matcher is an imperative method. Its loop is proved against the
  specification function `ProfitInFifo`, which folds `Step` over the
  transactions with `SellFromQueue` for each sale. The accounting and
  ordering properties are lemmas about that function.

Modules:

- `Wrappers`: `Option`.
- `Text`: ASCII `lower`, `strip`, whitespace, and digits.
- `Money`: the decimal-comma cents codec.
- `Frame`: `Row`, `Filter` and subsequences.
- `TransactionFilters`: the filters and the trade-message matcher.
- `TransactionsAnalyzer`: the dividend selection, the column sum and FIFO matching.

## Model

| member | source | states |
|---|---|---|
| Text.LowerEqualsWord | ubuntu/outlierx/tax_report_calculation/transaction_filters.py:20 | lower-casing gives a lower-case word exactly when the text spells it letter by letter, each letter in either case |
| Text.StripRemovesOnlySpace | ubuntu/outlierx/tax_report_calculation/transaction_filters.py:38 | `strip` returns the piece of the text right after its leading whitespace, and only whitespace follows that piece |
| Text.StripUnpadded | ubuntu/outlierx/tax_report_calculation/transaction_filters.py:38 | a text with no whitespace at either end is its own strip |
| Money.ParseCents | ubuntu/outlierx/tax_report_calculation/transaction_filters.py:52 | a parsed amount comes from non-blank text, and a negative amount from text whose first non-blank character is '-' |
| Money.ParseFormatRoundTrip | ubuntu/outlierx/tax_report_calculation/transaction_filters.py:52 | reading back any formatted amount of cents gives the same cents |
| Money.ParseCentsExampleCents | ubuntu/outlierx/tax_report_calculation/test_transaction_filters.py:16 | "-15,49" reads as -1549 cents |
| Money.ParseCentsExampleTenths | ubuntu/outlierx/tax_report_calculation/test_transaction_filters.py:16 | "-625,7" reads as -62570 cents: one fraction digit means tens of cents |
| Money.ParseCentsRejectsWord | ubuntu/outlierx/tax_report_calculation/transaction_filters.py:52 | "invalid" is not an amount, so the float conversion fails |
| Frame.Filter | ubuntu/outlierx/tax_report_calculation/transaction_filters.py:20 | a mask selection keeps exactly the rows the mask accepts, each as often as it occurs, in their original order |
| Frame.FilterMonotone | ubuntu/outlierx/tax_report_calculation/transaction_filters.py:37-40 | a weaker mask keeps, in order, everything a stronger mask keeps |
| Frame.FilterSplit | ubuntu/outlierx/tax_report_calculation/transaction_filters.py:20 | a mask and its negation split the frame between them: together their selections hold every row exactly as often as the frame does, so the two lengths add up |
| TransactionFilters.FindDividendPayments | ubuntu/outlierx/tax_report_calculation/transaction_filters.py:11-20 | keeps a row iff its lower-cased description is "arvopaperit"; the result is an order-preserving subsequence of the input |
| TransactionFilters.DividendLabelAnyCase | ubuntu/outlierx/tax_report_calculation/transaction_filters.py:20 | a row is a dividend payment iff its description spells "arvopaperit" letter by letter in either case |
| TransactionFilters.DividendLabelExamples | ubuntu/outlierx/tax_report_calculation/transaction_filters.py:20 | "ARVOPAPERIT" and "arvopaperit" are dividend payments; "ARVOPAPERIT X" is not |
| TransactionFilters.FindServiceCharges | ubuntu/outlierx/tax_report_calculation/transaction_filters.py:23-24 | keeps a row iff its lower-cased description is "palvelumaksu", in order |
| TransactionFilters.DividendsAndServiceChargesDisjoint | ubuntu/outlierx/tax_report_calculation/transaction_filters.py:20-24 | no row is both a dividend payment and a service charge |
| TransactionFilters.FindByTickerSymbol | ubuntu/outlierx/tax_report_calculation/transaction_filters.py:27-40 | keeps a row iff Laji is 700 and its trimmed message starts with "O:" or "M:" followed by the ticker; order is preserved |
| TransactionFilters.TickerExtensionNarrows | ubuntu/outlierx/tax_report_calculation/transaction_filters.py:39 | the rows found for a longer ticker are, in order, among those found for any prefix of it |
| TransactionFilters.TickerTradeExtension | ubuntu/outlierx/tax_report_calculation/transaction_filters.py:39 | a row that matches a ticker also matches every prefix of that ticker |
| TransactionFilters.FindExpenses | ubuntu/outlierx/tax_report_calculation/transaction_filters.py:43-53 | no result unless every amount parses; otherwise keeps a row iff its amount is negative and Laji is not 700, in order |
| TransactionFilters.ExpensesAndTickerTradesDisjoint | ubuntu/outlierx/tax_report_calculation/transaction_filters.py:37-53 | an expense never appears in a ticker selection, for any ticker |
| TransactionFilters.MatchTrading | ubuntu/outlierx/tax_report_calculation/test_transaction_filters.py:29-68 | `match_trading`: a match only comes from a message that starts with the side code ('O' buy, 'M' sell) and ':'; the lemmas below fix the rest of its shape, its round trip and the tested cases |
| TransactionFilters.MatchTradingShape | ubuntu/outlierx/tax_report_calculation/test_transaction_filters.py:29-61 | a matched message starts with the side code ('O' buy, 'M' sell) and ':', then the symbol, which is word characters and dots, and it contains a '/' |
| TransactionFilters.MatchSymbolAndCountShape | ubuntu/outlierx/tax_report_calculation/test_transaction_filters.py:29-61 | the text after the side code starts with the matched symbol and has a '/' further on |
| TransactionFilters.CountPartIsSuffix | ubuntu/outlierx/tax_report_calculation/test_transaction_filters.py:38-44 | skipping the optional country token leaves a suffix of the text |
| TransactionFilters.MatchTradingFormatRoundTrip | ubuntu/outlierx/tax_report_calculation/test_transaction_filters.py:29-61 | a message written as "side:symbol /count" reads back as the same trade; a dotted symbol is kept whole |
| TransactionFilters.MatchTradingSkipsCountry | ubuntu/outlierx/tax_report_calculation/test_transaction_filters.py:38-44 | a country token between the symbol and "/count" is ignored |
| TransactionFilters.MatchTradingBuyExample | ubuntu/outlierx/tax_report_calculation/test_transaction_filters.py:29-35 | "O:MRNA /20" is a purchase of 20 MRNA |
| TransactionFilters.MatchTradingCountryExample | ubuntu/outlierx/tax_report_calculation/test_transaction_filters.py:38-44 | "O:PFE US /100" is a purchase of 100 PFE |
| TransactionFilters.MatchTradingDottedSymbolExample | ubuntu/outlierx/tax_report_calculation/test_transaction_filters.py:47-53 | "O:STZ.N /4" is a purchase of 4 STZ.N |
| TransactionFilters.MatchTradingSellExample | ubuntu/outlierx/tax_report_calculation/test_transaction_filters.py:55-61 | "M:SIRI /100" is a sale of 100 SIRI |
| TransactionFilters.MatchTradingRejectExamples | ubuntu/outlierx/tax_report_calculation/test_transaction_filters.py:64-68 | "invalid", "X:MRNA /20" and "O:MRNA" do not match |
| TransactionFilters.TradeFoundByItsTicker | ubuntu/outlierx/tax_report_calculation/transaction_filters.py:37-40 | a Laji-700 row whose trimmed message reads as a trade is found by the ticker selection for that trade's symbol |
| TransactionFilters.FindExpensesByMessage | ubuntu/outlierx/tax_report_calculation/test_transaction_filters.py:9-25 | the rule the test expects: no result unless every amount parses; otherwise keeps a row iff its amount is negative and its stripped message is not a trade, in order |
| TransactionFilters.ExpensesByMessageExcludeTrades | ubuntu/outlierx/tax_report_calculation/test_transaction_filters.py:12 | a row whose stripped message reads as a trade is never an expense, so a trade the ticker selection finds is not counted again as an expense |
| TransactionFilters.ExpenseTestFrameParses | ubuntu/outlierx/tax_report_calculation/test_transaction_filters.py:15-20 | both amounts of the test frame parse, and both are negative |
| TransactionFilters.FindExpensesMissesTestExpense | ubuntu/outlierx/tax_report_calculation/transaction_filters.py:52-53 | the rule as written selects nothing from the test frame |
| TransactionFilters.MatchTradingPurchaseExample | ubuntu/outlierx/tax_report_calculation/test_transaction_filters.py:19 | "O:PFE US /30" is a purchase of 30 PFE |
| TransactionFilters.ExpenseTestMessages | ubuntu/outlierx/tax_report_calculation/test_transaction_filters.py:19 | the test frame's empty message is no trade, and "O:PFE US /30", which has nothing to strip, reads as a purchase of 30 PFE |
| TransactionFilters.FindExpensesByMessageTestFrame | ubuntu/outlierx/tax_report_calculation/test_transaction_filters.py:21-25 | the message rule selects exactly the "-15,49" transfer from the test frame |
| TransactionsAnalyzer.FindDividendTransactions | ubuntu/outlierx/tax_report_calculation/transactions_analyzer.py:11-20 | keeps a row iff its lower-cased description is "arvopaperit"; order is preserved |
| TransactionsAnalyzer.SumField | ubuntu/outlierx/tax_report_calculation/transactions_analyzer.py:23-34 | `sum_field`: the total of an empty frame is 0, and a total exists only if the first cell is a number; SumFieldDefined gives the exact condition |
| TransactionsAnalyzer.SumFieldDefined | ubuntu/outlierx/tax_report_calculation/transactions_analyzer.py:33-34 | the sum exists iff every cell of the column parses, and the sum of an empty frame is 0 |
| TransactionsAnalyzer.SumOfAppend | ubuntu/outlierx/tax_report_calculation/transactions_analyzer.py:34 | the sum over two stacked frames is the sum of their sums |
| TransactionsAnalyzer.SumFieldSplit | ubuntu/outlierx/tax_report_calculation/transactions_analyzer.py:33-34 | a selection and its complement split the column total between them |
| TransactionsAnalyzer.SumFieldExample | ubuntu/outlierx/tax_report_calculation/transactions_analyzer.py:33-34 | the amounts "-15,49" and "-625,7" sum to -64119 cents |
| TransactionsAnalyzer.ProceedsSliceWhole | ubuntu/outlierx/tax_report_calculation/test_transactions_analyzer.py:39-49 | a lot that takes all remaining shares of a sale gets all remaining proceeds |
| TransactionsAnalyzer.CostSlice | ubuntu/outlierx/tax_report_calculation/test_transactions_analyzer.py:30-36 | the cost given up by a partly sold lot lies between 0 and the lot's cost |
| TransactionsAnalyzer.SellAccounts | ubuntu/outlierx/tax_report_calculation/test_transactions_analyzer.py:39-49 | for one sale, profit plus consumed cost equals matched proceeds; shares leaving the queue equal shares matched; shares go unmatched only when the queue is empty, and then the proceeds go with them |
| TransactionsAnalyzer.SellShortfall | ubuntu/outlierx/tax_report_calculation/test_transactions_analyzer.py:39-49 | a sale leaves unmatched exactly the shares the open lots cannot cover |
| TransactionsAnalyzer.SellConsumesOldestFirst | ubuntu/outlierx/tax_report_calculation/test_transactions_analyzer.py:16-26 | what stays open after a sale is a tail of the queue; only its first lot may have given up shares |
| TransactionsAnalyzer.SellKeepsLotsValid | ubuntu/outlierx/tax_report_calculation/test_transactions_analyzer.py:16-26 | a sale keeps every open lot a purchase with shares left and a non-negative cost, so a partly sold lot never ends up with a negative cost |
| TransactionsAnalyzer.RunKeepsLotsValid | ubuntu/outlierx/tax_report_calculation/test_transactions_analyzer.py:16-26 | when every purchase has shares and a non-negative cost, the lots left open are purchases with shares left and a non-negative cost |
| TransactionsAnalyzer.SellFromFront | ubuntu/outlierx/tax_report_calculation/test_transactions_analyzer.py:39-49 | the inner loop that drains the queue for one sale computes exactly `SellFromQueue` |
| TransactionsAnalyzer.StockTradingProfitInFifo | ubuntu/outlierx/tax_report_calculation/test_transactions_analyzer.py:16-26 | returns the realised profit and the open lots of `ProfitInFifo` |
| TransactionsAnalyzer.StepConservation | ubuntu/outlierx/tax_report_calculation/test_transactions_analyzer.py:39-49 | one transaction creates and destroys no cents and no shares |
| TransactionsAnalyzer.RunConservation | ubuntu/outlierx/tax_report_calculation/test_transactions_analyzer.py:39-49 | over any run, the profit is the matched sale proceeds minus the cost of the consumed lots, and the open shares are the bought shares minus the matched ones |
| TransactionsAnalyzer.ProfitInFifoConservation | ubuntu/outlierx/tax_report_calculation/test_transactions_analyzer.py:39-49 | the same conservation law from an empty queue |
| TransactionsAnalyzer.RunOnlyBuys | ubuntu/outlierx/tax_report_calculation/test_transactions_analyzer.py:58-64 | purchases alone book no profit and are appended to the queue in order |
| TransactionsAnalyzer.ProfitInFifoOnlyBuys | ubuntu/outlierx/tax_report_calculation/test_transactions_analyzer.py:58-64 | with only purchases the profit is 0 and the open lots are the input lots |
| TransactionsAnalyzer.FifoBaseExample | ubuntu/outlierx/tax_report_calculation/test_transactions_analyzer.py:7-13 | buy 10 for 10000, sell 10 for 15000: profit 5000 |
| TransactionsAnalyzer.FifoOrderExample | ubuntu/outlierx/tax_report_calculation/test_transactions_analyzer.py:16-26 | two 20-share buys and a 20-share sale: profit 3732, and the second lot is the only open lot, unchanged |
| TransactionsAnalyzer.FifoPartialExample | ubuntu/outlierx/tax_report_calculation/test_transactions_analyzer.py:30-36 | buy 20 for 20000, sell 10 for 15000: profit 5000, and a lot of 10 shares costing 10000 stays open |
| TransactionsAnalyzer.FifoAcrossLotsExample | ubuntu/outlierx/tax_report_calculation/test_transactions_analyzer.py:39-49 | buy 5 for 5000, buy 10 for 20000, sell 10 for 25000: profit 10000, and 5 shares costing 10000 stay open |
| TransactionsAnalyzer.FifoOrderMattersExample | ubuntu/outlierx/tax_report_calculation/test_transactions_analyzer.py:39-49 | with the two purchases in reverse order, the same sale books 5000 |
| TransactionsAnalyzer.FifoEmptyExample | ubuntu/outlierx/tax_report_calculation/test_transactions_analyzer.py:52-55 | no transactions: profit 0 and no open lots |
| TransactionsAnalyzer.FifoOnlyBuysExample | ubuntu/outlierx/tax_report_calculation/test_transactions_analyzer.py:58-64 | two purchases and no sale: profit 0 |

## Left out

- Loading the CSV files (`csv_to_dataframe.py` and the `automation` readers): file I/O, encodings and CSV parsing. It is not part of this model.
- `main()` in both files: argument parsing and printing only.
- Floating point. Amounts are exact integer cents rather than `float`, and the float rounding of `astype(float)` and `.sum()` is not modelled.
- Money.ParseCents: accepts only an optional sign, digits, and an optional comma followed by at most two digits, with surrounding whitespace. A '.' decimal point (so "1.5", and "1,234" which the source reads as 1.234), exponents, more than two fraction digits, `inf`/`nan` and digit underscores, all of which `float()` accepts after the comma is replaced, give no result.
- TransactionsAnalyzer.SumField: a cell that is not a number gives no result for the whole column, where pandas raises `ValueError`. Missing (NaN) cells are not modelled, and the column is one of the three text columns, not "Laji".
- `lower`, `strip`, `\w`, `\s` and `\d` cover ASCII only. Unicode case mapping and Unicode whitespace are not modelled.
- TransactionFilters.MatchTrading: the body of `match_trading` is not part of this model. The model accepts the pattern below, which agrees with all seven messages the tests check:
  - 'O' or 'M', then ':';
  - a symbol of word characters and dots;
  - optional whitespace and one more token;
  - optional whitespace, then '/' and digits;
  - anything after the digits is ignored.

  The tests do not decide some of these choices: text after the count ("O:MRNA /20 kpl" is a trade here), a '/' right after the symbol ("O:MRNA/20" is a trade here), and what the extra token may contain. A matcher that needed the whole message to match would treat such messages differently. That includes `FindExpensesByMessage`, which counts a negative amount as an expense only when its message is not a trade.

  It returns a `Trade` value rather than a regular-expression match object, and the count as a number.
- `Lot` and `stock_trading_profit_in_fifo`: their bodies are not part of this model either. The model follows an algorithm that agrees with every result their tests assert.
  - The type is an enumeration `Buy | Sell` rather than the strings "BUY" and "SELL".
  - Share counts are natural numbers.
  - The date is carried but never read.
  - The shares and proceeds of a sale that the open lots cannot cover are dropped from the result. The model keeps them in the ledger only so that the conservation laws can be stated.
- TransactionsAnalyzer.ProceedsSlice: the proceeds given to a used-up lot are the remaining proceeds times the lot's shares divided by the remaining shares, rounded down, and the lot that ends the sale takes the rest. Every division in the tests is exact, so they do not fix this rounding or this way of splitting the proceeds. The same holds for the floor division in CostSlice.
- TransactionsAnalyzer.CostSlice: states only the bounds of the cost slice for a non-negative cost, not a closed form.

## Findings

| source | as written | input that shows it | evidently intended | confidence | as-written member | corrected member |
|---|---|---|---|---|---|---|
| ubuntu/outlierx/tax_report_calculation/transaction_filters.py:53 | an expense needs a negative amount and a Laji other than 700 | the frame of `test_find_expenses`: ("-15,49", 700, "TILISIIRTO", "") and ("-625,7", 700, "NOSTO", "O:PFE US /30"). The rule keeps neither row, but the test expects exactly the first | an expense is a negative amount whose message is not a trade message, whatever the Laji | high that the code and its test disagree (not executed) | TransactionFilters.FindExpensesMissesTestExpense | TransactionFilters.FindExpensesByMessageTestFrame |
