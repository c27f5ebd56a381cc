/**
 * Dividend totals and FIFO lot matching (transactions_analyzer.py): the
 * dividend selection, the column sum, and `stock_trading_profit_in_fifo`,
 * which books the realised profit of each sale against the oldest open
 * purchase lots.
 */
module TransactionsAnalyzer {
  import opened Wrappers
  import opened Text
  import opened Money
  import opened Frame
  import TransactionFilters

  // ---------------------------------------------------------------------
  // Dividends and column sums
  // ---------------------------------------------------------------------

  /** `find_dividend_transactions`: the rows whose description is
      "Arvopaperit" in any letter case (the same mask as
      `find_dividend_payments`). */
  function FindDividendTransactions(rows: seq<Row>): (r: seq<Row>)
    ensures forall x :: x in r <==> x in rows && Lower(x.selitys) == "arvopaperit"
    ensures IsSubsequence(r, rows)
  {
    TransactionFilters.FindDividendPayments(rows)
  }

  /** The text columns of a statement row that `sum_field` can be asked for. */
  datatype Column = MaaraEuroa | Selitys | Viesti

  function Cell(row: Row, field: Column): string
  {
    match field
    case MaaraEuroa => row.maara
    case Selitys => row.selitys
    case Viesti => row.viesti
  }

  /** The total of the values `amount` gives the rows; no result as soon as
      one row has no value. */
  function SumOf(rows: seq<Row>, amount: Row -> Option<int>): Option<int>
  {
    if rows == [] then Some(0)
    else
      match (amount(rows[0]), SumOf(rows[1..], amount))
      case (Some(a), Some(b)) => Some(a + b)
      case _ => None
  }

  /** The cents of a cell of the given column. */
  function CellCents(field: Column): Row -> Option<int>
  {
    x => ParseCents(Cell(x, field))
  }

  /** `sum_field`: the total, in cents, of a column of decimal-comma
      amounts; 0 for an empty frame, no result when some cell is not a number. */
  function SumField(rows: seq<Row>, field: Column): (r: Option<int>)
    ensures rows == [] ==> r == Some(0)
    ensures rows != [] && r.Some? ==> CellCents(field)(rows[0]).Some?
  {
    SumOf(rows, CellCents(field))
  }

  lemma {:induction false} SumOfDefined(rows: seq<Row>, amount: Row -> Option<int>)
    ensures SumOf(rows, amount).Some? <==> forall x :: x in rows ==> amount(x).Some?
  {
    if rows != [] {
      SumOfDefined(rows[1..], amount);
      assert forall x :: x in rows <==> x == rows[0] || x in rows[1..];
    }
  }

  /** The sum exists exactly when every cell of the column is a number,
      and the sum of an empty frame is 0. */
  lemma {:induction false} SumFieldDefined(rows: seq<Row>, field: Column)
    ensures SumField(rows, field).Some? <==> forall x :: x in rows ==> ParseCents(Cell(x, field)).Some?
    ensures rows == [] ==> SumField(rows, field) == Some(0)
  {
    SumOfDefined(rows, CellCents(field));
  }

  /** Summing two frames stacked on each other adds their sums. */
  lemma {:induction false} SumOfAppend(a: seq<Row>, b: seq<Row>, amount: Row -> Option<int>)
    requires SumOf(a, amount).Some? && SumOf(b, amount).Some?
    ensures SumOf(a + b, amount) == Some(SumOf(a, amount).value + SumOf(b, amount).value)
  {
    if a == [] {
      assert a + b == b;
    } else {
      assert (a + b)[0] == a[0];
      assert (a + b)[1..] == a[1..] + b;
      SumOfAppend(a[1..], b, amount);
    }
  }

  lemma SumOfTwo(a: Row, b: Row, amount: Row -> Option<int>)
    requires amount(a).Some? && amount(b).Some?
    ensures SumOf([a, b], amount) == Some(amount(a).value + amount(b).value)
  {
    assert [b][1..] == [];
    assert SumOf([b], amount) == Some(amount(b).value);
    assert [a, b][1..] == [b];
  }

  /** The amounts "-15,49" and "-625,7" add up to -641,19. */
  lemma SumFieldExample(a: Row, b: Row)
    requires a.maara == "-15,49" && b.maara == "-625,7"
    ensures SumField([a, b], MaaraEuroa) == Some(-64119)
  {
    var f := CellCents(MaaraEuroa);
    assert f(a) == Some(-1549) by {
      ParseCentsExampleCents();
    }
    assert f(b) == Some(-62570) by {
      ParseCentsExampleTenths();
    }
    SumOfTwo(a, b, f);
  }

  lemma {:induction false} SumOfSplit(rows: seq<Row>, amount: Row -> Option<int>, keep: Row -> bool)
    requires SumOf(rows, amount).Some?
    ensures SumOf(Filter(rows, keep), amount).Some?
    ensures SumOf(Filter(rows, x => !keep(x)), amount).Some?
    ensures SumOf(Filter(rows, keep), amount).value + SumOf(Filter(rows, x => !keep(x)), amount).value ==
      SumOf(rows, amount).value
  {
    if rows != [] {
      var rest := rows[1..];
      SumOfSplit(rest, amount, keep);
      var kept, dropped := Filter(rows, keep), Filter(rows, x => !keep(x));
      if keep(rows[0]) {
        assert kept == [rows[0]] + Filter(rest, keep);
        assert kept[0] == rows[0] && kept[1..] == Filter(rest, keep);
        assert dropped == Filter(rest, x => !keep(x));
      } else {
        assert dropped == [rows[0]] + Filter(rest, x => !keep(x));
        assert dropped[0] == rows[0] && dropped[1..] == Filter(rest, x => !keep(x));
        assert kept == Filter(rest, keep);
      }
    }
  }

  /** A selection and its complement split the column total between them. */
  lemma {:induction false} SumFieldSplit(rows: seq<Row>, field: Column, keep: Row -> bool)
    requires SumField(rows, field).Some?
    ensures SumField(Filter(rows, keep), field).Some?
    ensures SumField(Filter(rows, x => !keep(x)), field).Some?
    ensures SumField(Filter(rows, keep), field).value + SumField(Filter(rows, x => !keep(x)), field).value ==
      SumField(rows, field).value
  {
    SumOfSplit(rows, CellCents(field), keep);
  }

  // ---------------------------------------------------------------------
  // FIFO lot matching
  // ---------------------------------------------------------------------

  datatype LotType = Buy | Sell

  /** A purchase or a sale of `shares` shares for `cents` cents. */
  datatype Lot = Lot(date: string, kind: LotType, shares: nat, cents: int)

  function Shares(lots: seq<Lot>): int
  {
    if lots == [] then 0 else lots[0].shares + Shares(lots[1..])
  }

  function Cost(lots: seq<Lot>): int
  {
    if lots == [] then 0 else lots[0].cents + Cost(lots[1..])
  }

  lemma {:induction false} TotalsAppend(a: seq<Lot>, b: seq<Lot>)
    ensures Shares(a + b) == Shares(a) + Shares(b)
    ensures Cost(a + b) == Cost(a) + Cost(b)
  {
    if a == [] {
      assert a + b == b;
    } else {
      assert (a + b)[1..] == a[1..] + b;
      TotalsAppend(a[1..], b);
    }
  }

  /** The part of the remaining proceeds `cents` of a sale of `sharesLeft`
      shares that goes to a lot of `lotShares` shares it uses up (floor
      division); a lot that takes all remaining shares takes all proceeds. */
  function ProceedsSlice(cents: int, lotShares: nat, sharesLeft: nat): int
    requires 0 < sharesLeft
  {
    cents * lotShares / sharesLeft
  }

  /** A lot that takes all remaining shares of a sale takes all remaining proceeds. */
  lemma ProceedsSliceWhole(cents: int, sharesLeft: nat)
    requires 0 < sharesLeft
    ensures ProceedsSlice(cents, sharesLeft, sharesLeft) == cents
  {
    MulDivCancel(cents, sharesLeft);
  }

  lemma MulDivCancel(c: int, n: int)
    requires 0 < n
    ensures c * n / n == c
  {
    var q, r := c * n / n, c * n % n;
    assert c * n == q * n + r && 0 <= r < n;
    assert (c - q) * n == r;
    ProductBounds(c - q, n);
  }

  lemma ProductBounds(k: int, n: int)
    requires 0 < n
    ensures 1 <= k ==> n <= k * n
    ensures k <= -1 ==> k * n <= -n
  {
  }

  /** The part of the cost `cents` of a lot of `lotShares` shares that goes
      with the `taken` shares a sale takes from it (floor division). */
  function CostSlice(cents: int, taken: nat, lotShares: nat): (slice: int)
    requires taken < lotShares
    ensures 0 <= cents ==> 0 <= slice <= cents
  {
    cents * taken / lotShares
  }

  /** What one sale does to the open lots: the profit it books, the lots
      left open, and the shares and proceeds it could not match. */
  datatype SellOutcome = SellOutcome(gain: int, open: seq<Lot>, unsoldShares: nat, unsoldCents: int)

  /** A sale of `shares` shares for `cents` cents against the open lots,
      oldest first. A lot that the sale uses up gets the share of the
      remaining proceeds in proportion to its shares (rounded down); a lot
      that the sale uses in part gives up cost in proportion to the shares
      taken (rounded down) and stays open with the rest. When the lots run
      out, what is left of the sale is not matched.
      Every cent is accounted for: the booked profit plus the cost of the
      lots consumed equals the matched proceeds. */
  function SellFromQueue(open: seq<Lot>, shares: nat, cents: int): (o: SellOutcome)
    decreases |open|
  {
    if shares == 0 || open == [] then SellOutcome(0, open, shares, cents)
    else
      var front := open[0];
      if front.shares <= shares then
        var slice := ProceedsSlice(cents, front.shares, shares);
        var rest := SellFromQueue(open[1..], shares - front.shares, cents - slice);
        rest.(gain := slice - front.cents + rest.gain)
      else
        var slice := CostSlice(front.cents, shares, front.shares);
        SellOutcome(cents - slice, [front.(shares := front.shares - shares, cents := front.cents - slice)] + open[1..], 0, 0)
  }

  /** Every cent and every share of a sale is accounted for: the profit it
      books plus the cost of the lots it consumes equals the proceeds it
      matched, and the shares leaving the queue are the shares it matched.
      Shares are left unmatched only once the queue is empty, and then the
      proceeds left over stay with them. */
  lemma {:induction false} SellAccounts(open: seq<Lot>, shares: nat, cents: int)
    ensures var o := SellFromQueue(open, shares, cents);
      o.gain + Cost(open) == cents - o.unsoldCents + Cost(o.open)
    ensures var o := SellFromQueue(open, shares, cents);
      Shares(open) - Shares(o.open) == shares - o.unsoldShares
    ensures var o := SellFromQueue(open, shares, cents);
      o.unsoldShares > 0 ==> o.open == []
    ensures var o := SellFromQueue(open, shares, cents);
      shares > 0 && o.unsoldShares == 0 ==> o.unsoldCents == 0
    decreases |open|
  {
    if shares == 0 || open == [] {
    } else if open[0].shares <= shares {
      var slice := ProceedsSlice(cents, open[0].shares, shares);
      if open[0].shares == shares {
        ProceedsSliceWhole(cents, shares);
      }
      SellAccounts(open[1..], shares - open[0].shares, cents - slice);
    } else {
      var front := open[0];
      var slice := CostSlice(front.cents, shares, front.shares);
      var o := SellFromQueue(open, shares, cents);
      assert o.open[1..] == open[1..];
    }
  }

  /** The state of a matching run: realised profit, open lots (oldest
      first), and the shares and proceeds of sales that found no lot. */
  datatype Ledger = Ledger(profit: int, open: seq<Lot>, unsoldShares: nat, unsoldCents: int)

  function Step(s: Ledger, t: Lot): Ledger
  {
    match t.kind
    case Buy => s.(open := s.open + [t])
    case Sell =>
      var o := SellFromQueue(s.open, t.shares, t.cents);
      Ledger(s.profit + o.gain, o.open, s.unsoldShares + o.unsoldShares, s.unsoldCents + o.unsoldCents)
  }

  function Run(s: Ledger, transactions: seq<Lot>): Ledger
    decreases |transactions|
  {
    if transactions == [] then s else Run(Step(s, transactions[0]), transactions[1..])
  }

  /** The outcome of matching a chronological list of lots from scratch. */
  function ProfitInFifo(transactions: seq<Lot>): Ledger
  {
    Run(Ledger(0, [], 0, 0), transactions)
  }

  /** One step of a sale whose remaining shares use up the oldest lot. */
  lemma SellUsesUpFront(open: seq<Lot>, shares: nat, cents: int)
    requires open != [] && 0 < shares && open[0].shares <= shares
    ensures var slice := ProceedsSlice(cents, open[0].shares, shares);
      var o, rest := SellFromQueue(open, shares, cents), SellFromQueue(open[1..], shares - open[0].shares, cents - slice);
      o.gain == slice - open[0].cents + rest.gain && o.open == rest.open &&
      o.unsoldShares == rest.unsoldShares && o.unsoldCents == rest.unsoldCents
  {
  }

  /** The last step of a sale whose remaining shares fit in the oldest lot. */
  lemma SellUsesPartOfFront(open: seq<Lot>, shares: nat, cents: int)
    requires open != [] && 0 < shares && shares < open[0].shares
    ensures var front := open[0];
      var slice := CostSlice(front.cents, shares, front.shares);
      SellFromQueue(open, shares, cents) ==
        SellOutcome(cents - slice, [front.(shares := front.shares - shares, cents := front.cents - slice)] + open[1..], 0, 0)
  {
  }

  /** The inner loop of `stock_trading_profit_in_fifo` for one sale: drains
      the queue of open lots from the front until the sale's shares are
      matched or the queue is empty. */
  method SellFromFront(queue: seq<Lot>, shares: nat, cents: int)
    returns (gain: int, open: seq<Lot>, unsoldShares: nat, unsoldCents: int)
    ensures SellOutcome(gain, open, unsoldShares, unsoldCents) == SellFromQueue(queue, shares, cents)
  {
    gain, open := 0, queue;
    var sharesLeft: nat, proceedsLeft: int := shares, cents;
    while sharesLeft > 0 && open != []
      invariant var o := SellFromQueue(open, sharesLeft, proceedsLeft);
        o.(gain := gain + o.gain) == SellFromQueue(queue, shares, cents)
      decreases |open|, sharesLeft
    {
      var front := open[0];
      if front.shares <= sharesLeft {
        var slice := ProceedsSlice(proceedsLeft, front.shares, sharesLeft);
        SellUsesUpFront(open, sharesLeft, proceedsLeft);
        gain := gain + slice - front.cents;
        proceedsLeft := proceedsLeft - slice;
        sharesLeft := sharesLeft - front.shares;
        open := open[1..];
      } else {
        var slice := CostSlice(front.cents, sharesLeft, front.shares);
        SellUsesPartOfFront(open, sharesLeft, proceedsLeft);
        gain := gain + proceedsLeft - slice;
        open := [front.(shares := front.shares - sharesLeft, cents := front.cents - slice)] + open[1..];
        sharesLeft, proceedsLeft := 0, 0;
      }
    }
    unsoldShares, unsoldCents := sharesLeft, proceedsLeft;
  }

  /** `stock_trading_profit_in_fifo`: keeps a queue of open purchase lots
      and drains it from the front for every sale; returns the realised
      profit in cents and the lots still open. */
  method StockTradingProfitInFifo(transactions: seq<Lot>) returns (profit: int, remaining: seq<Lot>)
    ensures profit == ProfitInFifo(transactions).profit
    ensures remaining == ProfitInFifo(transactions).open
  {
    profit := 0;
    var queue: seq<Lot> := [];
    ghost var unsoldShares: nat, unsoldCents: int := 0, 0;
    for i := 0 to |transactions|
      invariant Run(Ledger(profit, queue, unsoldShares, unsoldCents), transactions[i..]) == ProfitInFifo(transactions)
    {
      var t := transactions[i];
      assert transactions[i..][1..] == transactions[i + 1..];
      if t.kind == Buy {
        queue := queue + [t];
      } else {
        var gain;
        ghost var sharesShort, centsShort;
        gain, queue, sharesShort, centsShort := SellFromFront(queue, t.shares, t.cents);
        profit, unsoldShares, unsoldCents := profit + gain, unsoldShares + sharesShort, unsoldCents + centsShort;
      }
    }
    remaining := queue;
  }

  // ---------------------------------------------------------------------
  // Properties of FIFO matching
  // ---------------------------------------------------------------------

  lemma {:induction false} SharesNonNegative(lots: seq<Lot>)
    ensures 0 <= Shares(lots)
  {
    if lots != [] {
      SharesNonNegative(lots[1..]);
    }
  }

  /** A sale leaves unmatched exactly the shares the open lots cannot cover. */
  lemma SellShortfall(open: seq<Lot>, shares: nat, cents: int)
    ensures var o := SellFromQueue(open, shares, cents);
      o.unsoldShares == if shares <= Shares(open) then 0 else shares - Shares(open)
  {
    var o := SellFromQueue(open, shares, cents);
    SellAccounts(open, shares, cents);
    SharesNonNegative(o.open);
    if o.unsoldShares > 0 {
      assert Shares(o.open) == 0;
    }
  }

  /** A sale consumes the oldest lots: what stays open is a tail of the
      queue whose first lot may have given up some of its shares. */
  lemma {:induction false} SellConsumesOldestFirst(open: seq<Lot>, shares: nat, cents: int)
    ensures var o := SellFromQueue(open, shares, cents);
      |o.open| <= |open| &&
      (o.open != [] ==>
        var k := |open| - |o.open|;
        o.open[1..] == open[k + 1..] &&
        (o.open[0] == open[k] ||
         (o.open[0].date == open[k].date && o.open[0].kind == open[k].kind && o.open[0].shares < open[k].shares)))
    decreases |open|
  {
    if shares == 0 || open == [] {
    } else if open[0].shares <= shares {
      var slice := ProceedsSlice(cents, open[0].shares, shares);
      SellConsumesOldestFirst(open[1..], shares - open[0].shares, cents - slice);
      var o := SellFromQueue(open[1..], shares - open[0].shares, cents - slice);
      if o.open != [] {
        var k := |open[1..]| - |o.open|;
        assert open[1..][k + 1..] == open[k + 2..];
        assert open[1..][k] == open[k + 1];
      }
    }
  }

  /** Open lots are purchases with shares left and a cost that is not negative. */
  ghost predicate OpenLotsValid(open: seq<Lot>)
  {
    forall l :: l in open ==> l.kind == Buy && l.shares > 0 && l.cents >= 0
  }

  lemma {:induction false} SellKeepsLotsValid(open: seq<Lot>, shares: nat, cents: int)
    requires OpenLotsValid(open)
    ensures OpenLotsValid(SellFromQueue(open, shares, cents).open)
    decreases |open|
  {
    if shares == 0 || open == [] {
    } else if open[0].shares <= shares {
      assert forall l :: l in open[1..] ==> l in open;
      SellKeepsLotsValid(open[1..], shares - open[0].shares, cents - ProceedsSlice(cents, open[0].shares, shares));
    } else {
      var o := SellFromQueue(open, shares, cents);
      assert forall l :: l in o.open[1..] ==> l in open;
      assert forall l :: l in o.open ==> l == o.open[0] || l in o.open[1..];
    }
  }

  /** When every purchase has shares, the lots a run leaves open are
      purchases with shares left: a sale never enters the queue and a lot
      is removed when its last share is sold. */
  lemma {:induction false} RunKeepsLotsValid(s: Ledger, transactions: seq<Lot>)
    requires OpenLotsValid(s.open)
    requires forall t :: t in transactions && t.kind == Buy ==> t.shares > 0 && t.cents >= 0
    ensures OpenLotsValid(Run(s, transactions).open)
    decreases |transactions|
  {
    if transactions != [] {
      var t := transactions[0];
      if t.kind == Buy {
        assert forall l :: l in s.open + [t] ==> l in s.open || l == t;
      } else {
        SellKeepsLotsValid(s.open, t.shares, t.cents);
      }
      assert forall x :: x in transactions[1..] ==> x in transactions;
      RunKeepsLotsValid(Step(s, t), transactions[1..]);
    }
  }

  /** The total cents and shares of the lots of one kind. */
  function CentsOf(transactions: seq<Lot>, kind: LotType): int
  {
    if transactions == [] then 0
    else (if transactions[0].kind == kind then transactions[0].cents else 0) + CentsOf(transactions[1..], kind)
  }

  function SharesOf(transactions: seq<Lot>, kind: LotType): int
  {
    if transactions == [] then 0
    else (if transactions[0].kind == kind then transactions[0].shares else 0) + SharesOf(transactions[1..], kind)
  }

  lemma StepConservation(s: Ledger, t: Lot)
    ensures var r := Step(s, t);
      r.profit - s.profit ==
        ((if t.kind == Sell then t.cents else 0) - (r.unsoldCents - s.unsoldCents)) -
        ((if t.kind == Buy then t.cents else 0) + Cost(s.open) - Cost(r.open))
    ensures var r := Step(s, t);
      Shares(r.open) - Shares(s.open) ==
        (if t.kind == Buy then t.shares else 0) -
        ((if t.kind == Sell then t.shares else 0) - (r.unsoldShares - s.unsoldShares))
  {
    if t.kind == Buy {
      TotalsAppend(s.open, [t]);
      assert [t][1..] == [];
    } else {
      SellAccounts(s.open, t.shares, t.cents);
    }
  }

  /** Every cent and every share is accounted for over a run: the profit
      booked is the matched sale proceeds minus the cost of the purchase
      lots consumed, and the shares still open are the shares bought minus
      the shares matched. */
  lemma {:induction false} RunConservation(s: Ledger, transactions: seq<Lot>)
    ensures var r := Run(s, transactions);
      r.profit - s.profit ==
        (CentsOf(transactions, Sell) - (r.unsoldCents - s.unsoldCents)) -
        (CentsOf(transactions, Buy) + Cost(s.open) - Cost(r.open))
    ensures var r := Run(s, transactions);
      Shares(r.open) - Shares(s.open) ==
        SharesOf(transactions, Buy) - (SharesOf(transactions, Sell) - (r.unsoldShares - s.unsoldShares))
    decreases |transactions|
  {
    if transactions != [] {
      StepConservation(s, transactions[0]);
      RunConservation(Step(s, transactions[0]), transactions[1..]);
    }
  }

  /** From scratch: the profit is the matched proceeds minus the cost of
      what was bought and is no longer open. */
  lemma ProfitInFifoConservation(transactions: seq<Lot>)
    ensures var r := ProfitInFifo(transactions);
      r.profit == (CentsOf(transactions, Sell) - r.unsoldCents) - (CentsOf(transactions, Buy) - Cost(r.open))
    ensures var r := ProfitInFifo(transactions);
      Shares(r.open) == SharesOf(transactions, Buy) - (SharesOf(transactions, Sell) - r.unsoldShares)
  {
    RunConservation(Ledger(0, [], 0, 0), transactions);
  }

  /** Purchases alone book no profit and stay open in their order. */
  lemma {:induction false} RunOnlyBuys(s: Ledger, transactions: seq<Lot>)
    requires forall t :: t in transactions ==> t.kind == Buy
    ensures Run(s, transactions) == s.(open := s.open + transactions)
    decreases |transactions|
  {
    if transactions != [] {
      assert forall x :: x in transactions[1..] ==> x in transactions;
      RunOnlyBuys(Step(s, transactions[0]), transactions[1..]);
      assert s.open + [transactions[0]] + transactions[1..] == s.open + transactions;
    }
  }

  lemma ProfitInFifoOnlyBuys(transactions: seq<Lot>)
    requires forall t :: t in transactions ==> t.kind == Buy
    ensures ProfitInFifo(transactions).profit == 0
    ensures ProfitInFifo(transactions).open == transactions
  {
    RunOnlyBuys(Ledger(0, [], 0, 0), transactions);
  }

  // ---------------------------------------------------------------------
  // Worked cases
  // ---------------------------------------------------------------------

  /** Buy 10 shares for 10000 cents, sell them for 15000: 5000 profit. */
  lemma FifoBaseExample()
    ensures ProfitInFifo([Lot("2024-01-01", Buy, 10, 10000), Lot("2024-01-02", Sell, 10, 15000)]).profit == 5000
  {
    var b, t := Lot("2024-01-01", Buy, 10, 10000), Lot("2024-01-02", Sell, 10, 15000);
    assert SellFromQueue([b], 10, 15000) == SellOutcome(5000, [], 0, 0) by {
      assert [b][1..] == [];
    }
    assert Step(Ledger(0, [], 0, 0), b) == Ledger(0, [b], 0, 0) by {
      assert [] + [b] == [b];
    }
    assert [b, t][1..] == [t];
    assert Run(Ledger(0, [], 0, 0), [b, t]) == Run(Ledger(0, [b], 0, 0), [t]);
  }

  /** Two 20-share purchases and a 20-share sale: only the older lot is
      sold and the younger one is returned unchanged. */
  lemma FifoOrderExample()
    ensures var keep := Lot("2024-01-13", Buy, 20, 57596);
      var r := ProfitInFifo([Lot("2024-01-13", Buy, 20, 57468), keep, Lot("2024-01-30", Sell, 20, 61200)]);
      r.profit == 3732 && r.open == [keep]
  {
    var b, keep, t := Lot("2024-01-13", Buy, 20, 57468), Lot("2024-01-13", Buy, 20, 57596), Lot("2024-01-30", Sell, 20, 61200);
    assert SellFromQueue([b, keep], 20, 61200) == SellOutcome(3732, [keep], 0, 0) by {
      assert [b, keep][1..] == [keep];
    }
    assert [b, keep, t][1..] == [keep, t];
    assert [keep, t][1..] == [t];
    assert Step(Ledger(0, [], 0, 0), b) == Ledger(0, [b], 0, 0) by {
      assert [] + [b] == [b];
    }
    assert Step(Ledger(0, [b], 0, 0), keep) == Ledger(0, [b, keep], 0, 0) by {
      assert [b] + [keep] == [b, keep];
    }
    assert Run(Ledger(0, [], 0, 0), [b, keep, t]) == Run(Ledger(0, [b], 0, 0), [keep, t]);
    assert Run(Ledger(0, [b], 0, 0), [keep, t]) == Run(Ledger(0, [b, keep], 0, 0), [t]);
  }

  /** Half of a 20-share lot sold: half its cost goes against the proceeds. */
  lemma FifoPartialExample()
    ensures var r := ProfitInFifo([Lot("2024-01-01", Buy, 20, 20000), Lot("2024-01-02", Sell, 10, 15000)]);
      r.profit == 5000 && r.open == [Lot("2024-01-01", Buy, 10, 10000)]
  {
  }

  /** A sale spread over two lots, the older one first. */
  lemma FifoAcrossLotsExample()
    ensures var r := ProfitInFifo([Lot("2024-01-01", Buy, 5, 5000), Lot("2024-01-02", Buy, 10, 20000),
                                   Lot("2024-01-03", Sell, 10, 25000)]);
      r.profit == 10000 && r.open == [Lot("2024-01-02", Buy, 5, 10000)]
  {
    var b1, b2, t := Lot("2024-01-01", Buy, 5, 5000), Lot("2024-01-02", Buy, 10, 20000), Lot("2024-01-03", Sell, 10, 25000);
    assert SellFromQueue([b2], 5, 12500) == SellOutcome(2500, [b2.(shares := 5, cents := 10000)], 0, 0) by {
      assert [b2][1..] == [];
    }
    assert SellFromQueue([b1, b2], 10, 25000) == SellOutcome(10000, [b2.(shares := 5, cents := 10000)], 0, 0) by {
      assert [b1, b2][1..] == [b2];
    }
    assert [b1, b2, t][1..] == [b2, t];
    assert [b2, t][1..] == [t];
    assert Step(Ledger(0, [], 0, 0), b1) == Ledger(0, [b1], 0, 0) by {
      assert [] + [b1] == [b1];
    }
    assert Step(Ledger(0, [b1], 0, 0), b2) == Ledger(0, [b1, b2], 0, 0) by {
      assert [b1] + [b2] == [b1, b2];
    }
    assert Run(Ledger(0, [], 0, 0), [b1, b2, t]) == Run(Ledger(0, [b1], 0, 0), [b2, t]);
    assert Run(Ledger(0, [b1], 0, 0), [b2, t]) == Run(Ledger(0, [b1, b2], 0, 0), [t]);
  }

  /** The order of purchases matters: with the dearer lot first, the same
      sale books less. */
  lemma FifoOrderMattersExample()
    ensures ProfitInFifo([Lot("2024-01-02", Buy, 10, 20000), Lot("2024-01-01", Buy, 5, 5000),
                          Lot("2024-01-03", Sell, 10, 25000)]).profit == 5000
  {
    var b2, b1, t := Lot("2024-01-02", Buy, 10, 20000), Lot("2024-01-01", Buy, 5, 5000), Lot("2024-01-03", Sell, 10, 25000);
    assert SellFromQueue([b2, b1], 10, 25000) == SellOutcome(5000, [b1], 0, 0) by {
      assert [b2, b1][1..] == [b1];
    }
    assert [b2, b1, t][1..] == [b1, t];
    assert [b1, t][1..] == [t];
    assert Step(Ledger(0, [], 0, 0), b2) == Ledger(0, [b2], 0, 0) by {
      assert [] + [b2] == [b2];
    }
    assert Step(Ledger(0, [b2], 0, 0), b1) == Ledger(0, [b2, b1], 0, 0) by {
      assert [b2] + [b1] == [b2, b1];
    }
    assert Run(Ledger(0, [], 0, 0), [b2, b1, t]) == Run(Ledger(0, [b2], 0, 0), [b1, t]);
    assert Run(Ledger(0, [b2], 0, 0), [b1, t]) == Run(Ledger(0, [b2, b1], 0, 0), [t]);
  }

  lemma FifoEmptyExample()
    ensures ProfitInFifo([]).profit == 0 && ProfitInFifo([]).open == []
  {
  }

  lemma FifoOnlyBuysExample()
    ensures ProfitInFifo([Lot("2024-01-01", Buy, 10, 10000), Lot("2024-01-02", Buy, 10, 20000)]).profit == 0
  {
    ProfitInFifoOnlyBuys([Lot("2024-01-01", Buy, 10, 10000), Lot("2024-01-02", Buy, 10, 20000)]);
  }
}
