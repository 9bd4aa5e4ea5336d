/** The transaction report of packages/cli/src/commands/report.tsx: fee
    income (internal transactions from the friend.tech contract) merged with
    the account's own `buyShares`/`sellShares` transactions, a sale showing
    the amount actually received, ordered by time. The two Basescan
    responses are parameters; amounts stay in wei, and the shares number
    decoded from the call data is a field of the transaction. */
module Report {
  import opened Common

  /** `FRIEND_TECH_BASE_CONTRACT_ADDRESS` (packages/helpers/src/index.ts). */
  const ContractAddress: string := "0xCF205808Ed36593aa40a44F10c7f7C2F67d4A4d4"

  const Ok: string := "OK"
  const ReceiveFees: string := "receiveFees"
  const BuyShares: string := "buyShares"
  const SellShares: string := "sellShares"
  const ReportColumns: seq<string> := ["txHash", "datetime", "function", "sharesNum", "value", "l2TxFee"]

  datatype Response<T> = Response(message: string, result: seq<T>)

  /** A normal transaction; `sharesNum` is the second decoded argument of
      its call data, when it decodes. */
  datatype NormalTx = NormalTx(
    hash: string, from: string, functionName: string, timeStamp: int,
    value: int, gasUsed: int, gasPrice: int, sharesNum: Option<int>)

  datatype InternalTx = InternalTx(hash: string, from: string, timeStamp: int, value: int)

  /** One line of the report; `txFee` is `None` for the empty fee of fee
      income. */
  datatype Row = Row(hash: string, timestamp: int, functionName: string, sharesNum: Option<int>, value: int, txFee: Option<int>)

  /** How the command ends. `Rows`: the CSV is saved and the success
      screen shows the first and last dates. `SavedEmpty`: the CSV with only
      its header is saved, then reading the date of the first line fails,
      so the command ends in its error state. `FetchFailed`: a response was
      not `OK` and nothing is saved. */
  datatype ReportResult = Rows(rows: seq<Row>) | SavedEmpty | FetchFailed

  // ---------------------------------------------------------------------
  // Fee income

  /** The internal transactions sent by the contract, as report rows. */
  function InternalRows(txs: seq<InternalTx>): (rows: seq<Row>)
    ensures |rows| <= |txs|
  {
    if txs == [] then []
    else
      var p := InternalRows(txs[..|txs| - 1]);
      var tx := txs[|txs| - 1];
      if SameAddress(tx.from, ContractAddress) then p + [Row(tx.hash, tx.timeStamp, ReceiveFees, None, tx.value, None)]
      else p
  }

  /** Every fee row is a `receiveFees` row without shares number or fee,
      copied from an internal transaction the contract sent, and every such
      transaction gives one. */
  lemma {:induction false} InternalRowsAreFees(txs: seq<InternalTx>)
    ensures forall r :: r in InternalRows(txs) ==> r.functionName == ReceiveFees && r.sharesNum.None? && r.txFee.None?
    ensures forall r :: r in InternalRows(txs) <==>
              exists tx :: tx in txs && SameAddress(tx.from, ContractAddress)
                           && r == Row(tx.hash, tx.timeStamp, ReceiveFees, None, tx.value, None)
  {
    if txs != [] {
      var pre := txs[..|txs| - 1];
      InternalRowsAreFees(pre);
      assert txs == pre + [txs[|txs| - 1]];
    }
  }

  /** The hash-to-position map the `forEach` fills from the first `n` rows. */
  function IndexByHash(rows: seq<Row>, n: nat): (m: map<string, nat>)
    requires n <= |rows|
    ensures forall h :: h in m ==> m[h] < n
  {
    if n == 0 then map[] else IndexByHash(rows, n - 1)[rows[n - 1].hash := n - 1]
  }

  /** The `forEach` over the fee rows. */
  method BuildIndex(rows: seq<Row>) returns (m: map<string, nat>)
    ensures m == IndexByHash(rows, |rows|)
  {
    m := map[];
    for i := 0 to |rows|
      invariant m == IndexByHash(rows, i)
    {
      m := m[rows[i].hash := i];
    }
  }

  /** A hash is in the map exactly when some row has it, and it maps to the
      last such row. */
  lemma {:induction false} IndexHoldsLastPosition(rows: seq<Row>, n: nat, h: string)
    requires n <= |rows|
    ensures h in IndexByHash(rows, n) <==> exists i :: 0 <= i < n && rows[i].hash == h
    ensures h in IndexByHash(rows, n) ==>
              rows[IndexByHash(rows, n)[h]].hash == h
              && forall j :: IndexByHash(rows, n)[h] < j < n ==> rows[j].hash != h
  {
    if n > 0 {
      IndexHoldsLastPosition(rows, n - 1, h);
    }
  }

  // ---------------------------------------------------------------------
  // The account's own trades

  /** The text before the first `(`, as `split('(')[0]`. */
  function NameBeforeParen(s: string): (r: string)
    ensures r <= s && '(' !in r
    ensures |r| < |s| ==> s[|r|] == '('
  {
    if s == [] || s[0] == '(' then [] else [s[0]] + NameBeforeParen(s[1..])
  }

  /** The filter on normal transactions: sent by the account, calling a
      function whose name starts with `buyShares` or `sellShares`. */
  predicate IsOwnTrade(tx: NormalTx, address: string)
  {
    SameAddress(tx.from, address) && (BuyShares <= tx.functionName || SellShares <= tx.functionName)
  }

  function OwnTrades(txs: seq<NormalTx>, address: string): (r: seq<NormalTx>)
    ensures forall tx :: tx in r <==> tx in txs && IsOwnTrade(tx, address)
  {
    if txs == [] then []
    else
      var p := OwnTrades(txs[..|txs| - 1], address);
      var tx := txs[|txs| - 1];
      assert txs == txs[..|txs| - 1] + [tx];
      if IsOwnTrade(tx, address) then p + [tx] else p
  }

  /** Whether a trade is a sale that has a fee row with its hash. */
  predicate MatchesFeeRow(tx: NormalTx, index: map<string, nat>)
  {
    NameBeforeParen(tx.functionName) == SellShares && tx.hash in index
  }

  /** The row of one trade: a sale with a matching fee row takes that row's
      amount, anything else its own value. */
  function TradeRow(tx: NormalTx, feeRows: seq<Row>, index: map<string, nat>): (r: Row)
    requires forall h :: h in index ==> index[h] < |feeRows|
    ensures r.hash == tx.hash && r.timestamp == tx.timeStamp && r.functionName == NameBeforeParen(tx.functionName)
    ensures r.sharesNum == tx.sharesNum && r.txFee == Some(tx.gasUsed * tx.gasPrice)
    ensures MatchesFeeRow(tx, index) ==> r.value == feeRows[index[tx.hash]].value
    ensures !MatchesFeeRow(tx, index) ==> r.value == tx.value
  {
    var name := NameBeforeParen(tx.functionName);
    var value := if name == SellShares && tx.hash in index then feeRows[index[tx.hash]].value else tx.value;
    Row(tx.hash, tx.timeStamp, name, tx.sharesNum, value, Some(tx.gasUsed * tx.gasPrice))
  }

  /** The hashes of the sales among `trades` that matched a fee row. */
  function UsedHashes(trades: seq<NormalTx>, index: map<string, nat>): (used: set<string>)
    ensures forall h :: h in used <==> exists tx :: tx in trades && tx.hash == h && MatchesFeeRow(tx, index)
  {
    if trades == [] then {}
    else
      var tx := trades[|trades| - 1];
      assert trades == trades[..|trades| - 1] + [tx];
      UsedHashes(trades[..|trades| - 1], index) + (if MatchesFeeRow(tx, index) then {tx.hash} else {})
  }

  /** One more trade adds its hash exactly when it matched a fee row. */
  lemma UsedHashesNext(trades: seq<NormalTx>, index: map<string, nat>, i: nat)
    requires i < |trades|
    ensures UsedHashes(trades[..i + 1], index)
            == UsedHashes(trades[..i], index) + (if MatchesFeeRow(trades[i], index) then {trades[i].hash} else {})
  {
    assert trades[..i + 1][..i] == trades[..i];
  }

  /** One more trade appends its row. */
  lemma TradeRowsNext(trades: seq<NormalTx>, feeRows: seq<Row>, index: map<string, nat>, i: nat)
    requires forall h :: h in index ==> index[h] < |feeRows|
    requires i < |trades|
    ensures TradeRows(trades[..i + 1], feeRows, index) == TradeRows(trades[..i], feeRows, index) + [TradeRow(trades[i], feeRows, index)]
  {
    assert trades[..i + 1][..i] == trades[..i];
  }

  /** The callback of the `map` over the account's trades: the row of one
      trade, and whether it consumed a fee row. */
  method MapTrade(tx: NormalTx, feeRows: seq<Row>, index: map<string, nat>) returns (row: Row, consumed: bool)
    requires forall h :: h in index ==> index[h] < |feeRows|
    ensures row == TradeRow(tx, feeRows, index)
    ensures consumed <==> MatchesFeeRow(tx, index)
  {
    var functionName := NameBeforeParen(tx.functionName);
    var value := tx.value;
    consumed := false;
    if functionName == SellShares {
      if tx.hash in index {
        value := feeRows[index[tx.hash]].value;
        consumed := true;
      }
    }
    row := Row(tx.hash, tx.timeStamp, functionName, tx.sharesNum, value, Some(tx.gasUsed * tx.gasPrice));
  }

  /** The `map` over the account's trades, which also records in
      `usedInternalTransactions` every fee row it consumed. */
  method MapTrades(trades: seq<NormalTx>, feeRows: seq<Row>, index: map<string, nat>)
    returns (rows: seq<Row>, used: set<string>)
    requires forall h :: h in index ==> index[h] < |feeRows|
    ensures rows == TradeRows(trades, feeRows, index)
    ensures used == UsedHashes(trades, index)
  {
    rows := [];
    used := {};
    for i := 0 to |trades|
      invariant rows == TradeRows(trades[..i], feeRows, index)
      invariant used == UsedHashes(trades[..i], index)
    {
      UsedHashesNext(trades, index, i);
      TradeRowsNext(trades, feeRows, index, i);
      var row, consumed := MapTrade(trades[i], feeRows, index);
      if consumed {
        used := used + {trades[i].hash};
      }
      rows := rows + [row];
    }
    assert trades[..|trades|] == trades;
  }

  // ---------------------------------------------------------------------
  // The whole report

  /** The fee rows whose hash no sale consumed. */
  function Unused(feeRows: seq<Row>, used: set<string>): (r: seq<Row>)
    ensures forall row :: row in r <==> row in feeRows && row.hash !in used
  {
    if feeRows == [] then []
    else
      var p := Unused(feeRows[..|feeRows| - 1], used);
      var row := feeRows[|feeRows| - 1];
      assert feeRows == feeRows[..|feeRows| - 1] + [row];
      if row.hash !in used then p + [row] else p
  }

  function Timestamp(r: Row): int
  {
    r.timestamp
  }

  /** The rows of the trades, in order. */
  function TradeRows(trades: seq<NormalTx>, feeRows: seq<Row>, index: map<string, nat>): (rows: seq<Row>)
    requires forall h :: h in index ==> index[h] < |feeRows|
    ensures |rows| == |trades| && forall i :: 0 <= i < |trades| ==> rows[i] == TradeRow(trades[i], feeRows, index)
  {
    if trades == [] then []
    else TradeRows(trades[..|trades| - 1], feeRows, index) + [TradeRow(trades[|trades| - 1], feeRows, index)]
  }

  /** The merged rows sorted by time (`Array.prototype.sort` is stable). */
  function Assemble(tradeRows: seq<Row>, unused: seq<Row>): (rows: seq<Row>)
    ensures SortedBy(rows, Timestamp)
    ensures |rows| == |tradeRows| + |unused|
    ensures multiset(rows) == multiset(tradeRows + unused)
    ensures forall row :: row in rows <==> row in tradeRows || row in unused
  {
    var rows := SortBy(tradeRows + unused, Timestamp);
    assert forall row :: row in rows <==> row in multiset(tradeRows + unused);
    rows
  }

  /** The rows written to the CSV for `address` from two `OK` responses. */
  function ReportRows(address: string, transactions: Response<NormalTx>, internalTransactions: Response<InternalTx>)
    : seq<Row>
  {
    var feeRows := InternalRows(internalTransactions.result);
    var index := IndexByHash(feeRows, |feeRows|);
    var trades := OwnTrades(transactions.result, address);
    Assemble(TradeRows(trades, feeRows, index), Unused(feeRows, UsedHashes(trades, index)))
  }

  /** The report for `address` from the two responses. */
  function ReportOf(address: string, transactions: Response<NormalTx>, internalTransactions: Response<InternalTx>)
    : (r: ReportResult)
    ensures r == FetchFailed <==> transactions.message != Ok || internalTransactions.message != Ok
    ensures r.Rows? ==> r.rows != [] && SortedBy(r.rows, Timestamp)
  {
    if transactions.message != Ok || internalTransactions.message != Ok then FetchFailed
    else
      var rows := ReportRows(address, transactions, internalTransactions);
      if rows == [] then SavedEmpty else Rows(rows)
  }

  /** The report step after the fetches. */
  method BuildReport(address: string, transactions: Response<NormalTx>, internalTransactions: Response<InternalTx>)
    returns (r: ReportResult)
    ensures r == ReportOf(address, transactions, internalTransactions)
  {
    if transactions.message != Ok {
      return FetchFailed;
    }
    if internalTransactions.message != Ok {
      return FetchFailed;
    }
    var feeRows := InternalRows(internalTransactions.result);
    var index := BuildIndex(feeRows);
    var trades := OwnTrades(transactions.result, address);
    var tradeRows, used := MapTrades(trades, feeRows, index);
    var rows := Assemble(tradeRows, Unused(feeRows, used));
    if rows == [] {
      r := SavedEmpty;
    } else {
      r := Rows(rows);
    }
  }

  /** The `csvData` of the report: the fixed header, then one line per row
      in the order of the rows. */
  function ReportCsv(rows: seq<Row>): (csvData: seq<CsvLine<Row>>)
    ensures |csvData| == |rows| + 1 && csvData[0] == HeaderLine(ReportColumns)
    ensures forall i :: 0 <= i < |rows| ==> csvData[i + 1] == DataLine(rows[i])
  {
    [HeaderLine(ReportColumns)] + seq(|rows|, i requires 0 <= i < |rows| => DataLine(rows[i]))
  }

  /** Nothing is saved exactly when either response is not `OK`. With both
      `OK`, the command still fails, after saving a header-only CSV, exactly
      when the account has no own trade and no fee income. */
  lemma ReportOutcome(address: string, transactions: Response<NormalTx>, internalTransactions: Response<InternalTx>)
    ensures ReportOf(address, transactions, internalTransactions) == FetchFailed
            <==> transactions.message != Ok || internalTransactions.message != Ok
    ensures ReportOf(address, transactions, internalTransactions) == SavedEmpty
            <==> && transactions.message == Ok && internalTransactions.message == Ok
                 && OwnTrades(transactions.result, address) == []
                 && InternalRows(internalTransactions.result) == []
  {
    if transactions.message == Ok && internalTransactions.message == Ok {
      var feeRows := InternalRows(internalTransactions.result);
      var index := IndexByHash(feeRows, |feeRows|);
      var trades := OwnTrades(transactions.result, address);
      var unused := Unused(feeRows, UsedHashes(trades, index));
      if trades == [] && feeRows != [] {
        assert feeRows[0] in unused;
      }
    }
  }

  /** The rows are in non-decreasing time order, one per own trade and one
      per fee row that no sale consumed. */
  lemma ReportShape(address: string, transactions: Response<NormalTx>, internalTransactions: Response<InternalTx>)
    requires transactions.message == Ok && internalTransactions.message == Ok
    ensures var rows := ReportRows(address, transactions, internalTransactions);
            var feeRows := InternalRows(internalTransactions.result);
            var trades := OwnTrades(transactions.result, address);
            var index := IndexByHash(feeRows, |feeRows|);
            && SortedBy(rows, Timestamp)
            && |rows| == |trades| + |Unused(feeRows, UsedHashes(trades, index))|
            && multiset(rows) == multiset(TradeRows(trades, feeRows, index) + Unused(feeRows, UsedHashes(trades, index)))
  {
  }

  /** A fee row is reported exactly when no sale consumed its hash: a
      consumed fee row is folded into its sale. */
  lemma FeeRowReportedIffUnused(address: string, transactions: Response<NormalTx>,
                                internalTransactions: Response<InternalTx>, row: Row)
    requires transactions.message == Ok && internalTransactions.message == Ok
    requires row in InternalRows(internalTransactions.result)
    ensures var feeRows := InternalRows(internalTransactions.result);
            var trades := OwnTrades(transactions.result, address);
            row in ReportRows(address, transactions, internalTransactions)
            <==> row.hash !in UsedHashes(trades, IndexByHash(feeRows, |feeRows|))
  {
    var feeRows := InternalRows(internalTransactions.result);
    var trades := OwnTrades(transactions.result, address);
    InternalRowsAreFees(internalTransactions.result);
    assert row !in TradeRows(trades, feeRows, IndexByHash(feeRows, |feeRows|));
  }

  /** Every own trade of the account is reported. */
  lemma TradesReported(address: string, transactions: Response<NormalTx>, internalTransactions: Response<InternalTx>)
    requires transactions.message == Ok && internalTransactions.message == Ok
    ensures var feeRows := InternalRows(internalTransactions.result);
            forall tx :: tx in transactions.result && IsOwnTrade(tx, address) ==>
              TradeRow(tx, feeRows, IndexByHash(feeRows, |feeRows|)) in ReportRows(address, transactions, internalTransactions)
  {
    var feeRows := InternalRows(internalTransactions.result);
    var index := IndexByHash(feeRows, |feeRows|);
    var trades := OwnTrades(transactions.result, address);
    var tradeRows := TradeRows(trades, feeRows, index);
    forall tx | tx in transactions.result && IsOwnTrade(tx, address) ensures TradeRow(tx, feeRows, index) in tradeRows {
      var i :| 0 <= i < |trades| && trades[i] == tx;
      assert tradeRows[i] == TradeRow(tx, feeRows, index);
    }
  }

  /** Every reported row with a fee is the row of an own trade of the
      account. */
  lemma RowsWithFeeAreTrades(address: string, transactions: Response<NormalTx>, internalTransactions: Response<InternalTx>,
                             row: Row)
    requires transactions.message == Ok && internalTransactions.message == Ok
    requires row in ReportRows(address, transactions, internalTransactions) && row.txFee.Some?
    ensures var feeRows := InternalRows(internalTransactions.result);
            exists tx :: tx in transactions.result && IsOwnTrade(tx, address)
                         && row == TradeRow(tx, feeRows, IndexByHash(feeRows, |feeRows|))
  {
    var feeRows := InternalRows(internalTransactions.result);
    var index := IndexByHash(feeRows, |feeRows|);
    var trades := OwnTrades(transactions.result, address);
    var tradeRows := TradeRows(trades, feeRows, index);
    InternalRowsAreFees(internalTransactions.result);
    assert row !in Unused(feeRows, UsedHashes(trades, index));
    var i :| 0 <= i < |tradeRows| && tradeRows[i] == row;
    assert trades[i] in trades;
  }
}
