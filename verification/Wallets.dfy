/**
 Dry-run accounting of freqtrade/wallets.py: the balances rebuilt from the trade table conserve the start
 capital and the realised profit, whatever trades are open.
 */
module Wallets {
  import opened Outcomes

  datatype OpenOrder = OpenOrder(entry: bool, amount: Option<real>, stake: real)

  datatype OpenTrade = OpenTrade(
    pair: string,
    base: string,
    stake: real,
    amount: real,
    realized: real,
    openOrders: seq<OpenOrder>)

  // The trade table: the open trades, and the profits of the closed ones.
  datatype Ledger = Ledger(open: seq<OpenTrade>, closed: seq<real>)

  datatype Wallet = Wallet(free: real, used: real, total: real)

  datatype Position = Position(amount: real, collateral: real)

  datatype Config = Config(
    futures: bool,
    cross: bool,
    stakeCurrency: string,
    startCap: map<string, real>,
    rate: string -> Option<real>,
    availableCapital: Option<real>,
    tradableRatio: real)

  // ---- sums ----

  function Total(xs: seq<real>): real {
    if xs == [] then 0.0 else Total(xs[..|xs| - 1]) + xs[|xs| - 1]
  }

  function Stakes(open: seq<OpenTrade>): real {
    if open == [] then 0.0 else Stakes(open[..|open| - 1]) + open[|open| - 1].stake
  }

  function Realized(open: seq<OpenTrade>): real {
    if open == [] then 0.0 else Realized(open[..|open| - 1]) + open[|open| - 1].realized
  }

  // What open entry orders have set aside, and what open exit orders have on offer.
  function EntryStakes(orders: seq<OpenOrder>): real {
    if orders == [] then 0.0
    else
      var last := orders[|orders| - 1];
      EntryStakes(orders[..|orders| - 1]) + if last.entry then last.stake else 0.0
  }

  function Pending(orders: seq<OpenOrder>): real {
    if orders == [] then 0.0
    else
      var last := orders[|orders| - 1];
      Pending(orders[..|orders| - 1]) + if !last.entry && last.amount.Some? then last.amount.value else 0.0
  }

  function AllEntryStakes(open: seq<OpenTrade>): real {
    if open == [] then 0.0
    else AllEntryStakes(open[..|open| - 1]) + EntryStakes(open[|open| - 1].openOrders)
  }

  // The sum of the values of a dictionary, in any order.
  ghost function Sum(m: map<string, real>): real {
    if m == map[] then 0.0
    else
      var k :| k in m;
      m[k] + Sum(m - {k})
  }

  lemma {:induction false} SumPick(m: map<string, real>, k: string)
    requires k in m
    ensures Sum(m) == m[k] + Sum(m - {k})
  {
    var j :| j in m && Sum(m) == m[j] + Sum(m - {j});
    if j != k {
      SumPick(m - {j}, k);
      SumPick(m - {k}, j);
      assert m - {j} - {k} == m - {k} - {j};
    }
  }

  lemma SumPut(m: map<string, real>, k: string, x: real)
    requires k !in m
    ensures Sum(m[k := x]) == Sum(m) + x
  {
    SumPick(m[k := x], k);
    assert m[k := x] - {k} == m;
  }

  // ---- what the balances have to be ----

  function StartOf(cfg: Config, currency: string): real {
    if currency in cfg.startCap then cfg.startCap[currency] else 0.0
  }

  // The start balance of a currency, in stake currency; nothing when there is no rate for it.
  function InStake(cfg: Config, currency: string): real {
    StartOf(cfg, currency) * cfg.rate(currency).GetOr(0.0)
  }

  ghost function ConvertedBalances(cfg: Config): map<string, real> {
    map c | c in cfg.startCap && c != cfg.stakeCurrency :: InStake(cfg, c)
  }

  // Everything but the stake currency, at its current rate: counted as free stake in cross margin.
  ghost function Converted(cfg: Config): real {
    if cfg.cross then Sum(ConvertedBalances(cfg)) else 0.0
  }

  function Profit(ledger: Ledger): real {
    Total(ledger.closed) + Realized(ledger.open)
  }

  // The trade that determines the wallet of a currency: the last one in that currency.
  function LastIn(open: seq<OpenTrade>, currency: string): Option<OpenTrade> {
    if open == [] then None
    else if open[|open| - 1].base == currency then Some(open[|open| - 1])
    else LastIn(open[..|open| - 1], currency)
  }

  function CoinWallet(cfg: Config, t: OpenTrade): Wallet {
    var pending := Pending(t.openOrders);
    var start := StartOf(cfg, t.base);
    Wallet(start + t.amount - pending, pending, t.amount + start)
  }

  ghost function StakeWallet(cfg: Config, ledger: Ledger): Wallet {
    var current := StartOf(cfg, cfg.stakeCurrency) + Profit(ledger) - Stakes(ledger.open);
    var used := if cfg.futures then Stakes(ledger.open) else AllEntryStakes(ledger.open);
    Wallet(current + Converted(cfg), used, current + used)
  }

  ghost function WalletOf(cfg: Config, ledger: Ledger, currency: string): Option<Wallet> {
    if currency == cfg.stakeCurrency then Some(StakeWallet(cfg, ledger))
    else if !cfg.futures && LastIn(ledger.open, currency).Some?
      then Some(CoinWallet(cfg, LastIn(ledger.open, currency).value))
    else if currency in cfg.startCap then Some(Wallet(cfg.startCap[currency], 0.0, cfg.startCap[currency]))
    else None
  }

  function PositionsOf(open: seq<OpenTrade>): map<string, Position> {
    if open == [] then map[]
    else
      var last := open[|open| - 1];
      PositionsOf(open[..|open| - 1])[last.pair := Position(last.amount, last.stake)]
  }

  ghost function Collaterals(positions: map<string, Position>): map<string, real> {
    map p | p in positions :: positions[p].collateral
  }

  // ---- the program ----

  class Account {
    const cfg: Config
    var wallets: map<string, Wallet>
    var positions: map<string, Position>

    // The balances are those of this trade table.
    ghost predicate Synced(ledger: Ledger)
      reads this
    {
      && (forall c :: Get(wallets, c) == WalletOf(cfg, ledger, c))
      && positions == if cfg.futures then PositionsOf(ledger.open) else map[]
    }

    constructor (cfg: Config, ledger: Ledger)
      ensures this.cfg == cfg && Synced(ledger)
    {
      this.cfg := cfg;
      wallets, positions := map[], map[];
      new;
      UpdateDry(ledger);
    }

    // What the rebuilt wallets hold adds up: free and used make the total, and cross margin counts the converted
    // balances as free stake on top of it.
    method UpdateDry(ledger: Ledger)
      modifies this
      ensures Synced(ledger)
      ensures cfg.stakeCurrency in wallets
      ensures forall c :: c in wallets ==>
                wallets[c].free + wallets[c].used ==
                wallets[c].total + if c == cfg.stakeCurrency then Converted(cfg) else 0.0
    {
      var open := ledger.open;
      var profit := Total(ledger.closed) + Realized(open);
      var inTrades := Stakes(open);
      var rebuilt: map<string, Wallet> := map[];
      var rebuiltPositions: map<string, Position> := map[];
      var used := 0.0;
      if !cfg.futures {
        rebuilt, used := CoinWallets(open);
      } else {
        for i := 0 to |open|
          invariant rebuiltPositions == PositionsOf(open[..i])
        {
          assert open[..i + 1][..i] == open[..i];
          rebuiltPositions := rebuiltPositions[open[i].pair := Position(open[i].amount, open[i].stake)];
        }
        assert open[..|open|] == open;
        used := inTrades;
      }
      var crossMargin := CrossMargin();
      var current := StartOf(cfg, cfg.stakeCurrency) + profit - inTrades;
      rebuilt := rebuilt[cfg.stakeCurrency := Wallet(current + crossMargin, used, current + used)];
      rebuilt := AddUntouched(rebuilt);
      wallets := rebuilt;
      positions := rebuiltPositions;
      AllWalletsAddUp(cfg, ledger, wallets);
    }

    method CoinWallets(open: seq<OpenTrade>) returns (rebuilt: map<string, Wallet>, used: real)
      ensures used == AllEntryStakes(open)
      ensures forall c :: Get(rebuilt, c) ==
                          if LastIn(open, c).Some? then Some(CoinWallet(cfg, LastIn(open, c).value)) else None
    {
      rebuilt, used := map[], 0.0;
      for i := 0 to |open|
        invariant used == AllEntryStakes(open[..i])
        invariant forall c :: Get(rebuilt, c) ==
                              if LastIn(open[..i], c).Some? then Some(CoinWallet(cfg, LastIn(open[..i], c).value))
                              else None
      {
        assert open[..i + 1][..i] == open[..i];
        used := used + EntryStakes(open[i].openOrders);
        rebuilt := rebuilt[open[i].base := CoinWallet(cfg, open[i])];
      }
      assert open[..|open|] == open;
    }

    method CrossMargin() returns (margin: real)
      ensures margin == Converted(cfg)
    {
      margin := 0.0;
      if cfg.cross {
        ghost var left := ConvertedBalances(cfg);
        var todo := cfg.startCap.Keys - {cfg.stakeCurrency};
        while todo != {}
          invariant left.Keys == todo <= cfg.startCap.Keys - {cfg.stakeCurrency}
          invariant forall c :: c in todo ==> left[c] == InStake(cfg, c)
          invariant margin + Sum(left) == Converted(cfg)
          decreases todo
        {
          var c :| c in todo;
          SumPick(left, c);
          if cfg.rate(c).GetOr(0.0) != 0.0 {
            margin := margin + InStake(cfg, c);
          }
          todo, left := todo - {c}, left - {c};
        }
      }
    }

    method AddUntouched(before: map<string, Wallet>) returns (rebuilt: map<string, Wallet>)
      ensures forall c :: Get(rebuilt, c) ==
                          if c in before || c !in cfg.startCap then Get(before, c)
                          else Some(Wallet(cfg.startCap[c], 0.0, cfg.startCap[c]))
    {
      rebuilt := before;
      var todo := cfg.startCap.Keys;
      while todo != {}
        invariant todo <= cfg.startCap.Keys
        invariant forall c :: Get(rebuilt, c) ==
                              if c in before || c !in cfg.startCap || c in todo then Get(before, c)
                              else Some(Wallet(cfg.startCap[c], 0.0, cfg.startCap[c]))
        decreases todo
      {
        var c :| c in todo;
        if c !in rebuilt {
          rebuilt := rebuilt[c := Wallet(cfg.startCap[c], 0.0, cfg.startCap[c])];
        }
        todo := todo - {c};
      }
    }

    method GetFree(currency: string) returns (free: real)
      ensures free == if currency in wallets then wallets[currency].free else 0.0
    {
      free := if currency in wallets && wallets[currency].free != 0.0 then wallets[currency].free else 0.0;
    }

    // The balance used for liquidation prices.
    method GetCollateral(ghost ledger: Ledger) returns (collateral: real)
      requires Synced(ledger)
      ensures collateral == CollateralOf(cfg, ledger)
    {
      assert Get(wallets, cfg.stakeCurrency) == Some(StakeWallet(cfg, ledger));
      if cfg.cross {
        collateral := GetFree(cfg.stakeCurrency);
        ghost var left := Collaterals(positions);
        var todo := positions.Keys;
        while todo != {}
          invariant left.Keys == todo <= positions.Keys
          invariant forall p :: p in todo ==> left[p] == positions[p].collateral
          invariant collateral + Sum(left) == StakeWallet(cfg, ledger).free + Sum(Collaterals(positions))
          decreases todo
        {
          var p :| p in todo;
          SumPick(left, p);
          collateral := collateral + positions[p].collateral;
          todo, left := todo - {p}, left - {p};
        }
      } else {
        collateral := wallets[cfg.stakeCurrency].total;
      }
    }

    method GetStartingBalance(ledger: Ledger) returns (balance: real)
      requires Synced(ledger)
      ensures balance == StartingBalanceOf(cfg, ledger)
    {
      if cfg.availableCapital.Some? {
        return cfg.availableCapital.value;
      }
      assert Get(wallets, cfg.stakeCurrency) == Some(StakeWallet(cfg, ledger));
      var available := GetFree(cfg.stakeCurrency);
      return (available - Total(ledger.closed) + Stakes(ledger.open)) * cfg.tradableRatio;
    }
  }

  ghost function CollateralOf(cfg: Config, ledger: Ledger): real {
    var stake := StakeWallet(cfg, ledger);
    if !cfg.cross then stake.total
    else stake.free + if cfg.futures then Sum(Collaterals(PositionsOf(ledger.open))) else 0.0
  }

  ghost function StartingBalanceOf(cfg: Config, ledger: Ledger): real {
    if cfg.availableCapital.Some? then cfg.availableCapital.value
    else (StakeWallet(cfg, ledger).free - Total(ledger.closed) + Stakes(ledger.open)) * cfg.tradableRatio
  }

  // ---- conservation ----

  lemma AllWalletsAddUp(cfg: Config, ledger: Ledger, wallets: map<string, Wallet>)
    requires forall c :: Get(wallets, c) == WalletOf(cfg, ledger, c)
    ensures cfg.stakeCurrency in wallets
    ensures forall c :: c in wallets ==>
              wallets[c].free + wallets[c].used ==
              wallets[c].total + if c == cfg.stakeCurrency then Converted(cfg) else 0.0
  {
    assert Get(wallets, cfg.stakeCurrency).Some?;
    forall c | c in wallets
      ensures wallets[c].free + wallets[c].used ==
              wallets[c].total + if c == cfg.stakeCurrency then Converted(cfg) else 0.0
    {
      assert Get(wallets, c) == Some(wallets[c]);
    }
  }

  // ---- every entry counts, once ----

  // Each order counts by what it is: an entry with its stake, an exit with its amount where that is known.
  lemma {:induction false} EachOrderCounts(a: seq<OpenOrder>, o: OpenOrder, b: seq<OpenOrder>)
    ensures EntryStakes([]) == 0.0 && Pending([]) == 0.0
    ensures EntryStakes(a + [o] + b) == EntryStakes(a) + (if o.entry then o.stake else 0.0) + EntryStakes(b)
    ensures Pending(a + [o] + b) ==
            Pending(a) + (if o.entry || o.amount.None? then 0.0 else o.amount.value) + Pending(b)
  {
    if b == [] {
      assert a + [o] + b == a + [o] && (a + [o])[..|a|] == a;
    } else {
      var all, last := a + [o] + b, b[|b| - 1];
      assert all[..|all| - 1] == a + [o] + b[..|b| - 1] && all[|all| - 1] == last;
      EachOrderCounts(a, o, b[..|b| - 1]);
    }
  }

  lemma {:induction false} EachTradeCounts(a: seq<OpenTrade>, t: OpenTrade, b: seq<OpenTrade>)
    ensures Stakes([]) == 0.0 && Realized([]) == 0.0 && AllEntryStakes([]) == 0.0
    ensures Stakes(a + [t] + b) == Stakes(a) + t.stake + Stakes(b)
    ensures Realized(a + [t] + b) == Realized(a) + t.realized + Realized(b)
    ensures AllEntryStakes(a + [t] + b) == AllEntryStakes(a) + EntryStakes(t.openOrders) + AllEntryStakes(b)
  {
    if b == [] {
      assert a + [t] + b == a + [t] && (a + [t])[..|a|] == a;
    } else {
      var all, last := a + [t] + b, b[|b| - 1];
      assert all[..|all| - 1] == a + [t] + b[..|b| - 1] && all[|all| - 1] == last;
      EachTradeCounts(a, t, b[..|b| - 1]);
    }
  }

  lemma {:induction false} EachProfitCounts(a: seq<real>, x: real, b: seq<real>)
    ensures Total([]) == 0.0 && Total(a + [x] + b) == Total(a) + x + Total(b)
  {
    if b == [] {
      assert a + [x] + b == a + [x] && (a + [x])[..|a|] == a;
    } else {
      var all, last := a + [x] + b, b[|b| - 1];
      assert all[..|all| - 1] == a + [x] + b[..|b| - 1] && all[|all| - 1] == last;
      EachProfitCounts(a, x, b[..|b| - 1]);
    }
  }

  // In cross margin each currency but the stake currency counts at its rate, and for nothing without one; outside
  // cross margin none does.
  lemma ConvertedExactly(cfg: Config, c: string)
    ensures !cfg.cross || cfg.startCap.Keys <= {cfg.stakeCurrency} ==> Converted(cfg) == 0.0
    ensures cfg.cross && c in cfg.startCap && c != cfg.stakeCurrency ==>
              Converted(cfg) ==
              Converted(cfg.(startCap := cfg.startCap - {c})) +
              if cfg.rate(c).Some? then cfg.startCap[c] * cfg.rate(c).value else 0.0
  {
    if cfg.startCap.Keys <= {cfg.stakeCurrency} {
      assert ConvertedBalances(cfg).Keys == {};
    }
    if cfg.cross && c in cfg.startCap && c != cfg.stakeCurrency {
      OneCurrencyCounts(cfg, c);
    }
  }

  lemma OneCurrencyCounts(cfg: Config, c: string)
    requires c in cfg.startCap && c != cfg.stakeCurrency
    ensures Sum(ConvertedBalances(cfg)) ==
            Sum(ConvertedBalances(cfg.(startCap := cfg.startCap - {c}))) + ConvertedBalances(cfg)[c]
  {
    SumPick(ConvertedBalances(cfg), c);
    OneCurrencyLess(cfg, c);
  }

  lemma OneCurrencyLess(cfg: Config, c: string)
    requires c in cfg.startCap && c != cfg.stakeCurrency
    ensures ConvertedBalances(cfg) - {c} == ConvertedBalances(cfg.(startCap := cfg.startCap - {c}))
  {
    var a, b := ConvertedBalances(cfg) - {c}, ConvertedBalances(cfg.(startCap := cfg.startCap - {c}));
    assert a.Keys == b.Keys;
    forall d | d in a.Keys ensures a[d] == b[d] {
    }
  }

  // ---- each wallet ----

  // The stake currency: what is free and what open trades hold make up the start capital and all profit. In futures
  // mode the total is that sum whatever trades are open; on the spot market it counts only what open entry orders
  // have set aside.
  lemma StakeWalletIs(cfg: Config, ledger: Ledger)
    ensures WalletOf(cfg, ledger, cfg.stakeCurrency).Some?
    ensures var w := WalletOf(cfg, ledger, cfg.stakeCurrency).value;
            var start := if cfg.stakeCurrency in cfg.startCap then cfg.startCap[cfg.stakeCurrency] else 0.0;
            var owned := start + Total(ledger.closed) + Realized(ledger.open);
            && w.free + Stakes(ledger.open) == owned + Converted(cfg)
            && w.used == (if cfg.futures then Stakes(ledger.open) else AllEntryStakes(ledger.open))
            && w.total == if cfg.futures then owned else owned - Stakes(ledger.open) + AllEntryStakes(ledger.open)
  {
  }

  // On the spot market a coin that is traded: all of it counts in total, and what open exits offer is not free.
  lemma CoinWalletIs(cfg: Config, ledger: Ledger, i: nat)
    requires !cfg.futures && DistinctBases(ledger.open) && i < |ledger.open|
    requires ledger.open[i].base != cfg.stakeCurrency
    ensures var t := ledger.open[i];
            var start := if t.base in cfg.startCap then cfg.startCap[t.base] else 0.0;
            WalletOf(cfg, ledger, t.base) ==
            Some(Wallet(start + t.amount - Pending(t.openOrders), Pending(t.openOrders), start + t.amount))
  {
    LastInIs(ledger.open, i);
  }

  lemma {:induction false} LastInIs(open: seq<OpenTrade>, i: nat)
    requires DistinctBases(open) && i < |open|
    ensures LastIn(open, open[i].base) == Some(open[i])
  {
    if i < |open| - 1 {
      LastInIs(open[..|open| - 1], i);
    }
  }

  // Any other coin is there with its start balance, if it has one, and in futures mode that holds for every coin.
  lemma UntouchedWalletIs(cfg: Config, ledger: Ledger, c: string)
    requires c != cfg.stakeCurrency && (cfg.futures || forall i :: 0 <= i < |ledger.open| ==> ledger.open[i].base != c)
    ensures WalletOf(cfg, ledger, c) ==
            if c in cfg.startCap then Some(Wallet(cfg.startCap[c], 0.0, cfg.startCap[c])) else None
  {
    if !cfg.futures {
      NeverLast(ledger.open, c);
    }
  }

  lemma {:induction false} NeverLast(open: seq<OpenTrade>, c: string)
    requires forall i :: 0 <= i < |open| ==> open[i].base != c
    ensures LastIn(open, c).None?
  {
    if open != [] {
      NeverLast(open[..|open| - 1], c);
    }
  }

  // The positions are those of the open trades.
  lemma {:induction false} PositionsExactly(open: seq<OpenTrade>, p: string)
    requires DistinctPairs(open)
    ensures p in PositionsOf(open) <==> exists i :: 0 <= i < |open| && open[i].pair == p
    ensures forall i :: 0 <= i < |open| && open[i].pair == p ==>
              p in PositionsOf(open) && PositionsOf(open)[p] == Position(open[i].amount, open[i].stake)
  {
    PairsAreKeys(open);
    if open != [] {
      var rest, last := open[..|open| - 1], open[|open| - 1];
      PositionsExactly(rest, p);
      assert forall i :: 0 <= i < |rest| ==> rest[i] == open[i];
    }
  }

  // Without cross margin the collateral is the total of the stake currency; on the spot market it is what is free.
  lemma CollateralOtherwise(cfg: Config, ledger: Ledger)
    ensures var w := WalletOf(cfg, ledger, cfg.stakeCurrency);
            && w.Some?
            && (!cfg.cross ==> CollateralOf(cfg, ledger) == w.value.total)
            && (cfg.cross && !cfg.futures ==> CollateralOf(cfg, ledger) == w.value.free)
  {
  }

  function AmountIn(open: seq<OpenTrade>, currency: string): real {
    if open == [] then 0.0
    else
      var last := open[|open| - 1];
      AmountIn(open[..|open| - 1], currency) + if last.base == currency then last.amount else 0.0
  }

  ghost predicate DistinctPairs(open: seq<OpenTrade>) {
    forall i, j :: 0 <= i < j < |open| ==> open[i].pair != open[j].pair
  }

  ghost predicate DistinctBases(open: seq<OpenTrade>) {
    forall i, j :: 0 <= i < j < |open| ==> open[i].base != open[j].base
  }

  // On the spot market each coin wallet holds the start balance plus all that open trades have bought.
  lemma CoinsAreHeld(cfg: Config, ledger: Ledger, currency: string)
    requires !cfg.futures && currency != cfg.stakeCurrency && DistinctBases(ledger.open)
    ensures var w := WalletOf(cfg, ledger, currency).GetOr(Wallet(0.0, 0.0, 0.0));
            w.total == StartOf(cfg, currency) + AmountIn(ledger.open, currency)
  {
    HeldOnce(ledger.open, currency);
  }

  lemma {:induction false} HeldOnce(open: seq<OpenTrade>, currency: string)
    requires DistinctBases(open)
    ensures AmountIn(open, currency) ==
            if LastIn(open, currency).Some? then LastIn(open, currency).value.amount else 0.0
    ensures LastIn(open, currency).Some? ==> LastIn(open, currency).value.base == currency
    ensures LastIn(open, currency).None? <==> forall i :: 0 <= i < |open| ==> open[i].base != currency
  {
    if open != [] {
      var rest, last := open[..|open| - 1], open[|open| - 1];
      HeldOnce(rest, currency);
      assert forall i :: 0 <= i < |rest| ==> rest[i] == open[i];
    }
  }

  // In cross futures mode the collateral is start capital, realised profit and converted balances, whatever
  // trades are open.
  lemma CollateralConserved(cfg: Config, ledger: Ledger)
    requires cfg.cross && cfg.futures && DistinctPairs(ledger.open)
    ensures CollateralOf(cfg, ledger) == StartOf(cfg, cfg.stakeCurrency) + Profit(ledger) + Converted(cfg)
  {
    CollateralsAreStakes(ledger.open);
  }

  lemma {:induction false} CollateralsAreStakes(open: seq<OpenTrade>)
    requires DistinctPairs(open)
    ensures Sum(Collaterals(PositionsOf(open))) == Stakes(open)
  {
    if open == [] {
      assert Collaterals(map[]) == map[];
    } else {
      var rest, last := open[..|open| - 1], open[|open| - 1];
      CollateralsAreStakes(rest);
      PairsAreKeys(rest);
      var before := PositionsOf(rest);
      assert Collaterals(before[last.pair := Position(last.amount, last.stake)]) ==
             Collaterals(before)[last.pair := last.stake];
      SumPut(Collaterals(before), last.pair, last.stake);
    }
  }

  lemma {:induction false} PairsAreKeys(open: seq<OpenTrade>)
    ensures forall p :: p in PositionsOf(open) ==> exists i :: 0 <= i < |open| && open[i].pair == p
  {
    if open != [] {
      var rest, last := open[..|open| - 1], open[|open| - 1];
      PairsAreKeys(rest);
      forall p | p in PositionsOf(rest) ensures exists i :: 0 <= i < |open| && open[i].pair == p {
        var i :| 0 <= i < |rest| && rest[i].pair == p;
        assert open[i].pair == p;
      }
      assert open[|open| - 1].pair == last.pair;
    }
  }

  // Without a fixed capital, the starting balance is the tradable part of the start capital, of the converted
  // balances and of what open trades have realised so far. So it is the same for all trade tables without partial
  // exits.
  lemma StartingBalanceIsConstant(cfg: Config, ledger: Ledger)
    requires cfg.availableCapital.None?
    ensures StartingBalanceOf(cfg, ledger) ==
            cfg.tradableRatio * (StartOf(cfg, cfg.stakeCurrency) + Converted(cfg) + Realized(ledger.open))
    ensures (forall t :: t in ledger.open ==> t.realized == 0.0) ==>
              StartingBalanceOf(cfg, ledger) ==
              cfg.tradableRatio * (StartOf(cfg, cfg.stakeCurrency) + Converted(cfg))
  {
    if forall t :: t in ledger.open ==> t.realized == 0.0 {
      NothingRealized(ledger.open);
    }
  }

  lemma {:induction false} NothingRealized(open: seq<OpenTrade>)
    requires forall t :: t in open ==> t.realized == 0.0
    ensures Realized(open) == 0.0
  {
    if open != [] {
      NothingRealized(open[..|open| - 1]);
    }
  }
}
