# Verification of freqtrade's stateful cores

A Dafny model of the parts of freqtrade, and of the small quantlab platform beside it, whose correctness spans
many functions or a whole run. Money, prices and rates are exact reals; timestamps are integers in milliseconds.
Exchanges, strategy callbacks, other threads, file systems and crashes are nondeterministic choices or
parameters, so every result holds for all of their answers.

`dafny verify dfyconfig.toml` checks the whole project.

## The cores

**Configuration** (`DeepMerge`, `InPlaceMerge`, `LoadConfig`, `EnvVars`). `Merge` is what it means to lay one JSON
tree over another: a leaf of the upper tree is found in the result, and where it says nothing the lower one stays.
It is associative and idempotent; with None overrides off it is associative over all bottom layers exactly when no
dictionary sits over an explicit None. The program that does the same by mutating linked dictionaries refines it.
From associativity follows the meaning of the recursive include loader: one flat fold over the files in post-order,
or a loop error exactly when six includes nest. In both the last file that says something has its way, and no file
that cannot be read goes unreported. Flat environment variables build a tree with exactly the named leaves, in any
order.

**Orders** (`TradeOrders`, `TradingBot`). Orders are placed, cancelled, timed out and replaced against an exchange
that may refuse, fail, fill partially or leave fields out. In every history only the regular order placed last can
be open, because every new one passes a gate. A ghost log holds all that the bot asked the exchange and the
strategy, so contracts also say what has to be asked: which orders are looked up and cancelled, and that an order
comes about unless the strategy declined, another one stayed open or the exchange turned it down.

**Slots and money** (`EntrySlots`, `Wallets`, `StakeSizing`). Open trades stay within `max_open_trades` on distinct
pairs, and every free slot is used; the dry-run balances conserve capital and profit; stakes are sized so that no
run ties up more than allowed, and "unlimited" stakes are equal shares.

**Watchers** (`ExchangeWs`). Two threads share five collections under a lock. The model interleaves their lock
sections; the scheduled set always matches the live tasks, one per key, a key that is requested is scheduled by the
next complete round, and the loop never gets stuck.

**Candles** (`Candles`, `ProducerStore`, `Archive`). Candles from producers form a capped window on an uncapped
log, and archive days and REST answers join without gap or duplicate.

**Drawdown** (`Drawdown`). The running-maximum computation against its definition over all pairs of points.

**Jobs and worker** (`JobQueue`, `Worker`). A crash-recovering queue with cancellation at any time, in which a
cancelled job does not run again, and the life cycle of bots under commands, reloads and errors, in which nothing
that a pass finds is skipped.

**Liquidation** (`Liquidation`). The four exchange formulas are exact solvency thresholds of one equation.

## Where the code does not do what one might expect

- With `amend_last_stake_amount` and `last_stake_amount_min_ratio` of one, the last of the "unlimited" entries is
  refused its share, because the check asks for more than the share (`StakeSizing.UnlimitedStakesAreEqual`).
- Under `available_capital`, losses of partial exits are booked only when the trade closes, and the tied-up stake
  can then exceed the capital (`StakeSizing.LateLossesBreakFixedCapital`). Runs are safe from that exactly when no
  closing trade has lost, in all, more than the stake it still has (`StakeSizing.RunsStayWithinExactly`,
  `StakeSizing.ClosingStaysWithinExactly`).
- A stake can come out negative when nothing is allowed and there is no minimum (`StakeSizing.NegativeExactly`).
- Skipping None makes the merge non-associative (`DeepMerge.SkippedNullAssociativeExactly`).
- The counted slots of `enter_positions` miss entries that fail late; only the second look in `create_trade`
  keeps the limit (`EntrySlots.CountedSlotsAreNotEnough`).
- A refused cancel in a replacement deletes the trade exactly when no entry was filled
  (`TradingBot.Bot.ReplaceOrderFailed`, `TradingBot.Bot.HandleReplaceOrder`). The order that is still open does not
  count as one, so it may be deleted with its trade (`TradeOrders.OpenOrderDoesNotSaveTrade`).
- A frame that runs backwards can be lost (`ProducerStore.BackwardFrameIsLost`), which is exactly when the series
  stops being a suffix of what was received (`ProducerStore.LostExactly`). And asking for `n - 1` more candles
  after a rejection closes the gap only when it is a whole number of candles
  (`ProducerStore.RejectionTellsHowFarBack`).
- The date of the current high is wrong exactly when the last row is a new high
  (`Drawdown.CurrentHighDateExactly`).
- Binance's cross margin counts the price moves of other shorts with the wrong sign
  (`Liquidation.CrossVarsRightExactly`).

## Model

| member | source | states |
|---|---|---|
| DeepMerge.MergeAssociative | freqtrade/misc.py:103-120 | laying three trees over each other gives the same in either grouping |
| DeepMerge.SkippedNullAssociativeExactly | freqtrade/misc.py:103-120 | when None is skipped, the grouping is irrelevant over every bottom layer exactly when no dictionary of the top layer sits over a None of the middle one |
| DeepMerge.MergeableAssociative | freqtrade/misc.py:103-120 | whenever the nested application raises nothing, neither does the flattened one |
| DeepMerge.MergeIdempotent | freqtrade/misc.py:103-120 | laying the same source again changes nothing and raises nothing new |
| DeepMerge.NullsNeverOverride | freqtrade/misc.py:103-120 | with None overrides off, a merge is the merge of the source without its None leaves |
| DeepMerge.SourceLeafWins | freqtrade/misc.py:103-120 | when the merge raises nothing, every leaf of the source is found in the result at its path, whatever the destination held there |
| DeepMerge.DestinationStays | freqtrade/misc.py:103-120 | where the source says nothing at, above or below a path, the result holds what the destination held |
| DeepMerge.RaisesExactly | freqtrade/misc.py:103-120 | the merge goes through exactly when at no path a dictionary with something to write meets a value of the destination that is none |
| DeepMerge.EmptyDictionaryYields | freqtrade/misc.py:103-120 | a dictionary with nothing to write leaves the value it meets |
| DeepMerge.PathLaw | freqtrade/misc.py:103-120 | what a merged tree holds at any path is the one-value operator on what the two trees hold there |
| DeepMerge.SameShapeMerges | freqtrade/misc.py:103-120 | trees of one shape merge without raising, into a tree of that shape |
| InPlaceMerge.DeepMergeDicts | freqtrade/misc.py:103-120 | the recursive in-place program leaves the pure merge in the destination, touches nothing but the destination and nodes it creates, so not the source, and raises exactly when the pure operator does not go through |
| LoadConfig.LoadFromFiles | freqtrade/configuration/load_config.py:80-120 | the loop computes the recursive loader, every error included, and terminates on every include graph |
| LoadConfig.LoadIsFlatFold | freqtrade/configuration/load_config.py:80-120 | whatever the loader returns is one right-biased fold of the documents, includes before their includer, on every key but config_files |
| LoadConfig.LoopExactly | freqtrade/configuration/load_config.py:87-89 | on readable input of one shape the loader raises the loop error exactly when some chain of includes passes the last level, and nothing else |
| LoadConfig.LoaderMeaning | freqtrade/configuration/load_config.py:80-120 | both at once for a top-level call: six nested includes, or the flat fold |
| LoadConfig.LastWordWins | freqtrade/configuration/load_config.py:115-116 | in a stack of layers the last one that says something at a path has its way |
| LoadConfig.LastFileWins | freqtrade/configuration/load_config.py:95-120 | a setting of the last file is the one loaded, whatever its includes and the files before it say |
| LoadConfig.ErrorsAreTrue | freqtrade/configuration/load_config.py:60-75 | a file is reported as missing or malformed only if it is |
| LoadConfig.AllFilesWereRead | freqtrade/configuration/load_config.py:60-77 | and every such file is reported: when the loader returns, all files on the way were documents, and so were their includes |
| LoadConfig.NamesAreRelative | freqtrade/configuration/load_config.py:100-105 | the names of a list are those of files below the base path, or as given without one |
| LoadConfig.IncludesAreBesideTheirFile | freqtrade/configuration/load_config.py:106-109 | the names of includes are relative to the directory of the file that includes them |
| LoadConfig.LoadedExactly | freqtrade/configuration/load_config.py:93-118 | config_files is exactly this list: the files of the list, the last one first, then file by file what the includes of each have left there |
| LoadConfig.ListedAsOftenAsRead | freqtrade/configuration/load_config.py:103-118 | so without standard input every file is listed exactly as often as it is read |
| EnvVars.FlatVarsToNestedDict | freqtrade/configuration/environment_vars.py:37-73 | the loop over variables builds the fold of single-branch trees, or raises when one branch runs through a value |
| EnvVars.VariableGoesToItsPath | freqtrade/configuration/environment_vars.py:52-71 | a variable named by prefix and parts goes to the path of the parts in lower case, the last one as written under ccxt sections of the exchange, with its value typed but for chat ids and passwords |
| EnvVars.SplitJoin | freqtrade/configuration/environment_vars.py:53 | splitting undoes joining for parts that can be told apart |
| EnvVars.LowerCase | freqtrade/configuration/environment_vars.py:63 | lower case keeps the length, changes capital letters and nothing else |
| EnvVars.OnlyPrefixedCount | freqtrade/configuration/environment_vars.py:49-50 | all variables with the prefix count, and no others |
| EnvVars.LeavesExactly | freqtrade/configuration/environment_vars.py:37-73 | when no path is a prefix of another, every variable is found at its path and there is no other leaf |
| EnvVars.OrderDoesNotMatter | freqtrade/configuration/environment_vars.py:49-73 | reordering such variables gives the same tree |
| TradeOrders.AtMostOneOpen | freqtrade/persistence/trade_model.py:586-639 | if only the last regular order can be open, at most one is reported open, and none exactly when has_open_orders is false |
| TradeOrders.OpenIdsExactly | freqtrade/persistence/trade_model.py:586-592 | the orders reported as open are exactly the open regular ones |
| TradeOrders.OpenStopIdsExactly | freqtrade/persistence/trade_model.py:610-615 | and the stoploss orders reported as open exactly the open stoploss ones |
| TradeOrders.SelectOpenIsLatest | freqtrade/persistence/trade_model.py:1352-1377 | the order selected is the latest open one of the side, and there is none only if none is open |
| TradeOrders.OneSuccessfulEntryIsEnough | freqtrade/persistence/trade_model.py:1379-1455 | an entry is successful exactly if it is over and something was filled; a single one counts, wherever it stands |
| TradeOrders.RecordIsTakenOver | freqtrade/persistence/trade_model.py:197-229 | a record is taken over field by field as far as it goes, by its own row, which counts as open unless its latest status is final |
| TradeOrders.NewRow | freqtrade/persistence/trade_model.py:341-362 | a new row keeps what was asked for and is open unless the exchange says otherwise at once |
| TradeOrders.UpdateKeepsSound | freqtrade/persistence/trade_model.py:197-229 | a record that does not reopen its row cannot make a second order open, and touches no other |
| TradeOrders.UpdateSoundExactly | freqtrade/persistence/trade_model.py:197-229 | the records that break the invariant are exactly those that leave an order open which others have followed |
| TradeOrders.OpenOrderDoesNotSaveTrade | freqtrade/persistence/trade_model.py:1449-1455 | an open order does not count as a successful entry, so a trade can have an open order and no entry at once |
| TradeOrders.ClosedOnlyByRecord | freqtrade/persistence/trade_model.py:205-224 | an order stops being open only through a record of its own with a final status |
| TradeOrders.AppendSoundExactly | freqtrade/freqtradebot.py:1852-1885 | placing an order keeps the invariant exactly when no regular order is open |
| TradingBot.Bot.HandleSimilarOpenOrder | freqtrade/freqtradebot.py:1852-1885 | an open order just like the new one is kept; otherwise every open order is looked up and cancelled, and the answer is whether a regular order is left open; the trade is never deleted |
| TradingBot.Bot.CancelOpenOrdersOfTrade | freqtrade/freqtradebot.py:1814-1837 | every open order is looked up, and cancelled if it is unfinished, unfilled and of the sides asked for; only orders that were open change, and the trade is deleted only with no successful entry, through the entry side and not in a replacement |
| TradingBot.Bot.LookUpAndCancel | freqtrade/freqtradebot.py:1825-1837 | the same for one order |
| TradingBot.Bot.HandleCancelEnter | freqtrade/freqtradebot.py:1887-1976 | a final record with something filled keeps the trade; one with nothing filled deletes it exactly when it is not replaced, no other order is open and no entry was successful; a refused cancel deletes nothing; an unfilled open order is sent a cancel |
| TradingBot.Bot.CancelEntryOrder | freqtrade/freqtradebot.py:1887-1943 | an order that is over is handed on without a request; any other is sent one cancel, unless it is filled in part, and in a replacement looked up three more times while it stays open; the record handed on is final |
| TradingBot.Bot.HandleCancelExit | freqtrade/freqtradebot.py:1978-2054 | touches its own order only; an unfilled open order is sent a cancel, one that is over is only taken over and not reported as cancelled |
| TradingBot.Bot.ExecuteEntry | freqtrade/freqtradebot.py:883-1101 | a further entry order is stored only behind closed ones, for what was asked; without success the strategy declined, an order stayed open after all of them were handled, or the exchange turned it down |
| TradingBot.Bot.EnterNewTrade | freqtrade/freqtradebot.py:883-1101 | a new trade starts with one sound order for what was asked; without one the strategy declined or the exchange turned it down |
| TradingBot.Bot.AfterEntry | freqtrade/freqtradebot.py:1064-1101 | an entry that is over at once and unfilled takes a new trade along; any other keeps it |
| TradingBot.Bot.ExecuteTradeExit | freqtrade/freqtradebot.py:2092-2215 | an exit order is stored only behind closed ones, for what was asked, and after the stoploss orders were cancelled where they block; without success the strategy declined, an order stayed open after all of them were handled, or it was sent and lacked the funds |
| TradingBot.Bot.HandleCancelOrder | freqtrade/freqtradebot.py:1644-1682 | orders of the entry side are cancelled as entries, with their deletions, all others as exits, which never delete; an unfilled open order is sent a cancel; the invariant holds, emergency exit included |
| TradingBot.Bot.HandleReplaceOrder | freqtrade/freqtradebot.py:1761-1812 | the old order is cancelled first and a new one stored for the new price, or the replacement fails, and then the trade is deleted exactly if no entry was successful; an order that was over already is not replaced, except an unfilled entry, for which a new order is tried |
| TradingBot.Bot.ReplaceOrderFailed | freqtrade/freqtradebot.py:1684-1700 | a failed replacement deletes the trade exactly if no entry was ever filled, and not at all if it raises before |
| TradingBot.Bot.ManageOpenOrders | freqtrade/freqtradebot.py:1611-1642 | one pass looks every open order up, deletes the trade only with no successful entry, and keeps the invariant |
| TradingBot.Bot.ManageOpenOrder | freqtrade/freqtradebot.py:1630-1642 | an order found finished is only taken over, one found cancelled and unfilled takes a trade along that holds nothing else, and an unfilled one that timed out is sent a cancel |
| TradingBot.Bot.UpdateTradeState | freqtrade/freqtradebot.py:2348-2400 | a record of a final status closes its order; other regular orders stay as they are |
| TradingBot.Bot.CancelStoplossOnExchange | freqtrade/freqtradebot.py:1103-1125 | cancels every open stoploss order unless one fails; the recursion with update_trade_state ends and leaves regular orders as they are |
| TradingBot.Bot.HandleStoplossOnExchange | freqtrade/freqtradebot.py:1476-1609 | every open stoploss order is looked up, and for an open position without one a new one is asked for unless an open order blocks it; regular orders keep the invariant |
| TradingBot.Bot.SecureTrade | freqtrade/freqtradebot.py:1511-1571 | the same when all stoploss orders that were found are cancelled |
| TradingBot.Bot.MoveStoploss | freqtrade/freqtradebot.py:1573-1609 | all open stoploss orders are cancelled, and unless that closed the trade a new one is asked for |
| TradingBot.Bot.CreateStoplossOrder | freqtrade/freqtradebot.py:1440-1474 | a stoploss order is asked for in any case, and stored for the whole amount if it is accepted |
| TradingBot.Bot.TryExits | freqtrade/freqtradebot.py:1405-1438 | the exchange or the strategy is asked exactly if an exit reason holds, and without one nothing changes |
| TradingBot.Bot.HandleInsufficientFunds | freqtrade/freqtradebot.py:491-515 | every open order is looked up again, and the invariant holds |
| TradingBot.Bot.AdjustPosition | freqtrade/freqtradebot.py:754-849 | a wanted increase tries an entry and a wanted decrease an exit, of that amount and through the same gates; without a wish or against the limits nothing happens |
| TradingBot.Bot.ForceExit | freqtrade/rpc/rpc.py:1025-1085 | all open orders are handled first; without open orders an exit is always tried, and an answer of success means that it was sent, declined by the strategy or stopped by an order still open |
| TradingBot.Bot.CancelOpenOrder | freqtrade/rpc/rpc.py:1222-1248 | the remote cancel handles every open order, deletes the trade only with no successful entry, and keeps the invariant |
| TradingBot.Bot.StartupUpdateOpenOrders | freqtrade/freqtradebot.py:403-448 | at startup every open order is looked up; orders unknown to the exchange included, the invariant holds |
| TradingBot.Bot.UpdateFees | freqtrade/freqtradebot.py:450-489 | a late record of a filled order is taken over, unknown orders are passed over, and the invariant holds as long as the record does not reopen it |
| TradingBot.Bot.AnyHistory | freqtrade/freqtradebot.py:883-2215 | over any history of one trade at most one regular order is open, closed ones stay closed, and none was asked for while another was open |
| EntrySlots.EnterPositions | freqtrade/freqtradebot.py:614-670 | the loop over the whitelist is the recursive run over the pairs without open trades |
| EntrySlots.EnterAllKeeps | freqtrade/freqtradebot.py:614-687 | entering keeps the slot limit and distinct pairs, even with stale slot counts, late failures and concurrent closes |
| EntrySlots.RunKeepsSlotsAndPairs | freqtrade/freqtradebot.py:339-366 | so does every run of whitelist refreshes, entries and closes |
| EntrySlots.SlotsAreUsed | freqtrade/freqtradebot.py:650-670 | when every attempt enters or leaves nothing behind, exactly the first pairs that can be entered are open afterwards, each counted, until the counted slots or the room in the table are used up |
| EntrySlots.FreeSlotsAreFilled | freqtrade/freqtradebot.py:360-366 | one round with the free slots counted by the bot opens as many trades as can be entered or as the limit allows, whichever is less, and all of them without a limit |
| EntrySlots.OperationalErrorEnds | freqtrade/freqtradebot.py:657-664 | an operational error ends the round at its pair |
| EntrySlots.OnlyOperationalErrorsEscape | freqtrade/freqtradebot.py:663-664 | no other ending lets an error out |
| EntrySlots.WhitelistCovers | freqtrade/freqtradebot.py:338-358 | the active whitelist is the pairlist followed by the open pairs it lacks |
| EntrySlots.OpenPairsExactly | freqtrade/freqtradebot.py:626-630 | the open pairs are those of the open rows |
| EntrySlots.OpenCountExactly | freqtrade/freqtradebot.py:365 | and the open trades are counted row by row |
| EntrySlots.CloseExactly | freqtrade/freqtradebot.py:655 | trades closed by other threads close in the table, and no others |
| EntrySlots.FullTableAddsNothing | freqtrade/freqtradebot.py:685-687 | with no free slot nothing is entered or counted, whatever the counted slots say |
| EntrySlots.CountedSlotsAreNotEnough | freqtrade/freqtradebot.py:650-668 | an entry that fails after it was stored goes uncounted, and the second look keeps the others out |
| Wallets.Account.UpdateDry | freqtrade/wallets.py:105-183 | the rebuilt balances and positions are those of the trade table, currency by currency, and in every wallet free and used make the total, in the stake wallet up to the balances converted for cross margin |
| Wallets.Account.GetCollateral | freqtrade/wallets.py:82-92 | the loop over positions returns free stake plus all collateral in cross mode, the total otherwise |
| Wallets.Account.GetStartingBalance | freqtrade/wallets.py:277-290 | the starting balance of the trade table the wallets were synced with |
| Wallets.CoinsAreHeld | freqtrade/wallets.py:126-144 | on the spot market a coin wallet holds the start balance plus all that open trades bought |
| Wallets.StakeWalletIs | freqtrade/wallets.py:113-177 | free stake and the stakes of open trades make up start capital and all profit; in futures mode the total is that whatever is open, on the spot market it adds to free only what open entry orders have set aside |
| Wallets.CoinWalletIs | freqtrade/wallets.py:126-144 | a traded coin counts in full in the total, and what open exit orders offer is used and not free |
| Wallets.UntouchedWalletIs | freqtrade/wallets.py:178-180 | any other coin has its start balance, if it has one |
| Wallets.PositionsExactly | freqtrade/wallets.py:145-153 | the positions are those of the open trades |
| Wallets.ConvertedExactly | freqtrade/wallets.py:157-168 | in cross margin each other currency counts at its rate, and for nothing without a rate |
| Wallets.EachOrderCounts | freqtrade/wallets.py:129-137 | an open entry order counts with its stake and an open exit order with its amount, if known, whatever orders there are besides |
| Wallets.EachTradeCounts | freqtrade/wallets.py:121-122 | each open trade counts once with its stake, its realised profit and what its entry orders set aside |
| Wallets.EachProfitCounts | freqtrade/wallets.py:116-120 | each closed profit counts once |
| Wallets.CollateralOtherwise | freqtrade/wallets.py:86-92 | without cross margin the collateral is the total of the stake currency, in cross mode on the spot market what is free |
| Wallets.CollateralConserved | freqtrade/wallets.py:82-92 | in cross futures mode the collateral is start capital, realised profit and converted balances, whatever is open |
| Wallets.StartingBalanceIsConstant | freqtrade/wallets.py:277-290 | without a fixed capital it is the tradable part of start capital, converted balances and open realised profit, so constant without partial exits |
| StakeSizing.UnlimitedStakesAreEqual | freqtrade/wallets.py:292-384 | as many entries as slots get equal shares, exactly when the last share fits the amend rule; then everything is tied up and a further entry gets nothing |
| StakeSizing.EachEntryGetsItsPart | freqtrade/wallets.py:325-384 | each share is capital times ratio over slots, and together they tie up capital times ratio |
| StakeSizing.EachEntryGetsItsPartOfFixedCapital | freqtrade/wallets.py:299-303 | with a fixed capital each share is capital and closed profit over slots |
| StakeSizing.AvailableExactly | freqtrade/wallets.py:292-323 | what is available is what is free or what the total leaves beside what is tied up, whichever is less |
| StakeSizing.UnlimitedStakeIs | freqtrade/wallets.py:325-337 | an unlimited stake is an equal share of what is available and tied up, as far as it is available; without a limit on trades no stake is left |
| StakeSizing.StakeIsExactly | freqtrade/wallets.py:339-384 | the stake of the next trade in every case: what is wanted, what is left of it, nothing, or an error |
| StakeSizing.StakeRefusedExactly | freqtrade/wallets.py:339-384 | exactly when sizing a stake raises, with and without amending; otherwise the stake is within what is available |
| StakeSizing.ValidateStakeAmount | freqtrade/wallets.py:386-435 | the branches compute the stake raised to the minimum and cut to the allowed maximum, or nothing |
| StakeSizing.ValidStakeIs | freqtrade/wallets.py:396-435 | a wanted stake is raised to the minimum by at most thirty percent and cut to what is allowed; out of reach of the minimum there is none |
| StakeSizing.MaxAllowedExactly | freqtrade/wallets.py:401-406 | the most allowed is the sharpest of maximum, what is available, and in a trade what the maximum leaves |
| StakeSizing.ValidStakeFits | freqtrade/wallets.py:386-435 | a positive result respects minimum, maximum and the thirty percent cap, and entering with it exceeds neither the total nor what is free |
| StakeSizing.NegativeExactly | freqtrade/wallets.py:401-435 | the result is negative exactly when nothing is allowed and no minimum stops the entry |
| StakeSizing.ExitStaysWithinExactly | freqtrade/wallets.py:292-323 | an exit keeps all funds within their means exactly when it loses no more than its stake, in the free balance and in what the total is made of |
| StakeSizing.RunsStayWithinExactly | freqtrade/wallets.py:292-323 | over every run of validated entries and of exits the tied-up stake stays within the total and free stake above zero, exactly when all exits are of that kind |
| StakeSizing.ExitsAreSafe | freqtrade/wallets.py:305-311 | without a fixed capital that is every exit that loses no more than its stake |
| StakeSizing.ClosingStaysWithinExactly | freqtrade/wallets.py:300-303 | under a fixed capital, closing a trade keeps every trade table within its means exactly when neither this exit nor all the trade made loses more than the stake it still has |
| StakeSizing.LateLossesBreakFixedCapital | freqtrade/wallets.py:299-303 | a run of a partial loss, a new entry and a close that ties up more than the fixed capital |
| StakeSizing.EntryOnLedger | freqtrade/wallets.py:105-183 | adding a trade to the table moves its stake from free to tied |
| StakeSizing.CloseOnLedger | freqtrade/wallets.py:116-123 | closing a trade frees its stake and books all it ever made |
| StakeSizing.PartialExitOnLedger | freqtrade/wallets.py:116-123 | a partial exit frees stake and profit and books nothing |
| ExchangeWs.ScheduledExactly | freqtrade/exchange/exchange_ws.py:154-256 | under every interleaving the scheduled set is the keys of the unreleased tasks plus the key being scheduled, one task a key |
| ExchangeWs.FreshnessBelongsToWatchers | freqtrade/exchange/exchange_ws.py:101-107 | unless a stop callback is mid-way, every refresh time belongs to a scheduled key |
| ExchangeWs.RequestedKeyIsWatched | freqtrade/exchange/exchange_ws.py:258-270 | a requested key is on the watch list at once and stays there until its deadline has passed at a cleanup, the program ends or its own watcher leaves; so it is part of the next round |
| ExchangeWs.RequestedKeyIsScheduled | freqtrade/exchange/exchange_ws.py:154-178 | however the threads interleave, the first complete round after the request leaves the key scheduled |
| ExchangeWs.NeverStuck | freqtrade/exchange/exchange_ws.py:154-256 | under every interleaving the loop can go on with what it is doing, and when it is idle every task can move |
| ExchangeWs.UnwatchedWatcherLeaves | freqtrade/exchange/exchange_ws.py:234-250 | a failed request, and an answer for a key no longer watched, lead a task to its end; any other answer leads back to waiting |
| ExchangeWs.LeavingWatcherIsReleased | freqtrade/exchange/exchange_ws.py:208-256 | a leaving task runs through its end and its stop callback, after which nothing of it is left and its key can be scheduled anew |
| ExchangeWs.RoundSchedulesSnapshot | freqtrade/exchange/exchange_ws.py:154-178 | a completed round leaves every key of its snapshot scheduled, and watched by a live task unless its task had just finished |
| ExchangeWs.RoundHoldsTasks | freqtrade/exchange/exchange_ws.py:154-178 | while a round is on no task moves, whatever the bot thread does |
| ExchangeWs.StepKeepsInv | freqtrade/exchange/exchange_ws.py:134-270 | every lock section of either thread keeps the invariant |
| ExchangeWs.ExchangeWS.ScheduleOhlcv | freqtrade/exchange/exchange_ws.py:265-267 | the key is watched and its request time is now |
| ExchangeWs.ExchangeWS.Cleanup | freqtrade/exchange/exchange_ws.py:67-68 | the watch list is emptied, and only that |
| ExchangeWs.ExchangeWS.CleanupExpired | freqtrade/exchange/exchange_ws.py:134-152 | a key stays watched exactly if it was never requested or its last request is no longer ago than its timeframe and twenty seconds; the others lose their refresh times |
| ExchangeWs.ExchangeWS.ScheduleNext | freqtrade/exchange/exchange_ws.py:159-164 | afterwards the key is scheduled in any case, and where it was not before no task has it yet; the invariant holds |
| ExchangeWs.ExchangeWS.WatchOhlcv | freqtrade/exchange/exchange_ws.py:234-256 | the next phase of the task in every case; it goes on only while its key is watched, refreshes its own key only, takes it off the watch list when it leaves, and touches neither the schedule nor another task; the invariant holds |
| ExchangeWs.ExchangeWS.ContinuousStopped | freqtrade/exchange/exchange_ws.py:208-232 | once released, a key has no task and can be scheduled anew; once its history is popped, every refresh time is again that of a scheduled key; the invariant holds |
| ExchangeWs.ExchangeWS.Interleave | freqtrade/exchange/exchange_ws.py:134-270 | the object driven through any interleaving ends in the state of the abstract run, with the invariant |
| ProducerStore.DataProvider.AddExternalDf | freqtrade/data/dataprovider.py:172-253 | 100 rows or more replace the series whatever was there; fewer need a series they join, else the answer is 1000 or the whole candles missing; joined, they take the place of the rows from their first date on, with the latest 1500 rows kept; only their own series changes |
| ProducerStore.JudgeAnswers | freqtrade/data/dataprovider.py:191-252 | the verdict on a frame meets the same promise |
| ProducerStore.SeriesExistsExactly | freqtrade/data/dataprovider.py:196-218 | a series exists exactly when a whole frame has come in, and right after one it is that frame |
| ProducerStore.BeforeIsFilter | freqtrade/data/dataprovider.py:227-228 | the rows kept are those older than the frame, in their order |
| ProducerStore.DataProvider.GetProducerDf | freqtrade/data/dataprovider.py:255-287 | the stored series, or an empty frame dated 1970 |
| ProducerStore.DataProvider.ReceiveAll | freqtrade/data/dataprovider.py:172-253 | frames of one series in a row leave the series of the abstract run |
| ProducerStore.AppendCandles | freqtrade/misc.py:255-270 | the result has at most 1500 rows, ends on the date of the appended frame, and is a suffix of both frames joined, or of the left one where both end on that date |
| ProducerStore.StoredIsSuffixOfLog | freqtrade/data/dataprovider.py:227-252 | over every run of frames the stored series is at all times a suffix of the uncapped log exactly when no accepted frame is lost |
| ProducerStore.ForwardFramesAreKept | freqtrade/data/dataprovider.py:227-252 | so it always is for frames that do not end before they start |
| ProducerStore.LostExactly | freqtrade/misc.py:263-264 | an accepted frame leaves the series a suffix of the log exactly when it is not lost; it is lost when it ends on the date of the last row kept and does more than repeat the rows kept |
| ProducerStore.BackwardFrameIsLost | freqtrade/misc.py:263-264 | a family of two-row frames that are accepted and leave the series as it was |
| ProducerStore.WindowIsCapped | freqtrade/misc.py:266-267 | only a series sent whole can be longer than 1500 rows |
| ProducerStore.StoreStaysContiguous | freqtrade/data/dataprovider.py:220-252 | frames without gaps on one grid leave a series without gap or repeated date |
| ProducerStore.RejectionTellsHowFarBack | freqtrade/data/dataprovider.py:230-238 | after a rejection with n missing, n more candles are accepted, and n - 1 more exactly when the gap is a whole number of candles |
| Archive.DateRange | freqtrade/exchange/binance_public_data.py:182-186 | the loop yields the recursive list of dates |
| Archive.DatesAreDaily | freqtrade/exchange/binance_public_data.py:182-186 | one date a day from the start up to the end, none left out |
| Archive.Chunks | freqtrade/misc.py:187-195 | full chunks and a rest that together are the list |
| Archive.DownloadDays | freqtrade/exchange/binance_public_data.py:108-170 | the nested loops with early return collect the days up to the first failure |
| Archive.DownloadArchive | freqtrade/exchange/binance_public_data.py:40-98 | the collected days restricted to the range, from the start and before both the end asked for and two days ago; nothing for an unknown pair or an empty range |
| Archive.ArchiveEndExactly | freqtrade/exchange/binance_public_data.py:70-77 | the range ends at the end asked for or two days ago, whichever is earlier, and a missing or zero end is two days ago |
| Archive.InRangeIsFilter | freqtrade/exchange/binance_public_data.py:93-96 | the rows kept are those of the range, in their order |
| Archive.LongestPrefix | freqtrade/exchange/binance_public_data.py:125-170 | stopping on 404 yields exactly the longest prefix of days that all succeed |
| Archive.MissingDaysAreSkipped | freqtrade/exchange/binance_public_data.py:161-170 | otherwise missing days are passed over and only a failure ends the download |
| Archive.ArchivedExactly | freqtrade/exchange/binance_public_data.py:49-66 | the archived candles are exactly those of the grid points from the requested start that the leading successful days cover, without a gap |
| Archive.GetHistoricOhlcvFast | freqtrade/exchange/binance.py:222-265 | the archive first and then REST, one candle after it; if days are whole and REST complete up to a limit, the result has the candles of all grid points from the start to that limit, or to the end of the archive where that is later, none missing and none twice |
| Archive.NoGapAtJoin | freqtrade/exchange/binance.py:246-265 | archive and REST candles join into those of all grid points from the start on, without gap or duplicate |
| Drawdown.SeriesIsTable | freqtrade/data/metrics.py:130-162 | every row holds the cumulative profit, its maximum so far and the fall from it, the zero row first |
| Drawdown.ReportIsExact | freqtrade/data/metrics.py:207-270 | every field of the report for both modes: the high is the first maximum up to the low, both at their dates, absolute and relative drawdown are the fall between them, and the current values are those of the last row |
| Drawdown.RelativeIsLargestShare | freqtrade/data/metrics.py:237-241 | the relative mode reports the largest relative fall also without a starting balance |
| Drawdown.ErrorsExactly | freqtrade/data/metrics.py:228-229 | there is no report exactly without trades, or with less than two balances |
| Drawdown.AbsoluteIsAllPairs | freqtrade/data/metrics.py:207-270 | the absolute drawdown is the maximum over all pairs of points, and the current one lies between zero and it |
| Drawdown.HighBeforeLow | freqtrade/data/metrics.py:237-259 | in both modes the high is not after the low and lies the reported drawdown above it |
| Drawdown.PointsWereReached | freqtrade/data/metrics.py:242-246 | the reported high and low values were really reached at the reported dates |
| Drawdown.RelativeIsLargest | freqtrade/data/metrics.py:237-255 | with a starting balance, the relative mode reports the largest fall in terms of the peak balance so far |
| Drawdown.RelativeIsAllPairs | freqtrade/data/metrics.py:138-141 | which is the maximum over all pairs of points as long as the account is never overdrawn |
| Drawdown.CurrentHighDateExactly | freqtrade/data/metrics.py:249-252 | the position reported for the current high belongs to it exactly when the last row is no new high |
| Drawdown.BalanceRows | freqtrade/data/metrics.py:497-531 | row by row, differences and starting balance give back peak, fall and relative fall of the balances |
| Drawdown.BalanceDrawdownIsDirect | freqtrade/data/metrics.py:497-531 | the drawdown from balances is the largest fall between any two of them |
| Drawdown.BalanceRelativeIsLargest | freqtrade/data/metrics.py:497-531 | the relative mode on balances reports the largest fall of a balance in terms of the highest one so far |
| Drawdown.BalanceReportIsExact | freqtrade/data/metrics.py:497-531 | in both modes the relative drawdowns are in terms of the balance at the high |
| JobQueue.OneJobAtATime | quantlab/services.py:103-162 | over every run with enqueues, cancels, crashes and recoveries at most one job is running |
| JobQueue.FinishedForGood | quantlab/services.py:137-162 | a done, failed or cancelled job stays as it is and never runs again |
| JobQueue.RequestIsForGood | quantlab/services.py:103-162 | a cancel request is never taken back along any run |
| JobQueue.CancelledNeverStarts | quantlab/api/app.py:424-432 | a job that is not running when its cancel is requested never runs |
| JobQueue.CancelledDoesNotRestart | quantlab/services.py:107-124 | one that a crash puts back in the queue does not run again either |
| JobQueue.ClaimTakesLowest | quantlab/services.py:115-124 | a claim takes the lowest queued id and no other, and starts or cancels it |
| JobQueue.RecoveryRequeuesExactlyRunning | quantlab/services.py:107-113 | recovery puts back exactly the running job, with no progress and a note but its kind, error and cancel request as they were |
| JobQueue.RunOneShrinksQueue | quantlab/services.py:137-162 | from claim to end the queue loses its lowest job and those cancelled meanwhile, so exactly one without cancels |
| JobQueue.JobRunner.RunOne | quantlab/services.py:126-162 | a run of the abstract queue, at whose end the job is cancelled exactly if it reported after a cancel request, else done or failed |
| JobQueue.CancelIsNoticed | quantlab/services.py:126-153 | a cancel request is noticed at the next report and then ends the job as cancelled; without such a report it is not |
| JobQueue.JobRunner.Interleave | quantlab/services.py:103-162 | runner, crashes, restarts and API driven through any interleaving end in the state of the abstract run |
| JobQueue.JobRunner.ClaimJob | quantlab/services.py:115-124 | the claim of the abstract queue, nothing when there is no job to run |
| JobQueue.JobRunner.RecoverJobs | quantlab/services.py:107-113 | the loop over running rows is the recovery of the abstract queue, with their number |
| JobQueue.JobRunner.CancelJob | quantlab/api/app.py:424-432 | a cancel request marks the job and cancels it at once if it is queued |
| JobQueue.JobRunner.Progress | quantlab/services.py:126-135 | a report is stored, or rolled back with the job told to stop, exactly when its cancel was requested |
| JobQueue.JobRunner.EndJob | quantlab/services.py:144-162 | a job ends as done with full progress, as failed with the message, or as cancelled, and keeps everything else |
| Worker.Worker.Init | freqtrade/worker.py:47-73 | a bot is built only from the configuration in use, after all three checks |
| Worker.Worker.RunChecks | freqtrade/worker.py:55-60 | all checks pass in order, or the first refusal ends it |
| Worker.Worker.DoWork | freqtrade/worker.py:91-151 | exactly the events of one pass: the state found, startup on becoming active, then processing, with the captured state returned |
| Worker.Worker.ProcessRunning | freqtrade/worker.py:205-220 | an operational error stops the bot, a temporary one does not |
| Worker.Worker.Run | freqtrade/worker.py:84-89 | every history is lawful, and the program runs all its passes unless an error gets through |
| Worker.OrderlyIsLawful | freqtrade/worker.py:84-151 | in every history each pass goes by the state in force, no pass starts before a reload found has built a new bot and an active state found has been processed, bots process only when found active and after their startup, start up once while active, come only from a checked configuration, and stop on a failure until the next command |
| Worker.Worker.Turn | freqtrade/worker.py:84-89 | one pass with its reload settles what it found, counts once, and ends the program only on an error |
| Liquidation.BinanceLiquidationPrice | freqtrade/exchange/binance.py:335-381 | the loop over the other trades and the formula, with both errors |
| Liquidation.BinanceIsThreshold | freqtrade/exchange/binance.py:366-377 | wallet, contribution of other trades and profit cover the maintenance margin exactly on the safe side of the price |
| Liquidation.EachOtherTradeCounts | freqtrade/exchange/binance.py:341-364 | each other trade counts with its move less its maintenance margin, which the maintenance amount reduces |
| Liquidation.BinanceCoversAccount | freqtrade/exchange/binance.py:335-377 | for the account as a whole: when the moves of other shorts cancel out, wallet and all profits cover all maintenance margins exactly on the safe side |
| Liquidation.CrossVarsRightExactly | freqtrade/exchange/binance.py:341-364 | the contribution of other trades is right exactly when the moves of other shorts cancel out |
| Liquidation.BitgetIsThreshold | freqtrade/exchange/bitget.py:242-253 | margin and profit cover maintenance margin and closing fee exactly on the safe side of the price |
| Liquidation.TakerFeeIs | freqtrade/exchange/bitget.py:243-245 | the fee of the market, else that of the exchange, else one per mille |
| Liquidation.BybitIsThreshold | freqtrade/exchange/bybit.py:221-236 | initial margin and profit cover the maintenance margin at entry exactly on the safe side of the price |
| Liquidation.HyperliquidIsThreshold | freqtrade/exchange/hyperliquid.py:255-297 | in isolated mode with the stake and in cross mode with the wallet, margin and profit cover the value over twice the maximum leverage exactly on the safe side |
| Liquidation.RefusedExactly | freqtrade/exchange/bitget.py:248-257 | Bitget and Bybit have a price exactly for isolated futures, Bybit none for inverse contracts, Hyperliquid for both margin modes |

## Left out

- Network, ccxt, websocket transport, zip and CSV parsing, database sessions and transactions: their results are
  parameters or nondeterministic choices.
- Float rounding, NaN and infinity: amounts are exact reals, and a relative drawdown that would divide by zero is
  absent. In relative mode results are stated for a positive starting balance.
- TradingBot.Bot.Recalculate: does not model the amounts that `update_trade` and `recalc_trade_from_orders`
  compute; amounts move freely and a trade may close, since the order invariant does not depend on them.
- TradingBot.Bot.AnyStep: trusts the exchange on one point, that an order it has finished is not reported as
  unfinished when fee detection asks again.
- TradingBot.Bot.ForceExit: does not model the check that a partial exit leaves enough; price and amount are given.
- TradingBot.Bot.HandleReplaceOrder: for an exit order it does not promise that a new exit is tried once the old one
  is cancelled, because what comes before may fail in ways that end the replacement.
- TradingBot.Bot.UpdateTradeState: fees, wallets, liquidation prices and notifications are steps that may fail, and
  nothing else. The same goes for the reasons noted for a cancel, and for dates.
- TradeOrders.Parse: an asked price or amount of zero is kept; the program would take those of the exchange.
- TradingBot.Bot.AnyHistory: does not cover the recovery of unknown orders from the exchange's history
  (`handle_onexchange_order`), which adds rows outside the gates.
- TradingBot.Bot.ExecuteEntry: does not model how price, stake and leverage are chosen, order time in force, or
  the depth-of-market check; StakeSizing covers the stake.
- EntrySlots.RunKeepsSlotsAndPairs: does not cover forced entries by remote command, which check the slots before
  they take the lock.
- EntrySlots.EnterAll: does not model signals, pair locks per side or protections; they only make an attempt not
  enter.
- Wallets.Account.UpdateDry: does not model the backtest's own profit counter; the profit of closed trades comes
  from the trade table.
- Live balances (`_update_live`), which copy what the exchange reports.
- LoadConfig.LoadFromFiles: does not model reading standard input a second time, and treats an include list that is
  no list of names as an error of its own.
- EnvVars.FlatVarsToNestedDict: takes the variables in the order given, which the program sorts first; lower-casing
  covers ASCII letters, and the typing of a value (`_get_var_typed`) is a parameter.
- ExchangeWs: does not model the candle cache that `_pop_history` also clears, the unwatch request to the exchange,
  or the shutdown of the loop.
- Archive: the log messages that tell a missing first day from a later one, and retries of a single day.
- ProducerStore: pairlists of producers and the message protocol that requests missing candles.
- Drawdown: takes its rows in date order; sorting, and the filtering of balance snapshots, come before.
- JobQueue: does not model what each kind of job does, rounding of progress, timestamps, the records related to a
  job, or failing status writes.
- Worker: does not model throttling, heartbeats, notifications and clean-up.
- Bybit, Bitget and Hyperliquid outside futures, and the tables of maintenance rates.
- The other strategy, pairlist, optimisation, user interface, plotting and command-line code: no property that spans
  several functions in the sense above.
