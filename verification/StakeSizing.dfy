/**
 Sizing of entries in freqtrade/wallets.py: how much of the balance the next trade may take, and why no run
 of entries and exits ties up more than allowed.
 */
module StakeSizing {
  import opened Outcomes
  import opened Wallets
  import E = EntrySlots

  // The part of the configuration that sizes entries. No stake amount stands for "unlimited".
  datatype Sizing = Sizing(
    availableCapital: Option<real>,
    tradableRatio: real,
    stakeAmount: Option<real>,
    amendLast: bool,
    lastMinRatio: real)

  // Stake tied up in open trades, free stake, and the profit of closed trades.
  datatype Funds = Funds(tied: real, free: real, closedProfit: real)

  datatype Error = BalanceTooLow

  function Min(x: real, y: real): real {
    if x <= y then x else y
  }

  function Max(x: real, y: real): real {
    if x >= y then x else y
  }

  // get_total_stake_amount
  function TotalStake(z: Sizing, f: Funds): real {
    if z.availableCapital.Some? then z.availableCapital.value + f.closedProfit
    else (f.tied + f.free) * z.tradableRatio
  }

  // get_available_stake_amount
  function Available(z: Sizing, f: Funds): real {
    Min(TotalStake(z, f) - f.tied, f.free)
  }

  // _calculate_unlimited_stake_amount
  function UnlimitedStake(available: real, tied: real, maxOpenTrades: E.Slots): real {
    if maxOpenTrades == E.Limited(0) then 0.0
    else if maxOpenTrades.Unlimited? then Min(0.0, available)
    else Min((available + tied) / maxOpenTrades.n as real, available)
  }

  // _check_available_stake_amount
  function CheckAvailable(z: Sizing, stake: real, available: real): Result<real, Error> {
    var amended :=
      if !z.amendLast then stake
      else if available > stake * z.lastMinRatio then Min(stake, available)
      else 0.0;
    if available < amended then Err(BalanceTooLow) else Ok(Max(amended, 0.0))
  }

  // The stake asked for: the configured one, or an equal share of everything.
  function WantedStake(z: Sizing, f: Funds, maxOpenTrades: E.Slots): real {
    if z.stakeAmount.Some? then z.stakeAmount.value else UnlimitedStake(Available(z, f), f.tied, maxOpenTrades)
  }

  // get_trade_stake_amount
  function TradeStake(z: Sizing, f: Funds, maxOpenTrades: E.Slots): Result<real, Error> {
    CheckAvailable(z, WantedStake(z, f, maxOpenTrades), Available(z, f))
  }

  // Sizing raises exactly when the wanted stake exceeds what is available and may not be amended, or when it may
  // be but less than nothing is left; otherwise the result fits.
  lemma StakeRefusedExactly(z: Sizing, f: Funds, maxOpenTrades: E.Slots)
    ensures var r, available := TradeStake(z, f, maxOpenTrades), Available(z, f);
            var wanted := WantedStake(z, f, maxOpenTrades);
            && (r.Err? <==> if z.amendLast then available < 0.0 && available <= wanted * z.lastMinRatio
                            else available < wanted)
            && (r.Ok? ==> r.value >= 0.0 && (r.value > 0.0 ==> r.value <= available && r.value <= wanted))
  {
  }

  // The smaller of two amounts.
  predicate IsLower(m: real, a: real, b: real) {
    m <= a && m <= b && (m == a || m == b)
  }

  // What is available: no more than is free, and no more than the total leaves beside what is tied up. The total is
  // the fixed capital with all closed profit, or else the tradable part of everything.
  lemma AvailableExactly(z: Sizing, f: Funds)
    ensures z.availableCapital.Some? ==>
              IsLower(Available(z, f), f.free, z.availableCapital.value + f.closedProfit - f.tied)
    ensures z.availableCapital.None? ==>
              IsLower(Available(z, f), f.free, z.tradableRatio * (f.tied + f.free) - f.tied)
  {
  }

  function Times(k: nat, x: real): real {
    k as real * x
  }

  // An unlimited stake is the share of everything that is available or tied up, as far as it is available. Without a
  // limit on the trades no share is left.
  lemma UnlimitedStakeIs(z: Sizing, f: Funds, n: nat)
    requires z.stakeAmount.None?
    ensures WantedStake(z, f, E.Limited(0)) == 0.0
    ensures n > 0 ==>
              IsLower(Times(n, WantedStake(z, f, E.Limited(n))), Available(z, f) + f.tied, Times(n, Available(z, f)))
    ensures TradeStake(z, f, E.Unlimited).Ok? ==> TradeStake(z, f, E.Unlimited) == Ok(0.0)
  {
    if n > 0 {
      EqualPart(Available(z, f), f.tied, n);
    }
  }

  lemma EqualPart(available: real, tied: real, n: nat)
    requires n > 0
    ensures IsLower(Times(n, UnlimitedStake(available, tied, E.Limited(n))), available + tied, Times(n, available))
  {
    var part := (available + tied) / n as real;
    assert Times(n, part) == available + tied by {
      TimesDivided(n, available + tied);
    }
    TimesOrdered(n, part, available);
    TimesOrdered(n, available, part);
  }

  lemma TimesDivided(n: nat, x: real)
    requires n > 0
    ensures n as real * (x / n as real) == x
  {
  }

  lemma TimesOrdered(n: nat, x: real, y: real)
    requires n > 0
    ensures x <= y ==> Times(n, x) <= Times(n, y)
  {
    if x <= y {
      NonNegativeProduct(n as real, y - x);
      assert n as real * (y - x) == n as real * y - n as real * x;
    }
  }

  // The stake of the next trade. Where the last stake may be amended it is what is wanted, or what is left of it if
  // that is more than the smallest part allowed, or nothing. Where it may not, it is what is wanted or an error.
  lemma StakeIsExactly(z: Sizing, f: Funds, maxOpenTrades: E.Slots)
    ensures var r, available := TradeStake(z, f, maxOpenTrades), Available(z, f);
            var wanted := WantedStake(z, f, maxOpenTrades);
            if z.amendLast && available <= wanted * z.lastMinRatio then
              r == if available < 0.0 then Err(BalanceTooLow) else Ok(0.0)
            else if wanted <= available then r == Ok(if wanted > 0.0 then wanted else 0.0)
            else if z.amendLast then r == Ok(if available > 0.0 then available else 0.0)
            else r == Err(BalanceTooLow)
    ensures z.stakeAmount.Some? ==> WantedStake(z, f, maxOpenTrades) == z.stakeAmount.value
  {
  }

  // ---- unlimited stakes ----

  function Enter(f: Funds, stake: real): Funds {
    Funds(f.tied + stake, f.free - stake, f.closedProfit)
  }

  // The funds after `k` entries in a row, each with the stake sized for it, and the stake of the next.
  function AfterEntries(z: Sizing, f: Funds, slots: nat, k: nat): Funds {
    if k == 0 then f
    else
      var before := AfterEntries(z, f, slots, k - 1);
      var stake := TradeStake(z, before, E.Limited(slots));
      if stake.Ok? then Enter(before, stake.value) else before
  }

  function StakeOf(z: Sizing, f: Funds, slots: nat, k: nat): Result<real, Error> {
    TradeStake(z, AfterEntries(z, f, slots, k), E.Limited(slots))
  }

  ghost predicate EqualShares(z: Sizing, f: Funds, slots: nat, share: real, k: nat) {
    forall i :: 0 <= i < k ==> StakeOf(z, f, slots, i) == Ok(share)
  }

  // The last share is not refused for being exactly what is left.
  predicate LastShareFits(z: Sizing, share: real) {
    !z.amendLast || z.lastMinRatio < 1.0 || share == 0.0
  }

  // `share` goes `slots` times into the total.
  ghost predicate IsShare(z: Sizing, f: Funds, slots: nat, share: real) {
    slots > 0 && Times(slots, share) == TotalStake(z, f)
  }

  lemma OneMore(k: nat, x: real)
    ensures Times(k + 1, x) == Times(k, x) + x
  {
  }

  lemma {:induction false} TimesGrows(j: nat, k: nat, x: real)
    requires j <= k && x >= 0.0
    ensures 0.0 <= Times(j, x) <= Times(k, x)
    decreases k
  {
    if j < k {
      TimesGrows(j, k - 1, x);
      OneMore(k - 1, x);
    } else if j > 0 {
      TimesGrows(0, k - 1, x);
      OneMore(k - 1, x);
    }
  }

  lemma Divided(k: nat, x: real)
    requires k > 0
    ensures Times(k, x) / k as real == x
  {
  }

  // With no open trades and stake amount "unlimited", as many entries as there are slots get equal shares of
  // the total and tie up exactly the total, and any further entry gets nothing. This holds unless the last
  // stake may be amended but has to exceed a full share.
  lemma UnlimitedStakesAreEqual(z: Sizing, f: Funds, slots: nat, share: real)
    requires z.stakeAmount.None? && f.tied == 0.0 && IsShare(z, f, slots, share) && 0.0 <= TotalStake(z, f) <= f.free
    ensures EqualShares(z, f, slots, share, slots) <==> LastShareFits(z, share)
    ensures LastShareFits(z, share) ==>
              && AfterEntries(z, f, slots, slots).tied == TotalStake(z, f)
              && StakeOf(z, f, slots, slots) == Ok(0.0)
  {
    ShareNotNegative(slots, share);
    if LastShareFits(z, share) {
      SharesUpTo(z, f, slots, share, slots);
      SharesAddUp(z, f, slots, share, slots);
      TotalStands(z, f, Times(slots, share));
      NothingLeft(z, AfterEntries(z, f, slots, slots), slots, share);
    } else if EqualShares(z, f, slots, share, slots) {
      LastShareRefused(z, f, slots, share);
      assert false;
    }
  }

  // Every entry gets the part of the start capital that the tradable ratio and the number of slots give it.
  lemma EachEntryGetsItsPart(z: Sizing, capital: real, slots: nat, k: nat)
    requires z.stakeAmount.None? && z.availableCapital.None? && slots > k
    requires 0.0 <= z.tradableRatio <= 1.0 && capital >= 0.0
    requires LastShareFits(z, capital * z.tradableRatio / slots as real)
    ensures StakeOf(z, Funds(0.0, capital, 0.0), slots, k) == Ok(capital * z.tradableRatio / slots as real)
    ensures AfterEntries(z, Funds(0.0, capital, 0.0), slots, slots).tied == capital * z.tradableRatio
  {
    var total := capital * z.tradableRatio;
    var share := total / slots as real;
    NonNegativeProduct(capital, z.tradableRatio);
    NonNegativeProduct(capital, 1.0 - z.tradableRatio);
    assert capital * (1.0 - z.tradableRatio) == capital - total;
    assert Times(slots, share) == total;
    assert TotalStake(z, Funds(0.0, capital, 0.0)) == total;
    UnlimitedStakesAreEqual(z, Funds(0.0, capital, 0.0), slots, share);
  }

  // The same with a fixed capital, of which it gets an equal part together with the closed profit.
  lemma EachEntryGetsItsPartOfFixedCapital(z: Sizing, capital: real, free: real, closed: real, slots: nat, k: nat)
    requires z.stakeAmount.None? && z.availableCapital == Some(capital) && slots > k
    requires 0.0 <= capital + closed <= free && LastShareFits(z, (capital + closed) / slots as real)
    ensures StakeOf(z, Funds(0.0, free, closed), slots, k) == Ok((capital + closed) / slots as real)
    ensures AfterEntries(z, Funds(0.0, free, closed), slots, slots).tied == capital + closed
  {
    var share := (capital + closed) / slots as real;
    assert Times(slots, share) == capital + closed;
    UnlimitedStakesAreEqual(z, Funds(0.0, free, closed), slots, share);
  }

  lemma ShareNotNegative(slots: nat, share: real)
    requires slots > 0 && Times(slots, share) >= 0.0
    ensures share >= 0.0
  {
    Divided(slots, share);
  }

  lemma {:induction false} SharesAddUp(z: Sizing, f: Funds, slots: nat, share: real, k: nat)
    requires EqualShares(z, f, slots, share, k)
    ensures AfterEntries(z, f, slots, k) == Enter(f, Times(k, share))
  {
    if k > 0 {
      SharesAddUp(z, f, slots, share, k - 1);
      assert StakeOf(z, f, slots, k - 1) == Ok(share);
      OneMore(k - 1, share);
    }
  }

  lemma {:induction false} SharesUpTo(z: Sizing, f: Funds, slots: nat, share: real, k: nat)
    requires z.stakeAmount.None? && f.tied == 0.0 && k <= slots && IsShare(z, f, slots, share)
    requires 0.0 <= TotalStake(z, f) <= f.free && LastShareFits(z, share) && share >= 0.0
    ensures EqualShares(z, f, slots, share, k)
  {
    if k > 0 {
      SharesUpTo(z, f, slots, share, k - 1);
      SharesAddUp(z, f, slots, share, k - 1);
      NextShare(z, f, slots, share, k - 1);
    }
  }

  // Moving stake between tied and free leaves the total as it is.
  lemma TotalStands(z: Sizing, f: Funds, stake: real)
    ensures TotalStake(z, Enter(f, stake)) == TotalStake(z, f)
  {
    assert Enter(f, stake).tied + Enter(f, stake).free == f.tied + f.free;
  }

  lemma UnlimitedIsShare(available: real, tied: real, slots: nat, share: real)
    requires slots > 0 && available + tied == Times(slots, share)
    ensures UnlimitedStake(available, tied, E.Limited(slots)) == Min(share, available)
  {
    Divided(slots, share);
  }

  lemma NextShare(z: Sizing, f: Funds, slots: nat, share: real, k: nat)
    requires z.stakeAmount.None? && f.tied == 0.0 && k < slots && IsShare(z, f, slots, share)
    requires 0.0 <= TotalStake(z, f) <= f.free && LastShareFits(z, share) && share >= 0.0
    ensures TradeStake(z, Enter(f, Times(k, share)), E.Limited(slots)) == Ok(share)
  {
    var g := Enter(f, Times(k, share));
    TotalStands(z, f, Times(k, share));
    OneMore(k, share);
    TimesGrows(k + 1, slots, share);
    var available := Available(z, g);
    assert available == TotalStake(z, f) - g.tied >= share;
    UnlimitedIsShare(available, g.tied, slots, share);
    ShareAccepted(z, share, available);
  }

  lemma ShareAccepted(z: Sizing, share: real, available: real)
    requires 0.0 <= share <= available && LastShareFits(z, share)
    ensures CheckAvailable(z, share, available) == Ok(share)
  {
    if z.lastMinRatio < 1.0 && share > 0.0 {
      PositiveProduct(share, 1.0 - z.lastMinRatio);
      assert share * (1.0 - z.lastMinRatio) == share - share * z.lastMinRatio;
    }
  }

  lemma PositiveProduct(x: real, y: real)
    requires x > 0.0 && y > 0.0
    ensures x * y > 0.0
  {
  }

  lemma NonNegativeProduct(x: real, y: real)
    requires x >= 0.0 && y >= 0.0
    ensures x * y >= 0.0
  {
  }

  lemma NothingLeft(z: Sizing, g: Funds, slots: nat, share: real)
    requires z.stakeAmount.None? && slots > 0 && share >= 0.0 && g.free >= 0.0
    requires g.tied == Times(slots, share) == TotalStake(z, g)
    ensures TradeStake(z, g, E.Limited(slots)) == Ok(0.0)
  {
    UnlimitedIsShare(Available(z, g), g.tied, slots, share);
  }

  lemma LastShareRefused(z: Sizing, f: Funds, slots: nat, share: real)
    requires z.stakeAmount.None? && f.tied == 0.0 && IsShare(z, f, slots, share) && TotalStake(z, f) <= f.free
    requires !LastShareFits(z, share) && share >= 0.0 && EqualShares(z, f, slots, share, slots - 1)
    ensures StakeOf(z, f, slots, slots - 1) == Ok(0.0)
  {
    SharesAddUp(z, f, slots, share, slots - 1);
    OneMore(slots - 1, share);
    var g := Enter(f, Times(slots - 1, share));
    TotalStands(z, f, Times(slots - 1, share));
    assert Available(z, g) == share;
    UnlimitedIsShare(share, g.tied, slots, share);
    ShareRefused(z, share);
  }

  lemma ShareRefused(z: Sizing, share: real)
    requires !LastShareFits(z, share) && share >= 0.0
    ensures CheckAvailable(z, share, share) == Ok(0.0)
  {
    NonNegativeProduct(share, z.lastMinRatio - 1.0);
    assert share * (z.lastMinRatio - 1.0) == share * z.lastMinRatio - share;
  }

  // ---- validated stakes ----

  // The most that an entry may take; within a trade, the whole trade has to stay below the maximum.
  function MaxAllowed(z: Sizing, f: Funds, max: real, inTrade: Option<real>): real {
    var allowed := Min(max, Available(z, f));
    if inTrade.GetOr(0.0) != 0.0 then Min(allowed, max - inTrade.value) else allowed
  }

  function ValidStake(z: Sizing, f: Funds, stake: Option<real>, min: Option<real>, max: real, inTrade: Option<real>)
    : real
  {
    var allowed := MaxAllowed(z, f, max, inTrade);
    if stake.None? || stake.value <= 0.0 then 0.0
    else if min.Some? && (min.value > allowed || stake.value * 1.3 < min.value) then 0.0
    else Min(Max(stake.value, min.GetOr(stake.value)), allowed)
  }

  method ValidateStakeAmount(z: Sizing, f: Funds, stake: Option<real>, min: Option<real>, max: real,
                             inTrade: Option<real>)
    returns (r: real)
    ensures r == ValidStake(z, f, stake, min, max, inTrade)
  {
    if stake.None? || stake.value <= 0.0 {
      return 0.0;
    }
    var amount := stake.value;
    var allowed := Min(max, Available(z, f));
    if inTrade.Some? && inTrade.value != 0.0 {
      allowed := Min(allowed, max - inTrade.value);
    }
    if min.Some? && min.value > allowed {
      return 0.0;
    }
    if min.Some? && amount < min.value {
      if amount * 1.3 < min.value {
        return 0.0;
      }
      amount := min.value;
    }
    if amount > allowed {
      amount := allowed;
    }
    return amount;
  }

  // The most that is allowed keeps to the maximum and to what is available, and no limit is sharper than needed.
  lemma MaxAllowedExactly(z: Sizing, f: Funds, max: real, inTrade: Option<real>)
    ensures var allowed, available := MaxAllowed(z, f, max, inTrade), Available(z, f);
            if inTrade == None || inTrade == Some(0.0) then IsLower(allowed, max, available)
            else
              && allowed <= max && allowed <= available && allowed <= max - inTrade.value
              && (allowed == max || allowed == available || allowed == max - inTrade.value)
  {
  }

  // A stake that is wanted is raised to the minimum, by at most thirty per cent, and cut to what is allowed;
  // if the minimum is out of reach there is none.
  lemma ValidStakeIs(z: Sizing, f: Funds, stake: real, min: Option<real>, max: real, inTrade: Option<real>)
    ensures var v, allowed := ValidStake(z, f, Some(stake), min, max, inTrade), MaxAllowed(z, f, max, inTrade);
            if stake <= 0.0 || (min.Some? && (min.value > allowed || min.value > 1.3 * stake)) then v == 0.0
            else IsLower(v, allowed, if min.Some? && min.value > stake then min.value else stake)
    ensures ValidStake(z, f, None, min, max, inTrade) == 0.0
  {
  }

  // A positive result keeps to every limit at once.
  lemma ValidStakeFits(z: Sizing, f: Funds, stake: Option<real>, min: Option<real>, max: real, inTrade: Option<real>)
    requires ValidStake(z, f, stake, min, max, inTrade) > 0.0
    ensures var v := ValidStake(z, f, stake, min, max, inTrade);
            && stake.Some? && v <= 1.3 * stake.value && v <= max && (min.Some? ==> min.value <= v)
            && (inTrade.Some? && inTrade.value >= 0.0 ==> inTrade.value + v <= max)
            && Enter(f, v).tied <= TotalStake(z, Enter(f, v)) && Enter(f, v).free >= 0.0
  {
    TotalStands(z, f, ValidStake(z, f, stake, min, max, inTrade));
  }

  // The result falls below zero exactly when nothing at all is allowed and no minimum stops the entry.
  lemma NegativeExactly(z: Sizing, f: Funds, stake: Option<real>, min: Option<real>, max: real, inTrade: Option<real>)
    ensures ValidStake(z, f, stake, min, max, inTrade) < 0.0 <==>
            && stake.Some? && stake.value > 0.0
            && MaxAllowed(z, f, max, inTrade) < 0.0
            && (min.None? || (min.value <= MaxAllowed(z, f, max, inTrade)))
  {
  }

  // ---- runs of entries and exits ----

  // An exit gives back `freed` stake with `profit`, of which `booked` counts as closed profit: nothing while the
  // trade stays open, everything it ever made once it closes.
  datatype Move =
    | Entry(stake: Option<real>, min: Option<real>, max: real, inTrade: Option<real>)
    | Exit(freed: real, profit: real, booked: real)

  function Apply(z: Sizing, f: Funds, m: Move): Funds {
    match m
    case Entry(stake, min, max, inTrade) => Enter(f, ValidStake(z, f, stake, min, max, inTrade))
    case Exit(freed, profit, booked) => Funds(f.tied - freed, f.free + freed + profit, f.closedProfit + booked)
  }

  function After(z: Sizing, f: Funds, moves: seq<Move>): Funds {
    if moves == [] then f else Apply(z, After(z, f, moves[..|moves| - 1]), moves[|moves| - 1])
  }

  predicate WithinMeans(z: Sizing, f: Funds) {
    f.tied <= TotalStake(z, f) && f.free >= 0.0
  }

  lemma EntryStaysWithin(z: Sizing, f: Funds, m: Move)
    requires m.Entry? && WithinMeans(z, f)
    ensures WithinMeans(z, Apply(z, f, m))
  {
    TotalStands(z, f, ValidStake(z, f, m.stake, m.min, m.max, m.inTrade));
  }

  // An exit that loses no more than its stake, in the free balance and in what the total is made of: the booked
  // profit under a fixed capital, the tradable part of the profit otherwise.
  predicate SafeExit(z: Sizing, m: Move)
    requires m.Exit?
  {
    && m.profit >= -m.freed
    && if z.availableCapital.Some? then m.booked >= -m.freed else m.profit * z.tradableRatio >= -m.freed
  }

  lemma TotalAfterExit(z: Sizing, f: Funds, m: Move)
    requires m.Exit?
    ensures TotalStake(z, Apply(z, f, m)) ==
            TotalStake(z, f) + if z.availableCapital.Some? then m.booked else m.profit * z.tradableRatio
  {
    var r := z.tradableRatio;
    assert (f.tied + f.free + m.profit) * r == (f.tied + f.free) * r + m.profit * r;
    assert (f.tied - m.freed) + (f.free + m.freed + m.profit) == f.tied + f.free + m.profit;
  }

  // Funds with nothing to spare: everything allowed is tied up and nothing is free.
  function Exhausted(z: Sizing): Funds {
    if z.availableCapital.Some? then Funds(z.availableCapital.value, 0.0, 0.0) else Funds(0.0, 0.0, 0.0)
  }

  // An exit keeps all funds within their means exactly when it is safe.
  lemma ExitStaysWithinExactly(z: Sizing, m: Move)
    requires m.Exit?
    ensures SafeExit(z, m) <==> forall f :: WithinMeans(z, f) ==> WithinMeans(z, Apply(z, f, m))
  {
    forall f ensures TotalStake(z, Apply(z, f, m)) ==
                     TotalStake(z, f) + if z.availableCapital.Some? then m.booked else m.profit * z.tradableRatio
    {
      TotalAfterExit(z, f, m);
    }
    var f := Exhausted(z);
    assert TotalStake(z, f) == f.tied;
    assert WithinMeans(z, f) && (WithinMeans(z, Apply(z, f, m)) <==> SafeExit(z, m));
  }

  // Without a fixed capital every exit that loses no more than its stake is safe.
  lemma ExitsAreSafe(z: Sizing, m: Move)
    requires m.Exit? && z.availableCapital.None? && 0.0 <= z.tradableRatio <= 1.0
    requires m.freed >= 0.0 && m.profit >= -m.freed
    ensures SafeExit(z, m)
  {
    var r := z.tradableRatio;
    if m.profit < 0.0 {
      NonNegativeProduct(-m.profit, 1.0 - r);
      assert -m.profit * (1.0 - r) == -m.profit + m.profit * r;
    } else {
      NonNegativeProduct(m.profit, r);
    }
  }

  lemma {:induction false} RunStaysWithinMeans(z: Sizing, f: Funds, moves: seq<Move>)
    requires WithinMeans(z, f)
    requires forall m :: m in moves && m.Exit? ==> SafeExit(z, m)
    ensures WithinMeans(z, After(z, f, moves))
  {
    if moves != [] {
      var rest, last := moves[..|moves| - 1], moves[|moves| - 1];
      RunStaysWithinMeans(z, f, rest);
      match last {
        case Entry(_, _, _, _) => EntryStaysWithin(z, After(z, f, rest), last);
        case Exit(_, _, _) => ExitStaysWithinExactly(z, last);
      }
    }
  }

  // No run of such moves ever ties up more than the total, or more than there is.
  ghost predicate RunsStayWithin(z: Sizing, moves: iset<Move>) {
    forall f, run :: WithinMeans(z, f) && MadeOf(run, moves) ==> WithinMeans(z, After(z, f, run))
  }

  ghost predicate MadeOf(run: seq<Move>, moves: iset<Move>) {
    forall m :: m in run ==> m in moves
  }

  // Whatever moves may occur, their runs stay within all means exactly when all exits among them are safe.
  // Entries are validated and need no condition.
  lemma RunsStayWithinExactly(z: Sizing, moves: iset<Move>)
    ensures RunsStayWithin(z, moves) <==> forall m :: m in moves && m.Exit? ==> SafeExit(z, m)
  {
    if forall m :: m in moves && m.Exit? ==> SafeExit(z, m) {
      forall f, run | WithinMeans(z, f) && MadeOf(run, moves) ensures WithinMeans(z, After(z, f, run)) {
        RunStaysWithinMeans(z, f, run);
      }
    }
    if RunsStayWithin(z, moves) {
      forall m | m in moves && m.Exit? ensures SafeExit(z, m) {
        forall f | WithinMeans(z, f) ensures WithinMeans(z, Apply(z, f, m)) {
          OneMove(z, f, m);
          assert MadeOf([m], moves);
        }
        ExitStaysWithinExactly(z, m);
      }
    }
  }

  lemma OneMove(z: Sizing, f: Funds, m: Move)
    ensures After(z, f, [m]) == Apply(z, f, m)
  {
    assert [m][..|[m]| - 1] == [];
    assert After(z, f, []) == f;
  }

  // Under a fixed capital this does happen: losses of partial exits are booked only when the trade closes, and by
  // then their stake may be tied up again.
  lemma LateLossesBreakFixedCapital(z: Sizing, f: Funds)
    requires z.availableCapital == Some(100.0) && f == Funds(100.0, 100.0, 0.0)
    ensures WithinMeans(z, f)
    ensures !WithinMeans(z, After(z, f, [Exit(49.0, -49.0, 0.0), Entry(Some(49.0), None, 1000.0, None),
                                         Exit(1.0, 0.0, -49.0)]))
  {
    var lost, again, end := Exit(49.0, -49.0, 0.0), Entry(Some(49.0), None, 1000.0, None), Exit(1.0, 0.0, -49.0);
    AfterThree(z, f, lost, again, end);
    Reentry(z);
    assert TotalStake(z, Funds(99.0, 52.0, -49.0)) == 51.0;
  }

  lemma Reentry(z: Sizing)
    requires z.availableCapital == Some(100.0)
    ensures Apply(z, Funds(51.0, 100.0, 0.0), Entry(Some(49.0), None, 1000.0, None)) == Funds(100.0, 51.0, 0.0)
  {
    assert MaxAllowed(z, Funds(51.0, 100.0, 0.0), 1000.0, None) == 49.0;
  }

  lemma AfterThree(z: Sizing, f: Funds, a: Move, b: Move, c: Move)
    ensures After(z, f, [a, b, c]) == Apply(z, Apply(z, Apply(z, f, a), b), c)
  {
    OneMove(z, f, a);
    assert [a, b, c][..2] == [a, b] && [a, b][..1] == [a];
    assert After(z, f, [a, b]) == Apply(z, Apply(z, f, a), b);
  }

  // ---- the funds of a trade table ----

  ghost function FundsOf(cfg: Config, ledger: Ledger): Funds {
    Funds(Stakes(ledger.open), StakeWallet(cfg, ledger).free, Total(ledger.closed))
  }

  lemma EntryOnLedger(cfg: Config, ledger: Ledger, t: OpenTrade)
    requires t.realized == 0.0
    ensures FundsOf(cfg, ledger.(open := ledger.open + [t])) == Enter(FundsOf(cfg, ledger), t.stake)
  {
    assert (ledger.open + [t])[..|ledger.open|] == ledger.open;
  }

  lemma {:induction false} SplitSums(a: seq<OpenTrade>, b: seq<OpenTrade>)
    ensures Stakes(a + b) == Stakes(a) + Stakes(b) && Realized(a + b) == Realized(a) + Realized(b)
  {
    if b == [] {
      assert a + b == a;
    } else {
      SplitSums(a, b[..|b| - 1]);
      assert (a + b)[..|a + b| - 1] == a + b[..|b| - 1];
    }
  }

  lemma SumsAround(open: seq<OpenTrade>, i: nat)
    requires i < |open|
    ensures Stakes(open) == Stakes(open[..i]) + open[i].stake + Stakes(open[i + 1..])
    ensures Realized(open) == Realized(open[..i]) + open[i].realized + Realized(open[i + 1..])
  {
    assert open == open[..i + 1] + open[i + 1..] && open[..i + 1][..i] == open[..i];
    SplitSums(open[..i + 1], open[i + 1..]);
  }

  // Closing a trade books all it ever made; a partial exit only moves stake and profit.
  lemma CloseOnLedger(cfg: Config, z: Sizing, ledger: Ledger, i: nat, profit: real)
    requires i < |ledger.open|
    ensures var t := ledger.open[i];
            FundsOf(cfg, WithClosed(ledger, i, profit)) ==
            Apply(z, FundsOf(cfg, ledger), Exit(t.stake, profit, t.realized + profit))
  {
    SumsOfClosed(ledger, i, profit);
  }

  function WithClosed(ledger: Ledger, i: nat, profit: real): Ledger
    requires i < |ledger.open|
  {
    Ledger(ledger.open[..i] + ledger.open[i + 1..], ledger.closed + [ledger.open[i].realized + profit])
  }

  lemma SumsOfClosed(ledger: Ledger, i: nat, profit: real)
    requires i < |ledger.open|
    ensures var after, t := WithClosed(ledger, i, profit), ledger.open[i];
            && Stakes(after.open) == Stakes(ledger.open) - t.stake
            && Realized(after.open) == Realized(ledger.open) - t.realized
            && Total(after.closed) == Total(ledger.closed) + (t.realized + profit)
  {
    var booked := ledger.open[i].realized + profit;
    SumsAround(ledger.open, i);
    SplitSums(ledger.open[..i], ledger.open[i + 1..]);
    assert (ledger.closed + [booked])[..|ledger.closed|] == ledger.closed;
  }

  function WithPartialExit(ledger: Ledger, i: nat, stake: real, profit: real): Ledger
    requires i < |ledger.open|
  {
    var t := ledger.open[i];
    ledger.(open := ledger.open[i := t.(stake := t.stake - stake, realized := t.realized + profit)])
  }

  lemma PartialExitOnLedger(cfg: Config, z: Sizing, ledger: Ledger, i: nat, stake: real, profit: real)
    requires i < |ledger.open|
    ensures FundsOf(cfg, WithPartialExit(ledger, i, stake, profit)) ==
            Apply(z, FundsOf(cfg, ledger), Exit(stake, profit, 0.0))
  {
    SumsOfPartialExit(ledger, i, stake, profit);
  }

  lemma SumsOfPartialExit(ledger: Ledger, i: nat, stake: real, profit: real)
    requires i < |ledger.open|
    ensures var after := WithPartialExit(ledger, i, stake, profit);
            Stakes(after.open) == Stakes(ledger.open) - stake && Realized(after.open) == Realized(ledger.open) + profit
  {
    var changed := WithPartialExit(ledger, i, stake, profit).open;
    SumsAround(ledger.open, i);
    SumsAround(changed, i);
    assert changed[..i] == ledger.open[..i] && changed[i + 1..] == ledger.open[i + 1..];
  }

  // On the trade table, and before the close: under a fixed capital, closing a trade keeps every table within its
  // means exactly when neither this exit nor all the trade ever made loses more than the stake it still has.
  lemma ClosingStaysWithinExactly(cfg: Config, z: Sizing, t: OpenTrade, profit: real)
    requires z.availableCapital.Some?
    ensures (t.realized + profit >= -t.stake && profit >= -t.stake) <==>
            forall ledger, i :: Holds(ledger, i, t) && WithinMeans(z, FundsOf(cfg, ledger)) ==>
              WithinMeans(z, FundsOf(cfg, WithClosed(ledger, i, profit)))
  {
    var exit := Exit(t.stake, profit, t.realized + profit);
    ExitStaysWithinExactly(z, exit);
    forall ledger, i | Holds(ledger, i, t)
      ensures FundsOf(cfg, WithClosed(ledger, i, profit)) == Apply(z, FundsOf(cfg, ledger), exit)
    {
      CloseOnLedger(cfg, z, ledger, i, profit);
    }
    var ledger := ExhaustedLedger(cfg, z, t);
    ExhaustedFunds(cfg, z, t);
    assert Holds(ledger, 0, t);
    assert WithinMeans(z, FundsOf(cfg, ledger));
    if WithinMeans(z, Apply(z, Exhausted(z), exit)) {
      assert SafeExit(z, exit);
    }
  }

  ghost predicate Holds(ledger: Ledger, i: nat, t: OpenTrade) {
    i < |ledger.open| && ledger.open[i] == t
  }

  // A table with this trade whose funds have nothing to spare.
  ghost function ExhaustedLedger(cfg: Config, z: Sizing, t: OpenTrade): Ledger
    requires z.availableCapital.Some?
  {
    var capital := z.availableCapital.value;
    var made := capital - StartOf(cfg, cfg.stakeCurrency) - Converted(cfg) - t.realized;
    Ledger([t, OpenTrade("", "", capital - t.stake, 0.0, made, [])], [])
  }

  lemma ExhaustedFunds(cfg: Config, z: Sizing, t: OpenTrade)
    requires z.availableCapital.Some?
    ensures FundsOf(cfg, ExhaustedLedger(cfg, z, t)) == Exhausted(z)
  {
    var open := ExhaustedLedger(cfg, z, t).open;
    assert open[..1] == [t];
    OneTrade(t);
  }

  lemma OneTrade(t: OpenTrade)
    ensures Stakes([t]) == t.stake && Realized([t]) == t.realized
  {
    assert [t][..|[t]| - 1] == [];
    assert Stakes([]) == 0.0 && Realized([]) == 0.0;
  }
}
