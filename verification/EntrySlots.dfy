/**
 Entry slots of freqtrade/freqtradebot.py: how enter_positions, create_trade and the refreshed whitelist
 together keep the number of open trades within max_open_trades and the open pairs distinct.
 */
module EntrySlots {
  // max_open_trades, and the slots counted down by enter_positions: a number, or infinity.
  datatype Slots = Limited(n: nat) | Unlimited

  datatype TradeRow = TradeRow(pair: string, isOpen: bool)

  type Book = seq<TradeRow>

  // How execute_entry can end.
  datatype Ending = Entered | NotEntered | DependencyError | OperationalError

  // One call of execute_entry: whether its trade is left in the table, how the call ends, and which trades
  // other threads close before the next one.
  datatype Attempt = Attempt(commits: bool, ending: Ending, closing: set<nat>)

  // ---- the table ----

  function OpenPairs(book: Book): seq<string> {
    if book == [] then []
    else
      var last := book[|book| - 1];
      OpenPairs(book[..|book| - 1]) + if last.isOpen then [last.pair] else []
  }

  // Trade.get_open_trade_count
  function OpenCount(book: Book): nat {
    |OpenPairs(book)|
  }

  function Close(book: Book, closing: set<nat>): Book {
    if book == [] then []
    else
      var i := |book| - 1;
      Close(book[..i], closing) + [if i in closing then book[i].(isOpen := false) else book[i]]
  }

  // get_free_open_trades
  function FreeSlots(limit: Slots, book: Book): Slots {
    match limit
    case Unlimited => Unlimited
    case Limited(n) => Limited(if n > OpenCount(book) then n - OpenCount(book) else 0)
  }

  predicate HasSlots(s: Slots) {
    s != Limited(0)
  }

  function TakeOne(s: Slots): Slots {
    if s.Limited? && s.n > 0 then Limited(s.n - 1) else s
  }

  // ---- the whitelist ----

  // _refresh_active_whitelist
  function ActiveWhitelist(pairlist: seq<string>, book: Book): seq<string> {
    pairlist + Missing(OpenPairs(book), pairlist)
  }

  function Missing(pairs: seq<string>, from: seq<string>): seq<string> {
    if pairs == [] then []
    else (if pairs[0] in from then [] else [pairs[0]]) + Missing(pairs[1..], from)
  }

  // list.remove, guarded by a membership test
  function RemoveFirst(xs: seq<string>, x: string): seq<string> {
    if xs == [] then [] else if xs[0] == x then xs[1..] else [xs[0]] + RemoveFirst(xs[1..], x)
  }

  function WithoutPairs(whitelist: seq<string>, pairs: seq<string>): seq<string> {
    if pairs == [] then whitelist else RemoveFirst(WithoutPairs(whitelist, pairs[..|pairs| - 1]), pairs[|pairs| - 1])
  }

  // ---- entering ----

  // create_trade: how it ends, and the table after it and after the trades closed meanwhile.
  function EndingOf(limit: Slots, book: Book, attempt: Attempt): Ending {
    if HasSlots(FreeSlots(limit, book)) then attempt.ending else NotEntered
  }

  function CreateTrade(limit: Slots, book: Book, pair: string, attempt: Attempt): Book {
    if HasSlots(FreeSlots(limit, book)) && attempt.commits then book + [TradeRow(pair, true)] else book
  }

  function AfterAttempt(limit: Slots, book: Book, pair: string, attempt: Attempt): Book {
    Close(CreateTrade(limit, book, pair, attempt), attempt.closing)
  }

  // What enter_positions leaves: the table, the number of trades counted, and whether an error escaped.
  datatype Entries = Entries(book: Book, created: nat, escaped: bool)

  function EnterAll(limit: Slots, book: Book, pairs: seq<string>, slots: Slots, attempts: seq<Attempt>): Entries
    requires |attempts| >= |pairs|
    decreases |pairs|
  {
    if pairs == [] || !HasSlots(slots) then Entries(book, 0, false)
    else
      var after := AfterAttempt(limit, book, pairs[0], attempts[0]);
      match EndingOf(limit, book, attempts[0])
      case OperationalError => Entries(after, 0, true)
      case Entered => CountFrom(EnterAll(limit, after, pairs[1..], TakeOne(slots), attempts[1..]), 1)
      case _ => EnterAll(limit, after, pairs[1..], slots, attempts[1..])
  }

  function CountFrom(r: Entries, n: nat): Entries {
    r.(created := r.created + n)
  }

  method EnterPositions(limit: Slots, book: Book, activeWhitelist: seq<string>, freeTradeSlots: Slots, locked: bool,
                        attempts: seq<Attempt>)
    returns (r: Entries)
    requires |attempts| >= |WithoutPairs(activeWhitelist, OpenPairs(book))|
    ensures r == if locked then Entries(book, 0, false)
                 else EnterAll(limit, book, WithoutPairs(activeWhitelist, OpenPairs(book)), freeTradeSlots, attempts)
  {
    var whitelist := activeWhitelist;
    var open := OpenPairs(book);
    for i := 0 to |open|
      invariant whitelist == WithoutPairs(activeWhitelist, open[..i])
    {
      assert open[..i + 1][..i] == open[..i];
      whitelist := RemoveFirst(whitelist, open[i]);
    }
    assert open[..|open|] == open;
    if whitelist == [] || locked {
      return Entries(book, 0, false);
    }
    r := EnterPairs(limit, book, whitelist, freeTradeSlots, attempts);
  }

  method EnterPairs(limit: Slots, book: Book, whitelist: seq<string>, freeTradeSlots: Slots, attempts: seq<Attempt>)
    returns (r: Entries)
    requires |attempts| >= |whitelist|
    ensures r == EnterAll(limit, book, whitelist, freeTradeSlots, attempts)
  {
    ghost var goal := EnterAll(limit, book, whitelist, freeTradeSlots, attempts);
    var slots, tradesCreated, final := freeTradeSlots, 0, book;
    assert whitelist[0..] == whitelist && attempts[0..] == attempts;
    for i := 0 to |whitelist|
      invariant CountFrom(EnterAll(limit, final, whitelist[i..], slots, attempts[i..]), tradesCreated) == goal
    {
      if !HasSlots(slots) {
        break;
      }
      EnterNext(limit, final, whitelist, slots, attempts, i);
      var ending := EndingOf(limit, final, attempts[i]);
      final := AfterAttempt(limit, final, whitelist[i], attempts[i]);
      if ending == OperationalError {
        return Entries(final, tradesCreated, true);
      }
      if ending == Entered {
        slots := TakeOne(slots);
        tradesCreated := tradesCreated + 1;
      }
    }
    return Entries(final, tradesCreated, false);
  }

  // One pass of the loop, on the rest of the pairs from `i` on.
  lemma EnterNext(limit: Slots, book: Book, pairs: seq<string>, slots: Slots, attempts: seq<Attempt>, i: nat)
    requires |attempts| >= |pairs| && i < |pairs| && HasSlots(slots)
    ensures var after := AfterAttempt(limit, book, pairs[i], attempts[i]);
            var ending := EndingOf(limit, book, attempts[i]);
            EnterAll(limit, book, pairs[i..], slots, attempts[i..]) ==
            if ending == OperationalError then Entries(after, 0, true)
            else if ending == Entered then
              CountFrom(EnterAll(limit, after, pairs[i + 1..], TakeOne(slots), attempts[i + 1..]), 1)
            else EnterAll(limit, after, pairs[i + 1..], slots, attempts[i + 1..])
  {
    assert pairs[i..][0] == pairs[i] && pairs[i..][1..] == pairs[i + 1..];
    assert attempts[i..][0] == attempts[i] && attempts[i..][1..] == attempts[i + 1..];
  }

  // ---- what is kept ----

  ghost predicate Distinct(xs: seq<string>) {
    forall i, j :: 0 <= i < j < |xs| ==> xs[i] != xs[j]
  }

  ghost predicate WithinLimit(limit: Slots, book: Book) {
    limit.Limited? ==> OpenCount(book) <= limit.n
  }

  ghost predicate Sane(limit: Slots, book: Book) {
    WithinLimit(limit, book) && Distinct(OpenPairs(book))
  }

  ghost predicate Apart(pairs: seq<string>, book: Book) {
    forall p :: p in pairs ==> p !in OpenPairs(book)
  }

  lemma {:induction false} CloseKeeps(book: Book, closing: set<nat>)
    requires Distinct(OpenPairs(book))
    ensures OpenCount(Close(book, closing)) <= OpenCount(book) && Distinct(OpenPairs(Close(book, closing)))
    ensures forall p :: p in OpenPairs(Close(book, closing)) ==> p in OpenPairs(book)
  {
    if book != [] {
      var rest, last := book[..|book| - 1], book[|book| - 1];
      var closed := Close(book, closing);
      assert closed[..|closed| - 1] == Close(rest, closing);
      var open := OpenPairs(book);
      assert OpenPairs(rest) == open[..|OpenPairs(rest)|];
      assert Distinct(OpenPairs(rest)) by {
        assert forall i :: 0 <= i < |OpenPairs(rest)| ==> OpenPairs(rest)[i] == open[i];
      }
      CloseKeeps(rest, closing);
      if last.isOpen {
        assert open[|OpenPairs(rest)|] == last.pair;
        assert last.pair !in OpenPairs(rest);
      }
    }
  }

  lemma CreateKeeps(limit: Slots, book: Book, pair: string, attempt: Attempt)
    requires Sane(limit, book) && pair !in OpenPairs(book)
    ensures var entered := CreateTrade(limit, book, pair, attempt);
            Sane(limit, entered) && forall p :: p in OpenPairs(entered) ==> p == pair || p in OpenPairs(book)
  {
    var added := book + [TradeRow(pair, true)];
    assert added[..|book|] == book && added[|book|] == TradeRow(pair, true);
    assert OpenPairs(added) == OpenPairs(book) + [pair];
  }

  // Entering never opens more trades than allowed nor a pair twice, even when the counted slots are stale,
  // entries fail after their trade was stored, and other threads close trades in between.
  lemma {:induction false} EnterAllKeeps(limit: Slots, book: Book, pairs: seq<string>, slots: Slots,
                                         attempts: seq<Attempt>)
    requires |attempts| >= |pairs| && Sane(limit, book) && Distinct(pairs) && Apart(pairs, book)
    ensures Sane(limit, EnterAll(limit, book, pairs, slots, attempts).book)
    decreases |pairs|
  {
    if pairs != [] && HasSlots(slots) {
      var after := AfterAttempt(limit, book, pairs[0], attempts[0]);
      AttemptKeeps(limit, book, pairs, attempts[0]);
      EnterAllKeeps(limit, after, pairs[1..], TakeOne(slots), attempts[1..]);
      EnterAllKeeps(limit, after, pairs[1..], slots, attempts[1..]);
    }
  }

  lemma AttemptKeeps(limit: Slots, book: Book, pairs: seq<string>, attempt: Attempt)
    requires pairs != [] && Sane(limit, book) && Distinct(pairs) && Apart(pairs, book)
    ensures var after := AfterAttempt(limit, book, pairs[0], attempt);
            Sane(limit, after) && Distinct(pairs[1..]) && Apart(pairs[1..], after)
  {
    CreateKeeps(limit, book, pairs[0], attempt);
    CloseKeeps(CreateTrade(limit, book, pairs[0], attempt), attempt.closing);
    assert forall i :: 0 <= i < |pairs[1..]| ==> pairs[1..][i] == pairs[i + 1];
  }

  lemma {:induction false} RemoveFirstKeeps(xs: seq<string>, x: string)
    requires Distinct(xs)
    ensures Distinct(RemoveFirst(xs, x)) && forall y :: y in RemoveFirst(xs, x) <==> y in xs && y != x
  {
    if xs != [] {
      if xs[0] == x {
        assert forall y :: y in xs <==> y == x || y in xs[1..];
        assert forall i :: 0 <= i < |xs[1..]| ==> xs[1..][i] == xs[i + 1];
      } else {
        assert Distinct(xs[1..]) && xs[0] !in xs[1..] by {
          assert forall i :: 0 <= i < |xs[1..]| ==> xs[1..][i] == xs[i + 1];
        }
        RemoveFirstKeeps(xs[1..], x);
        assert forall y :: y in xs <==> y == xs[0] || y in xs[1..];
      }
    }
  }

  lemma {:induction false} WithoutPairsKeeps(whitelist: seq<string>, pairs: seq<string>)
    requires Distinct(whitelist)
    ensures Distinct(WithoutPairs(whitelist, pairs))
    ensures forall y :: y in WithoutPairs(whitelist, pairs) <==> y in whitelist && y !in pairs
  {
    if pairs != [] {
      var rest, last := pairs[..|pairs| - 1], pairs[|pairs| - 1];
      WithoutPairsKeeps(whitelist, rest);
      RemoveFirstKeeps(WithoutPairs(whitelist, rest), last);
      assert forall y :: y in pairs <==> y in rest || y == last;
    }
  }

  lemma {:induction false} MissingKeeps(pairs: seq<string>, from: seq<string>)
    requires Distinct(pairs)
    ensures Distinct(Missing(pairs, from))
    ensures forall y :: y in Missing(pairs, from) <==> y in pairs && y !in from
  {
    if pairs != [] {
      assert Distinct(pairs[1..]) && pairs[0] !in pairs[1..] by {
        assert forall i :: 0 <= i < |pairs[1..]| ==> pairs[1..][i] == pairs[i + 1];
      }
      MissingKeeps(pairs[1..], from);
      assert forall y :: y in pairs <==> y == pairs[0] || y in pairs[1..];
    }
  }

  // ---- runs ----

  datatype Event =
    | Refresh(pairlist: seq<string>)
    | Enter(locked: bool, attempts: seq<Attempt>)
    | CloseTrades(closing: set<nat>)

  datatype State = State(book: Book, whitelist: seq<string>)

  // Pairlists come without duplicates, and there is an attempt for every pair that may be tried.
  ghost predicate Possible(s: State, e: Event) {
    match e
    case Refresh(pairlist) => Distinct(pairlist)
    case Enter(_, attempts) => |attempts| >= |WithoutPairs(s.whitelist, OpenPairs(s.book))|
    case CloseTrades(_) => true
  }

  ghost function Apply(limit: Slots, s: State, e: Event): State
    requires Possible(s, e)
  {
    match e
    case Refresh(pairlist) => s.(whitelist := ActiveWhitelist(pairlist, s.book))
    case Enter(locked, attempts) =>
      if locked then s
      else s.(book := EnterAll(limit, s.book, WithoutPairs(s.whitelist, OpenPairs(s.book)),
                               FreeSlots(limit, s.book), attempts).book)
    case CloseTrades(closing) => s.(book := Close(s.book, closing))
  }

  ghost predicate IsRun(limit: Slots, s: State, events: seq<Event>)
    decreases |events|
  {
    events == [] || (Possible(s, events[0]) && IsRun(limit, Apply(limit, s, events[0]), events[1..]))
  }

  ghost function After(limit: Slots, s: State, events: seq<Event>): State
    requires IsRun(limit, s, events)
    decreases |events|
  {
    if events == [] then s else After(limit, Apply(limit, s, events[0]), events[1..])
  }

  lemma StepKeeps(limit: Slots, s: State, e: Event)
    requires Possible(s, e) && Sane(limit, s.book) && Distinct(s.whitelist)
    ensures var t := Apply(limit, s, e); Sane(limit, t.book) && Distinct(t.whitelist)
  {
    match e {
      case Refresh(pairlist) =>
        MissingKeeps(OpenPairs(s.book), pairlist);
        var added := Missing(OpenPairs(s.book), pairlist);
        assert forall j :: 0 <= j < |added| ==> added[j] in added && added[j] !in pairlist;
      case Enter(locked, attempts) =>
        WithoutPairsKeeps(s.whitelist, OpenPairs(s.book));
        if !locked {
          var pairs := WithoutPairs(s.whitelist, OpenPairs(s.book));
          EnterAllKeeps(limit, s.book, pairs, FreeSlots(limit, s.book), attempts);
        }
      case CloseTrades(closing) =>
        CloseKeeps(s.book, closing);
    }
  }

  // Over every run the open trades stay within the limit and on distinct pairs.
  lemma {:induction false} RunKeepsSlotsAndPairs(limit: Slots, s: State, events: seq<Event>)
    requires IsRun(limit, s, events) && Sane(limit, s.book) && Distinct(s.whitelist)
    ensures Sane(limit, After(limit, s, events).book)
    decreases |events|
  {
    if events != [] {
      StepKeeps(limit, s, events[0]);
      RunKeepsSlotsAndPairs(limit, Apply(limit, s, events[0]), events[1..]);
    }
  }

  lemma {:induction false} CloseNothing(book: Book)
    ensures Close(book, {}) == book
  {
    if book != [] {
      var i := |book| - 1;
      CloseNothing(book[..i]);
      assert Close(book, {}) == Close(book[..i], {}) + [book[i]];
      assert book == book[..i] + [book[i]];
    }
  }

  // With the table full and nothing closed meanwhile no attempt enters or is counted, whatever the counted
  // slots say.
  lemma {:induction false} FullTableAddsNothing(limit: Slots, book: Book, pairs: seq<string>, slots: Slots,
                                                attempts: seq<Attempt>)
    requires |attempts| >= |pairs| && !HasSlots(FreeSlots(limit, book))
    requires forall a :: a in attempts ==> a.closing == {}
    ensures EnterAll(limit, book, pairs, slots, attempts) == Entries(book, 0, false)
    decreases |pairs|
  {
    if pairs != [] && HasSlots(slots) {
      CloseNothing(book);
      FullTableAddsNothing(limit, book, pairs[1..], slots, attempts[1..]);
    }
  }

  // The counted slots alone would not do: an entry that fails after its trade was stored is not counted, and
  // only the second look in create_trade keeps the next pair out.
  lemma CountedSlotsAreNotEnough(pair: string, pairs: seq<string>, attempts: seq<Attempt>)
    requires |attempts| >= |pairs| && forall a :: a in attempts ==> a.closing == {}
    ensures var failsLate := Attempt(true, DependencyError, {});
            EnterAll(Limited(1), [], [pair] + pairs, Limited(1), [failsLate] + attempts) ==
            Entries([TradeRow(pair, true)], 0, false)
  {
    var failsLate := Attempt(true, DependencyError, {});
    var one := [TradeRow(pair, true)];
    assert one[..0] == [] && OpenPairs(one) == [pair];
    CloseNothing(one);
    assert AfterAttempt(Limited(1), [], pair, failsLate) == one;
    assert ([pair] + pairs)[1..] == pairs && ([failsLate] + attempts)[1..] == attempts;
    FullTableAddsNothing(Limited(1), one, pairs, Limited(1), attempts);
  }

  // ---- what the table says ----

  // The open pairs are those of the open rows, one for each.
  lemma {:induction false} OpenPairsExactly(book: Book, p: string)
    ensures p in OpenPairs(book) <==> exists i :: 0 <= i < |book| && book[i].isOpen && book[i].pair == p
  {
    if book != [] {
      var rest, last := book[..|book| - 1], book[|book| - 1];
      OpenPairsExactly(rest, p);
      if i :| 0 <= i < |rest| && rest[i].isOpen && rest[i].pair == p {
        assert book[i] == rest[i];
      }
      if i :| 0 <= i < |book| && book[i].isOpen && book[i].pair == p {
        assert i < |rest| ==> rest[i] == book[i];
      }
      assert book[|book| - 1] == last;
    }
  }

  lemma {:induction false} OpenCountExactly(book: Book)
    ensures OpenCount(book) == |OpenRows(book)|
  {
    if book == [] {
      assert OpenRows(book) == {};
    } else {
      var rest, last := book[..|book| - 1], book[|book| - 1];
      OpenCountExactly(rest);
      assert forall i :: 0 <= i < |rest| ==> book[i] == rest[i];
      assert OpenRows(book) == OpenRows(rest) + if last.isOpen then {|book| - 1} else {};
    }
  }

  ghost function OpenRows(book: Book): set<nat> {
    set i: nat | i < |book| && book[i].isOpen
  }

  // Closing touches the rows it names and no others.
  lemma {:induction false} CloseExactly(book: Book, closing: set<nat>, i: nat)
    requires i < |book|
    ensures |Close(book, closing)| == |book| && Close(book, closing)[i].pair == book[i].pair
    ensures Close(book, closing)[i].isOpen <==> book[i].isOpen && i !in closing
    decreases |book|
  {
    CloseLength(book, closing);
    if i < |book| - 1 {
      CloseLength(book[..|book| - 1], closing);
      CloseExactly(book[..|book| - 1], closing, i);
    }
  }

  lemma {:induction false} CloseLength(book: Book, closing: set<nat>)
    ensures |Close(book, closing)| == |book|
  {
    if book != [] {
      CloseLength(book[..|book| - 1], closing);
    }
  }

  // The active whitelist is the pairlist followed by the open pairs that it lacks.
  lemma {:induction false} WhitelistCovers(pairlist: seq<string>, book: Book, p: string)
    ensures pairlist <= ActiveWhitelist(pairlist, book)
    ensures p in ActiveWhitelist(pairlist, book) <==> p in pairlist || p in OpenPairs(book)
    ensures (forall q :: q in OpenPairs(book) ==> q in pairlist) ==> ActiveWhitelist(pairlist, book) == pairlist
  {
    MissingExactly(OpenPairs(book), pairlist, p);
  }

  lemma {:induction false} MissingExactly(pairs: seq<string>, from: seq<string>, p: string)
    ensures p in Missing(pairs, from) <==> p in pairs && p !in from
    ensures (forall q :: q in pairs ==> q in from) ==> Missing(pairs, from) == []
  {
    if pairs != [] {
      MissingExactly(pairs[1..], from, p);
    }
  }

  // ---- what is used ----

  // An attempt that either enters or leaves nothing behind, with no trade closed meanwhile.
  predicate Plain(a: Attempt) {
    a.closing == {} && a.ending != OperationalError && (a.commits <==> a.ending == Entered)
  }

  // The pairs whose attempts enter, in the order of the whitelist.
  function Willing(pairs: seq<string>, attempts: seq<Attempt>): (r: seq<string>)
    requires |attempts| >= |pairs|
    ensures |r| <= |pairs|
  {
    if pairs == [] then []
    else (if attempts[0].ending == Entered then [pairs[0]] else []) + Willing(pairs[1..], attempts[1..])
  }

  // The pairs that can be entered are open now, in their order, until the slots counted down or the room in the
  // table were used up. Each was counted, and no error escaped.
  ghost predicate AllUsed(limit: Slots, open: seq<string>, willing: seq<string>, slots: Slots, r: Entries) {
    && r.created <= |willing| && !r.escaped
    && OpenPairs(r.book) == open + willing[..r.created]
    && (slots.Limited? ==> r.created <= slots.n)
    && (limit.Limited? ==> |open| + r.created <= limit.n)
    && (r.created < |willing| ==>
          slots == Limited(r.created) || (limit.Limited? && |open| + r.created == limit.n))
  }

  // Every free slot is used.
  lemma {:induction false} SlotsAreUsed(limit: Slots, book: Book, pairs: seq<string>, slots: Slots,
                                        attempts: seq<Attempt>)
    requires |attempts| >= |pairs| && forall a :: a in attempts ==> Plain(a)
    requires limit.Limited? ==> OpenCount(book) <= limit.n
    ensures AllUsed(limit, OpenPairs(book), Willing(pairs, attempts), slots,
                    EnterAll(limit, book, pairs, slots, attempts))
    decreases |pairs|
  {
    var willing := Willing(pairs, attempts);
    if pairs == [] || slots == Limited(0) {
      assert EnterAll(limit, book, pairs, slots, attempts) == Entries(book, 0, false);
      NoneUsed(limit, book, willing, slots);
    } else if limit.Limited? && OpenCount(book) == limit.n {
      FullTableAddsNothing(limit, book, pairs, slots, attempts);
      NoneUsed(limit, book, willing, slots);
    } else {
      assert attempts[0] in attempts;
      if attempts[0].ending != Entered {
        NoneMore(limit, book, pairs, slots, attempts);
        SlotsAreUsed(limit, book, pairs[1..], slots, attempts[1..]);
      } else {
        var added := book + [TradeRow(pairs[0], true)];
        var left := if slots.Limited? then Limited(slots.n - 1) else Unlimited;
        OneMoreOpen(book, pairs[0]);
        SlotsAreUsed(limit, added, pairs[1..], left, attempts[1..]);
        OneMore(limit, book, pairs, slots, left, attempts);
        OneMoreUsed(limit, OpenPairs(book), pairs[0], Willing(pairs[1..], attempts[1..]), slots, left,
                    EnterAll(limit, added, pairs[1..], left, attempts[1..]));
      }
    }
  }

  lemma NoneUsed(limit: Slots, book: Book, willing: seq<string>, slots: Slots)
    requires limit.Limited? ==> OpenCount(book) <= limit.n
    requires willing == [] || slots == Limited(0) || (limit.Limited? && OpenCount(book) == limit.n)
    ensures AllUsed(limit, OpenPairs(book), willing, slots, Entries(book, 0, false))
  {
    assert OpenPairs(book) == OpenPairs(book) + willing[..0];
  }

  lemma NoneMore(limit: Slots, book: Book, pairs: seq<string>, slots: Slots, attempts: seq<Attempt>)
    requires pairs != [] && |attempts| >= |pairs| && HasSlots(slots)
    requires Plain(attempts[0]) && attempts[0].ending != Entered
    ensures EnterAll(limit, book, pairs, slots, attempts) == EnterAll(limit, book, pairs[1..], slots, attempts[1..])
    ensures Willing(pairs, attempts) == Willing(pairs[1..], attempts[1..])
  {
    CloseNothing(book);
  }

  lemma OneMoreOpen(book: Book, pair: string)
    ensures OpenPairs(book + [TradeRow(pair, true)]) == OpenPairs(book) + [pair]
  {
    assert (book + [TradeRow(pair, true)])[..|book|] == book;
  }

  lemma OneMoreUsed(limit: Slots, open: seq<string>, pair: string, willing: seq<string>, slots: Slots, left: Slots,
                    rest: Entries)
    requires AllUsed(limit, open + [pair], willing, left, rest)
    requires if slots.Limited? then slots.n > 0 && left == Limited(slots.n - 1) else left == Unlimited
    ensures AllUsed(limit, open, [pair] + willing, slots, rest.(created := rest.created + 1))
  {
    assert open + [pair] + willing[..rest.created] == open + ([pair] + willing)[..rest.created + 1];
  }

  lemma OneMore(limit: Slots, book: Book, pairs: seq<string>, slots: Slots, left: Slots, attempts: seq<Attempt>)
    requires pairs != [] && |attempts| >= |pairs| && attempts[0].ending == Entered
    requires Plain(attempts[0]) && (limit.Limited? ==> OpenCount(book) < limit.n)
    requires if slots.Limited? then slots.n > 0 && left == Limited(slots.n - 1) else left == Unlimited
    ensures var rest := EnterAll(limit, book + [TradeRow(pairs[0], true)], pairs[1..], left, attempts[1..]);
            EnterAll(limit, book, pairs, slots, attempts) == rest.(created := rest.created + 1)
    ensures Willing(pairs, attempts) == [pairs[0]] + Willing(pairs[1..], attempts[1..])
  {
    var added := book + [TradeRow(pairs[0], true)];
    CloseNothing(added);
    assert AfterAttempt(limit, book, pairs[0], attempts[0]) == added;
    assert EndingOf(limit, book, attempts[0]) == Entered && TakeOne(slots) == left;
  }

  function Min(a: nat, b: nat): (m: nat)
    ensures m <= a && m <= b && (m == a || m == b)
  {
    if a < b then a else b
  }

  // One round from the main loop, which counts the free slots itself: it opens as many trades as there are pairs
  // to enter, or as the limit still allows, whichever is less.
  lemma FreeSlotsAreFilled(n: nat, s: State, attempts: seq<Attempt>)
    requires Possible(s, Enter(false, attempts)) && OpenCount(s.book) <= n
    requires forall a :: a in attempts ==> Plain(a)
    ensures var willing := Willing(WithoutPairs(s.whitelist, OpenPairs(s.book)), attempts);
            var after := Apply(Limited(n), s, Enter(false, attempts)).book;
            OpenCount(after) == OpenCount(s.book) + Min(|willing|, n - OpenCount(s.book))
    ensures var willing := Willing(WithoutPairs(s.whitelist, OpenPairs(s.book)), attempts);
            OpenCount(Apply(Unlimited, s, Enter(false, attempts)).book) == OpenCount(s.book) + |willing|
  {
    var pairs := WithoutPairs(s.whitelist, OpenPairs(s.book));
    SlotsAreUsed(Limited(n), s.book, pairs, FreeSlots(Limited(n), s.book), attempts);
    SlotsAreUsed(Unlimited, s.book, pairs, Unlimited, attempts);
  }

  // An operational error ends the round at its pair, and no other error does.
  lemma OperationalErrorEnds(limit: Slots, book: Book, pairs: seq<string>, slots: Slots, attempts: seq<Attempt>)
    requires |attempts| >= |pairs| && pairs != [] && (slots.Limited? ==> slots.n > 0)
    requires (limit.Limited? ==> OpenCount(book) < limit.n) && attempts[0].ending == OperationalError
    ensures var r := EnterAll(limit, book, pairs, slots, attempts);
            && r.escaped && r.created == 0
            && |r.book| == |book| + if attempts[0].commits then 1 else 0
  {
    var entered := if attempts[0].commits then book + [TradeRow(pairs[0], true)] else book;
    CloseLength(entered, attempts[0].closing);
  }

  lemma {:induction false} OnlyOperationalErrorsEscape(limit: Slots, book: Book, pairs: seq<string>, slots: Slots,
                                                       attempts: seq<Attempt>)
    requires |attempts| >= |pairs| && forall a :: a in attempts ==> a.ending != OperationalError
    ensures !EnterAll(limit, book, pairs, slots, attempts).escaped
    decreases |pairs|
  {
    if pairs != [] && HasSlots(slots) {
      var after := AfterAttempt(limit, book, pairs[0], attempts[0]);
      OnlyOperationalErrorsEscape(limit, after, pairs[1..], TakeOne(slots), attempts[1..]);
      OnlyOperationalErrorsEscape(limit, after, pairs[1..], slots, attempts[1..]);
    }
  }
}
