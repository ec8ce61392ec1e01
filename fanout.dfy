/** Pair fan-out: the observer service
    (backend/src/traders/observer/trader-observer.service.ts) and the trader
    controller (backend/src/traders/trader.controller.ts) group the trading
    pairs by a `base:quote` key, collecting the venues seen under each key,
    and start one worker per key listed on both venues that is not running
    yet. The database rows are a snapshot parameter. */
module FanOut {
  import opened Common
  import opened Strings
  import opened Prices

  // ---------------------------------------------------------------------------
  // Keys

  type PairKey = string

  /** The key `${base}:${quote}`. */
  function PairKeyOf(base: Address, quote: Address): PairKey {
    base + ":" + quote
  }

  /** The key of one trading-pair row. */
  function RowKey(p: TradingPair): PairKey {
    PairKeyOf(p.baseTokenAddress, p.quoteTokenAddress)
  }

  /** No address contains the separator `:`. */
  lemma {:induction false} AddressHasNoColon(a: Address)
    ensures ':' !in a
  {
    forall i | 0 <= i < |a| ensures a[i] != ':' {
      if i >= 2 { assert IsHexDigit(a[i]); }
    }
  }

  /** `const [baseToken, quoteToken] = key.split(':')`: the first two pieces,
      the second undefined (None) when the key has no separator. */
  function KeyTokens(key: PairKey): (string, Option<string>) {
    var parts := Split(key, ':');
    (parts[0], if |parts| >= 2 then Some(parts[1]) else None)
  }

  /** Splitting a key gives back exactly the base and quote it was built from. */
  lemma {:induction false} KeySplit(base: Address, quote: Address)
    ensures Split(PairKeyOf(base, quote), ':') == [base, quote]
    ensures KeyTokens(PairKeyOf(base, quote)) == (base, Some(quote))
  {
    AddressHasNoColon(base);
    AddressHasNoColon(quote);
    assert Join([base, quote], ':') == PairKeyOf(base, quote) by {
      assert [base, quote][1..] == [quote];
    }
    JoinSplit([base, quote], ':');
  }

  /** Two rows share a key exactly when they have the same base and quote. */
  lemma {:induction false} SameKeySamePair(p: TradingPair, q: TradingPair)
    ensures RowKey(p) == RowKey(q) <==>
              p.baseTokenAddress == q.baseTokenAddress && p.quoteTokenAddress == q.quoteTokenAddress
  {
    KeySplit(p.baseTokenAddress, p.quoteTokenAddress);
    KeySplit(q.baseTokenAddress, q.quoteTokenAddress);
  }

  // ---------------------------------------------------------------------------
  // Grouping

  /** The `pairExchanges` Map: its keys in insertion order, and each key's set
      of venues. */
  datatype Grouping = Grouping(order: seq<PairKey>, exchanges: map<PairKey, set<Exchange>>)

  /** The grouping after reading `pairs` in order: a key is appended when
      first seen, and each row adds its venue to its key's set. */
  function GroupSpec(pairs: seq<TradingPair>): Grouping
  {
    if |pairs| == 0 then Grouping([], map[])
    else
      var g := GroupSpec(pairs[..|pairs| - 1]);
      var p := pairs[|pairs| - 1];
      var key := RowKey(p);
      if key in g.exchanges then Grouping(g.order, g.exchanges[key := g.exchanges[key] + {p.exchange}])
      else Grouping(g.order + [key], g.exchanges[key := {p.exchange}])
  }

  /** Some row has key `key`. */
  predicate KeyPresent(pairs: seq<TradingPair>, key: PairKey) {
    exists i | 0 <= i < |pairs| :: RowKey(pairs[i]) == key
  }

  /** Some row with key `key` is on venue `exchange`. */
  predicate Listed(pairs: seq<TradingPair>, key: PairKey, exchange: Exchange) {
    exists i | 0 <= i < |pairs| :: RowKey(pairs[i]) == key && pairs[i].exchange == exchange
  }

  /** No key occurs twice. */
  predicate Distinct(keys: seq<PairKey>) {
    forall i, j | 0 <= i < j < |keys| :: keys[i] != keys[j]
  }

  /** The distinct keys of a sequence number its length. */
  lemma {:induction false} DistinctCount(keys: seq<PairKey>)
    requires Distinct(keys)
    ensures |set k | k in keys| == |keys|
    decreases |keys|
  {
    if |keys| > 0 {
      var pre := keys[..|keys| - 1];
      DistinctCount(pre);
      assert (set k | k in keys) == (set k | k in pre) + {keys[|keys| - 1]};
    }
  }

  /** A key is present in rows read one further iff it was already present
      or is the new row's key. */
  lemma {:induction false} PresentStep(pairs: seq<TradingPair>)
    requires |pairs| > 0
    ensures forall k :: KeyPresent(pairs, k) <==>
                          KeyPresent(pairs[..|pairs| - 1], k) || k == RowKey(pairs[|pairs| - 1])
  {
    var pre := pairs[..|pairs| - 1];
    forall k | KeyPresent(pairs, k)
      ensures KeyPresent(pre, k) || k == RowKey(pairs[|pairs| - 1])
    {
      var i :| 0 <= i < |pairs| && RowKey(pairs[i]) == k;
      if i < |pre| { assert pre[i] == pairs[i]; }
    }
    forall k | KeyPresent(pre, k) ensures KeyPresent(pairs, k) {
      var i :| 0 <= i < |pre| && RowKey(pre[i]) == k;
      assert pre[i] == pairs[i];
    }
  }

  /** A key is listed on a venue in rows read one further iff it already was
      or the new row is that key on that venue. */
  lemma {:induction false} ListedStep(pairs: seq<TradingPair>)
    requires |pairs| > 0
    ensures forall k, e :: Listed(pairs, k, e) <==>
              Listed(pairs[..|pairs| - 1], k, e)
              || (k == RowKey(pairs[|pairs| - 1]) && e == pairs[|pairs| - 1].exchange)
  {
    var pre := pairs[..|pairs| - 1];
    forall k, e | Listed(pairs, k, e)
      ensures Listed(pre, k, e) || (k == RowKey(pairs[|pairs| - 1]) && e == pairs[|pairs| - 1].exchange)
    {
      var i :| 0 <= i < |pairs| && RowKey(pairs[i]) == k && pairs[i].exchange == e;
      if i < |pre| { assert pre[i] == pairs[i]; }
    }
    forall k, e | Listed(pre, k, e) ensures Listed(pairs, k, e) {
      var i :| 0 <= i < |pre| && RowKey(pre[i]) == k && pre[i].exchange == e;
      assert pre[i] == pairs[i];
    }
  }

  /** The grouping lists every key of the rows once, in its map and its
      order, and no other key. */
  lemma {:induction false} GroupKeys(pairs: seq<TradingPair>)
    ensures var g := GroupSpec(pairs);
      && (forall k :: k in g.order <==> KeyPresent(pairs, k))
      && (forall k :: k in g.exchanges <==> k in g.order)
      && Distinct(g.order)
    decreases |pairs|
  {
    if |pairs| > 0 {
      GroupKeys(pairs[..|pairs| - 1]);
      PresentStep(pairs);
    }
  }

  /** Each key's set holds exactly the venues of the rows with that key. */
  lemma {:induction false} GroupVenues(pairs: seq<TradingPair>)
    ensures var g := GroupSpec(pairs);
      forall k, e | k in g.exchanges :: e in g.exchanges[k] <==> Listed(pairs, k, e)
    decreases |pairs|
  {
    if |pairs| > 0 {
      var pre := pairs[..|pairs| - 1];
      GroupVenues(pre);
      GroupKeys(pre);
      ListedStep(pairs);
      forall k, e | Listed(pre, k, e) ensures k in GroupSpec(pre).exchanges {
        var i :| 0 <= i < |pre| && RowKey(pre[i]) == k && pre[i].exchange == e;
        assert KeyPresent(pre, k);
      }
    }
  }

  /** The grouping's keys are distinct and each has its set of venues. */
  lemma {:induction false} GroupOrderListed(pairs: seq<TradingPair>)
    ensures var g := GroupSpec(pairs);
      Distinct(g.order) && forall i | 0 <= i < |g.order| :: g.order[i] in g.exchanges
  {
    GroupKeys(pairs);
  }

  /** Building `pairExchanges`: one pass over the rows, adding an empty set
      for a key seen first and then the row's venue to its key's set. */
  method GroupByKey(pairs: seq<TradingPair>) returns (g: Grouping)
    ensures g == GroupSpec(pairs)
  {
    g := Grouping([], map[]);
    for i := 0 to |pairs|
      invariant g == GroupSpec(pairs[..i])
    {
      var key := RowKey(pairs[i]);
      assert pairs[..i + 1][..i] == pairs[..i];
      if key in g.exchanges {
        g := g.(exchanges := g.exchanges[key := g.exchanges[key] + {pairs[i].exchange}]);
      } else {
        g := Grouping(g.order + [key], g.exchanges[key := {pairs[i].exchange}]);
      }
    }
    assert pairs[..|pairs|] == pairs;
  }

  // ---------------------------------------------------------------------------
  // Selecting the keys to start

  /** A key starts a worker when both venues list it and it is not running. */
  predicate Starts(key: PairKey, exchanges: map<PairKey, set<Exchange>>, running: set<PairKey>) {
    key in exchanges && UniswapV3 in exchanges[key] && PancakeV3 in exchanges[key]
    && key !in running
  }

  /** The keys a fan-out starts, in the grouping's order. */
  function NewKeys(order: seq<PairKey>, exchanges: map<PairKey, set<Exchange>>,
                   running: set<PairKey>): seq<PairKey>
  {
    if |order| == 0 then []
    else
      var key := order[|order| - 1];
      NewKeys(order[..|order| - 1], exchanges, running)
        + (if Starts(key, exchanges, running) then [key] else [])
  }

  /** The started keys are exactly the listed keys on both venues that were
      not running, each once. */
  lemma {:induction false} NewKeysFacts(order: seq<PairKey>, exchanges: map<PairKey, set<Exchange>>,
                                        running: set<PairKey>)
    ensures forall k :: k in NewKeys(order, exchanges, running) <==>
                          k in order && Starts(k, exchanges, running)
    ensures Distinct(order) ==> Distinct(NewKeys(order, exchanges, running))
    decreases |order|
  {
    if |order| > 0 {
      var pre := order[..|order| - 1];
      NewKeysFacts(pre, exchanges, running);
      assert order == pre + [order[|order| - 1]];
      if Distinct(order) {
        assert Distinct(pre);
      }
    }
  }

  /** Running the fan-out again on the same rows starts nothing. */
  lemma {:induction false} RepeatStartsNothing(order: seq<PairKey>, exchanges: map<PairKey, set<Exchange>>,
                                               running: set<PairKey>)
    ensures var added := NewKeys(order, exchanges, running);
            NewKeys(order, exchanges, running + set k | k in added) == []
  {
    var added := NewKeys(order, exchanges, running);
    NewKeysFacts(order, exchanges, running);
    NoneStarts(order, exchanges, running + set k | k in added);
  }

  /** Nothing starts when no key read can. */
  lemma {:induction false} NoneStarts(order: seq<PairKey>, exchanges: map<PairKey, set<Exchange>>,
                                      running: set<PairKey>)
    requires forall i | 0 <= i < |order| :: !Starts(order[i], exchanges, running)
    ensures NewKeys(order, exchanges, running) == []
    decreases |order|
  {
    if |order| > 0 {
      NoneStarts(order[..|order| - 1], exchanges, running);
    }
  }

  /** Merging a map updated at one key is updating the merge at that key. */
  lemma {:induction false} MergeUpdate<V>(base: map<PairKey, V>, m: map<PairKey, V>, key: PairKey, v: V)
    ensures base + m[key := v] == (base + m)[key := v]
  {
  }

  /** Extending the keys read by one: the started keys grow by that key when
      it starts. */
  lemma {:induction false} NewKeysStep(order: seq<PairKey>, i: nat,
                                       exchanges: map<PairKey, set<Exchange>>, running: set<PairKey>)
    requires i < |order|
    ensures Starts(order[i], exchanges, running) ==>
              NewKeys(order[..i + 1], exchanges, running) == NewKeys(order[..i], exchanges, running) + [order[i]]
    ensures !Starts(order[i], exchanges, running) ==>
              NewKeys(order[..i + 1], exchanges, running) == NewKeys(order[..i], exchanges, running)
  {
    assert order[..i + 1][..i] == order[..i];
    var added := NewKeys(order[..i], exchanges, running);
    assert added + [] == added;
  }

  // ---------------------------------------------------------------------------
  // The controller's polling fan-out

  /** A polling service, as constructed from the two pieces of its key. */
  datatype PollingStart = PollingStart(baseToken: string, quoteToken: Option<string>)

  function PollingStartFor(key: PairKey): PollingStart {
    PollingStart(KeyTokens(key).0, KeyTokens(key).1)
  }

  /** The services created for the keys `added`. */
  function PollingStarts(added: seq<PairKey>): map<PairKey, PollingStart> {
    map k | k in added :: PollingStartFor(k)
  }

  /** One more key adds its service. */
  lemma {:induction false} PollingStartsSnoc(added: seq<PairKey>, key: PairKey)
    ensures PollingStarts(added + [key]) == PollingStarts(added)[key := PollingStartFor(key)]
  {
    assert forall k :: k in added + [key] <==> k in added || k == key;
  }

  /** `pollingServices` after one `startPolling` over `pairs`. */
  function ServicesAfter(running: map<PairKey, PollingStart>, pairs: seq<TradingPair>)
    : map<PairKey, PollingStart>
  {
    var g := GroupSpec(pairs);
    running + PollingStarts(NewKeys(g.order, g.exchanges, running.Keys))
  }

  /** The number of workers one fan-out over `pairs` starts. */
  function StartedCount(running: set<PairKey>, pairs: seq<TradingPair>): nat {
    var g := GroupSpec(pairs);
    |NewKeys(g.order, g.exchanges, running)|
  }

  /** One turn of the controller's loop that registers the key read next:
      the key is on both venues and not registered, and adding its service
      gives the services for one more key read. */
  lemma {:induction false} PollingStepStarts(base: map<PairKey, PollingStart>, order: seq<PairKey>,
                                             i: nat, exchanges: map<PairKey, set<Exchange>>,
                                             cur: map<PairKey, PollingStart>)
    requires i < |order| && order[i] in exchanges
    requires UniswapV3 in exchanges[order[i]] && PancakeV3 in exchanges[order[i]]
    requires cur == base + PollingStarts(NewKeys(order[..i], exchanges, base.Keys))
    requires order[i] !in cur
    ensures |NewKeys(order[..i + 1], exchanges, base.Keys)| == |NewKeys(order[..i], exchanges, base.Keys)| + 1
    ensures cur[order[i] := PollingStart(KeyTokens(order[i]).0, KeyTokens(order[i]).1)]
            == base + PollingStarts(NewKeys(order[..i + 1], exchanges, base.Keys))
  {
    var key := order[i];
    var added := NewKeys(order[..i], exchanges, base.Keys);
    assert Starts(key, exchanges, base.Keys);
    NewKeysStep(order, i, exchanges, base.Keys);
    PollingStartsSnoc(added, key);
    MergeUpdate(base, PollingStarts(added), key, PollingStartFor(key));
  }

  /** One turn of the controller's loop that skips the key read next: the key
      is not on both venues or already registered, and nothing is added. */
  lemma {:induction false} PollingStepSkips(base: map<PairKey, PollingStart>, order: seq<PairKey>,
                                            i: nat, exchanges: map<PairKey, set<Exchange>>,
                                            cur: map<PairKey, PollingStart>)
    requires i < |order| && Distinct(order) && order[i] in exchanges
    requires cur == base + PollingStarts(NewKeys(order[..i], exchanges, base.Keys))
    requires !(UniswapV3 in exchanges[order[i]] && PancakeV3 in exchanges[order[i]] && order[i] !in cur)
    ensures NewKeys(order[..i + 1], exchanges, base.Keys) == NewKeys(order[..i], exchanges, base.Keys)
  {
    NewKeysStep(order, i, exchanges, base.Keys);
    NewKeysFacts(order[..i], exchanges, base.Keys);
    assert order[i] !in order[..i];
  }

  /** One call registers exactly as many services as it counts. */
  lemma {:induction false} ServicesAddedCount(running: map<PairKey, PollingStart>, pairs: seq<TradingPair>)
    ensures |ServicesAfter(running, pairs)| == |running| + StartedCount(running.Keys, pairs)
  {
    var g := GroupSpec(pairs);
    var added := NewKeys(g.order, g.exchanges, running.Keys);
    var m := ServicesAfter(running, pairs);
    GroupKeys(pairs);
    NewKeysFacts(g.order, g.exchanges, running.Keys);
    DistinctCount(added);
    assert m.Keys == running.Keys + set k | k in added;
    assert running.Keys * (set k | k in added) == {};
    assert |m.Keys| == |running.Keys| + |set k | k in added|;
  }

  /** A second `startPolling` over unchanged rows starts nothing and changes
      nothing. */
  lemma {:induction false} PollingRepeatStartsNothing(running: map<PairKey, PollingStart>,
                                                      pairs: seq<TradingPair>)
    ensures var after := ServicesAfter(running, pairs);
            StartedCount(after.Keys, pairs) == 0 && ServicesAfter(after, pairs) == after
  {
    var g := GroupSpec(pairs);
    var added := NewKeys(g.order, g.exchanges, running.Keys);
    var after := ServicesAfter(running, pairs);
    assert after.Keys == running.Keys + set k | k in added;
    RepeatStartsNothing(g.order, g.exchanges, running.Keys);
    assert NewKeys(g.order, g.exchanges, after.Keys) == [];
  }

  /** Every service a call creates holds the base and quote of a row whose key
      is listed on both venues and was not registered before. */
  lemma {:induction false} PollingStartsBothVenuePairs(running: map<PairKey, PollingStart>,
                                                       pairs: seq<TradingPair>, key: PairKey)
    requires key in ServicesAfter(running, pairs) && key !in running
    ensures exists i | 0 <= i < |pairs| :: RowKey(pairs[i]) == key
              && ServicesAfter(running, pairs)[key]
                 == PollingStart(pairs[i].baseTokenAddress, Some(pairs[i].quoteTokenAddress))
    ensures Listed(pairs, key, UniswapV3) && Listed(pairs, key, PancakeV3)
  {
    var g := GroupSpec(pairs);
    GroupKeys(pairs);
    GroupVenues(pairs);
    NewKeysFacts(g.order, g.exchanges, running.Keys);
    var i :| 0 <= i < |pairs| && RowKey(pairs[i]) == key;
    KeySplit(pairs[i].baseTokenAddress, pairs[i].quoteTokenAddress);
  }

  /** `startPolling` as written: `TraderPollingService` defines no `start`,
      so the call on the first service created throws before that service is
      registered. The request then fails and nothing is registered; only a
      call that finds no new key returns, with `started` 0. */
  function StartPollingAsWritten(running: map<PairKey, PollingStart>, pairs: seq<TradingPair>)
    : (Result<nat>, map<PairKey, PollingStart>)
  {
    var g := GroupSpec(pairs);
    if NewKeys(g.order, g.exchanges, running.Keys) == [] then (Ok(0), running)
    else (Err(NotAFunction), running)
  }

  /** As written, a call that should start a service fails and registers
      nothing, where the intended call (`TraderController.StartPolling`)
      registers every new key. */
  lemma {:induction false} StartPollingAsWrittenFails(running: map<PairKey, PollingStart>,
                                                      pairs: seq<TradingPair>)
    ensures var r := StartPollingAsWritten(running, pairs);
            && r.1 == running
            && (r.0.Err? <==> StartedCount(running.Keys, pairs) > 0)
            && (r.0.Ok? ==> r.0.value == 0 && ServicesAfter(running, pairs) == running)
    ensures StartedCount(running.Keys, pairs) > 0 ==>
              |ServicesAfter(running, pairs)| > |StartPollingAsWritten(running, pairs).1|
  {
    var g := GroupSpec(pairs);
    var added := NewKeys(g.order, g.exchanges, running.Keys);
    ServicesAddedCount(running, pairs);
    if added == [] {
      assert PollingStarts(added) == map[];
      assert ServicesAfter(running, pairs) == running;
    }
  }

  /** `TraderController`: the polling services by key. */
  class TraderController {
    var pollingServices: map<PairKey, PollingStart>

    constructor()
      ensures pollingServices == map[]
    {
      pollingServices := map[];
    }

    /** `startPolling`: group the rows, then create a service for every key
        on both venues not already registered, counting them. Starting a
        created service is not modelled. */
    method StartPolling(pairs: seq<TradingPair>) returns (started: nat)
      modifies this`pollingServices
      ensures pollingServices == ServicesAfter(old(pollingServices), pairs)
      ensures started == StartedCount(old(pollingServices).Keys, pairs)
    {
      var g := GroupByKey(pairs);
      GroupOrderListed(pairs);
      ghost var base := pollingServices;
      var registered := pollingServices;
      started := 0;
      for i := 0 to |g.order|
        invariant started == |NewKeys(g.order[..i], g.exchanges, base.Keys)|
        invariant registered == base + PollingStarts(NewKeys(g.order[..i], g.exchanges, base.Keys))
      {
        var key := g.order[i];
        var exchanges := g.exchanges[key];
        if UniswapV3 in exchanges && PancakeV3 in exchanges && key !in registered {
          PollingStepStarts(base, g.order, i, g.exchanges, registered);
          var (baseToken, quoteToken) := KeyTokens(key);
          registered := registered[key := PollingStart(baseToken, quoteToken)];
          started := started + 1;
        } else {
          PollingStepSkips(base, g.order, i, g.exchanges, registered);
        }
      }
      assert g.order[..|g.order|] == g.order;
      pollingServices := registered;
    }
  }

  // ---------------------------------------------------------------------------
  // The observer fan-out

  /** An arbitrage monitor, as constructed: the index of its funding wallet
      and the two pieces of its key. */
  datatype ObserverStart = ObserverStart(wallet: nat, baseToken: string, quoteToken: Option<string>)

  function ObserverStartFor(key: PairKey, wallet: nat): ObserverStart {
    ObserverStart(wallet, KeyTokens(key).0, KeyTokens(key).1)
  }

  /** The monitors for `added`, handed consecutive wallets from `firstWallet`. */
  function Launches(added: seq<PairKey>, firstWallet: nat): map<PairKey, ObserverStart>
  {
    if |added| == 0 then map[]
    else
      var key := added[|added| - 1];
      Launches(added[..|added| - 1], firstWallet)[key := ObserverStartFor(key, firstWallet + |added| - 1)]
  }

  /** Exactly the keys `added` are launched. */
  lemma {:induction false} LaunchesKeys(added: seq<PairKey>, firstWallet: nat)
    ensures Launches(added, firstWallet).Keys == set k | k in added
    decreases |added|
  {
    if |added| > 0 {
      var pre := added[..|added| - 1];
      LaunchesKeys(pre, firstWallet);
      assert added == pre + [added[|added| - 1]];
    }
  }

  /** The `i`-th new key is launched on wallet `firstWallet + i`. */
  lemma {:induction false} LaunchWallet(added: seq<PairKey>, firstWallet: nat, i: nat)
    requires Distinct(added) && i < |added|
    ensures added[i] in Launches(added, firstWallet)
    ensures Launches(added, firstWallet)[added[i]].wallet == firstWallet + i
    decreases |added|
  {
    if i < |added| - 1 {
      var pre := added[..|added| - 1];
      assert pre[i] == added[i];
      LaunchWallet(pre, firstWallet, i);
    }
  }

  /** One more key is launched on the next wallet. */
  lemma {:induction false} LaunchesSnoc(added: seq<PairKey>, key: PairKey, firstWallet: nat)
    ensures Launches(added + [key], firstWallet)
            == Launches(added, firstWallet)[key := ObserverStartFor(key, firstWallet + |added|)]
  {
    assert (added + [key])[..|added|] == added;
  }

  /** No two monitors share a wallet. */
  predicate WalletsDistinct(observers: map<PairKey, ObserverStart>) {
    forall k1, k2 | k1 in observers && k2 in observers && k1 != k2 ::
      observers[k1].wallet != observers[k2].wallet
  }

  /** Every monitor's wallet is below `bound`. */
  predicate WalletsBelow(observers: map<PairKey, ObserverStart>, bound: nat) {
    forall k | k in observers :: observers[k].wallet < bound
  }

  /** `observers` after one `onModuleInit` over `pairs` as evidently
      intended: the new monitors take the wallets from `nextWallet` on, a
      counter kept across calls, so no two monitors ever share a wallet
      (`ObserversAfterKeepsWallets`). */
  function ObserversAfter(running: map<PairKey, ObserverStart>, nextWallet: nat,
                          pairs: seq<TradingPair>): map<PairKey, ObserverStart>
  {
    var g := GroupSpec(pairs);
    running + Launches(NewKeys(g.order, g.exchanges, running.Keys), nextWallet)
  }

  /** `observers` after one `onModuleInit` over `pairs` as written: the wallet
      index is `started`, the count of monitors started in this call, so every
      call hands out wallets from 0 again. */
  function ObserversAsWritten(running: map<PairKey, ObserverStart>, pairs: seq<TradingPair>)
    : map<PairKey, ObserverStart>
  {
    var g := GroupSpec(pairs);
    running + Launches(NewKeys(g.order, g.exchanges, running.Keys), 0)
  }

  /** One turn of the monitor loop that starts the key read next: the key
      is on both venues and not running, and adding it on the next wallet
      gives the monitors for one more key read. */
  lemma {:induction false} ObserverStepStarts(base: map<PairKey, ObserverStart>, firstWallet: nat,
                                              order: seq<PairKey>, i: nat,
                                              exchanges: map<PairKey, set<Exchange>>,
                                              cur: map<PairKey, ObserverStart>, wallet: nat)
    requires i < |order| && Distinct(order) && order[i] in exchanges
    requires UniswapV3 in exchanges[order[i]] && PancakeV3 in exchanges[order[i]]
    requires cur == base + Launches(NewKeys(order[..i], exchanges, base.Keys), firstWallet)
    requires wallet == firstWallet + |NewKeys(order[..i], exchanges, base.Keys)|
    requires order[i] !in cur
    ensures |NewKeys(order[..i + 1], exchanges, base.Keys)| == |NewKeys(order[..i], exchanges, base.Keys)| + 1
    ensures cur[order[i] := ObserverStart(wallet, KeyTokens(order[i]).0, KeyTokens(order[i]).1)]
            == base + Launches(NewKeys(order[..i + 1], exchanges, base.Keys), firstWallet)
  {
    var key := order[i];
    var added := NewKeys(order[..i], exchanges, base.Keys);
    LaunchesKeys(added, firstWallet);
    assert Starts(key, exchanges, base.Keys);
    NewKeysStep(order, i, exchanges, base.Keys);
    LaunchesSnoc(added, key, firstWallet);
    MergeUpdate(base, Launches(added, firstWallet), key, ObserverStartFor(key, wallet));
  }

  /** One turn of the monitor loop that skips the key read next: the key is
      not on both venues or already running, and nothing is added. */
  lemma {:induction false} ObserverStepSkips(base: map<PairKey, ObserverStart>, firstWallet: nat,
                                             order: seq<PairKey>, i: nat,
                                             exchanges: map<PairKey, set<Exchange>>,
                                             cur: map<PairKey, ObserverStart>)
    requires i < |order| && Distinct(order) && order[i] in exchanges
    requires cur == base + Launches(NewKeys(order[..i], exchanges, base.Keys), firstWallet)
    requires !(UniswapV3 in exchanges[order[i]] && PancakeV3 in exchanges[order[i]] && order[i] !in cur)
    ensures NewKeys(order[..i + 1], exchanges, base.Keys) == NewKeys(order[..i], exchanges, base.Keys)
  {
    var added := NewKeys(order[..i], exchanges, base.Keys);
    NewKeysStep(order, i, exchanges, base.Keys);
    NewKeysFacts(order[..i], exchanges, base.Keys);
    assert order[i] !in order[..i];
    LaunchesKeys(added, firstWallet);
  }

  /** Handing the new keys the wallets from `nextWallet` on, when every
      running monitor's wallet is below it, keeps every monitor on its own
      wallet, all below the counter advanced by the number started. */
  lemma {:induction false} LaunchesKeepWalletsDistinct(running: map<PairKey, ObserverStart>,
                                                       nextWallet: nat, added: seq<PairKey>)
    requires WalletsDistinct(running) && WalletsBelow(running, nextWallet)
    requires Distinct(added)
    requires forall i | 0 <= i < |added| :: added[i] !in running
    ensures WalletsDistinct(running + Launches(added, nextWallet))
    ensures WalletsBelow(running + Launches(added, nextWallet), nextWallet + |added|)
  {
    var launched := Launches(added, nextWallet);
    var m := running + launched;
    LaunchesKeys(added, nextWallet);
    forall i | 0 <= i < |added|
      ensures added[i] in launched && m[added[i]].wallet == nextWallet + i
    {
      LaunchWallet(added, nextWallet, i);
    }
    forall k | k in m ensures m[k].wallet < nextWallet + |added| {
      if k !in running {
        var i :| 0 <= i < |added| && added[i] == k;
      }
    }
    forall k1, k2 | k1 in m && k2 in m && k1 != k2 ensures m[k1].wallet != m[k2].wallet {
      if k1 !in running {
        var i :| 0 <= i < |added| && added[i] == k1;
        if k2 !in running {
          var j :| 0 <= j < |added| && added[j] == k2;
        }
      } else if k2 !in running {
        var j :| 0 <= j < |added| && added[j] == k2;
      }
    }
  }

  /** With a wallet counter kept across calls, one call keeps every monitor
      on its own wallet and every wallet below the advanced counter. */
  lemma {:induction false} ObserversAfterKeepsWallets(running: map<PairKey, ObserverStart>,
                                                      nextWallet: nat, pairs: seq<TradingPair>)
    requires WalletsDistinct(running) && WalletsBelow(running, nextWallet)
    ensures var after := ObserversAfter(running, nextWallet, pairs);
            && WalletsDistinct(after)
            && WalletsBelow(after, nextWallet + StartedCount(running.Keys, pairs))
  {
    var g := GroupSpec(pairs);
    var added := NewKeys(g.order, g.exchanges, running.Keys);
    GroupKeys(pairs);
    NewKeysFacts(g.order, g.exchanges, running.Keys);
    forall i | 0 <= i < |added| ensures added[i] !in running {
      assert added[i] in added;
    }
    LaunchesKeepWalletsDistinct(running, nextWallet, added);
  }

  /** One call adds exactly as many monitors as it counts. */
  lemma {:induction false} ObserversAddedCount(running: map<PairKey, ObserverStart>, nextWallet: nat,
                                               pairs: seq<TradingPair>)
    ensures |ObserversAfter(running, nextWallet, pairs)| == |running| + StartedCount(running.Keys, pairs)
  {
    var g := GroupSpec(pairs);
    var added := NewKeys(g.order, g.exchanges, running.Keys);
    var m := ObserversAfter(running, nextWallet, pairs);
    GroupKeys(pairs);
    NewKeysFacts(g.order, g.exchanges, running.Keys);
    LaunchesKeys(added, nextWallet);
    DistinctCount(added);
    assert m.Keys == running.Keys + set k | k in added;
    assert running.Keys * (set k | k in added) == {};
    assert |m.Keys| == |running.Keys| + |set k | k in added|;
  }

  /** As written, a second `onModuleInit` that finds a new key while the
      monitor on wallet 0 is running gives the new monitor wallet 0 too. */
  lemma {:induction false} WalletReuseAsWritten(running: map<PairKey, ObserverStart>,
                                                pairs: seq<TradingPair>, first: PairKey)
    requires first in running && running[first].wallet == 0
    requires var g := GroupSpec(pairs); NewKeys(g.order, g.exchanges, running.Keys) != []
    ensures var g := GroupSpec(pairs);
            var key := NewKeys(g.order, g.exchanges, running.Keys)[0];
            && key != first
            && key in ObserversAsWritten(running, pairs)
            && ObserversAsWritten(running, pairs)[key].wallet == 0
            && ObserversAsWritten(running, pairs)[first].wallet == 0
    ensures !WalletsDistinct(ObserversAsWritten(running, pairs))
  {
    var g := GroupSpec(pairs);
    var added := NewKeys(g.order, g.exchanges, running.Keys);
    var launched := Launches(added, 0);
    GroupKeys(pairs);
    NewKeysFacts(g.order, g.exchanges, running.Keys);
    LaunchesKeys(added, 0);
    assert added[0] in added;
    assert first !in launched;
    LaunchWallet(added, 0, 0);
  }

  /** A second `onModuleInit` over unchanged rows starts nothing and changes
      nothing. */
  lemma {:induction false} ObserverRepeatStartsNothing(running: map<PairKey, ObserverStart>,
                                                       nextWallet: nat, pairs: seq<TradingPair>)
    ensures var after := ObserversAfter(running, nextWallet, pairs);
            var next := nextWallet + StartedCount(running.Keys, pairs);
            StartedCount(after.Keys, pairs) == 0 && ObserversAfter(after, next, pairs) == after
  {
    var g := GroupSpec(pairs);
    var added := NewKeys(g.order, g.exchanges, running.Keys);
    var after := ObserversAfter(running, nextWallet, pairs);
    LaunchesKeys(added, nextWallet);
    assert after.Keys == running.Keys + set k | k in added;
    RepeatStartsNothing(g.order, g.exchanges, running.Keys);
    assert NewKeys(g.order, g.exchanges, after.Keys) == [];
  }

  /** As written, the first `onModuleInit` of a service hands out distinct
      wallets, numbered from 0 in the order the keys are first listed. */
  lemma {:induction false} FirstInitWalletsDistinct(pairs: seq<TradingPair>)
    ensures var after := ObserversAsWritten(map[], pairs);
            && WalletsDistinct(after)
            && WalletsBelow(after, StartedCount({}, pairs))
  {
    var none: map<PairKey, ObserverStart> := map[];
    assert none.Keys == {};
    ObserversAfterKeepsWallets(none, 0, pairs);
  }

  /** `TraderObserverService`: the running monitors by key. */
  class TraderObserverService {
    var observers: map<PairKey, ObserverStart>

    constructor()
      ensures observers == map[]
    {
      observers := map[];
    }

    /** `onModuleInit`: group the rows, then start a monitor for every key on
        both venues not already running, counting them; the monitor started
        `started`-th in this call takes wallet `started`, so a later call
        numbers its wallets from 0 again (see `WalletReuseAsWritten`).
        Starting the monitor itself is Observer.TraderObserver.Start. */
    method OnModuleInit(pairs: seq<TradingPair>) returns (started: nat)
      modifies this`observers
      ensures observers == ObserversAsWritten(old(observers), pairs)
      ensures started == StartedCount(old(observers).Keys, pairs)
    {
      var g := GroupByKey(pairs);
      GroupOrderListed(pairs);
      ghost var base := observers;
      var running := observers;
      started := 0;
      for i := 0 to |g.order|
        invariant started == |NewKeys(g.order[..i], g.exchanges, base.Keys)|
        invariant running == base + Launches(NewKeys(g.order[..i], g.exchanges, base.Keys), 0)
      {
        var key := g.order[i];
        var exchanges := g.exchanges[key];
        if UniswapV3 in exchanges && PancakeV3 in exchanges && key !in running {
          ObserverStepStarts(base, 0, g.order, i, g.exchanges, running, started);
          var (baseToken, quoteToken) := KeyTokens(key);
          running := running[key := ObserverStart(started, baseToken, quoteToken)];
          started := started + 1;
        } else {
          ObserverStepSkips(base, 0, g.order, i, g.exchanges, running);
        }
      }
      assert g.order[..|g.order|] == g.order;
      observers := running;
    }
  }
}
