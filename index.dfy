/** The connector of src/index.ts: the module-level websocket state, the
    keep-alive ping, the pong watchdog, the message listener that routes
    marketplace transactions to the handlers, and the main loop's pacing.
    Timer firings and incoming frames are method calls in the order they
    happen; `now` is the wall clock at that moment, in milliseconds. */
module Connector {
  import opened Types
  import opened Utils
  import opened Db
  import opened Tensor
  import opened Workers
  import opened Handlers

  /** The tracked collections; the websocket subscribes to the first. */
  const CollectionAddresses: seq<string> := ["Goon5hY489pW6TE3D7z5m2uU4wbUG99sr5pjvSH9M86"]

  const PingInterval := 30000
  const PongCheckInterval := 10000
  const PongTimeout := 40000
  const FiveSeconds := 5000
  const OneMinute := FiveSeconds * 12
  const TwentySeconds := FiveSeconds * 4

  /** A message the connector sends on the socket. */
  datatype Outgoing = Subscribe(collId: string) | Ping

  /** An incoming frame as the message listener sees it: no data, data that
      `JSON.parse` refuses, or a parsed message with its `id` (`""` when
      absent), its `type`, and the transaction at `data.tx.tx` (`None` when
      that path is missing, which makes the destructuring throw). */
  datatype Frame =
    | NoData
    | Unparsable
    | Parsed(id: string, kind: string, tx: Option<Tx>)

  /** Where the listener's `switch` on `txType` sends a transaction. */
  datatype Route = ToList | ToDelist | ToAcceptOffer | ToBuy | NoRoute

  function RouteOf(txType: string): Route {
    if txType == "LIST" then ToList
    else if txType == "DELIST" then ToDelist
    else if txType == "SALE_ACCEPT_BID" then ToAcceptOffer
    else if txType == "SALE_BUY_NOW" then ToBuy
    else NoRoute
  }

  /** What handing `tx` to its handler does to the NFT and activity tables.
      `onAcceptOffer` reads `sender`, `nft`, `to` and `amountSOL`, which a
      transaction does not carry, so its lookup is made without an address
      and throws before anything is written. */
  function Dispatch(nfts: map<string, NftRecord>, activity: map<string, Activity>, tx: Tx, asset: Option<AssetInfo>)
    : (r: (Option<HandlerOutcome>, map<string, NftRecord>, map<string, Activity>))
    ensures r.0.None? <==> RouteOf(tx.txType).NoRoute?
    ensures r.0.None? || RouteOf(tx.txType).ToAcceptOffer? ==> r.1 == nfts && r.2 == activity
    ensures RouteOf(tx.txType).ToAcceptOffer? ==> r.0 == Some(LookupFailed)
    ensures RouteOf(tx.txType).ToList? || RouteOf(tx.txType).ToDelist? ==>
      r.2 == activity && r.0.Some? && (r.0.value.Applied? <==> Resolvable(nfts, tx.mintOnchainId, asset, CollectionAddresses))
    ensures r.0 == Some(Applied) && RouteOf(tx.txType).ToList? ==>
      tx.mintOnchainId in r.1 &&
      var n := r.1[tx.mintOnchainId];
      n.listed && n.price == Some(tx.grossAmount.GetOr(0)) && n.owner == tx.sellerId
    ensures r.0 == Some(Applied) && RouteOf(tx.txType).ToDelist? ==>
      tx.mintOnchainId in r.1 &&
      var n := r.1[tx.mintOnchainId];
      !n.listed && n.price.None? && n.owner == tx.sellerId
    ensures r.0 == Some(Applied) && RouteOf(tx.txType).ToBuy? ==>
      tx.mintOnchainId in r.1 &&
      var n := r.1[tx.mintOnchainId];
      && !n.listed && n.price.None? && n.offers == [] && Some(n.owner) == tx.buyerId
      && n.lastSale == tx.grossAmount.GetOr(0) && r.2 == activity[tx.txId := BuyRow(tx)]
    ensures Elsewhere(nfts, r.1, tx.mintOnchainId)
  {
    match RouteOf(tx.txType)
    case ToList =>
      var s := SetListing(nfts, tx.mintOnchainId, tx.sellerId, true, Some(tx.grossAmount.GetOr(0)), asset, CollectionAddresses);
      (Some(s.0), s.1, activity)
    case ToDelist =>
      var s := SetListing(nfts, tx.mintOnchainId, tx.sellerId, false, None, asset, CollectionAddresses);
      (Some(s.0), s.1, activity)
    case ToAcceptOffer => (Some(LookupFailed), nfts, activity)
    case ToBuy =>
      var s := Sale(nfts, activity, tx.mintOnchainId, tx.buyerId.GetOr(""), tx.buyerId,
                    Some(tx.grossAmount.GetOr(0)), BuyRow(tx), asset, CollectionAddresses);
      (Some(s.0), s.1, s.2)
    case NoRoute => (None, nfts, activity)
  }

  /** The listener routes exactly the four marketplace transaction types;
      `Dispatch` leaves the store alone for every other one. */
  lemma RoutedTypes(txType: string)
    ensures RouteOf(txType).NoRoute? <==> txType !in ["LIST", "DELIST", "SALE_ACCEPT_BID", "SALE_BUY_NOW"]
  {
  }

  class Connection {
    /** `socket` is set. */
    var socket: bool
    var lastPong: Option<int>
    /** When the pending `sendPing` and `checkPongs` timers fire. */
    var pingTimer: Option<int>
    var pongTimer: Option<int>
    /** The collection id the socket's open listener subscribes with, once
        `setUpWebsocket` has registered its listeners. */
    var listening: Option<string>
    /** The listener's `subscriptionId`, local to one `setUpWebsocket`. */
    var subscriptionId: string
    /** What has been sent on the current socket, in order. */
    var sent: seq<Outgoing>
    /** How many runs of `main` have been started; none of them returns. */
    var mainRuns: nat

    /** The state when the module has loaded and called `main` once. */
    constructor ()
      ensures !socket && lastPong.None? && pingTimer.None? && pongTimer.None?
      ensures listening.None? && subscriptionId == "" && sent == [] && mainRuns == 1
    {
      socket, lastPong, pingTimer, pongTimer := false, None, None, None;
      listening, subscriptionId, sent, mainRuns := None, "", [], 1;
    }

    /** No socket, no pending timer and no pong on record. */
    predicate Idle()
      reads this
    {
      !socket && lastPong.None? && pingTimer.None? && pongTimer.None?
    }

    /** `setUpWebsocket`: the socket is created first; listeners are
        registered only when the first tracked collection has a non-empty id. */
    method SetUp(store: Store) returns (ok: bool)
      modifies this
      ensures ok <==> CollectionAddresses[0] in store.collections && store.collections[CollectionAddresses[0]] != ""
      ensures socket && sent == [] && subscriptionId == ""
      ensures listening == (if ok then Some(store.collections[CollectionAddresses[0]]) else None)
      ensures lastPong == old(lastPong) && pingTimer == old(pingTimer) && pongTimer == old(pongTimer)
      ensures mainRuns == old(mainRuns)
    {
      socket, sent, subscriptionId, listening := true, [], "", None;
      var address := CollectionAddresses[0];
      if address !in store.collections {
        return false;
      }
      var collId := store.collections[address];
      if collId == "" {
        return false;
      }
      listening := Some(collId);
      ok := true;
    }

    /** `sendPing`: one ping now, the next one `PingInterval` later. */
    method SendPing(now: int)
      modifies this
      ensures sent == old(sent) + [Ping] && pingTimer == Some(now + PingInterval)
      ensures socket == old(socket) && lastPong == old(lastPong) && pongTimer == old(pongTimer)
      ensures listening == old(listening) && subscriptionId == old(subscriptionId) && mainRuns == old(mainRuns)
    {
      sent := sent + [Ping];
      pingTimer := Some(now + PingInterval);
    }

    /** `checkPongs`: reconnects exactly when a pong is on record and it is
        more than `PongTimeout` old; otherwise checks again `PongCheckInterval`
        later. A reconnect starts `main` once more. */
    method CheckPongs(now: int) returns (reconnected: bool)
      modifies this
      ensures reconnected <==> old(lastPong).Some? && now - old(lastPong).value > PongTimeout
      ensures old(lastPong).None? ==> !reconnected
      ensures reconnected ==> Idle() && mainRuns == old(mainRuns) + 1
      ensures !reconnected ==>
        && pongTimer == Some(now + PongCheckInterval) && mainRuns == old(mainRuns)
        && socket == old(socket) && lastPong == old(lastPong) && pingTimer == old(pingTimer)
      ensures listening == old(listening) && subscriptionId == old(subscriptionId) && sent == old(sent)
    {
      if lastPong.Some? && now - lastPong.value > PongTimeout {
        CleanUp();
        mainRuns := mainRuns + 1;
        reconnected := true;
      } else {
        pongTimer := Some(now + PongCheckInterval);
        reconnected := false;
      }
    }

    /** The open listener: subscribe, then the first ping, then the first
        pong check. Without registered listeners nothing happens. */
    method OnOpen(now: int) returns (reconnected: bool)
      modifies this
      ensures listening.None? ==> !reconnected && sent == old(sent) && pingTimer == old(pingTimer) && pongTimer == old(pongTimer)
      ensures listening.Some? ==>
        && sent == old(sent) + [Subscribe(listening.value), Ping]
        && pingTimer == (if reconnected then None else Some(now + PingInterval))
      ensures listening.Some? ==> (reconnected <==> old(lastPong).Some? && now - old(lastPong).value > PongTimeout)
      ensures listening.Some? && old(lastPong).None? ==>
        !reconnected && pongTimer == Some(now + PongCheckInterval) && lastPong.None?
      ensures listening == old(listening) && subscriptionId == old(subscriptionId)
    {
      reconnected := false;
      if listening.Some? {
        sent := sent + [Subscribe(listening.value)];
        SendPing(now);
        reconnected := CheckPongs(now);
      }
    }

    /** The error listener, after its one-second sleep: clean up and start
        `main` again. */
    method OnError()
      modifies this
      ensures Idle() && mainRuns == old(mainRuns) + 1
      ensures listening == old(listening) && subscriptionId == old(subscriptionId) && sent == old(sent)
    {
      CleanUp();
      mainRuns := mainRuns + 1;
    }

    /** `cleanUp`: both timers cleared, the socket terminated and dropped, the
        last pong forgotten. */
    method CleanUp()
      modifies this
      ensures Idle()
      ensures listening == old(listening) && subscriptionId == old(subscriptionId) && sent == old(sent)
      ensures mainRuns == old(mainRuns)
    {
      pingTimer, pongTimer := None, None;
      socket := false;
      lastPong := None;
    }

    /** The message listener. The subscription id is the first non-empty
        `id` seen; a pong is timestamped; a transaction is handed to its
        handler. A frame that cannot be read, or a handler that throws, is
        caught and logged and changes nothing more. */
    method OnMessage(store: Store, now: int, frame: Frame, asset: Option<AssetInfo>)
      returns (handled: Option<HandlerOutcome>)
      modifies this, store
      ensures subscriptionId ==
        (if frame.Parsed? && frame.id != "" && old(subscriptionId) == "" then frame.id else old(subscriptionId))
      ensures old(subscriptionId) != "" ==> subscriptionId == old(subscriptionId)
      ensures lastPong == (if frame.Parsed? && frame.kind == "pong" then Some(now) else old(lastPong))
      ensures socket == old(socket) && pingTimer == old(pingTimer) && pongTimer == old(pongTimer)
      ensures listening == old(listening) && sent == old(sent) && mainRuns == old(mainRuns)
      ensures (handled, store.nfts, store.activity) ==
        (if frame.Parsed? && frame.kind == "newTransaction" && frame.tx.Some?
         then Dispatch(old(store.nfts), old(store.activity), frame.tx.value, asset)
         else (None, old(store.nfts), old(store.activity)))
      ensures store.users == old(store.users)
      ensures store.collections == old(store.collections) && store.memory == old(store.memory)
    {
      handled := None;
      if !frame.Parsed? {
        return;
      }
      if frame.id != "" && subscriptionId == "" {
        subscriptionId := frame.id;
      }
      if frame.kind == "pong" {
        lastPong := Some(now);
      }
      if frame.kind == "newTransaction" && frame.tx.Some? {
        var tx := frame.tx.value;
        var route := RouteOf(tx.txType);
        var outcome;
        match route
        case ToList =>
          outcome := OnList(store, tx, asset, CollectionAddresses);
          handled := Some(outcome);
        case ToDelist =>
          outcome := OnDelist(store, tx, asset, CollectionAddresses);
          handled := Some(outcome);
        case ToAcceptOffer =>
          handled := Some(LookupFailed);
        case ToBuy =>
          outcome := OnBuy(store, tx, asset, CollectionAddresses);
          handled := Some(outcome);
        case NoRoute =>
      }
    }
  }

  // ---------------------------------------------------------------------------
  // The watchdog over time

  /** When a chain of pong checks at `t`, `t + PongCheckInterval`, … (at most
      `fuel` reschedules) first reconnects, with the last pong at `last`. */
  function FirstReconnect(last: int, t: int, fuel: nat): (r: Option<int>)
    decreases fuel
  {
    if t - last > PongTimeout then Some(t)
    else if fuel == 0 then None
    else FirstReconnect(last, t + PongCheckInterval, fuel - 1)
  }

  /** Once pongs stop, the chain reconnects more than `PongTimeout` and at
      most `PongTimeout + PongCheckInterval` after the last pong, provided it
      was checking at most that long after it. */
  lemma {:induction false} ReconnectWindow(last: int, t: int, fuel: nat)
    requires last <= t && t - last <= PongTimeout + PongCheckInterval
    requires t - last + PongCheckInterval * fuel > PongTimeout
    ensures FirstReconnect(last, t, fuel).Some?
    ensures PongTimeout < FirstReconnect(last, t, fuel).value - last <= PongTimeout + PongCheckInterval
    decreases fuel
  {
    if t - last <= PongTimeout {
      ReconnectWindow(last, t + PongCheckInterval, fuel - 1);
    }
  }

  /** With a pong landing on a check, the fifth check after it is the first to
      reconnect: 50 seconds of silence, not 40, because the comparison is strict. */
  lemma PongOnTickReconnectsAtFifty(last: int)
    ensures FirstReconnect(last, last, 5) == Some(last + 50000)
    ensures FirstReconnect(last, last, 4).None?
  {
    assert FirstReconnect(last, last + 40000, 1) == Some(last + 50000);
  }

  // ---------------------------------------------------------------------------
  // The main loop

  /** The answers one `fetchMarketplaceData` call receives. */
  datatype Round = Round(streams: seq<seq<Response<MintResp>>>, attempts: seq<seq<Attempt>>, replies: seq<OffersReply>)

  /** One `fetchMarketplaceData` call answered by `x`. */
  function Sync(db: map<string, NftRecord>, x: Round): (SyncOutcome, map<string, NftRecord>) {
    MarketplaceSync(db, x.streams, x.attempts, x.replies)
  }

  /** The NFT table, the sleeps taken and whether the loop is still inside a
      `fetchMarketplaceData` call once the rounds `rs` have been answered. A
      completed pass sleeps a minute; a pass that threw sleeps twenty seconds. */
  function MainRounds(db: map<string, NftRecord>, rs: seq<Round>): (r: (map<string, NftRecord>, seq<int>, bool))
    decreases |rs|
  {
    if rs == [] then (db, [], false)
    else
      var p := MainRounds(db, rs[..|rs| - 1]);
      if p.2 then p
      else
        var s := Sync(p.0, rs[|rs| - 1]);
        if !s.0.PassRan? then (p.0, p.1, true)
        else (s.1, p.1 + [if s.0.pass.Completed? then OneMinute else TwentySeconds], false)
  }

  /** Every round that returned is followed by exactly one sleep; the loop is
      stuck only inside a call that is still waiting. */
  lemma {:induction false} MainRoundsLength(db: map<string, NftRecord>, rs: seq<Round>)
    ensures |MainRounds(db, rs).1| <= |rs|
    ensures !MainRounds(db, rs).2 ==> |MainRounds(db, rs).1| == |rs|
    decreases |rs|
  {
    if rs != [] {
      MainRoundsLength(db, rs[..|rs| - 1]);
    }
  }

  /** The `k`-th sleep follows the `k`-th round: a minute after a completed
      pass, twenty seconds after one that threw. */
  lemma {:induction false} MainRoundsSleepAt(db: map<string, NftRecord>, rs: seq<Round>, k: nat)
    requires k < |rs| && k < |MainRounds(db, rs).1|
    ensures var before := MainRounds(db, rs[..k]);
      && !before.2 && Sync(before.0, rs[k]).0.PassRan?
      && MainRounds(db, rs).1[k] == (if Sync(before.0, rs[k]).0.pass.Completed? then OneMinute else TwentySeconds)
    decreases |rs|
  {
    MainRoundsLength(db, rs);
    var init := rs[..|rs| - 1];
    var p := MainRounds(db, init);
    MainRoundsLength(db, init);
    if k < |p.1| {
      MainRoundsSleepAt(db, init, k);
      assert init[..k] == rs[..k];
    } else {
      assert !p.2;
      assert init == rs[..k];
    }
  }

  /** A round stuck in a call stops the loop for good. */
  lemma {:induction false} MainRoundsStuck(db: map<string, NftRecord>, rs: seq<Round>, k: nat)
    requires k <= |rs| && MainRounds(db, rs[..k]).2
    ensures MainRounds(db, rs) == MainRounds(db, rs[..k])
    decreases |rs|
  {
    if k < |rs| {
      var init := rs[..|rs| - 1];
      assert init[..k] == rs[..k];
      MainRoundsStuck(db, init, k);
      assert rs[..|rs|] == rs;
    } else {
      assert rs[..k] == rs;
    }
  }

  /** One round in terms of the previous ones. */
  lemma MainRoundsStep(db: map<string, NftRecord>, rs: seq<Round>, k: nat)
    requires k < |rs| && !MainRounds(db, rs[..k]).2
    ensures var p := MainRounds(db, rs[..k]);
      var s := Sync(p.0, rs[k]);
      MainRounds(db, rs[..k + 1]) ==
        if !s.0.PassRan? then (p.0, p.1, true)
        else (s.1, p.1 + [if s.0.pass.Completed? then OneMinute else TwentySeconds], false)
  {
    assert rs[..k + 1][..k] == rs[..k];
  }

  /** One `fetchMarketplaceData` call of the loop. */
  method RunRound(store: Store, x: Round) returns (outcome: SyncOutcome)
    requires |x.streams| == |store.collections|
    modifies store
    ensures (outcome, store.nfts) == Sync(old(store.nfts), x)
    ensures store.activity == old(store.activity) && store.users == old(store.users)
    ensures store.collections == old(store.collections) && store.memory == old(store.memory)
  {
    outcome := FetchMarketplaceData(store, x.streams, x.attempts, x.replies);
  }

  /** `main`'s `while (true)` loop over the rounds answered so far: it
      reconciles, then sleeps according to the outcome. */
  method MainLoop(store: Store, rounds: seq<Round>) returns (sleeps: seq<int>, stuck: bool)
    requires forall k :: 0 <= k < |rounds| ==> |rounds[k].streams| == |store.collections|
    modifies store
    ensures (store.nfts, sleeps, stuck) == MainRounds(old(store.nfts), rounds)
    ensures store.activity == old(store.activity) && store.users == old(store.users)
    ensures store.collections == old(store.collections) && store.memory == old(store.memory)
  {
    sleeps, stuck := [], false;
    var k := 0;
    while k < |rounds|
      invariant 0 <= k <= |rounds|
      invariant (store.nfts, sleeps, stuck) == MainRounds(old(store.nfts), rounds[..k])
      invariant !stuck
      invariant store.activity == old(store.activity) && store.users == old(store.users)
      invariant store.collections == old(store.collections) && store.memory == old(store.memory)
    {
      var outcome := RunRound(store, rounds[k]);
      MainRoundsStep(old(store.nfts), rounds, k);
      if !outcome.PassRan? {
        stuck := true;
        MainRoundsStuck(old(store.nfts), rounds, k + 1);
        return;
      }
      sleeps := sleeps + [if outcome.pass.Completed? then OneMinute else TwentySeconds];
      k := k + 1;
    }
    assert rounds[..k] == rounds;
  }
}
