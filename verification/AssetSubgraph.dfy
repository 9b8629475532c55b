// The subgraph handlers that fold the asset registry's event log into an entity store.
module AssetSubgraph {
  import opened Options

  type Address = string
  type Token = string

  /** Indices into STATUS_NAMES; the registry emits no other value. */
  type Status = s: nat | s < 5

  const STATUS_NAMES: seq<string> := ["NONE", "PENDING", "ACTIVE", "SUSPENDED", "REVOKED"]

  datatype EventId = EventId(transaction: string, logIndex: nat)

  datatype Header = Header(id: EventId, sender: Address, blockNumber: nat, timestamp: nat)

  datatype Event =
    | AssetRegistered(header: Header, token: Token, custodian: Address, assetIdDigest: string,
                      classificationDigest: string, at: nat)
    | AssetAssigned(header: Header, token: Token, custodian: Address, operator: Address, at: nat)
    | AssetTransferred(header: Header, token: Token, previous: Address, custodian: Address, operator: Address, at: nat)
    | AssetStatusChanged(header: Header, token: Token, oldStatus: Status, newStatus: Status, at: nat)

  datatype Asset = Asset(
    assetIdDigest: string, classificationDigest: string, status: Status, custodian: Address, creator: Address,
    mintTransaction: string, mintBlock: nat, mintedAt: nat, registeredAt: nat, updatedAt: nat)

  datatype Kind = MINT | ASSIGNMENT | TRANSFER

  datatype AssetTransfer = AssetTransfer(
    asset: Token, kind: Kind, fromCustodian: Option<Address>, toCustodian: Address, operator: Address, header: Header)

  datatype BlockchainEvent = BlockchainEvent(eventName: string, header: Header, payload: string)

  datatype Entities = Entities(
    assets: map<Token, Asset>, transfers: map<EventId, AssetTransfer>, events: map<EventId, BlockchainEvent>)

  const Empty := Entities(map[], map[], map[])

  /** Saving an entity keeps the stored value of every field that is not set. */
  function Merged(stored: map<EventId, AssetTransfer>, t: AssetTransfer): AssetTransfer {
    if t.fromCustodian.None? && t.header.id in stored then t.(fromCustodian := stored[t.header.id].fromCustodian) else t
  }

  function TransferOf(e: Event): AssetTransfer
    requires !e.AssetStatusChanged?
  {
    match e
    case AssetRegistered(h, token, custodian, _, _, _) => AssetTransfer(token, MINT, None, custodian, h.sender, h)
    case AssetAssigned(h, token, custodian, operator, _) =>
      AssetTransfer(token, ASSIGNMENT, None, custodian, operator, h)
    case AssetTransferred(h, token, previous, custodian, operator, _) =>
      AssetTransfer(token, TRANSFER, Some(previous), custodian, operator, h)
  }

  function EventOf(e: Event): BlockchainEvent
    requires e.AssetRegistered? || e.AssetStatusChanged?
  {
    match e
    case AssetRegistered(h, token, custodian, _, _, _) =>
      BlockchainEvent("AssetRegistered", h, "tokenId=" + token + " custodian=" + custodian)
    case AssetStatusChanged(h, token, oldStatus, newStatus, _) =>
      BlockchainEvent("AssetStatusChanged", h,
                      "tokenId=" + token + " " + STATUS_NAMES[oldStatus] + "->" + STATUS_NAMES[newStatus])
  }

  /** The asset entity after an event for its token, if there is one then. */
  function AssetAfter(stored: Option<Asset>, e: Event): Option<Asset> {
    match e
    case AssetRegistered(h, token, custodian, assetIdDigest, classificationDigest, at) =>
      Some(Asset(assetIdDigest, classificationDigest, 1, custodian, custodian, h.id.transaction, h.blockNumber, at,
                 if stored.Some? then stored.value.registeredAt else at, h.timestamp))
    case AssetStatusChanged(_, _, _, newStatus, at) =>
      if stored.Some? then Some(stored.value.(status := newStatus, updatedAt := at)) else None
    case _ =>
      if stored.Some? then Some(stored.value.(custodian := e.custodian, updatedAt := e.at)) else None
  }

  function Lookup(assets: map<Token, Asset>, token: Token): Option<Asset> {
    if token in assets then Some(assets[token]) else None
  }

  function Handled(s: Entities, e: Event): Entities {
    var asset, id := AssetAfter(Lookup(s.assets, e.token), e), e.header.id;
    Entities(
      if asset.Some? then s.assets[e.token := asset.value] else s.assets,
      if e.AssetStatusChanged? then s.transfers else s.transfers[id := Merged(s.transfers, TransferOf(e))],
      if e.AssetRegistered? || e.AssetStatusChanged? then s.events[id := EventOf(e)] else s.events)
  }

  class Store {
    var assets: map<Token, Asset>
    var transfers: map<EventId, AssetTransfer>
    var events: map<EventId, BlockchainEvent>

    function View(): Entities reads this {
      Entities(assets, transfers, events)
    }

    constructor ()
      ensures View() == Empty
    {
      assets, transfers, events := map[], map[], map[];
    }

    method SaveTransfer(t: AssetTransfer)
      modifies this`transfers
      ensures transfers == old(transfers)[t.header.id := Merged(old(transfers), t)]
    {
      transfers := transfers[t.header.id := Merged(transfers, t)];
    }

    method HandleAssetRegistered(e: Event)
      requires e.AssetRegistered?
      modifies this
      ensures View() == Handled(old(View()), e)
    {
      var registeredAt := e.at;
      if e.token in assets { registeredAt := assets[e.token].registeredAt; }
      var asset := Asset(e.assetIdDigest, e.classificationDigest, 1, e.custodian, e.custodian, e.header.id.transaction,
                         e.header.blockNumber, e.at, registeredAt, e.header.timestamp);
      assets := assets[e.token := asset];
      SaveTransfer(AssetTransfer(e.token, MINT, None, e.custodian, e.header.sender, e.header));
      var payload := "tokenId=" + e.token + " custodian=" + e.custodian;
      events := events[e.header.id := BlockchainEvent("AssetRegistered", e.header, payload)];
    }

    method HandleAssetAssigned(e: Event)
      requires e.AssetAssigned?
      modifies this
      ensures View() == Handled(old(View()), e)
    {
      if e.token in assets {
        assets := assets[e.token := assets[e.token].(custodian := e.custodian, updatedAt := e.at)];
      }
      SaveTransfer(AssetTransfer(e.token, ASSIGNMENT, None, e.custodian, e.operator, e.header));
    }

    method HandleAssetTransferred(e: Event)
      requires e.AssetTransferred?
      modifies this
      ensures View() == Handled(old(View()), e)
    {
      if e.token in assets {
        assets := assets[e.token := assets[e.token].(custodian := e.custodian, updatedAt := e.at)];
      }
      SaveTransfer(AssetTransfer(e.token, TRANSFER, Some(e.previous), e.custodian, e.operator, e.header));
    }

    method HandleAssetStatusChanged(e: Event)
      requires e.AssetStatusChanged?
      modifies this
      ensures View() == Handled(old(View()), e)
    {
      if e.token in assets {
        assets := assets[e.token := assets[e.token].(status := e.newStatus, updatedAt := e.at)];
      }
      var payload := "tokenId=" + e.token + " " + STATUS_NAMES[e.oldStatus] + "->" + STATUS_NAMES[e.newStatus];
      events := events[e.header.id := BlockchainEvent("AssetStatusChanged", e.header, payload)];
    }
  }

  // ---------------------------------------------------------------- replaying a log

  function ReplayFrom(s: Entities, log: seq<Event>): Entities {
    if log == [] then s else Handled(ReplayFrom(s, log[..|log| - 1]), log[|log| - 1])
  }

  lemma ReplayOne(s: Entities, log: seq<Event>, e: Event)
    ensures ReplayFrom(s, log + [e]) == Handled(ReplayFrom(s, log), e)
  {
    assert (log + [e])[..|log|] == log;
  }

  lemma {:induction false} ReplayInTwoParts(s: Entities, first: seq<Event>, second: seq<Event>)
    ensures ReplayFrom(s, first + second) == ReplayFrom(ReplayFrom(s, first), second)
  {
    if second == [] {
      assert first + second == first;
    } else {
      var init, last := second[..|second| - 1], second[|second| - 1];
      ReplayInTwoParts(s, first, init);
      assert first + second == first + init + [last];
      ReplayOne(s, first + init, last);
    }
  }

  /** Entities once stored stay, and an asset keeps the time of its first registration. */
  ghost predicate Below(s: Entities, t: Entities) {
    && s.assets.Keys <= t.assets.Keys && s.transfers.Keys <= t.transfers.Keys && s.events.Keys <= t.events.Keys
    && forall token | token in s.assets :: s.assets[token].registeredAt == t.assets[token].registeredAt
  }

  lemma {:induction false} ReplayGrows(s: Entities, log: seq<Event>)
    ensures Below(s, ReplayFrom(s, log))
  {
    if log != [] {
      ReplayGrows(s, log[..|log| - 1]);
    }
  }

  predicate MixedAsset(x: Asset, s: Asset, t: Asset) {
    && (x.assetIdDigest == s.assetIdDigest || x.assetIdDigest == t.assetIdDigest)
    && (x.classificationDigest == s.classificationDigest || x.classificationDigest == t.classificationDigest)
    && (x.status == s.status || x.status == t.status)
    && (x.custodian == s.custodian || x.custodian == t.custodian)
    && (x.creator == s.creator || x.creator == t.creator)
    && (x.mintTransaction == s.mintTransaction || x.mintTransaction == t.mintTransaction)
    && (x.mintBlock == s.mintBlock || x.mintBlock == t.mintBlock)
    && (x.mintedAt == s.mintedAt || x.mintedAt == t.mintedAt)
    && (x.updatedAt == s.updatedAt || x.updatedAt == t.updatedAt)
  }

  predicate MixedTransfer(x: AssetTransfer, s: AssetTransfer, t: AssetTransfer) {
    (x == s || x == t) || (x.fromCustodian == t.fromCustodian && x.(fromCustodian := s.fromCustodian) == s)
  }

  ghost predicate AssetsBetween(s: map<Token, Asset>, x: map<Token, Asset>, t: map<Token, Asset>) {
    && x.Keys == t.Keys
    && (forall token | token in t :: x[token].registeredAt == t[token].registeredAt)
    && (forall token | token in s && token in t :: MixedAsset(x[token], s[token], t[token]))
  }

  ghost predicate TransfersBetween(s: map<EventId, AssetTransfer>, x: map<EventId, AssetTransfer>,
                                   t: map<EventId, AssetTransfer>) {
    && x.Keys == t.Keys
    && (forall id | id in t && id in s :: MixedTransfer(x[id], s[id], t[id]))
    && (forall id | id in t && id !in s :: x[id] == t[id])
  }

  ghost predicate EventsBetween(s: map<EventId, BlockchainEvent>, x: map<EventId, BlockchainEvent>,
                                t: map<EventId, BlockchainEvent>) {
    && x.Keys == t.Keys
    && (forall id | id in t && id in s :: x[id] == s[id] || x[id] == t[id])
    && (forall id | id in t && id !in s :: x[id] == t[id])
  }

  /**
   * `x` replays over the final store `t` what `s` replays for the first time: every field of `x` holds the value of
   * `s` or that of `t`.
   */
  ghost predicate Between(s: Entities, x: Entities, t: Entities) {
    && AssetsBetween(s.assets, x.assets, t.assets)
    && TransfersBetween(s.transfers, x.transfers, t.transfers)
    && EventsBetween(s.events, x.events, t.events)
  }

  lemma MixedAfter(x: Asset, s: Asset, t: Asset, e: Event)
    requires MixedAsset(x, s, t)
    ensures MixedAsset(AssetAfter(Some(x), e).value, AssetAfter(Some(s), e).value, t)
  {
    var x', s' := AssetAfter(Some(x), e).value, AssetAfter(Some(s), e).value;
    match e {
      case AssetRegistered(_, _, _, _, _, _) => assert x' == s'.(registeredAt := x.registeredAt);
      case AssetStatusChanged(_, _, _, newStatus, at) =>
        assert x' == x.(status := newStatus, updatedAt := at) && s' == s.(status := newStatus, updatedAt := at);
      case _ =>
        assert x' == x.(custodian := e.custodian, updatedAt := e.at)
               && s' == s.(custodian := e.custodian, updatedAt := e.at);
    }
  }

  lemma MixedWhenNew(x: Asset, t: Asset, e: Event)
    requires e.AssetRegistered?
    ensures MixedAsset(AssetAfter(Some(x), e).value, AssetAfter(None, e).value, t)
  {
  }

  lemma PutBetween(s: map<Token, Asset>, x: map<Token, Asset>, t: map<Token, Asset>, token: Token, left: Asset,
                   right: Asset)
    requires AssetsBetween(s, x, t) && token in t
    requires MixedAsset(right, left, t[token]) && right.registeredAt == t[token].registeredAt
    ensures AssetsBetween(s[token := left], x[token := right], t)
  {
  }

  lemma PutUnseen(s: map<Token, Asset>, x: map<Token, Asset>, t: map<Token, Asset>, token: Token, right: Asset)
    requires AssetsBetween(s, x, t) && token in t && token !in s && right.registeredAt == t[token].registeredAt
    ensures AssetsBetween(s, x[token := right], t)
  {
  }

  lemma AssetsStayBetween(s: Entities, x: Entities, t: Entities, e: Event)
    requires AssetsBetween(s.assets, x.assets, t.assets) && Below(Handled(s, e), t)
    ensures AssetsBetween(Handled(s, e).assets, Handled(x, e).assets, t.assets)
  {
    var token := e.token;
    var left, right := AssetAfter(Lookup(s.assets, token), e), AssetAfter(Lookup(x.assets, token), e);
    assert left.Some? ==> token in Handled(s, e).assets;
    if token in x.assets { KeepsRegistration(x.assets[token], e); }
    if token in s.assets {
      MixedAfter(x.assets[token], s.assets[token], t.assets[token], e);
      PutBetween(s.assets, x.assets, t.assets, token, left.value, right.value);
    } else if e.AssetRegistered? {
      MixedWhenNew(x.assets[token], t.assets[token], e);
      PutBetween(s.assets, x.assets, t.assets, token, left.value, right.value);
    } else if token in x.assets {
      PutUnseen(s.assets, x.assets, t.assets, token, right.value);
    }
  }

  lemma KeepsRegistration(x: Asset, e: Event)
    ensures AssetAfter(Some(x), e).value.registeredAt == x.registeredAt
  {
  }

  lemma TransfersStayBetween(s: Entities, x: Entities, t: Entities, e: Event)
    requires TransfersBetween(s.transfers, x.transfers, t.transfers) && Below(Handled(s, e), t)
    ensures TransfersBetween(Handled(s, e).transfers, Handled(x, e).transfers, t.transfers)
  {
    if !e.AssetStatusChanged? {
      assert e.header.id in Handled(s, e).transfers;
    }
  }

  lemma EventsStayBetween(s: Entities, x: Entities, t: Entities, e: Event)
    requires EventsBetween(s.events, x.events, t.events) && Below(Handled(s, e), t)
    ensures EventsBetween(Handled(s, e).events, Handled(x, e).events, t.events)
  {
    if e.AssetRegistered? || e.AssetStatusChanged? {
      assert e.header.id in Handled(s, e).events;
    }
  }

  ghost predicate BelowAlong(s: Entities, log: seq<Event>, t: Entities) {
    forall k | 0 <= k <= |log| :: Below(ReplayFrom(s, log[..k]), t)
  }

  lemma {:induction false} RedoStaysBetween(s: Entities, redo: seq<Event>, t: Entities)
    requires Between(s, t, t) && BelowAlong(s, redo, t)
    ensures Between(ReplayFrom(s, redo), ReplayFrom(t, redo), t)
  {
    if redo != [] {
      var init, last := redo[..|redo| - 1], redo[|redo| - 1];
      forall k | 0 <= k <= |init| ensures Below(ReplayFrom(s, init[..k]), t) {
        assert init[..k] == redo[..k];
      }
      RedoStaysBetween(s, init, t);
      assert redo[..|redo|] == redo;
      OneMoreStaysBetween(ReplayFrom(s, init), ReplayFrom(t, init), t, last);
    }
  }

  lemma OneMoreStaysBetween(s: Entities, x: Entities, t: Entities, e: Event)
    requires Between(s, x, t) && Below(Handled(s, e), t)
    ensures Between(Handled(s, e), Handled(x, e), t)
  {
    AssetsStayBetween(s, x, t, e);
    TransfersStayBetween(s, x, t, e);
    EventsStayBetween(s, x, t, e);
  }

  lemma EndIsAbove(s: Entities, log: seq<Event>)
    ensures BelowAlong(s, log, ReplayFrom(s, log))
  {
    forall k | 0 <= k <= |log| ensures Below(ReplayFrom(s, log[..k]), ReplayFrom(s, log)) {
      assert log == log[..k] + log[k..];
      ReplayInTwoParts(s, log[..k], log[k..]);
      ReplayGrows(ReplayFrom(s, log[..k]), log[k..]);
    }
  }

  /** Handling any final part of the log again, on top of the store it led to, changes nothing. */
  lemma RedoingASuffixChangesNothing(prefix: seq<Event>, redo: seq<Event>)
    ensures ReplayFrom(ReplayFrom(Empty, prefix + redo), redo) == ReplayFrom(Empty, prefix + redo)
  {
    var s := ReplayFrom(Empty, prefix);
    var t := ReplayFrom(s, redo);
    ReplayInTwoParts(Empty, prefix, redo);
    ReplayGrows(s, redo);
    EndIsAbove(s, redo);
    RedoStaysBetween(s, redo, t);
    BetweenItself(t, ReplayFrom(t, redo));
  }

  lemma BetweenItself(t: Entities, x: Entities)
    requires Between(t, x, t)
    ensures x == t
  {
    forall token | token in t.assets ensures x.assets[token] == t.assets[token] {
      assert MixedAsset(x.assets[token], t.assets[token], t.assets[token]);
    }
    assert x.assets == t.assets;
    forall id | id in t.transfers ensures x.transfers[id] == t.transfers[id] {
      assert MixedTransfer(x.transfers[id], t.transfers[id], t.transfers[id]);
    }
    assert x.transfers == t.transfers;
    assert x.events == t.events;
  }

  lemma ReplayingTwiceIsReplayingOnce(log: seq<Event>)
    ensures ReplayFrom(Empty, log + log) == ReplayFrom(Empty, log)
  {
    ReplayInTwoParts(Empty, log, log);
    RedoingASuffixChangesNothing([], log);
    assert [] + log == log;
  }

  // ---------------------------------------------------------------- what the store says about the log

  predicate Moves(e: Event, token: Token) {
    e.token == token && !e.AssetStatusChanged?
  }

  predicate SetsStatus(e: Event, token: Token) {
    e.token == token && (e.AssetRegistered? || e.AssetStatusChanged?)
  }

  predicate Registers(e: Event, token: Token) {
    e.token == token && e.AssetRegistered?
  }

  ghost predicate LastMove(log: seq<Event>, token: Token, i: int) {
    0 <= i < |log| && Moves(log[i], token) && forall j | i < j < |log| :: !Moves(log[j], token)
  }

  ghost predicate LastStatus(log: seq<Event>, token: Token, i: int) {
    0 <= i < |log| && SetsStatus(log[i], token) && forall j | i < j < |log| :: !SetsStatus(log[j], token)
  }

  ghost predicate FirstRegistration(log: seq<Event>, token: Token, i: int) {
    0 <= i < |log| && Registers(log[i], token) && forall j | 0 <= j < i :: !Registers(log[j], token)
  }

  /** An asset is stored exactly if its token was registered. */
  lemma {:induction false} StoredIffRegistered(log: seq<Event>, token: Token)
    ensures token in ReplayFrom(Empty, log).assets <==> exists i :: 0 <= i < |log| && Registers(log[i], token)
  {
    if log != [] {
      var init := log[..|log| - 1];
      StoredIffRegistered(init, token);
      assert forall i | 0 <= i < |init| :: Registers(init[i], token) == Registers(log[i], token);
      if Registers(log[|log| - 1], token) {
        assert 0 <= |log| - 1 < |log|;
      }
    }
  }

  lemma {:induction false} CustodianOfTheLastMove(log: seq<Event>, token: Token, i: int)
    requires LastMove(log, token, i) && token in ReplayFrom(Empty, log).assets
    ensures ReplayFrom(Empty, log).assets[token].custodian == log[i].custodian
  {
    var n := |log| - 1;
    if i < n {
      assert !Moves(log[n], token);
      CustodianOfTheLastMove(log[..n], token, i);
    }
  }

  lemma {:induction false} StatusOfTheLastChange(log: seq<Event>, token: Token, i: int)
    requires LastStatus(log, token, i) && token in ReplayFrom(Empty, log).assets
    ensures ReplayFrom(Empty, log).assets[token].status == if log[i].AssetStatusChanged? then log[i].newStatus else 1
  {
    var n := |log| - 1;
    if i < n {
      assert !SetsStatus(log[n], token);
      StatusOfTheLastChange(log[..n], token, i);
    }
  }

  lemma {:induction false} TimeOfTheFirstRegistration(log: seq<Event>, token: Token, i: int)
    requires FirstRegistration(log, token, i)
    ensures token in ReplayFrom(Empty, log).assets && ReplayFrom(Empty, log).assets[token].registeredAt == log[i].at
  {
    var n := |log| - 1;
    if i < n {
      TimeOfTheFirstRegistration(log[..n], token, i);
    } else {
      StoredIffRegistered(log[..n], token);
    }
  }

  ghost predicate LastRegistration(log: seq<Event>, token: Token, i: int) {
    0 <= i < |log| && Registers(log[i], token) && forall j | i < j < |log| :: !Registers(log[j], token)
  }

  ghost predicate LastMention(log: seq<Event>, token: Token, i: int) {
    0 <= i < |log| && log[i].token == token && forall j | i < j < |log| :: log[j].token != token
  }

  /** The last registration tells digests, creator and mint of the asset. */
  lemma {:induction false} MintOfTheLastRegistration(log: seq<Event>, token: Token, i: int)
    requires LastRegistration(log, token, i)
    ensures token in ReplayFrom(Empty, log).assets
    ensures var asset, e := ReplayFrom(Empty, log).assets[token], log[i];
            && asset.assetIdDigest == e.assetIdDigest && asset.classificationDigest == e.classificationDigest
            && asset.creator == e.custodian && asset.mintTransaction == e.header.id.transaction
            && asset.mintBlock == e.header.blockNumber && asset.mintedAt == e.at
  {
    var n := |log| - 1;
    if i < n {
      assert !Registers(log[n], token);
      MintOfTheLastRegistration(log[..n], token, i);
    }
  }

  /** The last event of a token tells when its asset was updated: a registration by its block's time. */
  lemma {:induction false} UpdateOfTheLastMention(log: seq<Event>, token: Token, i: int)
    requires LastMention(log, token, i) && token in ReplayFrom(Empty, log).assets
    ensures ReplayFrom(Empty, log).assets[token].updatedAt ==
            if log[i].AssetRegistered? then log[i].header.timestamp else log[i].at
  {
    var n := |log| - 1;
    if i < n {
      assert log[n].token != token;
      UpdateOfTheLastMention(log[..n], token, i);
    }
  }

  /** Which transfer entity an event writes. */
  lemma TransferFields(e: Event)
    requires !e.AssetStatusChanged?
    ensures var t := TransferOf(e);
            && t.asset == e.token && t.toCustodian == e.custodian && t.header == e.header
            && (e.AssetRegistered? ==> t.kind == MINT && t.fromCustodian == None && t.operator == e.header.sender)
            && (e.AssetAssigned? ==> t.kind == ASSIGNMENT && t.fromCustodian == None && t.operator == e.operator)
            && (e.AssetTransferred? ==>
                  t.kind == TRANSFER && t.fromCustodian == Some(e.previous) && t.operator == e.operator)
  {
  }

  /** Which event entity a registration or a status change writes. */
  lemma EventFields(e: Event)
    requires e.AssetRegistered? || e.AssetStatusChanged?
    ensures EventOf(e).header == e.header
    ensures e.AssetRegistered? ==>
              && EventOf(e).eventName == "AssetRegistered"
              && EventOf(e).payload == "tokenId=" + e.token + " custodian=" + e.custodian
    ensures e.AssetStatusChanged? ==>
              && EventOf(e).eventName == "AssetStatusChanged"
              && EventOf(e).payload ==
                 "tokenId=" + e.token + " " + STATUS_NAMES[e.oldStatus] + "->" + STATUS_NAMES[e.newStatus]
  {
  }

  predicate RecordsAs(e: Event, id: EventId) {
    e.header.id == id && (e.AssetRegistered? || e.AssetStatusChanged?)
  }

  /** There is one event entity for each identifier of a registration or status change. */
  lemma {:induction false} EventsAreRecorded(log: seq<Event>, id: EventId)
    ensures id in ReplayFrom(Empty, log).events <==> exists i :: 0 <= i < |log| && RecordsAs(log[i], id)
  {
    if log != [] {
      var n := |log| - 1;
      EventsAreRecorded(log[..n], id);
      assert forall i | 0 <= i < n :: log[..n][i] == log[i];
      if RecordsAs(log[n], id) {
        assert 0 <= n < |log| && RecordsAs(log[n], id);
      } else if i :| 0 <= i < |log| && RecordsAs(log[i], id) {
        assert RecordsAs(log[..n][i], id);
      }
    }
  }

  /** It is the entity of the last such event. */
  lemma {:induction false} EventTellsItsRecord(log: seq<Event>, id: EventId, i: int)
    requires 0 <= i < |log| && RecordsAs(log[i], id) && forall j | i < j < |log| :: !RecordsAs(log[j], id)
    ensures id in ReplayFrom(Empty, log).events && ReplayFrom(Empty, log).events[id] == EventOf(log[i])
  {
    var n := |log| - 1;
    if i < n {
      assert !RecordsAs(log[n], id);
      EventTellsItsRecord(log[..n], id, i);
    }
  }

  /**
   * Custodian of the last registration, assignment or transfer; status of the last status event since the last
   * registration; time of the first registration.
   */
  lemma StoreTellsTheLog(log: seq<Event>, token: Token, move: int, status: int, first: int)
    requires LastMove(log, token, move) && LastStatus(log, token, status) && FirstRegistration(log, token, first)
    ensures token in ReplayFrom(Empty, log).assets
    ensures var asset := ReplayFrom(Empty, log).assets[token];
            && asset.custodian == log[move].custodian
            && asset.status == (if log[status].AssetStatusChanged? then log[status].newStatus else 1)
            && asset.registeredAt == log[first].at
  {
    TimeOfTheFirstRegistration(log, token, first);
    CustodianOfTheLastMove(log, token, move);
    StatusOfTheLastChange(log, token, status);
  }

  predicate MovesAs(e: Event, id: EventId) {
    e.header.id == id && !e.AssetStatusChanged?
  }

  /** The last registration, assignment or transfer with this identifier. */
  ghost predicate LastMoveAs(log: seq<Event>, id: EventId, i: int) {
    0 <= i < |log| && MovesAs(log[i], id) && forall j | i < j < |log| :: !MovesAs(log[j], id)
  }

  /**
   * There is one transfer entity for each identifier of a registration, assignment or transfer in the log, also for
   * unknown tokens.
   */
  lemma {:induction false} TransfersAreTheMoves(log: seq<Event>, id: EventId)
    ensures id in ReplayFrom(Empty, log).transfers <==> exists i :: 0 <= i < |log| && MovesAs(log[i], id)
  {
    if log != [] {
      var n := |log| - 1;
      TransfersAreTheMoves(log[..n], id);
      assert forall i | 0 <= i < n :: log[..n][i] == log[i];
      if MovesAs(log[n], id) {
        assert 0 <= n < |log| && MovesAs(log[n], id);
      } else if i :| 0 <= i < |log| && MovesAs(log[i], id) {
        assert MovesAs(log[..n][i], id);
      }
    }
  }

  predicate Names(e: Event, id: EventId, sender: Option<Address>) {
    MovesAs(e, id) && TransferOf(e).fromCustodian == sender
  }

  /** A stored sender is one that some event of this identifier names. */
  lemma {:induction false} SendersAreNamed(log: seq<Event>, id: EventId)
    ensures var transfers := ReplayFrom(Empty, log).transfers;
            id in transfers && transfers[id].fromCustodian.Some? ==>
            exists j :: 0 <= j < |log| && Names(log[j], id, transfers[id].fromCustodian)
  {
    if log != [] {
      var n := |log| - 1;
      var before, after := ReplayFrom(Empty, log[..n]).transfers, ReplayFrom(Empty, log).transfers;
      SendersAreNamed(log[..n], id);
      if id in after && after[id].fromCustodian.Some? {
        if MovesAs(log[n], id) && TransferOf(log[n]).fromCustodian.Some? {
          assert Names(log[n], id, after[id].fromCustodian);
        } else {
          assert id in before && before[id].fromCustodian == after[id].fromCustodian;
          var j :| 0 <= j < n && Names(log[..n][j], id, after[id].fromCustodian);
          assert log[..n][j] == log[j];
        }
      }
    }
  }

  /**
   * Its fields are those of that event; a sender it does not name is one that an earlier event of this identifier
   * named.
   */
  lemma TransferTellsItsMove(log: seq<Event>, id: EventId, i: int)
    requires LastMoveAs(log, id, i)
    ensures id in ReplayFrom(Empty, log).transfers
    ensures var t, told := ReplayFrom(Empty, log).transfers[id], TransferOf(log[i]);
            && t == told.(fromCustodian := t.fromCustodian)
            && (told.fromCustodian.Some? || (forall j | 0 <= j < i :: !MovesAs(log[j], id)) ==> t == told)
            && (t.fromCustodian.Some? ==> exists j :: 0 <= j <= i && Names(log[j], id, t.fromCustodian))
  {
    FieldsOfTheLastMove(log, id, i);
    SendersAreNamed(log, id);
  }

  lemma {:induction false} FieldsOfTheLastMove(log: seq<Event>, id: EventId, i: int)
    requires LastMoveAs(log, id, i)
    ensures id in ReplayFrom(Empty, log).transfers
    ensures var t, told := ReplayFrom(Empty, log).transfers[id], TransferOf(log[i]);
            && t == told.(fromCustodian := t.fromCustodian)
            && (told.fromCustodian.Some? || (forall j | 0 <= j < i :: !MovesAs(log[j], id)) ==> t == told)
  {
    var n := |log| - 1;
    var init := log[..n];
    if i < n {
      assert !MovesAs(log[n], id);
      FieldsOfTheLastMove(init, id, i);
    } else {
      TransfersAreTheMoves(init, id);
      assert forall j | 0 <= j < n :: init[j] == log[j];
    }
  }
}
