// The chain-event indexer: an append-only chain projected into audit rows through
// scans that may fail half way, lose their process memory, and read truncated tables.
module ChainIndexer {
  import opened Options

  // Hashes are hex and event names are Solidity identifiers: neither holds the key separator.
  type Word = s: string | ':' !in s witness ""

  /** One log. `subject` is its token or wallet argument, or empty if it has neither. */
  datatype ChainEvent = ChainEvent(blockNumber: nat, logIndex: nat, transactionHash: Word, name: Word, subject: string)

  datatype AuditRow = AuditRow(eventKey: Option<string>, transactionHash: Word, blockNumber: nat, action: string)

  // Event name -> audit action, for the recognised events.
  type ActionTable = map<string, string>

  const INDEXED_ACTIONS: ActionTable := map[
    "IdentityRegistered" := "IDENTITY_REGISTERED_ON_CHAIN",
    "IdentityStatusChanged" := "IDENTITY_STATUS_CHANGED_ON_CHAIN",
    "AssetRegistered" := "ASSET_REGISTERED_ON_CHAIN",
    "AssetAssigned" := "ASSET_ASSIGNED_ON_CHAIN",
    "AssetTransferred" := "ASSET_TRANSFERRED_ON_CHAIN",
    "AssetStatusChanged" := "ASSET_STATUS_CHANGED_ON_CHAIN",
    "RoleGranted" := "ROLE_GRANTED_ON_CHAIN",
    "RoleRevoked" := "ROLE_REVOKED_ON_CHAIN",
    "IdentityVerified" := "USER_VERIFIED_ON_CHAIN",
    "IdentitySuspended" := "ACCESS_SUSPENDED_ON_CHAIN",
    "IdentityReactivated" := "ACCESS_REACTIVATED_ON_CHAIN",
    "IdentityDeactivated" := "IDENTITY_DEACTIVATED_ON_CHAIN",
    "DIDDocumentUpdated" := "DID_DOCUMENT_UPDATED_ON_CHAIN",
    "NFTMinted" := "NFT_MINTED_ON_CHAIN",
    "NFTAssigned" := "NFT_ASSIGNED_ON_CHAIN",
    "NFTRevoked" := "NFT_REVOKED_ON_CHAIN",
    "ForcedTransfer" := "FORCED_TRANSFER_ON_CHAIN",
    "SystemPaused" := "SYSTEM_PAUSED_ON_CHAIN",
    "SystemUnpaused" := "SYSTEM_UNPAUSED_ON_CHAIN",
    "DisputeRaised" := "DISPUTE_RAISED_ON_CHAIN",
    "DisputeResolved" := "DISPUTE_RESOLVED_ON_CHAIN",
    "AnomalyFlagged" := "ANOMALY_FLAGGED_ON_CHAIN",
    "AuditReportHashStored" := "AUDIT_REPORT_HASH_STORED_ON_CHAIN",
    "ProposalCreated" := "GOVERNANCE_PROPOSAL_CREATED_ON_CHAIN",
    "ProposalApproved" := "GOVERNANCE_PROPOSAL_APPROVED_ON_CHAIN",
    "ProposalCancelled" := "GOVERNANCE_PROPOSAL_CANCELLED_ON_CHAIN",
    "ProposalExecuted" := "GOVERNANCE_PROPOSAL_EXECUTED_ON_CHAIN"
  ]

  const PERSISTED_KEY_LIMIT := 5000

  // ---------------------------------------------------------------- keys

  function EventKey(e: ChainEvent): string {
    e.transactionHash + ":" + e.name + ":" + e.subject
  }

  /** The text before the first separator. */
  function KeyTransaction(key: string): string {
    if key == "" || key[0] == ':' then "" else [key[0]] + KeyTransaction(key[1..])
  }

  lemma {:induction false} KeyTransactionOfJoin(hash: Word, rest: string)
    ensures KeyTransaction(hash + ":" + rest) == hash
  {
    if hash == "" {
      assert hash + ":" + rest == ":" + rest;
    } else {
      var tail: Word := hash[1..];
      KeyTransactionOfJoin(tail, rest);
      assert (hash + ":" + rest)[1..] == tail + ":" + rest;
      assert hash == [hash[0]] + tail;
    }
  }

  lemma KeyNamesItsTransaction(e: ChainEvent)
    ensures KeyTransaction(EventKey(e)) == e.transactionHash
  {
    KeyTransactionOfJoin(e.transactionHash, e.name + ":" + e.subject);
    assert EventKey(e) == e.transactionHash + ":" + (e.name + ":" + e.subject);
  }

  /** The key separates (transaction, event name, subject): no two triples share one. */
  lemma EventKeyInjective(e: ChainEvent, f: ChainEvent)
    requires EventKey(e) == EventKey(f)
    ensures e.transactionHash == f.transactionHash && e.name == f.name && e.subject == f.subject
  {
    KeyNamesItsTransaction(e);
    KeyNamesItsTransaction(f);
    var n := |e.transactionHash| + 1;
    assert EventKey(e)[n..] == e.name + ":" + e.subject;
    assert EventKey(f)[n..] == f.name + ":" + f.subject;
    KeyTransactionOfJoin(e.name, e.subject);
    KeyTransactionOfJoin(f.name, f.subject);
    var m := |e.name| + 1;
    assert (e.name + ":" + e.subject)[m..] == e.subject;
    assert (f.name + ":" + f.subject)[m..] == f.subject;
  }

  // ---------------------------------------------------------------- table reads

  function KeysOf(rows: seq<AuditRow>): set<string> {
    set r | r in rows && r.eventKey.Some? :: r.eventKey.value
  }

  function HashesOf(rows: seq<AuditRow>): set<Word> {
    set r | r in rows :: r.transactionHash
  }

  /** The durable checkpoint: the highest block of any row. */
  function MaxBlock(rows: seq<AuditRow>): (m: Option<nat>)
    ensures m.None? <==> rows == []
    ensures m.Some? ==> forall r | r in rows :: r.blockNumber <= m.value
    ensures m.Some? ==> exists r :: r in rows && r.blockNumber == m.value
  {
    if rows == [] then None
    else
      var last := rows[|rows| - 1];
      var rest := MaxBlock(rows[..|rows| - 1]);
      assert forall r | r in rows :: r == last || r in rows[..|rows| - 1];
      if rest.None? || last.blockNumber > rest.value then Some(last.blockNumber) else rest
  }

  /** What one scan's four reads returned; a failed read returns the empty answer. */
  datatype ReadView = ReadView(checkpoint: Option<nat>, seeded: set<string>, persisted: set<string>,
                               txHashes: set<Word>)

  ghost predicate ReadsFrom(view: ReadView, rows: seq<AuditRow>) {
    && (view.checkpoint == MaxBlock(rows) || view.checkpoint == None)
    && view.seeded <= KeysOf(rows)
    && view.persisted <= KeysOf(rows)
    && view.txHashes <= HashesOf(rows)
  }

  // ---------------------------------------------------------------- one scan

  /** The durable rows and the key set of the running process. */
  datatype Index = Index(rows: seq<AuditRow>, memory: set<string>)

  function Project(table: ActionTable, e: ChainEvent): AuditRow
    requires e.name in table
  {
    AuditRow(Some(EventKey(e)), e.transactionHash, e.blockNumber, table[e.name])
  }

  function Handle(table: ActionTable, ix: Index, view: ReadView, e: ChainEvent): Index {
    var key := EventKey(e);
    if key in ix.memory || key in view.persisted then ix
    else if e.name !in table then ix
    else if e.transactionHash in view.txHashes then ix
    else Index(ix.rows + [Project(table, e)], ix.memory + {key})
  }

  function HandleAll(table: ActionTable, ix: Index, view: ReadView, events: seq<ChainEvent>): Index {
    if events == [] then ix
    else Handle(table, HandleAll(table, ix, view, events[..|events| - 1]), view, events[|events| - 1])
  }

  function WindowFloor(head: nat, window: nat): nat {
    if head < window then 0 else head - window
  }

  function FromBlock(checkpoint: Option<nat>, head: nat, window: nat): nat {
    var floor := WindowFloor(head, window);
    match checkpoint
    case None => floor
    case Some(c) => var start := if floor > c then floor else c; if start < head then start else head
  }

  /** The later of window floor and checkpoint, but never above the head. */
  lemma FromBlockExactly(checkpoint: Option<nat>, head: nat, window: nat)
    ensures var floor := if head < window then 0 else head - window;
            var from := FromBlock(checkpoint, head, window);
            && (checkpoint.None? || checkpoint.value <= floor ==> from == floor)
            && (checkpoint.Some? && floor <= checkpoint.value <= head ==> from == checkpoint.value)
            && (checkpoint.Some? && head <= checkpoint.value ==> from == head)
  {
  }

  /** The logs of blocks from..to, in chain order. */
  function EventsBetween(chain: seq<ChainEvent>, from: nat, to: nat): (r: seq<ChainEvent>)
    ensures forall e :: e in r <==> e in chain && from <= e.blockNumber <= to
  {
    if chain == [] then []
    else
      var rest := EventsBetween(chain[..|chain| - 1], from, to);
      var e := chain[|chain| - 1];
      assert chain == chain[..|chain| - 1] + [e];
      if from <= e.blockNumber <= to then rest + [e] else rest
  }

  function ScanRange(chain: seq<ChainEvent>, head: nat, window: nat, view: ReadView): seq<ChainEvent> {
    EventsBetween(chain, FromBlock(view.checkpoint, head, window), head)
  }

  /** A scan that gets through the first `handled` events of its range. */
  function ScanPrefix(table: ActionTable, ix: Index, chain: seq<ChainEvent>, head: nat, window: nat,
                      view: ReadView, handled: nat): Index
    requires handled <= |ScanRange(chain, head, window, view)|
  {
    HandleAll(table, Index(ix.rows, ix.memory + view.seeded), view, ScanRange(chain, head, window, view)[..handled])
  }

  // ---------------------------------------------------------------- what holds of every row table

  predicate RowNamesItsTransaction(r: AuditRow) {
    r.eventKey.Some? ==> KeyTransaction(r.eventKey.value) == r.transactionHash
  }

  predicate DistinctKeys(rows: seq<AuditRow>) {
    forall i, j | 0 <= i < j < |rows| :: rows[i].eventKey.Some? ==> rows[i].eventKey != rows[j].eventKey
  }

  /** Keys remembered by the process are keys of rows; each row's key names the row's transaction. */
  ghost predicate Consistent(ix: Index) {
    && ix.memory <= KeysOf(ix.rows)
    && forall r | r in ix.rows :: RowNamesItsTransaction(r)
  }

  /** Recognised events of the list that belong to no transaction the scan was told to skip. */
  ghost function Fresh(table: ActionTable, view: ReadView, events: seq<ChainEvent>): set<string> {
    set e | e in events && e.name in table && e.transactionHash !in view.txHashes :: EventKey(e)
  }

  lemma AppendRow(rows: seq<AuditRow>, r: AuditRow)
    ensures KeysOf(rows + [r]) == KeysOf(rows) + (if r.eventKey.Some? then {r.eventKey.value} else {})
    ensures HashesOf(rows + [r]) == HashesOf(rows) + {r.transactionHash}
  {
    assert forall x :: x in rows + [r] <==> x in rows || x == r;
  }

  lemma AppendEvent(table: ActionTable, view: ReadView, events: seq<ChainEvent>, e: ChainEvent)
    ensures Fresh(table, view, events + [e]) ==
            Fresh(table, view, events) +
            (if e.name in table && e.transactionHash !in view.txHashes then {EventKey(e)} else {})
  {
    assert forall x :: x in events + [e] <==> x in events || x == e;
  }

  lemma HandleExactly(table: ActionTable, ix: Index, view: ReadView, e: ChainEvent)
    requires Consistent(ix)
    requires view.persisted <= KeysOf(ix.rows)
    ensures var after := Handle(table, ix, view, e);
            && Consistent(after)
            && ix.rows <= after.rows
            && ix.memory <= after.memory
            && KeysOf(after.rows) <= KeysOf(ix.rows) + after.memory
            && KeysOf(after.rows) ==
               KeysOf(ix.rows) + (if e.name in table && e.transactionHash !in view.txHashes then {EventKey(e)} else {})
  {
    KeyNamesItsTransaction(e);
    if e.name in table {
      AppendRow(ix.rows, Project(table, e));
    }
  }

  /**
   * The exact effect of a scan: a key gains a row if and only if one of the handled events has it,
   * is recognised, and belongs to no transaction that the hash read reported.
   */
  lemma {:induction false} ScanInsertsExactly(table: ActionTable, ix: Index, view: ReadView, events: seq<ChainEvent>)
    requires Consistent(ix)
    requires view.persisted <= KeysOf(ix.rows)
    ensures var after := HandleAll(table, ix, view, events);
            && Consistent(after)
            && ix.rows <= after.rows
            && ix.memory <= after.memory
            && KeysOf(after.rows) <= KeysOf(ix.rows) + after.memory
            && KeysOf(after.rows) == KeysOf(ix.rows) + Fresh(table, view, events)
  {
    if events != [] {
      var rest, e := events[..|events| - 1], events[|events| - 1];
      ScanInsertsExactly(table, ix, view, rest);
      HandleExactly(table, HandleAll(table, ix, view, rest), view, e);
      assert events == rest + [e];
      AppendEvent(table, view, rest, e);
    }
  }

  /** Event number i is written as the next row, or nothing is. */
  predicate GetsItsOwnRow(table: ActionTable, ix: Index, view: ReadView, events: seq<ChainEvent>, i: nat)
    requires i < |events|
  {
    |HandleAll(table, ix, view, events[..i + 1]).rows| > |HandleAll(table, ix, view, events[..i]).rows|
  }

  predicate KeyIsFirst(events: seq<ChainEvent>, i: nat)
    requires i < |events|
  {
    forall j | 0 <= j < i :: EventKey(events[j]) != EventKey(events[i])
  }

  predicate Admitted(table: ActionTable, ix: Index, view: ReadView, e: ChainEvent) {
    e.name in table && e.transactionHash !in view.txHashes && EventKey(e) !in ix.memory
        && EventKey(e) !in view.persisted
  }

  /** What the process remembers after some events: what it did before, and the keys of those that were let in. */
  lemma {:induction false} MemoryAfter(table: ActionTable, ix: Index, view: ReadView, events: seq<ChainEvent>,
                                       e: ChainEvent)
    requires Admitted(table, ix, view, e)
    ensures EventKey(e) in HandleAll(table, ix, view, events).memory <==>
            exists j :: 0 <= j < |events| && EventKey(events[j]) == EventKey(e)
  {
    if events != [] {
      var n := |events| - 1;
      var rest, last := events[..n], events[n];
      MemoryAfter(table, ix, view, rest, e);
      if EventKey(last) == EventKey(e) {
        EventKeyInjective(last, e);
        assert 0 <= n < |events| && EventKey(events[n]) == EventKey(e);
      } else if j :| 0 <= j < |events| && EventKey(events[j]) == EventKey(e) {
        assert EventKey(rest[j]) == EventKey(e);
      }
    }
  }

  /**
   * An event of a scan gets a row of its own if and only if it is recognised, the hash read does not report its
   * transaction, its key is neither remembered nor persisted, and no earlier event of the scan has its key.
   */
  lemma EventGetsItsRowExactly(table: ActionTable, ix: Index, view: ReadView, events: seq<ChainEvent>, i: nat)
    requires i < |events|
    ensures GetsItsOwnRow(table, ix, view, events, i) <==> Admitted(table, ix, view, events[i]) && KeyIsFirst(events, i)
    ensures GetsItsOwnRow(table, ix, view, events, i) ==>
              && events[i].name in table
              && HandleAll(table, ix, view, events[..i + 1]).rows ==
                 HandleAll(table, ix, view, events[..i]).rows + [Project(table, events[i])]
  {
    var e, front := events[i], events[..i];
    assert events[..i + 1][..i] == front;
    MemoryOnlyGrows(table, ix, view, front);
    if Admitted(table, ix, view, e) {
      MemoryAfter(table, ix, view, front, e);
      assert KeyIsFirst(events, i) <==> !exists j :: 0 <= j < |front| && EventKey(front[j]) == EventKey(e);
    }
  }

  lemma {:induction false} MemoryOnlyGrows(table: ActionTable, ix: Index, view: ReadView, events: seq<ChainEvent>)
    ensures ix.memory <= HandleAll(table, ix, view, events).memory
  {
    if events != [] { MemoryOnlyGrows(table, ix, view, events[..|events| - 1]); }
  }

  /** Handling more events never takes rows away, and adds at most one row each. */
  lemma {:induction false} PrefixRows(table: ActionTable, ix: Index, view: ReadView, events: seq<ChainEvent>, i: nat)
    requires i <= |events|
    ensures HandleAll(table, ix, view, events[..i]).rows <= HandleAll(table, ix, view, events).rows
    ensures |HandleAll(table, ix, view, events).rows| <= |HandleAll(table, ix, view, events[..i]).rows| + |events| - i
  {
    if i < |events| {
      var n := |events| - 1;
      PrefixRows(table, ix, view, events[..n], i);
      assert events[..n][..i] == events[..i];
    } else {
      assert events[..i] == events;
    }
  }

  /** With a complete hash read, a scan never writes a key that already has a row, whatever the key reads missed. */
  lemma {:induction false} ScanKeepsKeysDistinct(table: ActionTable, ix: Index, view: ReadView, events: seq<ChainEvent>)
    requires Consistent(ix) && DistinctKeys(ix.rows)
    requires view.persisted <= KeysOf(ix.rows)
    requires view.txHashes == HashesOf(ix.rows)
    ensures DistinctKeys(HandleAll(table, ix, view, events).rows)
  {
    if events != [] {
      var rest, e := events[..|events| - 1], events[|events| - 1];
      ScanKeepsKeysDistinct(table, ix, view, rest);
      ScanInsertsExactly(table, ix, view, rest);
      KeyNamesItsTransaction(e);
      var mid := HandleAll(table, ix, view, rest);
      if EventKey(e) in KeysOf(ix.rows) {
        var r :| r in ix.rows && r.eventKey == Some(EventKey(e));
        assert e.transactionHash in view.txHashes;
      } else if Handle(table, mid, view, e) != mid {
        assert EventKey(e) !in KeysOf(mid.rows);
        assert forall r :: r in mid.rows && r.eventKey.Some? ==> r.eventKey.value in KeysOf(mid.rows);
      }
    }
  }

  // ---------------------------------------------------------------- runs

  /** Completed scans so far: the floor of the first one and the head of the latest. */
  datatype Progress = NoScanYet | ScannedTo(floor: nat, head: nat)

  datatype World = World(chain: seq<ChainEvent>, head: nat, index: Index, progress: Progress)

  /**
   * The chain grows; a scan handles a prefix of its range (all of it, or up to the write that threw
   * or the moment the process died); the process restarts with an empty key set.
   */
  datatype Step =
    | Grow(logs: seq<ChainEvent>, newHead: nat)
    | Scan(view: ReadView, handled: nat)
    | Restart

  predicate InBlockOrder(chain: seq<ChainEvent>) {
    forall i, j | 0 <= i < j < |chain| :: chain[i].blockNumber <= chain[j].blockNumber
  }

  ghost predicate OneBlockPerTransaction(chain: seq<ChainEvent>) {
    forall e, f | e in chain && f in chain && e.transactionHash == f.transactionHash :: e.blockNumber == f.blockNumber
  }

  /** No two logs of a block have the same index. */
  predicate DistinctLogs(chain: seq<ChainEvent>) {
    forall i, j | 0 <= i < j < |chain| && chain[i].blockNumber == chain[j].blockNumber ::
      chain[i].logIndex != chain[j].logIndex
  }

  ghost predicate WellFormedChain(chain: seq<ChainEvent>, head: nat) {
    && InBlockOrder(chain) && DistinctLogs(chain) && OneBlockPerTransaction(chain)
    && forall e | e in chain :: e.blockNumber <= head
  }

  ghost predicate Enabled(w: World, step: Step, window: nat) {
    match step
    case Grow(logs, newHead) =>
      && w.head <= newHead
      && WellFormedChain(w.chain + logs, newHead)
      && forall e | e in logs :: w.head < e.blockNumber
    case Scan(view, handled) =>
      ReadsFrom(view, w.index.rows) && handled <= |ScanRange(w.chain, w.head, window, view)|
    case Restart => true
  }

  ghost predicate Completes(w: World, step: Step, window: nat) {
    step.Scan? && step.handled == |ScanRange(w.chain, w.head, window, step.view)|
  }

  ghost function After(table: ActionTable, w: World, step: Step, window: nat): World
    requires Enabled(w, step, window)
  {
    match step
    case Grow(logs, newHead) => w.(chain := w.chain + logs, head := newHead)
    case Restart => w.(index := w.index.(memory := {}))
    case Scan(view, handled) =>
      w.(index := ScanPrefix(table, w.index, w.chain, w.head, window, view, handled),
         progress := if !Completes(w, step, window) then w.progress
                     else if w.progress.NoScanYet? then ScannedTo(WindowFloor(w.head, window), w.head)
                     else w.progress.(head := w.head))
  }

  /** The look-back window and what is assumed of every step of a run. */
  datatype Regime = Regime(window: nat, lagBounded: bool, hashReadsComplete: bool, crashFree: bool)

  ghost predicate Admissible(w: World, step: Step, regime: Regime) {
    && Enabled(w, step, regime.window)
    // a completed scan's head is at most the window above the head of the previous completed scan
    && (regime.lagBounded && Completes(w, step, regime.window) && w.progress.ScannedTo? ==>
          w.head <= w.progress.head + regime.window)
    // the transaction-hash read succeeds (it has no row limit)
    && (regime.hashReadsComplete && step.Scan? ==> step.view.txHashes == HashesOf(w.index.rows))
    // every scan gets through its range
    && (regime.crashFree && step.Scan? ==> Completes(w, step, regime.window))
  }

  ghost predicate Reaches(table: ActionTable, first: World, steps: seq<Step>, last: World, regime: Regime)
    decreases |steps|
  {
    if steps == [] then first == last
    else
      && Admissible(first, steps[0], regime)
      && Reaches(table, After(table, first, steps[0], regime.window), steps[1..], last, regime)
  }

  ghost predicate Start(w: World) {
    WellFormedChain(w.chain, w.head) && w.index == Index([], {}) && w.progress.NoScanYet?
  }

  // ---------------------------------------------------------------- no event is indexed twice

  lemma ScanPrefixExactly(table: ActionTable, w: World, step: Step, window: nat)
    requires step.Scan? && Enabled(w, step, window) && Consistent(w.index)
    ensures var after := After(table, w, step, window).index;
            var events := ScanRange(w.chain, w.head, window, step.view)[..step.handled];
            && Consistent(after)
            && w.index.rows <= after.rows
            && KeysOf(after.rows) == KeysOf(w.index.rows) + Fresh(table, step.view, events)
  {
    var events := ScanRange(w.chain, w.head, window, step.view)[..step.handled];
    ScanInsertsExactly(table, Index(w.index.rows, w.index.memory + step.view.seeded), step.view, events);
  }

  lemma {:induction false} NoKeyIsIndexedTwice(table: ActionTable, first: World, steps: seq<Step>, last: World,
                                               regime: Regime)
    requires Consistent(first.index) && DistinctKeys(first.index.rows)
    requires regime.hashReadsComplete && Reaches(table, first, steps, last, regime)
    ensures Consistent(last.index) && DistinctKeys(last.index.rows)
    decreases |steps|
  {
    if steps != [] {
      var step, window := steps[0], regime.window;
      if step.Scan? {
        ScanPrefixExactly(table, first, step, window);
        var events := ScanRange(first.chain, first.head, window, step.view)[..step.handled];
        ScanKeepsKeysDistinct(table, Index(first.index.rows, first.index.memory + step.view.seeded), step.view, events);
      }
      NoKeyIsIndexedTwice(table, After(table, first, step, window), steps[1..], last, regime);
    }
  }

  // ---------------------------------------------------------------- every transaction is indexed

  /** The row tells of this event: its key, transaction and block, and the audit action of its name. */
  predicate Tells(table: ActionTable, r: AuditRow, e: ChainEvent) {
    && r.eventKey == Some(e.transactionHash + ":" + e.name + ":" + e.subject)
    && r.transactionHash == e.transactionHash && r.blockNumber == e.blockNumber
    && e.name in table && r.action == table[e.name]
  }

  ghost predicate RowsTellEvents(table: ActionTable, chain: seq<ChainEvent>, rows: seq<AuditRow>) {
    forall r | r in rows :: exists e :: e in chain && Tells(table, r, e)
  }

  lemma StepTellsEvents(table: ActionTable, w: World, step: Step, window: nat)
    requires Enabled(w, step, window) && RowsTellEvents(table, w.chain, w.index.rows)
    ensures RowsTellEvents(table, After(table, w, step, window).chain, After(table, w, step, window).index.rows)
  {
    var after := After(table, w, step, window);
    assert forall e | e in w.chain :: e in after.chain;
    if step.Scan? {
      var range := ScanRange(w.chain, w.head, window, step.view);
      var done := range[..step.handled];
      NewRowsComeFromEvents(table, Index(w.index.rows, w.index.memory + step.view.seeded), step.view, done);
      forall r | r in after.index.rows ensures exists e :: e in after.chain && Tells(table, r, e) {
        if r !in w.index.rows {
          var e :| e in done && e.name in table && r == Project(table, e);
          assert e in range && Tells(table, r, e);
        }
      }
    }
  }

  /** In every run each row tells of a recognised event of the chain. */
  lemma {:induction false} EveryRowTellsAnEvent(table: ActionTable, first: World, steps: seq<Step>, last: World,
                                                regime: Regime)
    requires RowsTellEvents(table, first.chain, first.index.rows)
    requires Reaches(table, first, steps, last, regime)
    ensures RowsTellEvents(table, last.chain, last.index.rows)
    decreases |steps|
  {
    if steps != [] {
      StepTellsEvents(table, first, steps[0], regime.window);
      EveryRowTellsAnEvent(table, After(table, first, steps[0], regime.window), steps[1..], last, regime);
    }
  }

  /** Every transaction with a recognised event in blocks lo..hi has a row. */
  ghost predicate CoveredIn(table: ActionTable, chain: seq<ChainEvent>, rows: seq<AuditRow>, lo: int, hi: int) {
    forall e | e in chain && e.name in table && lo <= e.blockNumber <= hi :: e.transactionHash in HashesOf(rows)
  }

  function Checkpoint(rows: seq<AuditRow>): int {
    match MaxBlock(rows) case None => -1 case Some(b) => b
  }

  lemma {:induction false} RangeIsNoLonger(chain: seq<ChainEvent>, from: nat, to: nat)
    ensures |EventsBetween(chain, from, to)| <= |chain|
  {
    if chain != [] { RangeIsNoLonger(chain[..|chain| - 1], from, to); }
  }

  lemma {:induction false} NoEventInRange(chain: seq<ChainEvent>, from: nat, to: nat)
    requires forall k | 0 <= k < |chain| :: chain[k].blockNumber < from
    ensures EventsBetween(chain, from, to) == []
  {
    if chain != [] { NoEventInRange(chain[..|chain| - 1], from, to); }
  }

  lemma SliceOfPrefix<T>(s: seq<T>, n: nat, i: nat, j: nat)
    requires i <= j <= n < |s|
    ensures s[..n][i..j] == s[i..j]
    ensures j == n ==> s[i..n] + [s[n]] == s[i..n + 1]
  {
  }

  lemma EventsBetweenUnfold(chain: seq<ChainEvent>, from: nat, to: nat)
    requires chain != []
    ensures var n := |chain| - 1;
            EventsBetween(chain, from, to) ==
            EventsBetween(chain[..n], from, to) + if from <= chain[n].blockNumber <= to then [chain[n]] else []
  {
  }

  /** `chain[i..j]` is what lies in the block range. */
  ghost predicate Bounds(chain: seq<ChainEvent>, from: nat, to: nat, i: nat, j: nat) {
    && i <= j <= |chain|
    && (forall k | 0 <= k < i :: chain[k].blockNumber < from)
    && (forall k | i <= k < j :: from <= chain[k].blockNumber <= to)
    && (forall k | j <= k < |chain| :: to < chain[k].blockNumber)
  }

  lemma BoundsExtend(chain: seq<ChainEvent>, from: nat, to: nat, i: nat, j: nat)
    requires chain != [] && InBlockOrder(chain) && from <= chain[|chain| - 1].blockNumber
    requires Bounds(chain[..|chain| - 1], from, to, i, j)
    ensures chain[|chain| - 1].blockNumber <= to ==> j == |chain| - 1 && Bounds(chain, from, to, i, |chain|)
    ensures chain[|chain| - 1].blockNumber > to ==> Bounds(chain, from, to, i, j)
  {
    var n := |chain| - 1;
    assert forall k | 0 <= k < n :: chain[..n][k] == chain[k] && chain[k].blockNumber <= chain[n].blockNumber;
    assert j < n ==> to < chain[j].blockNumber;
  }

  /** Logs arrive in block order, so the answer to a range query is one contiguous part of the chain. */
  lemma {:induction false} EventsAreASlice(chain: seq<ChainEvent>, from: nat, to: nat) returns (i: nat, j: nat)
    requires InBlockOrder(chain)
    ensures Bounds(chain, from, to, i, j) && EventsBetween(chain, from, to) == chain[i..j]
  {
    var n := |chain| - 1;
    if chain == [] || chain[n].blockNumber < from {
      NoEventInRange(chain, from, to);
      return |chain|, |chain|;
    }
    i, j := EventsAreASlice(chain[..n], from, to);
    BoundsExtend(chain, from, to, i, j);
    EventsBetweenUnfold(chain, from, to);
    SliceOfPrefix(chain, n, i, j);
    if chain[n].blockNumber <= to {
      j := n + 1;
    }
  }

  lemma {:induction false} EventsBetweenKeepsOrder(chain: seq<ChainEvent>, from: nat, to: nat)
    requires InBlockOrder(chain)
    ensures InBlockOrder(EventsBetween(chain, from, to))
  {
    if chain != [] {
      var rest := chain[..|chain| - 1];
      EventsBetweenKeepsOrder(rest, from, to);
      forall e | e in EventsBetween(rest, from, to) ensures e.blockNumber <= chain[|chain| - 1].blockNumber {
        var i :| 0 <= i < |rest| && rest[i] == e;
        assert chain[i] == e;
      }
    }
  }

  lemma {:induction false} NewRowsComeFromEvents(table: ActionTable, ix: Index, view: ReadView, events: seq<ChainEvent>)
    ensures forall r | r in HandleAll(table, ix, view, events).rows ::
              r in ix.rows || exists e :: e in events && e.name in table && r == Project(table, e)
  {
    if events != [] {
      var rest := events[..|events| - 1];
      NewRowsComeFromEvents(table, ix, view, rest);
      assert events == rest + [events[|events| - 1]];
    }
  }

  lemma HandledEventsAreCovered(table: ActionTable, ix: Index, view: ReadView, events: seq<ChainEvent>, e: ChainEvent)
    requires Consistent(ix)
    requires view.persisted <= KeysOf(ix.rows) && view.txHashes <= HashesOf(ix.rows)
    requires e in events && e.name in table
    ensures e.transactionHash in HashesOf(HandleAll(table, ix, view, events).rows)
  {
    ScanInsertsExactly(table, ix, view, events);
    var after := HandleAll(table, ix, view, events);
    assert forall r :: r in ix.rows ==> r in after.rows;
    if e.transactionHash !in view.txHashes {
      assert EventKey(e) in Fresh(table, view, events);
      var r :| r in after.rows && r.eventKey == Some(EventKey(e));
      KeyNamesItsTransaction(e);
    }
  }

  lemma EarlierEventsAreHandledFirst(events: seq<ChainEvent>, handled: nat, e: ChainEvent, later: ChainEvent)
    requires InBlockOrder(events) && handled <= |events|
    requires e in events && later in events[..handled] && e.blockNumber < later.blockNumber
    ensures e in events[..handled]
  {
    var i :| 0 <= i < |events| && events[i] == e;
    var j :| 0 <= j < handled && events[j] == later;
    assert i < j;
    assert events[..handled][i] == e;
  }

  /** A recognised event in the scanned range whose block lies below the new checkpoint was handled. */
  lemma ScanHandles(table: ActionTable, w: World, step: Step, window: nat, e: ChainEvent)
    requires step.Scan? && Enabled(w, step, window)
    requires Consistent(w.index) && InBlockOrder(w.chain)
    requires e in ScanRange(w.chain, w.head, window, step.view) && e.name in table
    requires Completes(w, step, window)
             || Checkpoint(w.index.rows) <= e.blockNumber < Checkpoint(After(table, w, step, window).index.rows)
    ensures e.transactionHash in HashesOf(After(table, w, step, window).index.rows)
  {
    var range := ScanRange(w.chain, w.head, window, step.view);
    var done := range[..step.handled];
    var seeded := Index(w.index.rows, w.index.memory + step.view.seeded);
    var rows := HandleAll(table, seeded, step.view, done).rows;
    if Completes(w, step, window) {
      assert done == range;
    } else {
      EventsBetweenKeepsOrder(w.chain, FromBlock(step.view.checkpoint, w.head, window), w.head);
      NewRowsComeFromEvents(table, seeded, step.view, done);
      var r :| r in rows && r.blockNumber == Checkpoint(rows);
      assert r !in w.index.rows;
      var later :| later in done && later.name in table && r == Project(table, later);
      EarlierEventsAreHandledFirst(range, step.handled, e, later);
    }
    HandledEventsAreCovered(table, seeded, step.view, done, e);
  }

  lemma StartsAtOrBelow(w: World, step: Step, window: nat, block: nat)
    requires step.Scan? && Enabled(w, step, window)
    requires WindowFloor(w.head, window) <= block && Checkpoint(w.index.rows) <= block
    ensures FromBlock(step.view.checkpoint, w.head, window) <= block || w.head < block
  {
  }

  /**
   * One scan, complete or cut short. If everything up to `hi` and everything below the checkpoint was
   * covered and the window floor leaves no gap above that, then everything below the new checkpoint is
   * covered, and everything up to the head if the scan completed.
   */
  lemma ScanCovers(table: ActionTable, w: World, step: Step, window: nat, lo: nat, hi: int)
    requires step.Scan? && Enabled(w, step, window)
    requires Consistent(w.index) && WellFormedChain(w.chain, w.head)
    requires WindowFloor(w.head, window) <= lo || WindowFloor(w.head, window) <= hi + 1
    requires CoveredIn(table, w.chain, w.index.rows, lo, hi)
    requires CoveredIn(table, w.chain, w.index.rows, lo, Checkpoint(w.index.rows) - 1)
    ensures var after := After(table, w, step, window);
            && CoveredIn(table, w.chain, after.index.rows, lo, hi)
            && CoveredIn(table, w.chain, after.index.rows, lo, Checkpoint(after.index.rows) - 1)
            && (Completes(w, step, window) ==> CoveredIn(table, w.chain, after.index.rows, lo, w.head))
  {
    var rows := After(table, w, step, window).index.rows;
    RowsOnlyGrow(table, w, step, window);
    forall e | e in w.chain && e.name in table && lo <= e.blockNumber
      && (Completes(w, step, window) || e.blockNumber < Checkpoint(rows))
      ensures e.transactionHash in HashesOf(rows)
    {
      if e.blockNumber > hi && e.blockNumber >= Checkpoint(w.index.rows) {
        StartsAtOrBelow(w, step, window, e.blockNumber);
        ScanHandles(table, w, step, window, e);
      }
    }
  }

  lemma RowsOnlyGrow(table: ActionTable, w: World, step: Step, window: nat)
    requires Enabled(w, step, window) && Consistent(w.index)
    ensures var after := After(table, w, step, window);
            && w.index.rows <= after.index.rows
            && HashesOf(w.index.rows) <= HashesOf(after.index.rows)
            && KeysOf(w.index.rows) <= KeysOf(after.index.rows)
            && Consistent(after.index)
  {
    if step.Scan? {
      ScanPrefixExactly(table, w, step, window);
    }
    var after := After(table, w, step, window);
    assert forall r :: r in w.index.rows ==> r in after.index.rows;
  }

  /** What every reachable state satisfies as long as no head has outrun the last completed scan. */
  ghost predicate Complete(table: ActionTable, w: World, window: nat) {
    var lo := if w.progress.ScannedTo? then w.progress.floor else WindowFloor(w.head, window);
    && Consistent(w.index)
    && WellFormedChain(w.chain, w.head)
    && (forall r | r in w.index.rows :: r.blockNumber <= w.head)
    && (w.progress.ScannedTo? ==>
          && w.progress.floor <= w.progress.head <= w.head
          && CoveredIn(table, w.chain, w.index.rows, lo, w.progress.head))
    && (w.progress.NoScanYet? || w.head <= w.progress.head + window ==>
          CoveredIn(table, w.chain, w.index.rows, lo, Checkpoint(w.index.rows) - 1))
  }

  lemma RowsStayBelowHead(table: ActionTable, w: World, step: Step, window: nat)
    requires Enabled(w, step, window)
    requires forall e | e in w.chain :: e.blockNumber <= w.head
    requires forall r | r in w.index.rows :: r.blockNumber <= w.head
    ensures forall r | r in After(table, w, step, window).index.rows :: r.blockNumber <= w.head
  {
    if step.Scan? {
      var range := ScanRange(w.chain, w.head, window, step.view);
      NewRowsComeFromEvents(table, Index(w.index.rows, w.index.memory + step.view.seeded), step.view,
                            range[..step.handled]);
      assert forall e | e in range[..step.handled] :: e in range;
    }
  }

  lemma StepKeepsComplete(table: ActionTable, w: World, step: Step, regime: Regime)
    requires Complete(table, w, regime.window)
    requires regime.lagBounded && Admissible(w, step, regime)
    ensures Complete(table, After(table, w, step, regime.window), regime.window)
  {
    var window := regime.window;
    RowsOnlyGrow(table, w, step, window);
    RowsStayBelowHead(table, w, step, window);
    match step
    case Grow(logs, newHead) =>
    case Restart =>
    case Scan(view, handled) =>
      if w.progress.NoScanYet? {
        ScanCovers(table, w, step, window, WindowFloor(w.head, window), -1);
      } else if w.head <= w.progress.head + window {
        ScanCovers(table, w, step, window, w.progress.floor, w.progress.head);
      }
  }

  lemma {:induction false} RunKeepsComplete(table: ActionTable, first: World, steps: seq<Step>, last: World,
                                            regime: Regime)
    requires Complete(table, first, regime.window)
    requires regime.lagBounded && Reaches(table, first, steps, last, regime)
    ensures Complete(table, last, regime.window)
    decreases |steps|
  {
    if steps != [] {
      StepKeepsComplete(table, first, steps[0], regime);
      RunKeepsComplete(table, After(table, first, steps[0], regime.window), steps[1..], last, regime);
    }
  }

  /**
   * Bounded-lag completeness: through any scans, crashes in the middle of a scan, failed reads and
   * restarts, once a scan has completed every transaction with a recognised event between the first
   * completed scan's floor and the latest completed scan's head has a row.
   */
  lemma EveryTransactionIsIndexed(table: ActionTable, first: World, steps: seq<Step>, last: World, regime: Regime)
    requires Start(first)
    requires regime.lagBounded && Reaches(table, first, steps, last, regime)
    ensures last.progress.ScannedTo? ==>
              CoveredIn(table, last.chain, last.index.rows, last.progress.floor, last.progress.head)
  {
    RunKeepsComplete(table, first, steps, last, regime);
  }

  // ---------------------------------------------------------------- every event key, without crashes

  /** Every distinct key of a recognised event in blocks lo..hi has a row. */
  ghost predicate KeysCoveredIn(table: ActionTable, chain: seq<ChainEvent>, rows: seq<AuditRow>, lo: int, hi: int) {
    forall e | e in chain && e.name in table && lo <= e.blockNumber <= hi :: EventKey(e) in KeysOf(rows)
  }

  ghost predicate RowsProject(table: ActionTable, chain: seq<ChainEvent>, rows: seq<AuditRow>, hi: int) {
    forall r | r in rows :: exists e :: e in chain && e.name in table && e.blockNumber <= hi && r == Project(table, e)
  }

  ghost predicate KeyComplete(table: ActionTable, w: World) {
    && Consistent(w.index)
    && WellFormedChain(w.chain, w.head)
    && (w.progress.NoScanYet? ==> w.index.rows == [])
    && (w.progress.ScannedTo? ==>
          && w.progress.head <= w.head
          && RowsProject(table, w.chain, w.index.rows, w.progress.head)
          && KeysCoveredIn(table, w.chain, w.index.rows, w.progress.floor, w.progress.head))
  }

  lemma ScanKeepsProjections(table: ActionTable, w: World, step: Step, window: nat)
    requires KeyComplete(table, w) && Enabled(w, step, window) && step.Scan?
    ensures RowsProject(table, w.chain, After(table, w, step, window).index.rows, w.head)
  {
    var range := ScanRange(w.chain, w.head, window, step.view);
    var done := range[..step.handled];
    var rows := After(table, w, step, window).index.rows;
    NewRowsComeFromEvents(table, Index(w.index.rows, w.index.memory + step.view.seeded), step.view, done);
    forall r | r in rows
      ensures exists e :: e in w.chain && e.name in table && e.blockNumber <= w.head && r == Project(table, e)
    {
      if r !in w.index.rows {
        var e :| e in done && e.name in table && r == Project(table, e);
        assert e in range;
      }
    }
  }

  /** No row belongs to the transaction of an event above the last scanned head, so no hash read can hide it. */
  lemma NewEventGetsItsKey(table: ActionTable, w: World, step: Step, window: nat, e: ChainEvent)
    requires KeyComplete(table, w) && Enabled(w, step, window) && Completes(w, step, window)
    requires w.progress.ScannedTo? ==> w.head <= w.progress.head + window && w.progress.head < e.blockNumber
    requires w.progress.NoScanYet? ==> WindowFloor(w.head, window) <= e.blockNumber
    requires e in w.chain && e.name in table
    ensures EventKey(e) in KeysOf(After(table, w, step, window).index.rows)
  {
    var range := ScanRange(w.chain, w.head, window, step.view);
    assert range[..step.handled] == range;
    ScanPrefixExactly(table, w, step, window);
    assert e.transactionHash !in HashesOf(w.index.rows);
    if w.progress.ScannedTo? { CheckpointIsScanned(table, w); }
    assert e in range;
    assert EventKey(e) in Fresh(table, step.view, range);
  }

  lemma CheckpointIsScanned(table: ActionTable, w: World)
    requires KeyComplete(table, w) && w.progress.ScannedTo?
    ensures Checkpoint(w.index.rows) <= w.progress.head
  {
    match MaxBlock(w.index.rows) {
      case None =>
      case Some(b) => var r :| r in w.index.rows && r.blockNumber == b;
    }
  }

  lemma CompletedScanKeepsKeyComplete(table: ActionTable, w: World, step: Step, window: nat)
    requires KeyComplete(table, w) && Enabled(w, step, window) && Completes(w, step, window)
    requires w.progress.ScannedTo? ==> w.head <= w.progress.head + window
    ensures KeyComplete(table, After(table, w, step, window))
  {
    var after := After(table, w, step, window);
    RowsOnlyGrow(table, w, step, window);
    ScanKeepsProjections(table, w, step, window);
    forall e | e in w.chain && e.name in table && after.progress.floor <= e.blockNumber
      ensures EventKey(e) in KeysOf(after.index.rows)
    {
      if w.progress.NoScanYet? || w.progress.head < e.blockNumber {
        NewEventGetsItsKey(table, w, step, window, e);
      }
    }
  }

  lemma {:induction false} EveryKeyIsIndexedWithoutCrashes(table: ActionTable, first: World, steps: seq<Step>,
                                                             last: World, regime: Regime)
    requires Start(first) || KeyComplete(table, first)
    requires regime.lagBounded && regime.crashFree && Reaches(table, first, steps, last, regime)
    ensures KeyComplete(table, last)
    ensures last.progress.ScannedTo? ==>
              KeysCoveredIn(table, last.chain, last.index.rows, last.progress.floor, last.progress.head)
    decreases |steps|
  {
    if steps != [] {
      var next := After(table, first, steps[0], regime.window);
      if steps[0].Scan? {
        CompletedScanKeepsKeyComplete(table, first, steps[0], regime.window);
      } else {
        assert forall e :: e in first.chain ==> e in next.chain;
      }
      EveryKeyIsIndexedWithoutCrashes(table, next, steps[1..], last, regime);
    }
  }

  // ---------------------------------------------------------------- every event once

  function RowsWithKey(rows: seq<AuditRow>, key: string): nat {
    if rows == [] then 0
    else RowsWithKey(rows[..|rows| - 1], key) + if rows[|rows| - 1].eventKey == Some(key) then 1 else 0
  }

  /** The logs of blocks lo..hi with this key. */
  function EventsWithKey(chain: seq<ChainEvent>, key: string, lo: int, hi: int): nat {
    if chain == [] then 0
    else
      var e := chain[|chain| - 1];
      EventsWithKey(chain[..|chain| - 1], key, lo, hi) + if EventKey(e) == key && lo <= e.blockNumber <= hi then 1
          else 0
  }

  predicate RecognisedIn(table: ActionTable, e: ChainEvent, lo: int, hi: int) {
    e.name in table && lo <= e.blockNumber <= hi
  }

  /** There are as many rows as events for every key of a recognised event in blocks lo..hi. */
  ghost predicate ProjectedOnce(table: ActionTable, chain: seq<ChainEvent>, rows: seq<AuditRow>, lo: int, hi: int) {
    forall e | e in chain && RecognisedIn(table, e, lo, hi) ::
      RowsWithKey(rows, EventKey(e)) == EventsWithKey(chain, EventKey(e), lo, hi)
  }

  /** No two recognised events of blocks lo..hi agree in transaction, name and subject. */
  ghost predicate KeysTellEventsApart(table: ActionTable, chain: seq<ChainEvent>, lo: int, hi: int) {
    forall i, j | 0 <= i < j < |chain| && RecognisedIn(table, chain[i], lo, hi)
        && RecognisedIn(table, chain[j], lo, hi) ::
      EventKey(chain[i]) != EventKey(chain[j])
  }

  lemma {:induction false} OneRowPerKey(rows: seq<AuditRow>, key: string)
    requires DistinctKeys(rows)
    ensures RowsWithKey(rows, key) == if key in KeysOf(rows) then 1 else 0
  {
    if rows != [] {
      var n := |rows| - 1;
      OneRowPerKey(rows[..n], key);
      AppendRow(rows[..n], rows[n]);
      assert rows == rows[..n] + [rows[n]];
    }
  }

  lemma {:induction false} EventsAreCounted(chain: seq<ChainEvent>, key: string, lo: int, hi: int, i: nat)
    requires i < |chain| && EventKey(chain[i]) == key && lo <= chain[i].blockNumber <= hi
    ensures EventsWithKey(chain, key, lo, hi) >= 1
    ensures EventsWithKey(chain, key, lo, hi) == 1 <==>
            forall j | 0 <= j < |chain| && j != i && EventKey(chain[j]) == key :: !(lo <= chain[j].blockNumber <= hi)
  {
    var n := |chain| - 1;
    var rest := chain[..n];
    if i < n {
      EventsAreCounted(rest, key, lo, hi, i);
      assert forall j | 0 <= j < n :: rest[j] == chain[j];
    } else {
      NoneIsCounted(rest, key, lo, hi);
      assert forall j | 0 <= j < n :: rest[j] == chain[j];
    }
  }

  lemma {:induction false} NoneIsCounted(chain: seq<ChainEvent>, key: string, lo: int, hi: int)
    ensures EventsWithKey(chain, key, lo, hi) == 0 <==>
            forall j | 0 <= j < |chain| && EventKey(chain[j]) == key :: !(lo <= chain[j].blockNumber <= hi)
  {
    if chain != [] {
      var n := |chain| - 1;
      NoneIsCounted(chain[..n], key, lo, hi);
      assert forall j | 0 <= j < n :: chain[..n][j] == chain[j];
    }
  }

  lemma OnceExactly(table: ActionTable, chain: seq<ChainEvent>, rows: seq<AuditRow>, lo: int, hi: int)
    requires DistinctKeys(rows) && KeysCoveredIn(table, chain, rows, lo, hi)
    ensures ProjectedOnce(table, chain, rows, lo, hi) <==> KeysTellEventsApart(table, chain, lo, hi)
  {
    forall i | 0 <= i < |chain| && RecognisedIn(table, chain[i], lo, hi)
      ensures RowsWithKey(rows, EventKey(chain[i])) == 1 <= EventsWithKey(chain, EventKey(chain[i]), lo, hi)
      ensures EventsWithKey(chain, EventKey(chain[i]), lo, hi) == 1 <==>
              forall j | 0 <= j < |chain| && j != i && EventKey(chain[j]) == EventKey(chain[i]) ::
                !(lo <= chain[j].blockNumber <= hi)
    {
      OneRowPerKey(rows, EventKey(chain[i]));
      EventsAreCounted(chain, EventKey(chain[i]), lo, hi, i);
    }
    if ProjectedOnce(table, chain, rows, lo, hi) {
      forall i, j | 0 <= i < j < |chain| && RecognisedIn(table, chain[i], lo, hi)
          && RecognisedIn(table, chain[j], lo, hi)
        ensures EventKey(chain[i]) != EventKey(chain[j])
      {
        assert chain[i] in chain;
      }
    }
    if KeysTellEventsApart(table, chain, lo, hi) {
      forall e | e in chain && RecognisedIn(table, e, lo, hi)
        ensures RowsWithKey(rows, EventKey(e)) == EventsWithKey(chain, EventKey(e), lo, hi)
      {
        var i :| 0 <= i < |chain| && chain[i] == e;
        forall j | 0 <= j < |chain| && j != i && EventKey(chain[j]) == EventKey(e)
          ensures !(lo <= chain[j].blockNumber <= hi)
        {
          EventKeyInjective(chain[j], e);
        }
      }
    }
  }

  /**
   * "Each recognised event is projected exactly once", exactly: in crash-free runs with complete hash reads it holds of
   * all blocks scanned so far if and only if no two recognised events agree in transaction, name and subject.
   */
  lemma EventsAreProjectedOnceExactly(table: ActionTable, first: World, steps: seq<Step>, last: World, regime: Regime)
    requires Start(first) && Reaches(table, first, steps, last, regime) && last.progress.ScannedTo?
    requires regime.lagBounded && regime.crashFree && regime.hashReadsComplete
    ensures ProjectedOnce(table, last.chain, last.index.rows, last.progress.floor, last.progress.head) <==>
            KeysTellEventsApart(table, last.chain, last.progress.floor, last.progress.head)
  {
    EveryKeyIsIndexedWithoutCrashes(table, first, steps, last, regime);
    NoKeyIsIndexedTwice(table, first, steps, last, regime);
    OnceExactly(table, last.chain, last.index.rows, last.progress.floor, last.progress.head);
  }

  /** Role grants name a role, an account and a sender, but neither token nor wallet. */
  function RoleGrant(logIndex: nat): ChainEvent {
    ChainEvent(0, logIndex, "t", "RoleGranted", "")
  }

  /** The deployment of the access control contract grants three roles in one transaction: three events, one row. */
  lemma RoleGrantsShareARow()
    ensures var w := World([RoleGrant(0), RoleGrant(1), RoleGrant(2)], 0, Index([], {}), NoScanYet);
            var scan, regime := Scan(ReadView(None, {}, {}, {}), 3), Regime(500, true, true, true);
            && "RoleGranted" in INDEXED_ACTIONS && Start(w) && Admissible(w, scan, regime)
            && After(INDEXED_ACTIONS, w, scan, 500).index.rows == [Project(INDEXED_ACTIONS, RoleGrant(0))]
            && !KeysTellEventsApart(INDEXED_ACTIONS, w.chain, 0, 0)
  {
    var chain := [RoleGrant(0), RoleGrant(1), RoleGrant(2)];
    RoleGrantsAreIndexed();
    SiblingsOfOneKey(INDEXED_ACTIONS, RoleGrant(0), RoleGrant(1), RoleGrant(2));
    assert EventKey(chain[0]) == EventKey(chain[1]);
  }

  lemma RoleGrantsAreIndexed()
    ensures "RoleGranted" in INDEXED_ACTIONS
  {
  }

  predicate AreSiblings(e: ChainEvent, f: ChainEvent, g: ChainEvent) {
    && EventKey(e) == EventKey(f) == EventKey(g)
    && e.blockNumber == f.blockNumber == g.blockNumber == 0
    && e.logIndex != f.logIndex && e.logIndex != g.logIndex && f.logIndex != g.logIndex
  }

  lemma SiblingsAreWellFormed(e: ChainEvent, f: ChainEvent, g: ChainEvent)
    requires AreSiblings(e, f, g)
    ensures WellFormedChain([e, f, g], 0)
  {
    assert e.transactionHash == f.transactionHash == g.transactionHash by {
      EventKeyInjective(e, f);
      EventKeyInjective(e, g);
    }
    assert forall x | x in [e, f, g] :: x == e || x == f || x == g;
  }

  lemma SiblingsAreScanned(e: ChainEvent, f: ChainEvent, g: ChainEvent)
    requires AreSiblings(e, f, g)
    ensures EventsBetween([e, f, g], 0, 0) == [e, f, g]
  {
    EventsBetweenUnfold([e, f, g], 0, 0);
    assert [e, f, g][..2] == [e, f];
    TwoEventsInRange(e, f);
  }

  lemma SiblingsOfOneKey(table: ActionTable, e: ChainEvent, f: ChainEvent, g: ChainEvent)
    requires e.name in table && AreSiblings(e, f, g)
    ensures var w := World([e, f, g], 0, Index([], {}), NoScanYet);
            var scan := Scan(ReadView(None, {}, {}, {}), 3);
            && Start(w) && Admissible(w, scan, Regime(500, true, true, true))
            && After(table, w, scan, 500).index.rows == [Project(table, e)]
  {
    var w, scan := World([e, f, g], 0, Index([], {}), NoScanYet), Scan(ReadView(None, {}, {}, {}), 3);
    SiblingsAreWellFormed(e, f, g);
    SiblingsAreScanned(e, f, g);
    assert ScanRange(w.chain, 0, 500, scan.view) == w.chain && w.chain[..3] == w.chain;
    assert Completes(w, scan, 500) && ReadsFrom(scan.view, []) && HashesOf([]) == {};
    HandlingTwins(table, scan.view, e, f, g);
  }

  lemma HandlingTwins(table: ActionTable, view: ReadView, e: ChainEvent, f: ChainEvent, g: ChainEvent)
    requires e.name in table && view == ReadView(None, {}, {}, {}) && EventKey(e) == EventKey(f) == EventKey(g)
    ensures HandleAll(table, Index([], {} + view.seeded), view, [e, f, g]).rows == [Project(table, e)]
  {
    var start := Index([], {});
    assert {} + view.seeded == {};
    assert [e, f, g][..2] == [e, f] && [e, f][..1] == [e] && [e][..0] == [];
    assert HandleAll(table, start, view, []) == start;
    assert HandleAll(table, start, view, [e]) == Index([] + [Project(table, e)], {} + {EventKey(e)});
    assert HandleAll(table, start, view, [e, f]) == HandleAll(table, start, view, [e]);
    assert HandleAll(table, start, view, [e, f, g]) == HandleAll(table, start, view, [e, f]);
  }

  // ---------------------------------------------------------------- what the code does lose

  /** After a crash inside a transaction: a missing key of it is indexed exactly when the transaction has no row yet. */
  lemma SiblingKeyIsIndexedExactly(table: ActionTable, w: World, step: Step, window: nat, e: ChainEvent)
    requires Consistent(w.index) && Enabled(w, step, window) && Completes(w, step, window)
    requires step.view.txHashes == HashesOf(w.index.rows)
    requires e in ScanRange(w.chain, w.head, window, step.view) && e.name in table
    requires EventKey(e) !in KeysOf(w.index.rows)
    ensures EventKey(e) in KeysOf(After(table, w, step, window).index.rows) <==>
            e.transactionHash !in HashesOf(w.index.rows)
  {
    var range := ScanRange(w.chain, w.head, window, step.view);
    assert range[..step.handled] == range;
    ScanPrefixExactly(table, w, step, window);
    if EventKey(e) in Fresh(table, step.view, range) {
      var f :| f in range && f.transactionHash !in step.view.txHashes && EventKey(f) == EventKey(e);
      EventKeyInjective(e, f);
    }
  }

  /** A key lost that way never gets a row in any later run. */
  lemma {:induction false} LostSiblingStaysLost(table: ActionTable, first: World, steps: seq<Step>, last: World,
                                                regime: Regime, e: ChainEvent)
    requires Consistent(first.index)
    requires regime.hashReadsComplete && Reaches(table, first, steps, last, regime)
    requires e.transactionHash in HashesOf(first.index.rows) && EventKey(e) !in KeysOf(first.index.rows)
    ensures EventKey(e) !in KeysOf(last.index.rows)
    decreases |steps|
  {
    if steps != [] {
      var step, window := steps[0], regime.window;
      RowsOnlyGrow(table, first, step, window);
      if step.Scan? {
        ScanPrefixExactly(table, first, step, window);
        var events := ScanRange(first.chain, first.head, window, step.view)[..step.handled];
        if EventKey(e) in Fresh(table, step.view, events) {
          var f :| f in events && f.transactionHash !in step.view.txHashes && EventKey(f) == EventKey(e);
          EventKeyInjective(e, f);
        }
      }
      LostSiblingStaysLost(table, After(table, first, step, window), steps[1..], last, regime, e);
    }
  }

  lemma ScanIgnoresBlocksBelowFloor(table: ActionTable, w: World, step: Step, window: nat, e: ChainEvent)
    requires Enabled(w, step, window) && OneBlockPerTransaction(w.chain)
    requires e in w.chain && e.blockNumber < WindowFloor(w.head, window)
    requires e.transactionHash !in HashesOf(w.index.rows)
    ensures e.transactionHash !in HashesOf(After(table, w, step, window).index.rows)
  {
    if step.Scan? {
      var range := ScanRange(w.chain, w.head, window, step.view);
      NewRowsComeFromEvents(table, Index(w.index.rows, w.index.memory + step.view.seeded), step.view,
                            range[..step.handled]);
      assert forall f | f in range[..step.handled] :: f in range;
    }
  }

  /** A transaction without a row whose block has fallen below the look-back window never gets one. */
  lemma {:induction false} SkippedBlockStaysSkipped(table: ActionTable, first: World, steps: seq<Step>, last: World,
                                                    regime: Regime, e: ChainEvent)
    requires Reaches(table, first, steps, last, regime)
    requires WellFormedChain(first.chain, first.head)
    requires e in first.chain && e.blockNumber < WindowFloor(first.head, regime.window)
    requires e.transactionHash !in HashesOf(first.index.rows)
    ensures e.transactionHash !in HashesOf(last.index.rows)
    decreases |steps|
  {
    if steps != [] {
      ScanIgnoresBlocksBelowFloor(table, first, steps[0], regime.window, e);
      SkippedBlockStaysSkipped(table, After(table, first, steps[0], regime.window), steps[1..], last, regime, e);
    }
  }

  lemma ScanAddsNothingOutsideItsRange(table: ActionTable, w: World, step: Step, window: nat, e: ChainEvent)
    requires step.Scan? && Enabled(w, step, window) && OneBlockPerTransaction(w.chain)
    requires e in w.chain && e.blockNumber < FromBlock(step.view.checkpoint, w.head, window)
    requires e.transactionHash !in HashesOf(w.index.rows)
    ensures e.transactionHash !in HashesOf(After(table, w, step, window).index.rows)
  {
    var range := ScanRange(w.chain, w.head, window, step.view);
    NewRowsComeFromEvents(table, Index(w.index.rows, w.index.memory + step.view.seeded), step.view,
                          range[..step.handled]);
    assert forall f | f in range[..step.handled] :: f in range;
  }

  /**
   * Downtime, exactly, whatever crashed before: after a completed scan a transaction with a recognised event has a
   * row if and only if it had one before or the event lies at or above the block the scan started from.
   */
  lemma CompletedScanIndexesExactly(table: ActionTable, w: World, step: Step, window: nat, e: ChainEvent)
    requires Consistent(w.index) && WellFormedChain(w.chain, w.head)
    requires Enabled(w, step, window) && Completes(w, step, window)
    requires e in w.chain && e.name in table
    ensures e.transactionHash in HashesOf(After(table, w, step, window).index.rows) <==>
              || e.transactionHash in HashesOf(w.index.rows)
              || FromBlock(step.view.checkpoint, w.head, window) <= e.blockNumber
  {
    if e.transactionHash in HashesOf(w.index.rows) {
      RowsOnlyGrow(table, w, step, window);
    } else if FromBlock(step.view.checkpoint, w.head, window) <= e.blockNumber {
      ScanHandles(table, w, step, window, e);
    } else {
      ScanAddsNothingOutsideItsRange(table, w, step, window, e);
    }
  }

  /**
   * So after any history a completed scan covers lo..head if and only if every recognised event below its starting
   * block already had its transaction indexed.
   */
  lemma GapIsClosedExactly(table: ActionTable, w: World, step: Step, window: nat, lo: nat)
    requires Consistent(w.index) && WellFormedChain(w.chain, w.head)
    requires Enabled(w, step, window) && Completes(w, step, window)
    ensures CoveredIn(table, w.chain, After(table, w, step, window).index.rows, lo, w.head) <==>
            CoveredIn(table, w.chain, w.index.rows, lo, FromBlock(step.view.checkpoint, w.head, window) - 1)
  {
    forall e | e in w.chain && e.name in table
      ensures e.transactionHash in HashesOf(After(table, w, step, window).index.rows) <==>
                || e.transactionHash in HashesOf(w.index.rows)
                || FromBlock(step.view.checkpoint, w.head, window) <= e.blockNumber
    {
      CompletedScanIndexesExactly(table, w, step, window, e);
    }
  }

  /** Crash-free, the transactions indexed from the first floor on are those up to the last scanned head. */
  lemma IndexedUpToTheLastHead(table: ActionTable, w: World, e: ChainEvent)
    requires KeyComplete(table, w) && w.progress.ScannedTo?
    requires e in w.chain && e.name in table && w.progress.floor <= e.blockNumber
    ensures e.transactionHash in HashesOf(w.index.rows) <==> e.blockNumber <= w.progress.head
  {
    if e.blockNumber <= w.progress.head {
      var r :| r in w.index.rows && r.eventKey == Some(EventKey(e));
      KeyNamesItsTransaction(e);
    }
  }

  /**
   * In crash-free histories the gap is closed if and only if nothing recognised lies above the last scanned head and
   * below the look-back window.
   */
  lemma GapAfterDowntimeExactly(table: ActionTable, w: World, step: Step, window: nat)
    requires KeyComplete(table, w) && w.progress.ScannedTo? && w.progress.floor <= w.progress.head
    requires Enabled(w, step, window) && Completes(w, step, window)
    ensures CoveredIn(table, w.chain, After(table, w, step, window).index.rows, w.progress.floor, w.head)
            <==> !exists e :: e in w.chain && e.name in table
                              && w.progress.head < e.blockNumber < WindowFloor(w.head, window)
  {
    var from := FromBlock(step.view.checkpoint, w.head, window);
    GapIsClosedExactly(table, w, step, window, w.progress.floor);
    CheckpointIsScanned(table, w);
    assert from <= WindowFloor(w.head, window) || from <= w.progress.head;
    assert WindowFloor(w.head, window) <= from;
    forall e | e in w.chain && e.name in table && w.progress.floor <= e.blockNumber
      ensures e.transactionHash in HashesOf(w.index.rows) <==> e.blockNumber <= w.progress.head
    {
      IndexedUpToTheLastHead(table, w, e);
    }
  }

  /**
   * An indexed event in block 0, six hundred blocks of downtime with an event in the first, and a full scan that reads
   * checkpoint 0 and still starts at block 100.
   */
  lemma GapHappens(table: ActionTable, a: Word)
    requires a in table
    ensures var e, f := ChainEvent(0, 0, "s", a, ""), ChainEvent(1, 0, "t", a, "");
            var row, first := Project(table, e), World([e], 0, Index([], {}), NoScanYet);
            var last := World([e, f], 600, Index([row], {EventKey(e)}), ScannedTo(0, 600));
            var begin := Scan(ReadView(None, {}, {}, {}), 1);
            var resume := Scan(ReadView(Some(0), {EventKey(e)}, {EventKey(e)}, {"s"}), 0);
            && Start(first)
            && Reaches(table, first, [begin, Grow([f], 600), resume], last, Regime(500, false, true, true))
            && MaxBlock(last.index.rows) == Some(0)
            && !CoveredIn(table, last.chain, last.index.rows, 0, 600)
  {
    var e, f, regime := ChainEvent(0, 0, "s", a, ""), ChainEvent(1, 0, "t", a, ""), Regime(500, false, true, true);
    var ix := Index([Project(table, e)], {EventKey(e)});
    var first, scanned := World([e], 0, Index([], {}), NoScanYet), World([e], 0, ix, ScannedTo(0, 0));
    var grown, last := World([e, f], 600, ix, ScannedTo(0, 0)), World([e, f], 600, ix, ScannedTo(0, 600));
    var begin := Scan(ReadView(None, {}, {}, {}), 1);
    var resume := Scan(ReadView(Some(0), {EventKey(e)}, {EventKey(e)}, {"s"}), 0);
    FirstScan(table, e, first, scanned, begin, regime);
    Growth(table, scanned, f, grown, regime);
    LateScan(table, e, f, grown, last, resume, regime);
    OneStep(table, grown, resume, [], last, last, regime);
    OneStep(table, scanned, Grow([f], 600), [resume], grown, last, regime);
    OneStep(table, first, begin, [Grow([f], 600), resume], scanned, last, regime);
    assert f in last.chain && f.transactionHash !in HashesOf(last.index.rows);
  }

  lemma FirstScan(table: ActionTable, e: ChainEvent, w: World, after: World, scan: Step, regime: Regime)
    requires e.name in table && e.blockNumber == 0 && w == World([e], 0, Index([], {}), NoScanYet)
    requires scan == Scan(ReadView(None, {}, {}, {}), 1) && regime == Regime(500, false, true, true)
    requires after == World([e], 0, Index([Project(table, e)], {EventKey(e)}), ScannedTo(0, 0))
    ensures Admissible(w, scan, regime) && After(table, w, scan, 500) == after
  {
    EventsBetweenUnfold([e], 0, 0);
    assert [e][..0] == [] && [e][..1] == [e];
    assert ScanRange(w.chain, 0, 500, scan.view) == [e];
    assert HandleAll(table, Index([], {} + {}), scan.view, [e]) == after.index;
  }

  lemma TwoBlocksAreWellFormed(e: ChainEvent, f: ChainEvent, head: nat)
    requires e.blockNumber < f.blockNumber <= head && e.transactionHash != f.transactionHash
    ensures WellFormedChain([e, f], head)
  {
    assert forall x | x in [e, f] :: x == e || x == f;
  }

  lemma Growth(table: ActionTable, w: World, f: ChainEvent, after: World, regime: Regime)
    requires |w.chain| == 1 && w.chain[0].blockNumber <= w.head < f.blockNumber <= after.head
    requires f.transactionHash != w.chain[0].transactionHash
    requires after == w.(chain := [w.chain[0], f], head := after.head)
    ensures Admissible(w, Grow([f], after.head), regime)
    ensures After(table, w, Grow([f], after.head), regime.window) == after
  {
    assert w.chain + [f] == [w.chain[0], f];
    TwoBlocksAreWellFormed(w.chain[0], f, after.head);
  }

  lemma LateScan(table: ActionTable, e: ChainEvent, f: ChainEvent, w: World, after: World, scan: Step, regime: Regime)
    requires e.name in table && e.blockNumber == 0 && f.blockNumber == 1 && regime == Regime(500, false, true, true)
    requires w == World([e, f], 600, Index([Project(table, e)], {EventKey(e)}), ScannedTo(0, 0))
    requires after == w.(progress := ScannedTo(0, 600))
    requires scan == Scan(ReadView(Some(0), {EventKey(e)}, {EventKey(e)}, {e.transactionHash}), 0)
    ensures Admissible(w, scan, regime) && After(table, w, scan, 500) == after
  {
    var rows := w.index.rows;
    assert rows[..0] == [] && MaxBlock(rows) == Some(0);
    assert KeysOf(rows) == {EventKey(e)} && HashesOf(rows) == {e.transactionHash} by {
      AppendRow([], Project(table, e));
      assert [] + [Project(table, e)] == rows;
    }
    NoEventInRange([e, f], 100, 600);
    assert ScanRange(w.chain, 600, 500, scan.view) == [];
    assert {EventKey(e)} + {EventKey(e)} == {EventKey(e)};
  }

  lemma OneStep(table: ActionTable, w: World, step: Step, rest: seq<Step>, next: World, last: World, regime: Regime)
    requires Admissible(w, step, regime) && After(table, w, step, regime.window) == next
    requires Reaches(table, next, rest, last, regime)
    ensures Reaches(table, w, [step] + rest, last, regime)
  {
    assert ([step] + rest)[1..] == rest;
  }

  /** The done and the undone part of a scan cut short between two events of one transaction. */
  ghost predicate CutBetweenSiblings(table: ActionTable, w: World, step: Step, window: nat, e: ChainEvent,
                                     f: ChainEvent)
    requires Enabled(w, step, window) && step.Scan?
  {
    var done := ScanRange(w.chain, w.head, window, step.view)[..step.handled];
    && e in done && e.name in table
    && f in w.chain && f.name in table && f.transactionHash == e.transactionHash
    && EventKey(f) !in KeysOf(w.index.rows)
    && forall g | g in done :: EventKey(g) != EventKey(f)
  }

  /** Completeness per key does not survive a crash: the sibling is gone from every later state. */
  lemma CrashInsideATransactionLosesSiblings(table: ActionTable, w: World, step: Step, steps: seq<Step>, last: World,
                                             regime: Regime, e: ChainEvent, f: ChainEvent)
    requires Consistent(w.index) && step.Scan? && Enabled(w, step, regime.window)
    requires CutBetweenSiblings(table, w, step, regime.window, e, f)
    requires regime.hashReadsComplete && Reaches(table, After(table, w, step, regime.window), steps, last, regime)
    ensures EventKey(f) !in KeysOf(last.index.rows)
  {
    var events := ScanRange(w.chain, w.head, regime.window, step.view)[..step.handled];
    ScanPrefixExactly(table, w, step, regime.window);
    HandledEventsAreCovered(table, Index(w.index.rows, w.index.memory + step.view.seeded), step.view, events, e);
    LostSiblingStaysLost(table, After(table, w, step, regime.window), steps, last, regime, f);
  }

  /** Such a cut is reachable: two events of one transaction in the first block, one of them written. */
  lemma CrashInsideATransactionHappens(table: ActionTable, a: Word, b: Word, window: nat)
    requires a in table && b in table && a != b
    ensures var e, f := ChainEvent(0, 0, "t", a, ""), ChainEvent(0, 1, "t", b, "");
            var w, step := World([e, f], 0, Index([], {}), NoScanYet), Scan(ReadView(None, {}, {}, {}), 1);
            && Start(w) && Enabled(w, step, window) && CutBetweenSiblings(table, w, step, window, e, f)
  {
    var e, f := ChainEvent(0, 0, "t", a, ""), ChainEvent(0, 1, "t", b, "");
    var w, step := World([e, f], 0, Index([], {}), NoScanYet), Scan(ReadView(None, {}, {}, {}), 1);
    TwoEventsInRange(e, f);
    TwoLogsAreWellFormed(e, f);
    if EventKey(e) == EventKey(f) { EventKeyInjective(e, f); }
    assert ScanRange(w.chain, 0, window, step.view) == [e, f] && [e, f][..1] == [e];
  }

  lemma TwoLogsAreWellFormed(e: ChainEvent, f: ChainEvent)
    requires e.blockNumber == f.blockNumber && e.logIndex != f.logIndex
    ensures WellFormedChain([e, f], e.blockNumber)
  {
    assert forall x | x in [e, f] :: x == e || x == f;
  }

  lemma TwoEventsInRange(e: ChainEvent, f: ChainEvent)
    requires e.blockNumber == 0 && f.blockNumber == 0
    ensures EventsBetween([e, f], 0, 0) == [e, f]
  {
    assert [e, f][..1] == [e] && [e][..0] == [];
    EventsBetweenUnfold([e, f], 0, 0);
    EventsBetweenUnfold([e], 0, 0);
  }
}
