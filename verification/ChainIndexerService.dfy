// The indexer object and the audit table it writes, tied to the step functions of ChainIndexer.
module ChainIndexerService {
  import opened Options
  import opened ChainIndexer

  /** The chain-derived rows of the audit table. */
  class AuditStore {
    var rows: seq<AuditRow>

    constructor ()
      ensures rows == []
    {
      rows := [];
    }

    method CreateAuditEvent(row: AuditRow)
      modifies this
      ensures rows == old(rows) + [row]
    {
      rows := rows + [row];
    }

    method ListIndexedChainTxHashes() returns (hashes: set<Word>)
      ensures hashes == HashesOf(rows)
    {
      hashes := {};
      for i := 0 to |rows|
        invariant hashes == HashesOf(rows[..i])
      {
        AppendRow(rows[..i], rows[i]);
        assert rows[..i + 1] == rows[..i] + [rows[i]];
        hashes := hashes + {rows[i].transactionHash};
      }
      assert rows[..|rows|] == rows;
    }

    /** Unordered and limited: beyond the limit the answer is some of the keys, and callers may not ask which. */
    method ListIndexedChainEventKeys() returns (keys: set<string>)
      ensures keys <= KeysOf(rows)
      ensures |rows| <= PERSISTED_KEY_LIMIT ==> keys == KeysOf(rows)
    {
      var n := if |rows| < PERSISTED_KEY_LIMIT then |rows| else PERSISTED_KEY_LIMIT;
      keys := {};
      for i := 0 to n
        invariant keys == KeysOf(rows[..i])
      {
        AppendRow(rows[..i], rows[i]);
        assert rows[..i + 1] == rows[..i] + [rows[i]];
        match rows[i].eventKey {
          case Some(key) => keys := keys + {key};
          case None =>
        }
      }
      assert forall r :: r in rows[..n] ==> r in rows;
      assert rows[..|rows|] == rows;
    }

    method GetMaxIndexedChainBlock() returns (block: Option<nat>)
      ensures block == MaxBlock(rows)
    {
      block := None;
      for i := 0 to |rows|
        invariant block == MaxBlock(rows[..i])
      {
        assert rows[..i + 1][..i] == rows[..i];
        if block.None? || block.value < rows[i].blockNumber {
          block := Some(rows[i].blockNumber);
        }
      }
      assert rows[..|rows|] == rows;
    }
  }

  datatype IndexerResult = IndexerResult(indexed: nat, skipped: nat, latestBlock: nat)

  /** Which calls of one scan throw: the reads, the log query, and the write after `inserts` good ones. */
  datatype Outages = Outages(checkpoint: bool, seed: bool, logs: bool, keys: bool, hashes: bool, inserts: nat)

  /** A read that succeeds answers from the table; one that throws answers nothing. */
  ghost predicate AnswersFor(view: ReadView, rows: seq<AuditRow>, outages: Outages) {
    && view.checkpoint == (if outages.checkpoint then None else MaxBlock(rows))
    && KeysRead(view.seeded, rows, outages.seed)
    && KeysRead(view.persisted, rows, outages.keys)
    && view.txHashes == if outages.hashes then {} else HashesOf(rows)
  }

  /** All keys of the rows up to the limit, some of them beyond it, none if the read throws. */
  ghost predicate KeysRead(keys: set<string>, rows: seq<AuditRow>, throws: bool) {
    if throws then keys == {} else keys <= KeysOf(rows) && (|rows| <= PERSISTED_KEY_LIMIT ==> keys == KeysOf(rows))
  }

  /** The rows after a scan whose writes all succeed. */
  ghost function RowsIfWritten(table: ActionTable, before: Index, chain: seq<ChainEvent>, head: nat, window: nat,
                               view: ReadView): seq<AuditRow> {
    ScanPrefix(table, before, chain, head, window, view, |ScanRange(chain, head, window, view)|).rows
  }

  /** A scan that wrote all it had to write has a row for every transaction from its starting block to the head. */
  lemma CompletedScanCovers(table: ActionTable, before: Index, chain: seq<ChainEvent>, head: nat, window: nat,
                            view: ReadView)
    requires Consistent(before) && ReadsFrom(view, before.rows)
    ensures CoveredIn(table, chain, RowsIfWritten(table, before, chain, head, window, view),
                      FromBlock(view.checkpoint, head, window), head)
  {
    var range := ScanRange(chain, head, window, view);
    var seeded := Index(before.rows, before.memory + view.seeded);
    assert range[..|range|] == range;
    forall e | e in chain && e.name in table && FromBlock(view.checkpoint, head, window) <= e.blockNumber <= head
      ensures e.transactionHash in HashesOf(HandleAll(table, seeded, view, range).rows)
    {
      HandledEventsAreCovered(table, seeded, view, range, e);
    }
  }

  lemma AtMostOneRowEach(table: ActionTable, before: Index, chain: seq<ChainEvent>, head: nat, window: nat,
                         view: ReadView)
    ensures |RowsIfWritten(table, before, chain, head, window, view)| <= |before.rows| + |chain|
  {
    var range := ScanRange(chain, head, window, view);
    var seeded := Index(before.rows, before.memory + view.seeded);
    assert range[..|range|] == range && range[..0] == [];
    PrefixRows(table, seeded, view, range, 0);
    RangeIsNoLonger(chain, FromBlock(view.checkpoint, head, window), head);
  }

  class ChainEventIndexer {
    const table: ActionTable
    var indexedEventKeys: set<string>
    var indexing: bool

    constructor (table: ActionTable := INDEXED_ACTIONS)
      ensures this.table == table && indexedEventKeys == {} && !indexing
    {
      this.table := table;
      indexedEventKeys := {};
      indexing := false;
    }

    /**
     * The overlap guard: while a scan is running a second call returns at once and changes nothing;
     * otherwise the scan runs and the guard is down again whether it returned or threw.
     */
    method IndexRecentEvents(store: AuditStore, chain: seq<ChainEvent>, head: Option<nat>, outages: Outages,
                             windowBlocks: nat := 500)
      returns (r: Outcome<IndexerResult>, ghost view: ReadView, ghost handled: nat)
      modifies this, store
      ensures indexing == old(indexing)
      ensures old(indexing) || head.None? ==>
                r == Returned(IndexerResult(0, 0, 0)) && store.rows == old(store.rows)
                && indexedEventKeys == old(indexedEventKeys)
      ensures !old(indexing) && head.Some? ==>
                && ReadsFrom(view, old(store.rows))
                && handled <= |ScanRange(chain, head.value, windowBlocks, view)|
                && Index(store.rows, indexedEventKeys) ==
                   ScanPrefix(table, old(Index(store.rows, indexedEventKeys)), chain, head.value, windowBlocks, view,
                              handled)
                && (r.Returned? ==> handled == |ScanRange(chain, head.value, windowBlocks, view)|)
      // it returns exactly if neither the log query nor a write throws, with the counters of the scan
      ensures !old(indexing) && head.Some? && !outages.logs ==>
                AnswersFor(view, old(store.rows), outages)
      ensures !old(indexing) && head.Some? ==>
                (r.Returned? <==>
                  && !outages.logs
                  && |RowsIfWritten(table, old(Index(store.rows, indexedEventKeys)), chain, head.value, windowBlocks,
                                    view)| <= |old(store.rows)| + outages.inserts)
      ensures !old(indexing) && head.Some? && r.Returned? ==>
                && r.value.latestBlock == head.value
                && r.value.indexed == |store.rows| - |old(store.rows)|
                && r.value.indexed + r.value.skipped == handled
      // and then every transaction from its starting block to the head has a row
      ensures !old(indexing) && head.Some? && r.Returned? && Consistent(old(Index(store.rows, indexedEventKeys))) ==>
                CoveredIn(table, chain, store.rows, FromBlock(view.checkpoint, head.value, windowBlocks), head.value)
      ensures !old(indexing) && head.Some? && !outages.logs && |chain| <= outages.inserts ==> r.Returned?
    {
      view, handled := ReadView(None, {}, {}, {}), 0;
      if indexing {
        return Returned(IndexerResult(0, 0, 0)), view, handled;
      }
      indexing := true;
      if head.None? {
        r := Returned(IndexerResult(0, 0, 0));
      } else {
        ghost var before := Index(store.rows, indexedEventKeys);
        r, view, handled := RunScan(store, chain, head.value, windowBlocks, outages);
        if Consistent(before) {
          CompletedScanCovers(table, before, chain, head.value, windowBlocks, view);
        }
        AtMostOneRowEach(table, before, chain, head.value, windowBlocks, view);
      }
      indexing := false;
    }

    /** One scan: exactly the modelled step, for some reads of the table and some handled prefix. */
    method RunScan(store: AuditStore, chain: seq<ChainEvent>, latestBlock: nat, windowBlocks: nat, outages: Outages)
      returns (r: Outcome<IndexerResult>, ghost view: ReadView, ghost handled: nat)
      modifies this, store
      ensures indexing == old(indexing)
      ensures ReadsFrom(view, old(store.rows))
      ensures !outages.logs ==> AnswersFor(view, old(store.rows), outages)
      ensures view.checkpoint == (if outages.checkpoint then None else MaxBlock(old(store.rows)))
      ensures KeysRead(view.seeded, old(store.rows), outages.seed)
      ensures r.Returned? <==>
                && !outages.logs
                && |RowsIfWritten(table, old(Index(store.rows, indexedEventKeys)), chain, latestBlock, windowBlocks,
                                  view)|
                   <= |old(store.rows)| + outages.inserts
      ensures handled <= |ScanRange(chain, latestBlock, windowBlocks, view)|
      ensures Index(store.rows, indexedEventKeys) ==
              ScanPrefix(table, old(Index(store.rows, indexedEventKeys)), chain, latestBlock, windowBlocks, view,
                         handled)
      ensures r.Returned? ==>
                && handled == |ScanRange(chain, latestBlock, windowBlocks, view)|
                && r.value.latestBlock == latestBlock
                && r.value.indexed == |store.rows| - |old(store.rows)|
                && r.value.indexed + r.value.skipped == handled
    {
      var checkpoint: Option<nat> := None;
      if !outages.checkpoint {
        checkpoint := store.GetMaxIndexedChainBlock();
      }
      var fromBlock := FromBlock(checkpoint, latestBlock, windowBlocks);

      var seeded: set<string> := {};
      if !outages.seed {
        seeded := store.ListIndexedChainEventKeys();
      }
      indexedEventKeys := indexedEventKeys + seeded;

      view, handled := ReadView(checkpoint, seeded, {}, {}), 0;
      ghost var start := Index(store.rows, indexedEventKeys);
      assert ScanRange(chain, latestBlock, windowBlocks, view)[..0] == [];
      if outages.logs {
        return Threw, view, handled;
      }
      var events := EventsBetween(chain, fromBlock, latestBlock);

      var persistedKeys: set<string> := {};
      if !outages.keys {
        persistedKeys := store.ListIndexedChainEventKeys();
      }
      var legacyTxHashes: set<Word> := {};
      if !outages.hashes {
        legacyTxHashes := store.ListIndexedChainTxHashes();
      }
      var tables := ReadView(checkpoint, seeded, persistedKeys, legacyTxHashes);
      view := tables;

      assert Index(store.rows, indexedEventKeys) == start;
      assert events[..|events|] == events;
      var indexed, skipped, completed;
      indexed, skipped, completed, handled := IndexEvents(store, events, tables, outages.inserts);
      if !completed {
        return Threw, view, handled;
      }
      return Returned(IndexerResult(indexed, skipped, latestBlock)), view, handled;
    }

    /** The loop of a scan over the events it has read, up to the first write that throws. */
    method IndexEvents(store: AuditStore, events: seq<ChainEvent>, view: ReadView, inserts: nat)
      returns (indexed: nat, skipped: nat, completed: bool, ghost handled: nat)
      modifies this, store
      ensures indexing == old(indexing)
      ensures handled <= |events| && (completed ==> handled == |events|)
      // it completes exactly if no write throws, and otherwise stops at the write that does
      ensures completed <==>
              |HandleAll(table, old(Index(store.rows, indexedEventKeys)), view,
                         events).rows| <= |old(store.rows)| + inserts
      ensures !completed ==> indexed == inserts
      ensures Index(store.rows, indexedEventKeys) ==
              HandleAll(table, old(Index(store.rows, indexedEventKeys)), view, events[..handled])
      ensures indexed == |store.rows| - |old(store.rows)| && indexed + skipped == handled
    {
      indexed, skipped := 0, 0;
      ghost var start := Index(store.rows, indexedEventKeys);
      for i := 0 to |events|
        invariant indexing == old(indexing)
        invariant Index(store.rows, indexedEventKeys) == HandleAll(table, start, view, events[..i])
        invariant indexed == |store.rows| - |old(store.rows)| && indexed + skipped == i && indexed <= inserts
      {
        var event := events[i];
        var key := EventKey(event);
        assert events[..i + 1][..i] == events[..i];
        if key in indexedEventKeys || key in view.persisted {
          skipped := skipped + 1;
        } else if event.name !in table {
          skipped := skipped + 1;
        } else if event.transactionHash in view.txHashes {
          skipped := skipped + 1;
        } else {
          if indexed == inserts {
            PrefixRows(table, start, view, events, i + 1);
            return indexed, skipped, false, i;
          }
          store.CreateAuditEvent(Project(table, event));
          indexedEventKeys := indexedEventKeys + {key};
          indexed := indexed + 1;
        }
      }
      assert events[..|events|] == events;
      return indexed, skipped, true, |events|;
    }
  }
}
