/** Looking up the blocks of requested transactions: GetBlockByTxids of apiserver/sdk/sdk.go.

    The loop ranges over a slice header taken once, while `checkAndRemove` edits the
    array underneath it, so the cursor reads shifted and stale cells.
 */
module BlockLookup {
  import opened Wrappers
  import opened Slices

  /** The id is blank in the empty event that stands for a transaction which emitted none. */
  datatype ChaincodeEvent = ChaincodeEvent(txId: string, payload: Bytes)

  /** A fetched block.  `hash` is the hexadecimal text of its data hash; an entry of `txs`
      is None when its payload, its channel header or its events cannot be extracted. */
  datatype Block = Block(text: string, hash: string, previous: string, number: nat,
                         txs: seq<Option<seq<ChaincodeEvent>>>)

  datatype BlockData = BlockData(text: string, previous: string, hash: string, height: nat,
                                 eventMap: map<string, ChaincodeEvent>)

  type BlockInfos = map<string, BlockData>

  /** The block that holds a transaction, or why it could not be fetched. */
  type Ledger = string -> Result<Block, string>

  function Flatten(txs: seq<Option<seq<ChaincodeEvent>>>): seq<ChaincodeEvent> {
    if txs == [] then []
    else (match txs[0] case Some(es) => es case None => []) + Flatten(txs[1..])
  }

  /** The events of a block, in block order. */
  function Events(b: Block): seq<ChaincodeEvent> { Flatten(b.txs) }

  lemma {:induction false} FlattenConcat(a: seq<Option<seq<ChaincodeEvent>>>, b: seq<Option<seq<ChaincodeEvent>>>)
    ensures Flatten(a + b) == Flatten(a) + Flatten(b)
    decreases |a|
  {
    if a == [] {
      assert a + b == b;
    } else {
      assert (a + b)[1..] == a[1..] + b;
      FlattenConcat(a[1..], b);
    }
  }

  /** A transaction gives its events, one that cannot be extracted gives none. */
  lemma FlattenOne(es: seq<ChaincodeEvent>)
    ensures Flatten([]) == [] && Flatten([None]) == [] && Flatten([Some(es)]) == es
  {
  }

  /** The events of a block are those of all its transactions, wherever they stand. */
  lemma EventsByPosition(b: Block, e: ChaincodeEvent)
    ensures e in Events(b) <==> exists i :: 0 <= i < |b.txs| && b.txs[i].Some? && e in b.txs[i].value
  {
    FlattenByPosition(b.txs, e);
  }

  lemma {:induction false} FlattenByPosition(txs: seq<Option<seq<ChaincodeEvent>>>, e: ChaincodeEvent)
    ensures e in Flatten(txs) <==> exists i :: 0 <= i < |txs| && txs[i].Some? && e in txs[i].value
    decreases |txs|
  {
    if txs != [] {
      FlattenByPosition(txs[1..], e);
      forall i | 0 <= i < |txs[1..]|
        ensures txs[1..][i] == txs[i + 1]
      {
      }
      if e in Flatten(txs[1..]) {
        var i :| 0 <= i < |txs[1..]| && txs[1..][i].Some? && e in txs[1..][i].value;
        assert txs[i + 1].Some? && e in txs[i + 1].value;
      }
      if i :| 0 <= i < |txs| && txs[i].Some? && e in txs[i].value {
        assert i > 0 ==> txs[1..][i - 1].Some? && e in txs[1..][i - 1].value;
      }
    }
  }

  /** Event `k` of transaction `i` of the block is one of `id`. */
  predicate EmitsAt(b: Block, id: string, i: nat, k: nat) {
    i < |b.txs| && b.txs[i].Some? && k < |b.txs[i].value| && b.txs[i].value[k].txId == id
  }

  lemma HasIdByPosition(b: Block, id: string)
    ensures HasId(Events(b), id) <==> exists i, k :: EmitsAt(b, id, i, k)
  {
    if HasId(Events(b), id) {
      var j :| 0 <= j < |Events(b)| && Events(b)[j].txId == id;
      EventsByPosition(b, Events(b)[j]);
      var i :| 0 <= i < |b.txs| && b.txs[i].Some? && Events(b)[j] in b.txs[i].value;
      var k :| 0 <= k < |b.txs[i].value| && b.txs[i].value[k] == Events(b)[j];
      assert EmitsAt(b, id, i, k);
    }
    if i: nat, k: nat :| EmitsAt(b, id, i, k) {
      EventsByPosition(b, b.txs[i].value[k]);
    }
  }

  predicate HasId(es: seq<ChaincodeEvent>, id: string) {
    exists k :: 0 <= k < |es| && es[k].txId == id
  }

  /** A run of the lookup: the slice being edited, the map being filled, and the history
      of removed keys. */
  datatype Run = Run(slice: Slice, infos: BlockInfos, removed: seq<string>)

  datatype Outcome = Outcome(run: Run, error: Option<string>)

  function Start(ids: seq<string>): Run { Run(Slice(ids, |ids|), map[], []) }

  /** The entry for the block exists from its first fetch on. */
  function Enter(infos: BlockInfos, b: Block): (r: BlockInfos)
    ensures b.hash in r
    ensures forall h :: h in infos ==> h in r && r[h] == infos[h]
    ensures forall h :: h in r && h !in infos ==> h == b.hash && r[h].eventMap == map[]
  {
    if b.hash in infos then infos
    else infos[b.hash := BlockData(b.text, b.previous, b.hash, b.number, map[])]
  }

  function Record(run: Run, hash: string, e: ChaincodeEvent): (r: Run)
    requires run.slice.Valid() && hash in run.infos
    ensures r.slice.Valid() && |r.slice.cells| == |run.slice.cells|
    ensures r.infos.Keys == run.infos.Keys
  {
    if e.txId in run.slice.Live() then
      var info := run.infos[hash];
      Run(RemoveFirst(run.slice, e.txId),
          run.infos[hash := info.(eventMap := info.eventMap[e.txId := e])],
          run.removed + [e.txId])
    else run
  }

  function RecordAll(run: Run, hash: string, es: seq<ChaincodeEvent>): (r: Run)
    requires run.slice.Valid() && hash in run.infos
    ensures r.slice.Valid() && |r.slice.cells| == |run.slice.cells|
    ensures r.infos.Keys == run.infos.Keys
    decreases |es|
  {
    if es == [] then run else RecordAll(Record(run, hash, es[0]), hash, es[1..])
  }

  /** One fetched block. */
  function Visit(run: Run, b: Block): (r: Run)
    requires run.slice.Valid()
    ensures r.slice.Valid() && |r.slice.cells| == |run.slice.cells|
  {
    if b.hash == "" then run
    else RecordAll(run.(infos := Enter(run.infos, b)), b.hash, Events(b))
  }

  /** The rest of the run from a cursor position of the range loop. */
  function LookupFrom(ledger: Ledger, run: Run, cursor: nat): (r: Outcome)
    requires run.slice.Valid() && cursor <= |run.slice.cells|
    ensures r.run.slice.Valid() && |r.run.slice.cells| == |run.slice.cells|
    decreases |run.slice.cells| - cursor
  {
    if cursor == |run.slice.cells| || run.slice.cells[cursor] == "" then Outcome(run, None)
    else match ledger(run.slice.cells[cursor])
      case Err(e) => Outcome(run, Some(e))
      case Ok(b) => LookupFrom(ledger, Visit(run, b), cursor + 1)
  }

  function Lookup(ledger: Ledger, ids: seq<string>): Outcome { LookupFrom(ledger, Start(ids), 0) }

  lemma {:induction false} RecordAllConcat(run: Run, hash: string, es: seq<ChaincodeEvent>, fs: seq<ChaincodeEvent>)
    requires run.slice.Valid() && hash in run.infos
    ensures RecordAll(run, hash, es + fs) == RecordAll(RecordAll(run, hash, es), hash, fs)
    decreases |es|
  {
    if es == [] {
      assert es + fs == fs;
    } else {
      assert (es + fs)[1..] == es[1..] + fs;
      RecordAllConcat(Record(run, hash, es[0]), hash, es[1..], fs);
    }
  }

  /** The innermost loop: the events of one transaction. */
  method RecordEvents(txids: StringSlice, infos: BlockInfos, ghost removed: seq<string>,
                      hash: string, events: seq<ChaincodeEvent>)
    returns (blockInfos: BlockInfos, ghost removedNow: seq<string>)
    requires txids.Valid() && hash in infos
    modifies txids, txids.cells
    ensures txids.Valid()
    ensures Run(txids.Model(), blockInfos, removedNow)
         == RecordAll(Run(old(txids.Model()), infos, removed), hash, events)
  {
    blockInfos, removedNow := infos, removed;
    ghost var goal := RecordAll(Run(txids.Model(), infos, removed), hash, events);
    for k := 0 to |events|
      invariant txids.Valid() && hash in blockInfos
      invariant goal == RecordAll(Run(txids.Model(), blockInfos, removedNow), hash, events[k..])
    {
      var event := events[k];
      assert events[k..][1..] == events[k + 1..];
      var found := txids.CheckAndRemove(event.txId);
      if found {
        var info := blockInfos[hash];
        blockInfos := blockInfos[hash := info.(eventMap := info.eventMap[event.txId := event])];
        removedNow := removedNow + [event.txId];
      }
    }
  }

  /** What the outer loop does with a fetched block. */
  method VisitBlock(txids: StringSlice, infos: BlockInfos, ghost removed: seq<string>, block: Block)
    returns (blockInfos: BlockInfos, ghost removedNow: seq<string>)
    requires txids.Valid()
    modifies txids, txids.cells
    ensures txids.Valid()
    ensures Run(txids.Model(), blockInfos, removedNow)
         == Visit(Run(old(txids.Model()), infos, removed), block)
  {
    blockInfos, removedNow := infos, removed;
    if |block.hash| == 0 {
      return;
    }
    ghost var goal := Visit(Run(txids.Model(), infos, removed), block);
    if block.hash !in blockInfos {
      blockInfos := blockInfos[block.hash :=
        BlockData(block.text, block.previous, block.hash, block.number, map[])];
    }
    for i := 0 to |block.txs|
      invariant txids.Valid() && block.hash in blockInfos
      invariant goal == RecordAll(Run(txids.Model(), blockInfos, removedNow), block.hash,
                                  Flatten(block.txs[i..]))
    {
      ghost var rest := Flatten(block.txs[i + 1..]);
      assert block.txs[i..][1..] == block.txs[i + 1..];
      match block.txs[i] {
        case None =>
          assert Flatten(block.txs[i..]) == rest;
        case Some(events) =>
          RecordAllConcat(Run(txids.Model(), blockInfos, removedNow), block.hash, events, rest);
          blockInfos, removedNow := RecordEvents(txids, blockInfos, removedNow, block.hash, events);
      }
    }
  }

  /** GetBlockByTxids.  The caller's array is edited too: its slice shares the cells. */
  method GetBlockByTxids(ledger: Ledger, request: array<string>)
    returns (blockInfos: BlockInfos, err: Option<string>)
    modifies request
    ensures blockInfos == Lookup(ledger, old(request[..])).run.infos
    ensures err == Lookup(ledger, old(request[..])).error
    ensures request[..] == Lookup(ledger, old(request[..])).run.slice.cells
  {
    var txids := new StringSlice(request);
    blockInfos := map[];
    ghost var removed: seq<string> := [];
    ghost var goal := Lookup(ledger, request[..]);
    for cursor := 0 to request.Length
      invariant txids.Valid() && txids.cells == request && fresh(txids)
      invariant goal == LookupFrom(ledger, Run(txids.Model(), blockInfos, removed), cursor)
    {
      var txid := request[cursor];
      if |txid| == 0 {
        return blockInfos, None;
      }
      match ledger(txid) {
        case Err(e) => return blockInfos, Some(e);
        case Ok(block) => blockInfos, removed := VisitBlock(txids, blockInfos, removed, block);
      }
    }
    return blockInfos, None;
  }
}
