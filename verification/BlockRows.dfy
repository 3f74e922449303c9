/** The rows of a block query: BlockQuery and analysisCCEvent of apiserver/sdk/sdk.go. */
module BlockRows {
  import opened Wrappers
  import opened Slices
  import opened BlockLookup
  import opened BlockContainment
  import opened BlockCoverage
  import opened BlockGuarantee
  import opened BlockFailures
  import opened Records

  datatype StateEntity = StateEntity(changeEvent: string, preState: string, currState: string)

  /** define.BlockchainData: the stored record's own fields, and five about its block. */
  datatype BlockchainData = BlockchainData(
    txId: string, txHash: string, blockHash: string, blockHeight: nat, blockData: string,
    bidbond: string, bid: string, progress: string, createBy: string, createTime: nat,
    sender: string, receiver: seq<string>, lastUpdateTime: nat, lastUpdateBy: string,
    remark: string, status: StateEntity)

  /** The JSON decoders of event payloads and of stored records, and calHash. */
  datatype Decoder = Decoder(messages: Bytes -> Option<seq<Bytes>>,
                             record: Bytes -> Option<BlockchainData>,
                             hash: string -> string)

  /** The row of one event, if its payload holds exactly one record that decodes. */
  function RowOf(dec: Decoder, info: BlockData, e: ChaincodeEvent): Option<BlockchainData> {
    match dec.messages(e.payload)
    case None => None
    case Some(business) =>
      if |business| != 1 then None
      else match dec.record(business[0])
        case None => None
        case Some(data) =>
          Some(data.(txId := e.txId, txHash := dec.hash(info.text), blockData := info.text,
                     blockHash := info.hash, blockHeight := info.height))
  }

  ghost predicate Yields(dec: Decoder, infos: BlockInfos, p: (string, string), r: BlockchainData) {
    Holds(infos, p.0, p.1) && RowOf(dec, infos[p.0], infos[p.0].eventMap[p.1]) == Some(r)
  }

  ghost predicate YieldsSome(dec: Decoder, infos: BlockInfos, p: (string, string)) {
    Holds(infos, p.0, p.1) && RowOf(dec, infos[p.0], infos[p.0].eventMap[p.1]).Some?
  }

  /** The rows of the entries in `done`, in some order: each row occurs as often as there
      are entries that give it. */
  ghost predicate Lists(dec: Decoder, infos: BlockInfos, done: set<(string, string)>, rows: seq<BlockchainData>) {
    && (forall r :: multiset(rows)[r] == |set p | p in done && Yields(dec, infos, p, r)|)
    && |rows| == |set p | p in done && YieldsSome(dec, infos, p)|
  }

  function Append(rows: seq<BlockchainData>, row: Option<BlockchainData>): seq<BlockchainData> {
    match row case Some(r) => rows + [r] case None => rows
  }

  lemma ListsAdd(dec: Decoder, infos: BlockInfos, done: set<(string, string)>, rows: seq<BlockchainData>,
                 p: (string, string))
    requires Lists(dec, infos, done, rows) && p !in done && Holds(infos, p.0, p.1)
    ensures Lists(dec, infos, done + {p}, Append(rows, RowOf(dec, infos[p.0], infos[p.0].eventMap[p.1])))
  {
    var row := RowOf(dec, infos[p.0], infos[p.0].eventMap[p.1]);
    hide RowOf;
    forall r
      ensures multiset(Append(rows, row))[r] == |set q | q in done + {p} && Yields(dec, infos, q, r)|
    {
      assert multiset(rows)[r] == |set q | q in done && Yields(dec, infos, q, r)|;
      ListsAddRow(dec, infos, done, p, r);
    }
    ListsAddOne(dec, infos, done, p);
  }

  lemma ListsAddOne(dec: Decoder, infos: BlockInfos, done: set<(string, string)>, p: (string, string))
    requires p !in done
    ensures |set q | q in done + {p} && YieldsSome(dec, infos, q)|
         == |set q | q in done && YieldsSome(dec, infos, q)| + if YieldsSome(dec, infos, p) then 1 else 0
  {
    var before := set q | q in done && YieldsSome(dec, infos, q);
    var after := set q | q in done + {p} && YieldsSome(dec, infos, q);
    assert after == if YieldsSome(dec, infos, p) then before + {p} else before;
  }

  lemma ListsAddRow(dec: Decoder, infos: BlockInfos, done: set<(string, string)>, p: (string, string),
                    r: BlockchainData)
    requires p !in done
    ensures |set q | q in done + {p} && Yields(dec, infos, q, r)|
         == |set q | q in done && Yields(dec, infos, q, r)| + if Yields(dec, infos, p, r) then 1 else 0
  {
    var before := set q | q in done && Yields(dec, infos, q, r);
    var after := set q | q in done + {p} && Yields(dec, infos, q, r);
    assert after == if Yields(dec, infos, p, r) then before + {p} else before;
  }

  /** The entries filed under some of the hashes. */
  ghost function PairsUnder(infos: BlockInfos, hashes: set<string>): set<(string, string)> {
    set h, id | h in hashes && h in infos && id in infos[h].eventMap :: (h, id)
  }

  /** The inner loop: the events filed under one block. */
  method BlockRowsOf(dec: Decoder, infos: BlockInfos, hash: string, ghost done: set<string>,
                     rows: seq<BlockchainData>)
    returns (list: seq<BlockchainData>)
    requires hash in infos && hash !in done && Lists(dec, infos, PairsUnder(infos, done), rows)
    ensures Lists(dec, infos, PairsUnder(infos, done + {hash}), list)
  {
    hide Lists;
    var itemInfo := infos[hash];
    var keys := itemInfo.eventMap.Keys;
    list := rows;
    ghost var before := PairsUnder(infos, done);
    ghost var pairs := before;
    while keys != {}
      invariant keys <= itemInfo.eventMap.Keys
      invariant pairs == before + set id | id in itemInfo.eventMap && id !in keys :: (hash, id)
      invariant Lists(dec, infos, pairs, list)
      decreases |keys|
    {
      var key :| key in keys;
      keys := keys - {key};
      var v := itemInfo.eventMap[key];
      ListsAdd(dec, infos, pairs, list, (hash, key));
      pairs := pairs + {(hash, key)};
      var business := dec.messages(v.payload);
      if business.Some? && |business.value| == 1 {
        var tempData := dec.record(business.value[0]);
        if tempData.Some? {
          list := list + [tempData.value.(txId := v.txId, txHash := dec.hash(itemInfo.text),
                                          blockData := itemInfo.text, blockHash := itemInfo.hash,
                                          blockHeight := itemInfo.height)];
        }
      }
    }
    assert pairs == PairsUnder(infos, done + {hash});
  }

  /** The two nested loops; map iteration takes the entries in an arbitrary order. */
  method AllRows(dec: Decoder, infos: BlockInfos) returns (list: seq<BlockchainData>)
    ensures Lists(dec, infos, Pairs(infos), list)
  {
    hide Lists;
    list := [];
    NothingListed(dec, infos);
    var hashes := infos.Keys;
    ghost var done: set<string> := {};
    while hashes != {}
      invariant done !! hashes && done + hashes == infos.Keys
      invariant Lists(dec, infos, PairsUnder(infos, done), list)
      decreases |hashes|
    {
      var hash :| hash in hashes;
      list := BlockRowsOf(dec, infos, hash, done, list);
      hashes, done := hashes - {hash}, done + {hash};
    }
    assert PairsUnder(infos, done) == Pairs(infos);
  }

  /** What the status says about the ledger: a failed fetch is one of a requested id, with its
      text; none is made up; that of the first id, and in a request without blanks that of the
      last, is always reported. */
  ghost predicate Answered(ledger: Ledger, ids: seq<string>, status: ResponseStatus) {
    && (status == ResponseStatus(0, "SUCCESS")
        || (status.statusCode == 1 && exists f :: f in ids && f != "" && ledger(f) == Err(status.statusMsg)))
    && (ids != [] && ids[0] != "" && ledger(ids[0]).Err? ==> status == ResponseStatus(1, ledger(ids[0]).error))
    && (ids != [] && "" !in ids && ledger(ids[|ids| - 1]).Err? ==> status.statusCode == 1)
  }

  lemma StatusAnswers(ledger: Ledger, ids: seq<string>)
    ensures Answered(ledger, ids, match Lookup(ledger, ids).error
                                  case Some(e) => ResponseStatus(1, e)
                                  case None => ResponseStatus(0, "SUCCESS"))
  {
    if Lookup(ledger, ids).error.Some? { ErrorHasCause(ledger, ids); }
    if ids != [] && ids[0] != "" && ledger(ids[0]).Err? { FirstFails(ledger, ids, ledger(ids[0]).error); }
    if ids != [] && "" !in ids && ledger(ids[|ids| - 1]).Err? { LastFails(ledger, ids); }
  }

  /** BlockQuery.  A failed fetch shows in the status, with its text, and in the empty contents. */
  method BlockQuery(dec: Decoder, ledger: Ledger, txIdList: array<string>)
    returns (status: ResponseStatus, schema: string, list: seq<BlockchainData>)
    modifies txIdList
    ensures match Lookup(ledger, old(txIdList[..])).error
            case Some(e) => status == ResponseStatus(1, e) && schema == "" && list == []
            case None =>
              var infos := Lookup(ledger, old(txIdList[..])).run.infos;
              && status == ResponseStatus(0, "SUCCESS") && schema == "/schema/blockList.json"
              && Lists(dec, infos, Pairs(infos), list)
    ensures Answered(ledger, old(txIdList[..]), status)
  {
    hide Lists, Lookup, Answered;
    StatusAnswers(ledger, txIdList[..]);
    var infos, err := GetBlockByTxids(ledger, txIdList);
    if err.Some? {
      return ResponseStatus(1, err.value), "", [];
    }
    list := AllRows(dec, infos);
    return ResponseStatus(0, "SUCCESS"), "/schema/blockList.json", list;
  }

  lemma NothingListed(dec: Decoder, infos: BlockInfos)
    ensures Lists(dec, infos, PairsUnder(infos, {}), [])
  {
  }

  /** Whatever order the maps are iterated in, the rows are the same multiset. */
  lemma RowsIndependentOfOrder(dec: Decoder, infos: BlockInfos, rows: seq<BlockchainData>, others: seq<BlockchainData>)
    requires Lists(dec, infos, Pairs(infos), rows) && Lists(dec, infos, Pairs(infos), others)
    ensures multiset(rows) == multiset(others)
  {
  }

  // ---- Row conservation ----

  /** Pairs with different second parts are as many as those parts. */
  lemma {:induction false} ProjectionSize(ps: set<(string, string)>)
    requires forall p, q :: p in ps && q in ps && p.1 == q.1 ==> p == q
    ensures |set p | p in ps :: p.1| == |ps|
    decreases ps
  {
    if ps != {} {
      var p :| p in ps;
      ProjectionSize(ps - {p});
      assert (set q | q in ps :: q.1) == {p.1} + set q | q in ps - {p} :: q.1;
      assert p.1 !in set q | q in ps - {p} :: q.1;
    }
  }

  /** How many cells of a request name a transaction. */
  function Asked(s: seq<string>): nat { |s| - multiset(s)[""] }

  lemma AskedWithoutBlanks(s: seq<string>)
    requires "" !in s
    ensures Asked(s) == |s|
  {
  }

  lemma AskedSplit(s: seq<string>)
    requires s != []
    ensures Asked(s) == Asked(s[1..]) + if s[0] == "" then 0 else 1
  {
    assert s == [s[0]] + s[1..];
  }

  lemma {:induction false} AskedSize(s: seq<string>)
    requires DistinctIds(s)
    ensures |set x | x in s && x != ""| == Asked(s)
  {
    if s != [] {
      assert s[0] != "" ==> s[0] !in s[1..];
      AskedSize(s[1..]);
      AskedSplit(s);
      hide Asked, DistinctIds;
      var rest := set x | x in s[1..] && x != "";
      assert (set x | x in s && x != "") == if s[0] == "" then rest else rest + {s[0]};
    }
  }

  lemma RemovedDistinct(ids: seq<string>, run: Run)
    requires DistinctIds(ids) && Conserved(ids, run)
    ensures DistinctIds(run.removed)
  {
    var s := run.removed;
    forall i, j | 0 <= i < j < |s| && s[i] != ""
      ensures s[i] != s[j]
    {
      assert s[i] in multiset(s) && s[i] in multiset(ids);
      CountOnce(ids, s[i]);
      assert s == s[..j] + [s[j]] + s[j + 1..];
      assert s[i] in s[..j];
      assert multiset(s)[s[i]] <= 1;
    }
  }

  lemma NamedRemoved(ledger: Ledger, ids: seq<string>, run: Run)
    requires Sound(ledger, ids, run)
    ensures (set p | p in Named(run.infos) :: p.1) == set x | x in run.removed && x != ""
  {
    forall p | p in Named(run.infos)
      ensures p.1 in run.removed
    {
      assert Holds(run.infos, p.0, p.1);
    }
    forall x | x in run.removed && x != ""
      ensures x in set p | p in Named(run.infos) :: p.1
    {
      var h :| Holds(run.infos, h, x);
      assert (h, x) in Pairs(run.infos) && (h, x) in Named(run.infos);
    }
  }

  /** When no id but the blank one is repeated, the entries of transactions and the ids still
      live are together as many as the ids asked for. */
  lemma EntriesAndLive(ledger: Ledger, ids: seq<string>)
    requires DistinctIds(ids)
    ensures var run := Lookup(ledger, ids).run;
            |Named(run.infos)| + Asked(run.slice.Live()) == Asked(ids)
  {
    LookupSound(ledger, ids);
    var run := Lookup(ledger, ids).run;
    NamedRemoved(ledger, ids, run);
    RemovedDistinct(ids, run);
    NamedDistinct(ledger, ids, run);
    hide Lookup, Named, DistinctIds;
    ProjectionSize(Named(run.infos));
    AskedSize(run.removed);
    assert |ids| == |multiset(ids)| == |multiset(run.slice.Live())| + |multiset(run.removed)|;
  }

  /** No transaction is under two blocks. */
  lemma NamedDistinct(ledger: Ledger, ids: seq<string>, run: Run)
    requires DistinctIds(ids) && Invariant(ledger, ids, run)
    ensures forall p, q :: p in Named(run.infos) && q in Named(run.infos) && p.1 == q.1 ==> p == q
  {
    forall p, q | p in Named(run.infos) && q in Named(run.infos) && p.1 == q.1
      ensures p == q
    {
      assert Holds(run.infos, p.0, p.1) && Holds(run.infos, q.0, q.1);
      assert p.1 in multiset(ids);
      CountOnce(ids, p.1);
    }
  }

  /** The events of the requested transactions carry one record each, as SaveData emits them;
      the empty event of a transaction that emitted none carries nothing. */
  ghost predicate AllDecode(dec: Decoder, ledger: Ledger, ids: seq<string>) {
    forall f, e :: f in ids && f != "" && ledger(f).Ok? && e in Events(ledger(f).value) && e.txId in ids ==>
      if e.txId == "" then dec.messages(e.payload) == None
      else dec.messages(e.payload).Some? && |dec.messages(e.payload).value| == 1
           && dec.record(dec.messages(e.payload).value[0]).Some?
  }

  /** No requested transaction is silently dropped: when no id but the blank one is repeated,
      the rows returned and the ids still live at the end of the lookup number exactly the ids
      asked for. */
  lemma RowConservation(dec: Decoder, ledger: Ledger, ids: seq<string>, rows: seq<BlockchainData>)
    requires DistinctIds(ids) && AllDecode(dec, ledger, ids)
    requires var infos := Lookup(ledger, ids).run.infos; Lists(dec, infos, Pairs(infos), rows)
    ensures |rows| + Asked(Lookup(ledger, ids).run.slice.Live()) == Asked(ids)
  {
    LookupSound(ledger, ids);
    EntriesAndLive(ledger, ids);
    hide Lookup, DistinctIds;
    NamedRows(dec, ledger, ids, Lookup(ledger, ids).run, rows);
  }

  lemma NamedRows(dec: Decoder, ledger: Ledger, ids: seq<string>, run: Run, rows: seq<BlockchainData>)
    requires AllDecode(dec, ledger, ids) && Sound(ledger, ids, run) && Conserved(ids, run)
    requires Lists(dec, run.infos, Pairs(run.infos), rows)
    ensures |rows| == |Named(run.infos)|
  {
    forall p | p in Pairs(run.infos)
      ensures YieldsSome(dec, run.infos, p) <==> p in Named(run.infos)
    {
      EntryDecodes(dec, ledger, ids, run, p);
    }
    hide AllDecode, Sound, Conserved, YieldsSome;
    assert (set p | p in Pairs(run.infos) && YieldsSome(dec, run.infos, p)) == Named(run.infos);
  }

  lemma EntryDecodes(dec: Decoder, ledger: Ledger, ids: seq<string>, run: Run, p: (string, string))
    requires AllDecode(dec, ledger, ids) && Sound(ledger, ids, run) && Conserved(ids, run)
    requires p in Pairs(run.infos)
    ensures YieldsSome(dec, run.infos, p) <==> p in Named(run.infos)
  {
    assert Holds(run.infos, p.0, p.1);
    var e := run.infos[p.0].eventMap[p.1];
    assert EventSound(ledger, ids, p.0, p.1, e);
    var f :| Fetched(ledger, ids, f, p.0) && e in Events(ledger(f).value);
    assert e.txId in multiset(ids);
  }

  lemma ServedAsked(ledger: Ledger, ids: seq<string>)
    requires Serves(ledger, ids)
    ensures Asked(ids) == |ids|
    ensures Asked(Lookup(ledger, ids).run.slice.Live()) == Lookup(ledger, ids).run.slice.len
  {
    LookupSound(ledger, ids);
    var live := Lookup(ledger, ids).run.slice.Live();
    hide Lookup;
    if "" in live { SubsequenceMember(live, ids, ""); }
    AskedWithoutBlanks(ids);
    AskedWithoutBlanks(live);
  }

  /** A query for n >= 1 distinct ids that the ledger serves returns at least n / 2 + 1 rows. */
  lemma RowBound(dec: Decoder, ledger: Ledger, ids: seq<string>, rows: seq<BlockchainData>)
    requires ids != [] && Serves(ledger, ids) && AllDecode(dec, ledger, ids)
    requires var infos := Lookup(ledger, ids).run.infos; Lists(dec, infos, Pairs(infos), rows)
    ensures |ids| / 2 + 1 <= |rows| <= |ids|
  {
    LossBound(ledger, ids);
    RowConservation(dec, ledger, ids, rows);
    ServedAsked(ledger, ids);
  }

  /** With every id in its own block, a query for n >= 1 ids returns n / 2 + 1 rows, or n
      when there are at most two. */
  lemma SeparateRowCount(dec: Decoder, ledger: Ledger, ids: seq<string>, rows: seq<BlockchainData>)
    requires ids != [] && Separate(ledger, ids) && AllDecode(dec, ledger, ids)
    requires var infos := Lookup(ledger, ids).run.infos; Lists(dec, infos, Pairs(infos), rows)
    ensures |rows| == |ids| / 2 + 1
    ensures |rows| == |ids| <==> |ids| <= 2
  {
    SeparateServes(ledger, ids);
    ExactCoverage(ledger, ids);
    RowConservation(dec, ledger, ids, rows);
    ServedAsked(ledger, ids);
  }

  /** Each listed row comes from a map entry. */
  lemma RowGiver(dec: Decoder, infos: BlockInfos, rows: seq<BlockchainData>, r: BlockchainData)
    returns (p: (string, string))
    requires Lists(dec, infos, Pairs(infos), rows) && r in rows
    ensures p in Pairs(infos) && Yields(dec, infos, p, r)
  {
    var givers := set p | p in Pairs(infos) && Yields(dec, infos, p, r);
    assert multiset(rows)[r] == |givers|;
    assert givers != {};
    p :| p in givers;
  }

  /** The eleven fields of a row that are not about its block are those of the one record in
      the event's payload. */
  ghost predicate CarriesContent(dec: Decoder, e: ChaincodeEvent, r: BlockchainData) {
    && dec.messages(e.payload).Some? && |dec.messages(e.payload).value| == 1
    && dec.record(dec.messages(e.payload).value[0]).Some?
    && var d := dec.record(dec.messages(e.payload).value[0]).value;
       && (r.bidbond, r.bid, r.progress, r.remark, r.status) == (d.bidbond, d.bid, d.progress, d.remark, d.status)
       && (r.createBy, r.createTime, r.sender) == (d.createBy, d.createTime, d.sender)
       && (r.receiver, r.lastUpdateTime, r.lastUpdateBy) == (d.receiver, d.lastUpdateTime, d.lastUpdateBy)
  }

  /** Each row says which requested transaction it is about and describes a block that was
      fetched and holds that transaction's event. */
  lemma RowSound(dec: Decoder, ledger: Ledger, ids: seq<string>, rows: seq<BlockchainData>, r: BlockchainData)
    requires var infos := Lookup(ledger, ids).run.infos; Lists(dec, infos, Pairs(infos), rows)
    requires r in rows && Agrees(ledger, ids)
    ensures r.txId in ids
    ensures r.txId != "" ==> Found(ledger, r.txId) && r.blockHash == ledger(r.txId).value.hash
    ensures exists f :: Fetched(ledger, ids, f, r.blockHash) && r.blockData == ledger(f).value.text
              && r.blockHeight == ledger(f).value.number && r.txHash == dec.hash(r.blockData)
  {
    var run := Lookup(ledger, ids).run;
    var p := RowGiver(dec, run.infos, rows, r);
    LookupSound(ledger, ids);
    Containment(ledger, ids);
    EntryDescribed(ledger, ids, run, p);
    hide Lists, Lookup, Invariant, Agrees;
    assert p.1 != "" ==> p in Named(run.infos) && p in Ideal(ledger, ids);
    var f :| Fetched(ledger, ids, f, p.0) && Describes(run.infos[p.0], ledger(f).value);
    assert r.blockHash == p.0 && r.txId == p.1;
  }

  /** The rest of a row comes from an event of that transaction in a block fetched under the
      row's hash. */
  lemma RowContent(dec: Decoder, ledger: Ledger, ids: seq<string>, rows: seq<BlockchainData>, r: BlockchainData)
    requires var infos := Lookup(ledger, ids).run.infos; Lists(dec, infos, Pairs(infos), rows)
    requires r in rows
    ensures exists f, e :: Fetched(ledger, ids, f, r.blockHash) && e in Events(ledger(f).value)
              && e.txId == r.txId && CarriesContent(dec, e, r)
  {
    var run := Lookup(ledger, ids).run;
    var p := RowGiver(dec, run.infos, rows, r);
    LookupSound(ledger, ids);
    EntryDescribed(ledger, ids, run, p);
    hide Lists, Lookup, Invariant;
    var e := run.infos[p.0].eventMap[p.1];
    var g :| Fetched(ledger, ids, g, p.0) && e in Events(ledger(g).value);
    assert CarriesContent(dec, e, r) && e.txId == r.txId && r.blockHash == p.0;
  }

  lemma EntryDescribed(ledger: Ledger, ids: seq<string>, run: Run, p: (string, string))
    requires Sound(ledger, ids, run) && p in Pairs(run.infos)
    ensures Holds(run.infos, p.0, p.1) && run.infos[p.0].eventMap[p.1].txId == p.1 && run.infos[p.0].hash == p.0
    ensures exists f :: Fetched(ledger, ids, f, p.0) && Describes(run.infos[p.0], ledger(f).value)
    ensures exists f :: Fetched(ledger, ids, f, p.0) && run.infos[p.0].eventMap[p.1] in Events(ledger(f).value)
  {
    assert Holds(run.infos, p.0, p.1);
    assert EventSound(ledger, ids, p.0, p.1, run.infos[p.0].eventMap[p.1]);
    assert BlockSound(ledger, ids, p.0, run.infos[p.0]);
  }
}
