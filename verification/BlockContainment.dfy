/** What every run of the block lookup keeps, whatever the ledger answers. */
module BlockContainment {
  import opened Wrappers
  import opened Slices
  import opened BlockLookup

  // ---- Conservation ----

  /** No key is invented, lost or reordered: the live keys and the removed keys together
      are the requested ones, the live ones in request order; every cell, stale ones
      included, holds a requested key, and the last cell never changes. */
  ghost predicate Conserved(ids: seq<string>, run: Run) {
    && run.slice.Valid() && |run.slice.cells| == |ids|
    && multiset(ids) == multiset(run.slice.Live()) + multiset(run.removed)
    && Subsequence(run.slice.Live(), ids)
    && (forall c :: c in run.slice.cells ==> c in ids)
    && (ids != [] ==> run.slice.cells[|ids| - 1] == ids[|ids| - 1])
  }

  lemma StartConserved(ids: seq<string>)
    ensures Conserved(ids, Start(ids))
  {
    SubsequenceRefl(ids);
    assert Start(ids).slice.Live() == ids;
  }

  lemma RecordConserves(ids: seq<string>, run: Run, hash: string, e: ChaincodeEvent)
    requires Conserved(ids, run) && hash in run.infos
    ensures Conserved(ids, Record(run, hash, e))
  {
    if e.txId in run.slice.Live() {
      RemoveFirstLive(run.slice, e.txId);
      RemoveFirstMultiset(run.slice, e.txId);
      RemoveFirstCells(run.slice, e.txId);
      SubsequenceDrop(run.slice.Live(), ids, IndexOf(run.slice.Live(), e.txId));
    }
  }

  // ---- Containment ----

  ghost predicate Holds(infos: BlockInfos, hash: string, id: string) {
    hash in infos && id in infos[hash].eventMap
  }

  /** Looking up `f`, one of the requested ids and not blank, fetched a block with this hash. */
  ghost predicate Fetched(ledger: Ledger, ids: seq<string>, f: string, hash: string) {
    f in ids && f != "" && ledger(f).Ok? && ledger(f).value.hash == hash
  }

  ghost predicate Describes(d: BlockData, b: Block) {
    d.text == b.text && d.previous == b.previous && d.hash == b.hash && d.height == b.number
  }

  ghost predicate BlockSound(ledger: Ledger, ids: seq<string>, hash: string, d: BlockData) {
    hash != "" && exists f :: Fetched(ledger, ids, f, hash) && Describes(d, ledger(f).value)
  }

  ghost predicate EventSound(ledger: Ledger, ids: seq<string>, hash: string, id: string, e: ChaincodeEvent) {
    e.txId == id && exists f :: Fetched(ledger, ids, f, hash) && e in Events(ledger(f).value)
  }

  /** The map holds only what fetched blocks hold, and exactly the removed keys. */
  ghost predicate Sound(ledger: Ledger, ids: seq<string>, run: Run) {
    && (forall h :: h in run.infos ==> BlockSound(ledger, ids, h, run.infos[h]))
    && (forall h, id :: Holds(run.infos, h, id) ==>
          id in run.removed && EventSound(ledger, ids, h, id, run.infos[h].eventMap[id]))
    && (forall id :: id in run.removed ==> exists h :: Holds(run.infos, h, id))
  }

  /** No id that is asked for once is under two blocks. */
  ghost predicate OneBlockEach(ids: seq<string>, infos: BlockInfos) {
    forall h, g, id :: multiset(ids)[id] <= 1 && Holds(infos, h, id) && Holds(infos, g, id) ==> h == g
  }

  ghost predicate Invariant(ledger: Ledger, ids: seq<string>, run: Run) {
    Conserved(ids, run) && Sound(ledger, ids, run) && OneBlockEach(ids, run.infos)
  }

  /** A live key that is asked for once has not been removed. */
  lemma LiveNotRemoved(ids: seq<string>, run: Run, x: string)
    requires multiset(ids)[x] <= 1 && Conserved(ids, run) && x in run.slice.Live()
    ensures x !in run.removed
  {
    assert multiset(run.slice.Live())[x] >= 1;
    assert x in run.removed ==> multiset(run.removed)[x] >= 1;
  }

  /** How recording a live event changes the map. */
  lemma RecordHolds(run: Run, hash: string, e: ChaincodeEvent)
    requires run.slice.Valid() && hash in run.infos && e.txId in run.slice.Live()
    ensures var next := Record(run, hash, e).infos;
            && (forall h, id :: Holds(next, h, id) <==> Holds(run.infos, h, id) || (h == hash && id == e.txId))
            && (forall h, id :: Holds(next, h, id) ==>
                  next[h].eventMap[id] == if h == hash && id == e.txId then e else run.infos[h].eventMap[id])
            && (forall h :: h in next ==> next[h].(eventMap := map[]) == run.infos[h].(eventMap := map[]))
  {
  }

  lemma RecordSound(ledger: Ledger, ids: seq<string>, run: Run, f: string, e: ChaincodeEvent)
    requires run.slice.Valid() && Sound(ledger, ids, run) && f in ids && f != "" && ledger(f).Ok?
    requires ledger(f).value.hash in run.infos && e in Events(ledger(f).value)
    requires e.txId in run.slice.Live()
    ensures Sound(ledger, ids, Record(run, ledger(f).value.hash, e))
  {
    var hash := ledger(f).value.hash;
    var next := Record(run, hash, e);
    RecordHolds(run, hash, e);
    assert next.removed == run.removed + [e.txId] && next.infos.Keys == run.infos.Keys;
    hide RemoveFirst, Record;
    assert Fetched(ledger, ids, f, hash);
    forall h | h in next.infos
      ensures BlockSound(ledger, ids, h, next.infos[h])
    {
      assert BlockSound(ledger, ids, h, run.infos[h]);
      var g :| Fetched(ledger, ids, g, h) && Describes(run.infos[h], ledger(g).value);
      assert next.infos[h].(eventMap := map[]) == run.infos[h].(eventMap := map[]);
      assert Describes(next.infos[h], ledger(g).value);
    }
    assert Holds(next.infos, hash, e.txId);
    forall id | id in next.removed
      ensures exists h :: Holds(next.infos, h, id)
    {
      if id != e.txId {
        var h :| Holds(run.infos, h, id);
        assert Holds(next.infos, h, id);
      }
    }
  }

  lemma RecordOneBlockEach(ids: seq<string>, run: Run, hash: string, e: ChaincodeEvent)
    requires OneBlockEach(ids, run.infos) && Conserved(ids, run) && hash in run.infos && e.txId in run.slice.Live()
    requires forall h, id :: Holds(run.infos, h, id) ==> id in run.removed
    ensures OneBlockEach(ids, Record(run, hash, e).infos)
  {
    RecordHolds(run, hash, e);
    if multiset(ids)[e.txId] <= 1 { LiveNotRemoved(ids, run, e.txId); }
    hide Conserved, Record, Holds;
  }

  lemma RecordInvariant(ledger: Ledger, ids: seq<string>, run: Run, f: string, e: ChaincodeEvent)
    requires Invariant(ledger, ids, run) && f in ids && f != "" && ledger(f).Ok?
    requires ledger(f).value.hash in run.infos && e in Events(ledger(f).value)
    ensures Invariant(ledger, ids, Record(run, ledger(f).value.hash, e))
  {
    var hash := ledger(f).value.hash;
    RecordConserves(ids, run, hash, e);
    assert Conserved(ids, run) && Sound(ledger, ids, run);
    hide RemoveFirst, OneBlockEach;
    if e.txId in run.slice.Live() {
      RecordOneBlockEach(ids, run, hash, e);
      hide Sound, Conserved;
      RecordSound(ledger, ids, run, f, e);
    }
  }

  lemma {:induction false} RecordAllSound(ledger: Ledger, ids: seq<string>, run: Run, f: string,
                                          es: seq<ChaincodeEvent>)
    requires Invariant(ledger, ids, run) && f in ids && f != "" && ledger(f).Ok?
    requires ledger(f).value.hash in run.infos
    requires forall e :: e in es ==> e in Events(ledger(f).value)
    ensures Invariant(ledger, ids, RecordAll(run, ledger(f).value.hash, es))
    decreases |es|
  {
    if es != [] {
      RecordInvariant(ledger, ids, run, f, es[0]);
      RecordAllSound(ledger, ids, Record(run, ledger(f).value.hash, es[0]), f, es[1..]);
    }
  }

  lemma VisitSound(ledger: Ledger, ids: seq<string>, run: Run, f: string)
    requires Invariant(ledger, ids, run) && f in ids && f != "" && ledger(f).Ok?
    ensures Invariant(ledger, ids, Visit(run, ledger(f).value))
  {
    var b := ledger(f).value;
    if b.hash != "" {
      var entered := run.(infos := Enter(run.infos, b));
      assert Fetched(ledger, ids, f, b.hash);
      forall h, id
        ensures Holds(entered.infos, h, id) <==> Holds(run.infos, h, id)
      {
      }
      assert Describes(entered.infos[b.hash], b) || b.hash in run.infos;
      forall h | h in entered.infos
        ensures BlockSound(ledger, ids, h, entered.infos[h])
      {
        if h !in run.infos { assert Describes(entered.infos[h], ledger(f).value); }
      }
      forall id | id in run.removed
        ensures exists h :: Holds(entered.infos, h, id)
      {
        var h :| Holds(run.infos, h, id);
        assert Holds(entered.infos, h, id);
      }
      RecordAllSound(ledger, ids, entered, f, Events(b));
    }
  }

  lemma {:induction false} LookupFromSound(ledger: Ledger, ids: seq<string>, run: Run, cursor: nat)
    requires Invariant(ledger, ids, run) && cursor <= |ids|
    ensures Invariant(ledger, ids, LookupFrom(ledger, run, cursor).run)
    decreases |ids| - cursor
  {
    hide Sound, OneBlockEach;
    if cursor < |ids| && run.slice.cells[cursor] != "" && ledger(run.slice.cells[cursor]).Ok? {
      var f := run.slice.cells[cursor];
      var next := Visit(run, ledger(f).value);
      VisitSound(ledger, ids, run, f);
      LookupFromSound(ledger, ids, next, cursor + 1);
      assert LookupFrom(ledger, run, cursor) == LookupFrom(ledger, next, cursor + 1);
    } else {
      assert LookupFrom(ledger, run, cursor).run == run;
    }
  }

  /** Every run, early returns and failed fetches included, ends in a state that conserves
      the request, holds only what fetched blocks hold, and lists no id that is asked for once
      under two blocks. */
  lemma LookupSound(ledger: Ledger, ids: seq<string>)
    ensures Invariant(ledger, ids, Lookup(ledger, ids).run)
  {
    StartConserved(ids);
    LookupFromSound(ledger, ids, Start(ids), 0);
  }

  // ---- Against looking each id up on its own ----

  /** A transaction sits in one block: if the block fetched for `f` has an event of `x`,
      asking for `x` gives that same block.  This says nothing about the blank id, which is
      that of the empty event of any transaction that emitted none. */
  ghost predicate Agrees(ledger: Ledger, ids: seq<string>) {
    forall f, x :: f in ids && f != "" && x in ids && x != "" && ledger(f).Ok? && HasId(Events(ledger(f).value), x) ==>
      ledger(x) == ledger(f)
  }

  /** The block of `id`, looked up alone, has a hash and an event of `id`. */
  ghost predicate Found(ledger: Ledger, id: string) {
    ledger(id).Ok? && ledger(id).value.hash != "" && HasId(Events(ledger(id).value), id)
  }

  /** Which of the block's transactions holds the event does not matter, nor what stands before. */
  lemma FoundByPosition(ledger: Ledger, id: string)
    ensures Found(ledger, id) <==>
            && ledger(id).Ok? && ledger(id).value.hash != ""
            && exists i, k :: EmitsAt(ledger(id).value, id, i, k)
  {
    if ledger(id).Ok? { HasIdByPosition(ledger(id).value, id); }
  }

  /** The intended result: each requested id looked up on its own, grouped by block. */
  ghost function Ideal(ledger: Ledger, ids: seq<string>): set<(string, string)> {
    set id | id in ids && id != "" && Found(ledger, id) :: (ledger(id).value.hash, id)
  }

  ghost function Pairs(infos: BlockInfos): set<(string, string)> {
    set h, id | h in infos && id in infos[h].eventMap :: (h, id)
  }

  /** The entries of transactions that have an id. */
  ghost function Named(infos: BlockInfos): set<(string, string)> {
    set p | p in Pairs(infos) && p.1 != ""
  }

  /** Nothing wrong is ever returned: but for empty events, the result is part of the intended
      one. */
  lemma Containment(ledger: Ledger, ids: seq<string>)
    requires Agrees(ledger, ids)
    ensures Named(Lookup(ledger, ids).run.infos) <= Ideal(ledger, ids)
    ensures "" !in ids ==> Pairs(Lookup(ledger, ids).run.infos) <= Ideal(ledger, ids)
  {
    LookupSound(ledger, ids);
    var run := Lookup(ledger, ids).run;
    forall p | p in Pairs(run.infos) && (p.1 != "" || "" !in ids)
      ensures p in Ideal(ledger, ids)
    {
      EntryIdeal(ledger, ids, run, p);
    }
  }

  lemma EntryIdeal(ledger: Ledger, ids: seq<string>, run: Run, p: (string, string))
    requires Agrees(ledger, ids) && Sound(ledger, ids, run) && Conserved(ids, run)
    requires p in Pairs(run.infos) && (p.1 != "" || "" !in ids)
    ensures p in Ideal(ledger, ids)
  {
    var (h, id) := p;
    assert Holds(run.infos, h, id);
    assert BlockSound(ledger, ids, h, run.infos[h]);
    var e := run.infos[h].eventMap[id];
    assert EventSound(ledger, ids, h, id, e);
    var f :| Fetched(ledger, ids, f, h) && e in Events(ledger(f).value);
    assert HasId(Events(ledger(f).value), id);
    assert id in multiset(ids);
    assert Found(ledger, id);
  }

  /** The lookup returns exactly the intended result, empty events aside. */
  ghost predicate Complete(ledger: Ledger, ids: seq<string>) {
    Named(Lookup(ledger, ids).run.infos) == Ideal(ledger, ids)
  }

  /** Every id asked for, blanks aside, has its block. */
  ghost predicate Answers(ledger: Ledger, ids: seq<string>) {
    forall id :: id in ids && id != "" ==> Found(ledger, id)
  }

  /** The id is in the result, under the hash of its block. */
  ghost predicate Returned(ledger: Ledger, ids: seq<string>, id: string) {
    ledger(id).Ok? && Holds(Lookup(ledger, ids).run.infos, ledger(id).value.hash, id)
  }

  lemma ReturnedIffRemoved(ledger: Ledger, ids: seq<string>, id: string)
    requires Agrees(ledger, ids) && id in ids && id != "" && Found(ledger, id)
    ensures Returned(ledger, ids, id) <==> id in Lookup(ledger, ids).run.removed
  {
    LookupSound(ledger, ids);
    var run := Lookup(ledger, ids).run;
    if id in run.removed {
      var h :| Holds(run.infos, h, id);
      assert (h, id) in Pairs(run.infos);
      EntryIdeal(ledger, ids, run, (h, id));
    }
  }

  /** Whatever blanks and repeats are in the request: the result is the intended one exactly if
      every id asked for is in it. */
  lemma CompleteIffReturned(ledger: Ledger, ids: seq<string>)
    requires Agrees(ledger, ids) && Answers(ledger, ids)
    ensures Complete(ledger, ids) <==> forall id :: id in ids && id != "" ==> Returned(ledger, ids, id)
  {
    Containment(ledger, ids);
    var infos := Lookup(ledger, ids).run.infos;
    hide Lookup, Agrees;
    if Complete(ledger, ids) {
      forall id | id in ids && id != ""
        ensures Returned(ledger, ids, id)
      {
        assert (ledger(id).value.hash, id) in Ideal(ledger, ids);
      }
    } else if forall id :: id in ids && id != "" ==> Returned(ledger, ids, id) {
      forall p | p in Ideal(ledger, ids)
        ensures p in Named(infos)
      {
        assert Returned(ledger, ids, p.1);
        assert p in Pairs(infos);
      }
    }
  }

  /** An id asked for once is in the result exactly if it is not live at the end. */
  lemma ReturnedIffNotLive(ledger: Ledger, ids: seq<string>, id: string)
    requires Agrees(ledger, ids) && id != "" && Found(ledger, id) && multiset(ids)[id] == 1
    ensures Returned(ledger, ids, id) <==> id !in Lookup(ledger, ids).run.slice.Live()
  {
    LookupSound(ledger, ids);
    assert id in multiset(ids);
    ReturnedIffRemoved(ledger, ids, id);
    var run := Lookup(ledger, ids).run;
    hide Lookup, Agrees, Returned;
    assert multiset(run.slice.Live())[id] + multiset(run.removed)[id] == 1;
    assert id in run.removed <==> multiset(run.removed)[id] >= 1;
    assert id in run.slice.Live() <==> multiset(run.slice.Live())[id] >= 1;
  }

  lemma {:induction false} DistinctCounts(s: seq<string>, x: string)
    requires Distinct(s)
    ensures multiset(s)[x] <= 1
  {
    if s != [] {
      assert s == [s[0]] + s[1..];
      DistinctCounts(s[1..], x);
      assert s[0] !in s[1..];
    }
  }

  /** When every requested id has its block, the result is the intended one exactly if no
      key is still live at the end. */
  lemma CompleteIffNoneLive(ledger: Ledger, ids: seq<string>)
    requires Distinct(ids) && "" !in ids && Agrees(ledger, ids) && Answers(ledger, ids)
    ensures Complete(ledger, ids) <==> Lookup(ledger, ids).run.slice.len == 0
    ensures Complete(ledger, ids) <==> Pairs(Lookup(ledger, ids).run.infos) == Ideal(ledger, ids)
  {
    LookupSound(ledger, ids);
    Containment(ledger, ids);
    CompleteIffReturned(ledger, ids);
    var run := Lookup(ledger, ids).run;
    forall id | id in ids
      ensures Returned(ledger, ids, id) <==> id !in run.slice.Live()
    {
      DistinctCounts(ids, id);
      ReturnedIffNotLive(ledger, ids, id);
    }
    hide Lookup, Agrees, Returned, Complete, Invariant;
    if run.slice.len > 0 {
      var id := run.slice.Live()[0];
      assert id in ids by { SubsequenceMember(run.slice.Live(), ids, id); }
    }
  }
}
