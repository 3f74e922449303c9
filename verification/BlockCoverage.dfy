/** Which requested ids the block lookup records, and which it loses.

    Shifting the array under the range loop makes the cursor skip keys: a block list is
    complete for every ledger only when at most two ids are requested.
 */
module BlockCoverage {
  import opened Wrappers
  import opened Slices
  import opened BlockLookup
  import opened BlockContainment

  // ---- One block: everything it has of the request is recorded ----

  /** For distinct live keys, recording a list of events removes exactly the live keys that
      have an event in it and files them under the block. */
  lemma {:induction false} RecordAllDistinct(run: Run, hash: string, es: seq<ChaincodeEvent>)
    requires run.slice.Valid() && hash in run.infos && Distinct(run.slice.Live())
    ensures var r := RecordAll(run, hash, es);
            && Distinct(r.slice.Live())
            && (forall x :: x in r.slice.Live() <==> x in run.slice.Live() && !HasId(es, x))
            && (forall h, id :: Holds(r.infos, h, id) <==>
                  Holds(run.infos, h, id) || (h == hash && id in run.slice.Live() && HasId(es, id)))
    decreases |es|
  {
    if es == [] {
    } else {
      var next := Record(run, hash, es[0]);
      RemoveFirstDistinct(run.slice, es[0].txId);
      RemoveFirstLive(run.slice, es[0].txId);
      RecordAllDistinct(next, hash, es[1..]);
      forall x
        ensures HasId(es, x) <==> es[0].txId == x || HasId(es[1..], x)
      {
        HasIdSplit(es, x);
      }
    }
  }

  lemma HasIdSplit(es: seq<ChaincodeEvent>, x: string)
    requires es != []
    ensures HasId(es, x) <==> es[0].txId == x || HasId(es[1..], x)
  {
  }

  lemma FirstIsLive(s: Slice)
    requires s.Valid()
    ensures s.len == 0 || s.cells[0] in s.Live()
  {
  }

  /** Events of keys that are not live change nothing. */
  lemma {:induction false} RecordAllNoneLive(run: Run, hash: string, es: seq<ChaincodeEvent>)
    requires run.slice.Valid() && hash in run.infos
    requires forall x :: x in run.slice.Live() ==> !HasId(es, x)
    ensures RecordAll(run, hash, es) == run
    decreases |es|
  {
    if es != [] {
      assert es[0].txId !in run.slice.Live();
      forall x | x in run.slice.Live()
        ensures !HasId(es[1..], x)
      {
        HasIdSplit(es, x);
      }
      RecordAllNoneLive(run, hash, es[1..]);
    }
  }

  lemma {:induction false} LookupFromNothingLive(ledger: Ledger, run: Run, cursor: nat)
    requires run.slice.Valid() && run.slice.len == 0 && cursor <= |run.slice.cells|
    requires forall c :: c in run.slice.cells ==> c != "" && ledger(c).Ok? && ledger(c).value.hash in run.infos
    ensures LookupFrom(ledger, run, cursor) == Outcome(run, None)
    decreases |run.slice.cells| - cursor
  {
    if cursor < |run.slice.cells| {
      var b := ledger(run.slice.cells[cursor]).value;
      RecordAllNoneLive(run, b.hash, Events(b));
      LookupFromNothingLive(ledger, run, cursor + 1);
    }
  }

  /** Requests whose events all sit in one block: the first iteration records every one of
      them, and the remaining iterations, which read stale cells, change nothing. */
  lemma SingleBlockComplete(ledger: Ledger, ids: seq<string>, b: Block)
    requires ids != [] && Distinct(ids) && b.hash != ""
    requires forall id :: id in ids ==> id != "" && ledger(id) == Ok(b) && exists i, k :: EmitsAt(b, id, i, k)
    ensures Lookup(ledger, ids) == Outcome(Visit(Start(ids), b), None)
    ensures Lookup(ledger, ids).run.slice.len == 0
    ensures Pairs(Lookup(ledger, ids).run.infos) == Ideal(ledger, ids)
  {
    var entered := Start(ids).(infos := Enter(map[], b));
    assert entered.slice.Live() == ids;
    forall id | id in ids
      ensures HasId(Events(b), id)
    {
      HasIdByPosition(b, id);
    }
    hide EmitsAt;
    RecordAllDistinct(entered, b.hash, Events(b));
    var first := Visit(Start(ids), b);
    assert ids[0] in ids;
    FirstIsLive(first.slice);
    StartConserved(ids);
    VisitSound(ledger, ids, Start(ids), ids[0]);
    LookupFromNothingLive(ledger, first, 1);
    CompleteIffNoneLive(ledger, ids);
  }

  // ---- The first and the last id are never lost ----

  /** Every requested id can be fetched and its block has its event. */
  ghost predicate Serves(ledger: Ledger, ids: seq<string>) {
    && Distinct(ids)
    && (forall id :: id in ids ==> id != "" && Found(ledger, id))
  }

  lemma VisitDrops(ledger: Ledger, ids: seq<string>, run: Run, f: string)
    requires Serves(ledger, ids) && run.slice.Valid() && Distinct(run.slice.Live()) && f in ids
    ensures Found(ledger, f) && f != ""
    ensures var r := Visit(run, ledger(f).value);
            && Distinct(r.slice.Live())
            && f !in r.slice.Live()
            && (forall x :: x in r.slice.Live() ==> x in run.slice.Live())
            && (forall h, id :: Holds(run.infos, h, id) ==> Holds(r.infos, h, id))
  {
    var b := ledger(f).value;
    RecordAllDistinct(run.(infos := Enter(run.infos, b)), b.hash, Events(b));
  }

  lemma {:induction false} LookupFromDrops(ledger: Ledger, ids: seq<string>, run: Run, cursor: nat)
    requires run.slice.Valid() && |run.slice.cells| == |ids| && cursor <= |ids|
    requires Serves(ledger, ids) && Invariant(ledger, ids, run) && Distinct(run.slice.Live())
    ensures var r := LookupFrom(ledger, run, cursor);
            && r.error == None && Distinct(r.run.slice.Live())
            && (forall x :: x in r.run.slice.Live() ==> x in run.slice.Live())
            && (cursor < |ids| ==> run.slice.cells[cursor] !in r.run.slice.Live())
            && (cursor < |ids| ==> ids[|ids| - 1] !in r.run.slice.Live())
    decreases |ids| - cursor
  {
    assert cursor < |ids| ==> run.slice.cells[cursor] in ids && run.slice.cells[|ids| - 1] == ids[|ids| - 1];
    hide Invariant, Serves, Distinct, Visit, Holds;
    if cursor < |ids| {
      var f := run.slice.cells[cursor];
      VisitDrops(ledger, ids, run, f);
      VisitSound(ledger, ids, run, f);
      var next := Visit(run, ledger(f).value);
      LookupFromDrops(ledger, ids, next, cursor + 1);
      assert LookupFrom(ledger, run, cursor) == LookupFrom(ledger, next, cursor + 1);
    } else {
      assert LookupFrom(ledger, run, cursor) == Outcome(run, None);
    }
  }

  /** However the ids are spread over blocks, the lookup succeeds and the first and the last
      requested id are recorded: their cells are read before anything is shifted into them. */
  lemma EndsRecorded(ledger: Ledger, ids: seq<string>)
    requires ids != [] && Serves(ledger, ids)
    ensures var r := Lookup(ledger, ids);
            && r.error == None
            && ids[0] !in r.run.slice.Live() && ids[0] in r.run.removed
            && ids[|ids| - 1] !in r.run.slice.Live() && ids[|ids| - 1] in r.run.removed
  {
    StartConserved(ids);
    assert Start(ids).slice.Live() == ids;
    LookupFromDrops(ledger, ids, Start(ids), 0);
    LookupSound(ledger, ids);
    assert ids[0] in multiset(ids) && ids[|ids| - 1] in multiset(ids);
  }

  // ---- The worst case ----

  /** With the cursor at `cursor`, at most (n - 1) / 2 ids will stay live: this holds already,
      or each iteration so far removed an id and more than one if the last id is gone. */
  ghost predicate LossLimited(ids: seq<string>, run: Run, cursor: nat) {
    || 2 * run.slice.len <= |ids| - 1
    || (run.slice.Valid() && run.slice.len <= |ids| - cursor
        && (run.slice.len == |ids| - cursor ==> ids != [] && ids[|ids| - 1] in run.slice.Live()))
  }

  /** While the cursor is inside the live prefix, the id it reads is live and is removed. */
  lemma VisitLimited(ledger: Ledger, ids: seq<string>, run: Run, cursor: nat)
    requires cursor < run.slice.len <= |ids| && LossLimited(ids, run, cursor)
    requires Serves(ledger, ids) && Invariant(ledger, ids, run) && Distinct(run.slice.Live())
    ensures ledger(run.slice.cells[cursor]).Ok?
    ensures LossLimited(ids, Visit(run, ledger(run.slice.cells[cursor]).value), cursor + 1)
  {
    var f := run.slice.cells[cursor];
    assert f == run.slice.Live()[cursor] && f in ids;
    VisitDrops(ledger, ids, run, f);
    var live, next := run.slice.Live(), Visit(run, ledger(f).value);
    if ids[|ids| - 1] in live { SubsequenceLast(live, ids); }
    hide Invariant, Serves, Visit, Holds;
    FewerKeys(next.slice.Live(), live, f);
  }

  lemma LossAtEnd(ledger: Ledger, ids: seq<string>, run: Run)
    requires run.slice.Valid() && |run.slice.cells| == |ids| && ids != [] && LossLimited(ids, run, |ids|)
    ensures 2 * LookupFrom(ledger, run, |ids|).run.slice.len <= |ids| - 1
  {
    assert LookupFrom(ledger, run, |ids|).run == run;
  }

  /** Behind the live prefix the last id is still to be read. */
  lemma LossBehind(ledger: Ledger, ids: seq<string>, run: Run, cursor: nat)
    requires run.slice.Valid() && |run.slice.cells| == |ids| && run.slice.len <= cursor < |ids|
    requires Serves(ledger, ids) && Invariant(ledger, ids, run) && Distinct(run.slice.Live())
    requires LossLimited(ids, run, cursor)
    ensures 2 * LookupFrom(ledger, run, cursor).run.slice.len <= |ids| - 1
  {
    LookupFromDrops(ledger, ids, run, cursor);
    hide LookupFrom, Serves, Invariant;
    var final := LookupFrom(ledger, run, cursor).run.slice.Live();
    var z := ids[|ids| - 1];
    if z in run.slice.Live() {
      FewerKeys(final, run.slice.Live(), z);
    } else {
      NoMoreKeys(final, run.slice.Live());
    }
  }

  lemma {:induction false} LossFrom(ledger: Ledger, ids: seq<string>, run: Run, cursor: nat)
    requires run.slice.Valid() && |run.slice.cells| == |ids| && cursor <= |ids| && ids != []
    requires Serves(ledger, ids) && Invariant(ledger, ids, run) && Distinct(run.slice.Live())
    requires LossLimited(ids, run, cursor)
    ensures 2 * LookupFrom(ledger, run, cursor).run.slice.len <= |ids| - 1
    decreases |ids| - cursor
  {
    hide *;
    if cursor == |ids| {
      LossAtEnd(ledger, ids, run);
    } else if cursor >= run.slice.len {
      LossBehind(ledger, ids, run, cursor);
    } else {
      LossStep(ledger, ids, run, cursor);
      LossFrom(ledger, ids, Visit(run, ledger(run.slice.cells[cursor]).value), cursor + 1);
    }
  }

  lemma LossStep(ledger: Ledger, ids: seq<string>, run: Run, cursor: nat)
    requires run.slice.Valid() && |run.slice.cells| == |ids| && cursor < run.slice.len
    requires Serves(ledger, ids) && Invariant(ledger, ids, run) && Distinct(run.slice.Live())
    requires LossLimited(ids, run, cursor)
    ensures ledger(run.slice.cells[cursor]).Ok?
    ensures var next := Visit(run, ledger(run.slice.cells[cursor]).value);
            && LookupFrom(ledger, run, cursor) == LookupFrom(ledger, next, cursor + 1)
            && Invariant(ledger, ids, next) && Distinct(next.slice.Live()) && LossLimited(ids, next, cursor + 1)
  {
    var f := run.slice.cells[cursor];
    assert f in ids;
    hide Distinct, Visit, LossLimited;
    VisitLimited(ledger, ids, run, cursor);
    VisitDrops(ledger, ids, run, f);
    VisitSound(ledger, ids, run, f);
  }

  /** However the ids are spread over blocks, at most (n - 1) / 2 of them are lost: separate
      blocks, which lose that many, are the worst case. */
  lemma LossBound(ledger: Ledger, ids: seq<string>)
    requires ids != [] && Serves(ledger, ids)
    ensures Lookup(ledger, ids).run.slice.len <= (|ids| - 1) / 2
  {
    StartConserved(ids);
    assert Start(ids).slice.Live() == ids;
    assert ids[|ids| - 1] in ids;
    LossFrom(ledger, ids, Start(ids), 0);
  }

  // ---- Pairwise different blocks: exact coverage ----

  function HashOf(ledger: Ledger, id: string): string {
    match ledger(id) case Ok(b) => b.hash case Err(_) => ""
  }

  function EventsOf(ledger: Ledger, id: string): seq<ChaincodeEvent> {
    match ledger(id) case Ok(b) => Events(b) case Err(_) => []
  }

  /** Each id has its own block: own hash, own event, and no event of another requested id. */
  ghost predicate Separate(ledger: Ledger, ids: seq<string>) {
    && (forall id :: id in ids ==> id != "" && Found(ledger, id))
    && (forall i, j :: 0 <= i < |ids| && 0 <= j < |ids| && i != j ==>
          HashOf(ledger, ids[i]) != HashOf(ledger, ids[j]) && !HasId(EventsOf(ledger, ids[i]), ids[j]))
  }

  lemma SeparateServes(ledger: Ledger, ids: seq<string>)
    requires Separate(ledger, ids)
    ensures Serves(ledger, ids) && Agrees(ledger, ids)
  {
  }

  /** How many ids a run over n separate blocks records in all. */
  function Total(n: nat): nat { if n == 0 then 0 else n / 2 + 1 }

  /** Which request position cell `j` shows after `r` removals: first the odd positions the
      cursor jumped over, then the live rest moved left by r, then stale copies of the last. */
  function Shown(n: nat, r: nat, j: nat): (k: nat)
    requires j < n && r <= Total(n)
    ensures k < n
  {
    if j < r && j < n - r then 2 * j + 1
    else if j < n - r then j + r
    else n - 1
  }

  /** The request position that the iteration with cursor `i` removes, while it removes one. */
  function Hit(n: nat, i: nat): (k: nat)
    requires i < Total(n)
    ensures k < n
  {
    if 2 * i < n then 2 * i else n - 1
  }

  /** The map holds each removed id alone under the hash of its block, and nothing else. */
  ghost predicate Filed(ledger: Ledger, run: Run) {
    && (forall h :: h in run.infos ==> exists i :: 0 <= i < |run.removed| && h == HashOf(ledger, run.removed[i]))
    && (forall i :: 0 <= i < |run.removed| ==>
          var h := HashOf(ledger, run.removed[i]);
          h in run.infos && run.infos[h].eventMap.Keys == {run.removed[i]})
  }

  /** The state after `r` removals: live prefix, stale tail, history and map together. */
  ghost predicate Shape(ledger: Ledger, ids: seq<string>, run: Run, r: nat) {
    var n := |ids|;
    && r <= Total(n)
    && |run.slice.cells| == n && run.slice.len == n - r
    && (forall j :: 0 <= j < n ==> run.slice.cells[j] == ids[Shown(n, r, j)])
    && |run.removed| == r
    && (forall i :: 0 <= i < r ==> run.removed[i] == ids[Hit(n, i)])
    && Filed(ledger, run)
  }

  /** When `x` is the only live key with events in `es`, exactly `x` is removed and filed. */
  lemma {:induction false} RecordAllOnly(run: Run, hash: string, es: seq<ChaincodeEvent>, x: string)
    requires run.slice.Valid() && hash in run.infos && Distinct(run.slice.Live())
    requires x in run.slice.Live() && HasId(es, x)
    requires forall y :: y in run.slice.Live() && y != x ==> !HasId(es, y)
    ensures var r := RecordAll(run, hash, es);
            && r.slice == RemoveFirst(run.slice, x) && r.removed == run.removed + [x]
            && r.infos.Keys == run.infos.Keys
            && (forall h :: h in run.infos && h != hash ==> r.infos[h] == run.infos[h])
            && r.infos[hash].eventMap.Keys == run.infos[hash].eventMap.Keys + {x}
    decreases |es|
  {
    forall y
      ensures HasId(es, y) <==> es[0].txId == y || HasId(es[1..], y)
    {
      HasIdSplit(es, y);
    }
    if es[0].txId == x {
      RemoveFirstDistinct(run.slice, x);
      RecordAllNoneLive(Record(run, hash, es[0]), hash, es[1..]);
    } else {
      assert es[0].txId !in run.slice.Live();
      RecordAllOnly(run, hash, es[1..], x);
    }
  }

  lemma LiveShown(ledger: Ledger, ids: seq<string>, run: Run, r: nat)
    requires Shape(ledger, ids, run, r)
    ensures run.slice.Valid()
    ensures forall j :: 0 <= j < |ids| - r ==> run.slice.Live()[j] == ids[Shown(|ids|, r, j)]
  {
  }

  lemma ShownDistinct(ids: seq<string>, r: nat, live: seq<string>)
    requires Distinct(ids) && r <= Total(|ids|) && |live| == |ids| - r
    requires forall j :: 0 <= j < |ids| - r ==> live[j] == ids[Shown(|ids|, r, j)]
    ensures Distinct(live)
  {
    forall i, j | 0 <= i < j < |live|
      ensures live[i] != live[j]
    {
      assert Shown(|ids|, r, i) < Shown(|ids|, r, j);
    }
  }

  /** Where the key that cursor `r` reads stands in the live prefix. */
  lemma HitIsLive(ledger: Ledger, ids: seq<string>, run: Run, r: nat)
    requires Distinct(ids) && Shape(ledger, ids, run, r) && r < Total(|ids|)
    ensures r < |ids| && run.slice.Valid() && Distinct(run.slice.Live())
    ensures var x := ids[Hit(|ids|, r)];
            && run.slice.cells[r] == x && x in run.slice.Live()
            && IndexOf(run.slice.Live(), x) == if 2 * r < |ids| then r else |ids| - r - 1
  {
    var n := |ids|;
    var live := run.slice.Live();
    var p := if 2 * r < n then r else n - r - 1;
    LiveShown(ledger, ids, run, r);
    ShownDistinct(ids, r, live);
    assert run.slice.cells[r] == ids[Shown(n, r, r)];
    hide Filed, Shape, IndexOf;
    assert live[p] == ids[Hit(n, r)];
    assert forall i :: 0 <= i < p ==> live[i] != live[p];
    IndexIs(live, ids[Hit(n, r)], p);
  }

  lemma HitRemoved(ledger: Ledger, ids: seq<string>, run: Run, r: nat)
    requires Distinct(ids) && Shape(ledger, ids, run, r) && r < Total(|ids|)
    ensures var next := RemoveFirst(run.slice, ids[Hit(|ids|, r)]);
            && |next.cells| == |ids| && next.len == |ids| - (r + 1)
            && forall j :: 0 <= j < |ids| ==> next.cells[j] == ids[Shown(|ids|, r + 1, j)]
  {
    HitIsLive(ledger, ids, run, r);
    hide Filed, Distinct, RemoveFirst;
    var n := |ids|;
    forall j | 0 <= j < n
      ensures RemoveFirst(run.slice, ids[Hit(n, r)]).cells[j] == ids[Shown(n, r + 1, j)]
    {
      RemoveFirstCell(run.slice, ids[Hit(n, r)], j);
      ShownNext(n, r, j);
    }
    RemoveFirstLive(run.slice, ids[Hit(n, r)]);
  }

  /** Closing the gap that removal `r + 1` leaves shows the cells of that many removals. */
  lemma ShownNext(n: nat, r: nat, j: nat)
    requires r < Total(n) && j < n
    ensures var p := if 2 * r < n then r else n - r - 1;
            Shown(n, r, if p <= j < n - r - 1 then j + 1 else j) == Shown(n, r + 1, j)
  {
  }

  /** The live ids other than the one just read have no event in its block, which is new. */
  lemma HitIsAlone(ledger: Ledger, ids: seq<string>, run: Run, r: nat)
    requires Separate(ledger, ids) && Shape(ledger, ids, run, r) && r < Total(|ids|)
    ensures var x := ids[Hit(|ids|, r)];
            && HashOf(ledger, x) !in run.infos
            && forall y :: y in run.slice.Live() && y != x ==> !HasId(EventsOf(ledger, x), y)
  {
  }

  /** How the iteration with cursor `r` changes history and map. */
  ghost predicate Files(ledger: Ledger, run: Run, next: Run, x: string) {
    var hash := HashOf(ledger, x);
    && next.removed == run.removed + [x]
    && next.infos.Keys == run.infos.Keys + {hash}
    && (forall h :: h in run.infos ==> next.infos[h] == run.infos[h])
    && next.infos[hash].eventMap.Keys == {x}
  }

  lemma VisitOnly(ledger: Ledger, run: Run, x: string)
    requires run.slice.Valid() && Distinct(run.slice.Live()) && x in run.slice.Live()
    requires Found(ledger, x) && HashOf(ledger, x) !in run.infos
    requires forall y :: y in run.slice.Live() && y != x ==> !HasId(EventsOf(ledger, x), y)
    ensures var next := Visit(run, ledger(x).value);
            next.slice == RemoveFirst(run.slice, x) && Files(ledger, run, next, x)
  {
    var b := ledger(x).value;
    RecordAllOnly(run.(infos := Enter(run.infos, b)), b.hash, Events(b), x);
  }

  lemma VisitFiles(ledger: Ledger, ids: seq<string>, run: Run, r: nat)
    requires Separate(ledger, ids) && Distinct(ids) && Shape(ledger, ids, run, r) && r < Total(|ids|)
    ensures r < |ids| && run.slice.Valid() && run.slice.cells[r] == ids[Hit(|ids|, r)]
    ensures Found(ledger, run.slice.cells[r])
    ensures var x := run.slice.cells[r];
            var next := Visit(run, ledger(x).value);
            next.slice == RemoveFirst(run.slice, x) && Files(ledger, run, next, x)
  {
    HitIsLive(ledger, ids, run, r);
    HitIsAlone(ledger, ids, run, r);
    var x := run.slice.cells[r];
    assert x in ids && Found(ledger, x);
    hide *;
    VisitOnly(ledger, run, x);
  }

  /** The map of the next state, from what one iteration files. */
  lemma FilesShape(ledger: Ledger, run: Run, next: Run, x: string)
    requires Files(ledger, run, next, x) && HashOf(ledger, x) !in run.infos
    requires Filed(ledger, run)
    ensures Filed(ledger, next)
  {
    var r := |run.removed|;
    hide HashOf;
    forall h | h in next.infos
      ensures exists i :: 0 <= i < |next.removed| && h == HashOf(ledger, next.removed[i])
    {
      if h in run.infos {
        var i :| 0 <= i < r && h == HashOf(ledger, run.removed[i]);
        assert next.removed[i] == run.removed[i];
      } else {
        assert next.removed[r] == x;
      }
    }
    assert forall i :: 0 <= i < r ==> next.removed[i] == run.removed[i];
  }

  /** One iteration that removes: the id it reads is live, alone of the live ids in its block. */
  lemma VisitHit(ledger: Ledger, ids: seq<string>, run: Run, r: nat)
    requires Separate(ledger, ids) && Distinct(ids) && Shape(ledger, ids, run, r) && r < Total(|ids|)
    ensures r < |ids| && run.slice.Valid() && ledger(run.slice.cells[r]).Ok?
    ensures Shape(ledger, ids, Visit(run, ledger(run.slice.cells[r]).value), r + 1)
  {
    var x := ids[Hit(|ids|, r)];
    VisitFiles(ledger, ids, run, r);
    HitIsAlone(ledger, ids, run, r);
    HitRemoved(ledger, ids, run, r);
    var next := Visit(run, ledger(x).value);
    assert next.removed == run.removed + [x] && Filed(ledger, run);
    hide *;
    FilesShape(ledger, run, next, x);
    NextShape(ledger, ids, run, next, r);
  }

  lemma NextShape(ledger: Ledger, ids: seq<string>, run: Run, next: Run, r: nat)
    requires Shape(ledger, ids, run, r) && r < Total(|ids|) && Filed(ledger, next)
    requires next.removed == run.removed + [ids[Hit(|ids|, r)]]
    requires |next.slice.cells| == |ids| && next.slice.len == |ids| - (r + 1)
    requires forall j :: 0 <= j < |ids| ==> next.slice.cells[j] == ids[Shown(|ids|, r + 1, j)]
    ensures Shape(ledger, ids, next, r + 1)
  {
    hide Filed;
  }

  /** After all removals the cursor reads only stale copies of the last id: no change. */
  lemma VisitStale(ledger: Ledger, ids: seq<string>, run: Run, cursor: nat)
    requires Separate(ledger, ids) && Distinct(ids) && Shape(ledger, ids, run, Total(|ids|))
    requires Total(|ids|) <= cursor < |ids|
    ensures run.slice.cells[cursor] == ids[|ids| - 1] && ledger(ids[|ids| - 1]).Ok?
    ensures Visit(run, ledger(ids[|ids| - 1]).value) == run
  {
    var n, t := |ids|, Total(|ids|);
    var z := ids[n - 1];
    assert z in ids && Found(ledger, z);
    assert Hit(n, t - 1) == n - 1 && run.removed[t - 1] == z;
    var b := ledger(z).value;
    assert Events(b) == EventsOf(ledger, z);
    forall y | y in run.slice.Live()
      ensures !HasId(Events(b), y)
    {
      var j :| 0 <= j < n - t && run.slice.Live()[j] == y;
      assert y == ids[Shown(n, t, j)] && Shown(n, t, j) != n - 1;
    }
    RecordAllNoneLive(run, b.hash, Events(b));
  }

  /** How many ids the iterations before cursor position `i` have removed. */
  function RemovedBy(n: nat, i: nat): nat { if i < Total(n) then i else Total(n) }

  lemma VisitShape(ledger: Ledger, ids: seq<string>, run: Run, cursor: nat)
    requires Separate(ledger, ids) && Distinct(ids) && cursor < |ids|
    requires Shape(ledger, ids, run, RemovedBy(|ids|, cursor))
    ensures run.slice.Valid() && |run.slice.cells| == |ids|
    ensures run.slice.cells[cursor] != "" && ledger(run.slice.cells[cursor]).Ok?
    ensures Shape(ledger, ids, Visit(run, ledger(run.slice.cells[cursor]).value), RemovedBy(|ids|, cursor + 1))
  {
    if cursor < Total(|ids|) {
      VisitFiles(ledger, ids, run, cursor);
      VisitHit(ledger, ids, run, cursor);
      assert ids[Hit(|ids|, cursor)] in ids;
    } else {
      VisitStale(ledger, ids, run, cursor);
      assert ids[|ids| - 1] in ids;
    }
  }

  lemma {:induction false} LookupFromShape(ledger: Ledger, ids: seq<string>, run: Run, cursor: nat)
    requires Separate(ledger, ids) && Distinct(ids)
    requires run.slice.Valid() && |run.slice.cells| == |ids| && cursor <= |ids|
    requires Shape(ledger, ids, run, RemovedBy(|ids|, cursor))
    ensures LookupFrom(ledger, run, cursor).error == None
    ensures Shape(ledger, ids, LookupFrom(ledger, run, cursor).run, Total(|ids|))
    decreases |ids| - cursor
  {
    hide Shape, Separate, Distinct;
    if cursor < |ids| {
      VisitShape(ledger, ids, run, cursor);
      var next := Visit(run, ledger(run.slice.cells[cursor]).value);
      LookupFromShape(ledger, ids, next, cursor + 1);
      assert LookupFrom(ledger, run, cursor) == LookupFrom(ledger, next, cursor + 1);
    } else {
      assert LookupFrom(ledger, run, cursor) == Outcome(run, None);
    }
  }

  predicate Covered(n: nat, k: nat) { k % 2 == 0 || k + 1 == n }

  lemma CoverageAt(ledger: Ledger, ids: seq<string>, run: Run, k: nat)
    requires Separate(ledger, ids) && Distinct(ids) && Shape(ledger, ids, run, Total(|ids|)) && k < |ids|
    ensures ids[k] in run.removed <==> Covered(|ids|, k)
    ensures HashOf(ledger, ids[k]) in run.infos <==> Covered(|ids|, k)
    ensures Covered(|ids|, k) ==> run.infos[HashOf(ledger, ids[k])].eventMap.Keys == {ids[k]}
  {
    hide Separate, Distinct, Filed, HashOf;
    var n := |ids|;
    if Covered(n, k) {
      var i := k / 2 + if k % 2 == 0 then 0 else 1;
      IsCovered(ledger, ids, run, k, i);
    } else {
      assert forall i :: 0 <= i < Total(n) ==> Hit(n, i) != k;
      NotCovered(ledger, ids, run, k);
    }
  }

  lemma IsCovered(ledger: Ledger, ids: seq<string>, run: Run, k: nat, i: nat)
    requires Shape(ledger, ids, run, Total(|ids|)) && k < |ids| && i < Total(|ids|) && Hit(|ids|, i) == k
    ensures ids[k] in run.removed && HashOf(ledger, ids[k]) in run.infos
    ensures run.infos[HashOf(ledger, ids[k])].eventMap.Keys == {ids[k]}
  {
  }

  lemma NotCovered(ledger: Ledger, ids: seq<string>, run: Run, k: nat)
    requires Separate(ledger, ids) && Distinct(ids) && Shape(ledger, ids, run, Total(|ids|)) && k < |ids|
    requires forall i :: 0 <= i < Total(|ids|) ==> Hit(|ids|, i) != k
    ensures ids[k] !in run.removed && HashOf(ledger, ids[k]) !in run.infos
  {
  }

  /** With every id in a block of its own, the run records exactly the ids at even
      positions and the last one, each alone under its own hash, and the (n - 1) / 2 other
      ids stay live, in order: they are lost. */
  ghost predicate ExactlyCovered(ledger: Ledger, ids: seq<string>, run: Run) {
    && run.slice.Valid() && |run.slice.cells| == |ids|
    && (ids != [] ==> run.slice.len == (|ids| - 1) / 2)
    && (forall j :: 0 <= j < run.slice.len ==> run.slice.cells[j] == ids[2 * j + 1])
    && (forall k :: 0 <= k < |ids| ==> (ids[k] in run.removed <==> Covered(|ids|, k)))
    && (forall k :: 0 <= k < |ids| ==> (HashOf(ledger, ids[k]) in run.infos <==> Covered(|ids|, k)))
    && (forall k :: 0 <= k < |ids| && Covered(|ids|, k) ==>
          run.infos[HashOf(ledger, ids[k])].eventMap.Keys == {ids[k]})
  }

  lemma ShapeCovers(ledger: Ledger, ids: seq<string>, run: Run)
    requires Separate(ledger, ids) && Distinct(ids) && Shape(ledger, ids, run, Total(|ids|))
    ensures ExactlyCovered(ledger, ids, run)
  {
    forall k | 0 <= k < |ids|
      ensures ids[k] in run.removed <==> Covered(|ids|, k)
      ensures HashOf(ledger, ids[k]) in run.infos <==> Covered(|ids|, k)
      ensures Covered(|ids|, k) ==> run.infos[HashOf(ledger, ids[k])].eventMap.Keys == {ids[k]}
    {
      CoverageAt(ledger, ids, run, k);
    }
    assert forall j :: 0 <= j < run.slice.len ==> Shown(|ids|, Total(|ids|), j) == 2 * j + 1;
  }

  lemma ExactCoverage(ledger: Ledger, ids: seq<string>)
    requires Separate(ledger, ids)
    ensures Lookup(ledger, ids).error == None
    ensures ExactlyCovered(ledger, ids, Lookup(ledger, ids).run)
  {
    SeparateServes(ledger, ids);
    LookupFromShape(ledger, ids, Start(ids), 0);
    ShapeCovers(ledger, ids, Lookup(ledger, ids).run);
  }

  /** For separate blocks the intended result is reached exactly for at most two ids. */
  lemma SeparateCompleteIff(ledger: Ledger, ids: seq<string>)
    requires Separate(ledger, ids)
    ensures Pairs(Lookup(ledger, ids).run.infos) == Ideal(ledger, ids) <==> |ids| <= 2
  {
    SeparateServes(ledger, ids);
    ExactCoverage(ledger, ids);
    CompleteIffNoneLive(ledger, ids);
  }

  // ---- The exact guarantee over all ledgers ----

  /** A ledger that puts every transaction in a block of its own. */
  function Scattered(id: string): Result<Block, string> {
    Ok(Block("", id, "", 0, [Some([ChaincodeEvent(id, [])])]))
  }

  lemma ScatteredSeparates(ids: seq<string>)
    requires Distinct(ids) && "" !in ids
    ensures Separate(Scattered, ids)
  {
    forall id
      ensures EventsOf(Scattered, id) == [ChaincodeEvent(id, [])]
    {
      FlattenOne([ChaincodeEvent(id, [])]);
    }
    assert forall id :: EventsOf(Scattered, id)[0].txId == id;
    assert forall id :: HasId(EventsOf(Scattered, id), id);
  }

  /** The smallest loss: of three ids in three blocks the middle one is not returned. */
  lemma MiddleOfThreeLost(ids: seq<string>)
    requires |ids| == 3 && Distinct(ids) && "" !in ids
    ensures var infos := Lookup(Scattered, ids).run.infos;
            && (ids[1], ids[1]) in Ideal(Scattered, ids)
            && ids[0] in infos && ids[1] !in infos && ids[2] in infos
  {
    ScatteredSeparates(ids);
    ExactCoverage(Scattered, ids);
    hide Lookup, Distinct;
    assert forall k :: 0 <= k < 3 ==> HashOf(Scattered, ids[k]) == ids[k];
    assert ids[1] in ids && Found(Scattered, ids[1]);
  }

  lemma AtMostTwoComplete(ledger: Ledger, ids: seq<string>)
    requires |ids| <= 2 && Serves(ledger, ids) && Agrees(ledger, ids)
    ensures Complete(ledger, ids)
  {
    if ids != [] { LossBound(ledger, ids); }
    LookupSound(ledger, ids);
    CompleteIffNoneLive(ledger, ids);
  }

  /** A caller can rely on getting every requested transaction, whatever blocks hold them,
      if and only if it asks for at most two. */
  lemma CompleteForEveryLedgerIff(ids: seq<string>)
    requires Distinct(ids) && "" !in ids
    ensures (forall ledger: Ledger :: Serves(ledger, ids) && Agrees(ledger, ids) ==> Complete(ledger, ids))
       <==> |ids| <= 2
  {
    if |ids| <= 2 {
      forall ledger: Ledger | Serves(ledger, ids) && Agrees(ledger, ids)
        ensures Complete(ledger, ids)
      {
        AtMostTwoComplete(ledger, ids);
      }
    } else {
      ScatteredSeparates(ids);
      SeparateServes(Scattered, ids);
      SeparateCompleteIff(Scattered, ids);
      CompleteIffNoneLive(Scattered, ids);
      assert !Complete(Scattered, ids);
    }
  }
}
