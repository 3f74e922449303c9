/** Which requested ids a caller can rely on, whatever blocks hold them.

    Requests may repeat ids and contain blanks.  A blank id ends the loop when the cursor reads
    it, and is itself removed by the empty event of a transaction that emitted none.
 */
module BlockGuarantee {
  import opened Wrappers
  import opened Slices
  import opened BlockLookup
  import opened BlockContainment
  import opened BlockCoverage

  /** No id but the blank one is asked for twice. */
  predicate DistinctIds(ids: seq<string>) {
    forall i, j :: 0 <= i < j < |ids| && ids[i] != "" ==> ids[i] != ids[j]
  }

  predicate AllBlank(ids: seq<string>) { forall x :: x in ids ==> x == "" }

  lemma {:induction false} CountOnce(ids: seq<string>, x: string)
    requires DistinctIds(ids) && x in ids && x != ""
    ensures multiset(ids)[x] == 1
  {
    assert ids == [ids[0]] + ids[1..];
    if x in ids[1..] {
      CountOnce(ids[1..], x);
    } else {
      assert multiset(ids[1..])[x] == 0;
    }
  }

  /** In a list that starts with an id: that one; and the last, unless a blank stands between
      the second cell and it. */
  predicate Guaranteed(ids: seq<string>, x: string) {
    && ids != [] && ids[0] != ""
    && (x == ids[0] || (x == ids[|ids| - 1] && forall j :: 2 <= j < |ids| - 1 ==> ids[j] != ""))
  }

  // ---- What stays recorded ----

  lemma {:induction false} RecordAllKeeps(run: Run, hash: string, es: seq<ChaincodeEvent>, x: string)
    requires run.slice.Valid() && hash in run.infos && x in run.removed
    ensures x in RecordAll(run, hash, es).removed
    decreases |es|
  {
    if es != [] { RecordAllKeeps(Record(run, hash, es[0]), hash, es[1..], x); }
  }

  lemma VisitKeeps(run: Run, b: Block, x: string)
    requires run.slice.Valid() && x in run.removed
    ensures x in Visit(run, b).removed
  {
    if b.hash != "" { RecordAllKeeps(run.(infos := Enter(run.infos, b)), b.hash, Events(b), x); }
  }

  lemma {:induction false} LookupFromKeeps(ledger: Ledger, run: Run, cursor: nat, x: string)
    requires run.slice.Valid() && cursor <= |run.slice.cells| && x in run.removed
    ensures x in LookupFrom(ledger, run, cursor).run.removed
    decreases |run.slice.cells| - cursor
  {
    if cursor < |run.slice.cells| && run.slice.cells[cursor] != "" && ledger(run.slice.cells[cursor]).Ok? {
      var b := ledger(run.slice.cells[cursor]).value;
      VisitKeeps(run, b, x);
      LookupFromKeeps(ledger, Visit(run, b), cursor + 1, x);
    }
  }

  lemma {:induction false} RecordAllConserves(ids: seq<string>, run: Run, hash: string, es: seq<ChaincodeEvent>)
    requires Conserved(ids, run) && hash in run.infos
    ensures Conserved(ids, RecordAll(run, hash, es))
    decreases |es|
  {
    if es != [] {
      RecordConserves(ids, run, hash, es[0]);
      RecordAllConserves(ids, Record(run, hash, es[0]), hash, es[1..]);
    }
  }

  lemma VisitConserves(ids: seq<string>, run: Run, b: Block)
    requires Conserved(ids, run)
    ensures Conserved(ids, Visit(run, b))
  {
    if b.hash != "" {
      var entered := run.(infos := Enter(run.infos, b));
      assert Conserved(ids, entered);
      RecordAllConserves(ids, entered, b.hash, Events(b));
    }
  }

  /** After its event every requested id is recorded: now, or already before. */
  lemma {:induction false} RecordAllRecords(ids: seq<string>, run: Run, hash: string,
                                            es: seq<ChaincodeEvent>, x: string)
    requires Conserved(ids, run) && hash in run.infos && x in ids && HasId(es, x)
    ensures x in RecordAll(run, hash, es).removed
    decreases |es|
  {
    var next := Record(run, hash, es[0]);
    if es[0].txId == x {
      assert x in multiset(ids);
      assert x in next.removed;
      RecordAllKeeps(next, hash, es[1..], x);
    } else {
      HasIdSplit(es, x);
      RecordConserves(ids, run, hash, es[0]);
      RecordAllRecords(ids, next, hash, es[1..], x);
    }
  }

  lemma VisitRecords(ledger: Ledger, ids: seq<string>, run: Run, x: string)
    requires Conserved(ids, run) && x in ids && Found(ledger, x)
    ensures x in Visit(run, ledger(x).value).removed
  {
    var b := ledger(x).value;
    RecordAllRecords(ids, run.(infos := Enter(run.infos, b)), b.hash, Events(b), x);
  }

  // ---- The first and the last id ----

  lemma FirstVisited(ledger: Ledger, ids: seq<string>)
    requires Answers(ledger, ids) && ids != [] && ids[0] != ""
    ensures Found(ledger, ids[0])
    ensures var first := Visit(Start(ids), ledger(ids[0]).value);
            && Conserved(ids, first) && ids[0] in first.removed
            && Lookup(ledger, ids) == LookupFrom(ledger, first, 1)
  {
    assert ids[0] in ids;
    StartConserved(ids);
    VisitConserves(ids, Start(ids), ledger(ids[0]).value);
    VisitRecords(ledger, ids, Start(ids), ids[0]);
  }

  lemma FirstRecorded(ledger: Ledger, ids: seq<string>)
    requires Answers(ledger, ids) && ids != [] && ids[0] != ""
    ensures ids[0] in Lookup(ledger, ids).run.removed
  {
    FirstVisited(ledger, ids);
    hide Visit, Conserved, Lookup, LookupFrom;
    LookupFromKeeps(ledger, Visit(Start(ids), ledger(ids[0]).value), 1, ids[0]);
  }

  /** The first id has not left yet; a blank can only be next to it. */
  ghost predicate Waiting(ids: seq<string>, s: Slice) {
    && s.Valid() && |s.cells| == |ids| >= 2 && s.len >= 1 && s.cells[0] == ids[0]
    && forall j :: 2 <= j < |ids| ==> s.cells[j] != ""
  }

  /** No blank is in the cursor's way. */
  ghost predicate Clear(s: Slice) {
    s.Valid() && forall j :: 1 <= j < |s.cells| ==> s.cells[j] != ""
  }

  lemma ClearKept(s: Slice, x: string)
    requires Clear(s)
    ensures Clear(RemoveFirst(s, x))
  {
    RemoveFirstLive(s, x);
    if x in s.Live() {
      forall j | 1 <= j < |s.cells|
        ensures RemoveFirst(s, x).cells[j] != ""
      {
        RemoveFirstCell(s, x, j);
      }
    }
  }

  /** Removing the first live key. */
  lemma RemoveHead(s: Slice)
    requires s.Valid() && s.len >= 1
    ensures RemoveFirst(s, s.cells[0]) == Slice(s.cells[1..s.len] + s.cells[s.len - 1..], s.len - 1)
  {
    IndexIs(s.Live(), s.cells[0], 0);
  }

  /** While the last id is live, its cells keep the blank from being left behind. */
  lemma WaitingEnds(ids: seq<string>, s: Slice)
    requires Waiting(ids, s) && s.len >= 2 && (s.len == 2 ==> s.cells[1] != "")
    ensures Clear(RemoveFirst(s, ids[0]))
  {
    RemoveHead(s);
    hide RemoveFirst;
    var next := RemoveFirst(s, ids[0]);
    assert forall j :: 1 <= j < |ids| ==> next.cells[j] == s.cells[if j < s.len - 1 then j + 1 else j];
  }

  lemma WaitingKept(ids: seq<string>, s: Slice, x: string)
    requires Waiting(ids, s) && x != ids[0]
    ensures Waiting(ids, RemoveFirst(s, x))
  {
    RemoveFirstLive(s, x);
    if x in s.Live() {
      var next, i := RemoveFirst(s, x), IndexOf(s.Live(), x);
      assert s.cells[i] == x;
      forall j | 0 <= j < |s.cells|
        ensures next.cells[j] == s.cells[if i <= j < s.len - 1 then j + 1 else j]
      {
        RemoveFirstCell(s, x, j);
      }
    }
  }

  lemma LiveUnlessRemoved(ids: seq<string>, run: Run, x: string)
    requires Conserved(ids, run) && x in ids && x !in run.removed
    ensures x in run.slice.Live()
  {
    assert x in multiset(ids) && x !in multiset(run.removed);
  }

  /** The event of the first id, as long as the last id is not recorded. */
  lemma RecordWaitingFirst(ids: seq<string>, run: Run, hash: string, e: ChaincodeEvent)
    requires Conserved(ids, run) && Waiting(ids, run.slice) && hash in run.infos && ids[|ids| - 1] != ""
    requires e.txId == ids[0] && ids[|ids| - 1] !in Record(run, hash, e).removed
    ensures Clear(Record(run, hash, e).slice)
  {
    var z := ids[|ids| - 1];
    var s := run.slice;
    assert s.Live()[0] == ids[0];
    RecordConserves(ids, run, hash, e);
    LiveUnlessRemoved(ids, Record(run, hash, e), z);
    RemoveHead(s);
    var next := RemoveFirst(s, ids[0]);
    assert next.Live() == s.cells[1..s.len];
    hide RemoveFirst, Conserved, Clear;
    WaitingEnds(ids, s);
  }

  /** One event, as long as the last id is not recorded. */
  lemma RecordWaiting(ids: seq<string>, run: Run, hash: string, e: ChaincodeEvent)
    requires Conserved(ids, run) && Waiting(ids, run.slice) && hash in run.infos && ids[|ids| - 1] != ""
    requires ids[|ids| - 1] !in Record(run, hash, e).removed
    ensures var next := Record(run, hash, e).slice;
            if e.txId == ids[0] then Clear(next) else Waiting(ids, next)
  {
    hide Clear, RemoveFirst;
    if e.txId == ids[0] {
      RecordWaitingFirst(ids, run, hash, e);
    } else if e.txId in run.slice.Live() {
      WaitingKept(ids, run.slice, e.txId);
    }
  }

  lemma {:induction false} RecordAllClear(run: Run, hash: string, es: seq<ChaincodeEvent>)
    requires Clear(run.slice) && hash in run.infos
    ensures Clear(RecordAll(run, hash, es).slice)
    decreases |es|
  {
    assert run.slice.Valid();
    hide Clear, RemoveFirst;
    if es != [] {
      ClearKept(run.slice, es[0].txId);
      RecordAllClear(Record(run, hash, es[0]), hash, es[1..]);
    }
  }

  lemma {:induction false} RecordAllWaiting(ids: seq<string>, run: Run, hash: string, es: seq<ChaincodeEvent>)
    requires Conserved(ids, run) && Waiting(ids, run.slice) && hash in run.infos && ids[|ids| - 1] != ""
    requires HasId(es, ids[0]) && ids[|ids| - 1] !in RecordAll(run, hash, es).removed
    ensures Clear(RecordAll(run, hash, es).slice)
    decreases |es|
  {
    var next := Record(run, hash, es[0]);
    if ids[|ids| - 1] in next.removed { RecordAllKeeps(next, hash, es[1..], ids[|ids| - 1]); }
    RecordWaiting(ids, run, hash, es[0]);
    RecordConserves(ids, run, hash, es[0]);
    HasIdSplit(es, ids[0]);
    hide Waiting, Clear, Conserved, Record, HasId;
    if es[0].txId == ids[0] {
      RecordAllClear(next, hash, es[1..]);
    } else {
      RecordAllWaiting(ids, next, hash, es[1..]);
    }
  }

  /** The last id is recorded, or no blank is in the cursor's way. */
  ghost predicate LastAhead(ids: seq<string>, run: Run) {
    ids != [] && (ids[|ids| - 1] in run.removed || Clear(run.slice))
  }

  lemma VisitAhead(ids: seq<string>, run: Run, b: Block)
    requires run.slice.Valid() && LastAhead(ids, run)
    ensures LastAhead(ids, Visit(run, b))
  {
    if ids[|ids| - 1] in run.removed {
      VisitKeeps(run, b, ids[|ids| - 1]);
    } else if b.hash != "" {
      RecordAllClear(run.(infos := Enter(run.infos, b)), b.hash, Events(b));
    }
  }

  lemma FirstClears(ledger: Ledger, ids: seq<string>)
    requires Answers(ledger, ids) && |ids| >= 2 && ids[0] != "" && ids[|ids| - 1] != ""
    requires forall j :: 2 <= j < |ids| - 1 ==> ids[j] != ""
    ensures ledger(ids[0]).Ok? && LastAhead(ids, Visit(Start(ids), ledger(ids[0]).value))
  {
    assert ids[0] in ids && Found(ledger, ids[0]);
    var b := ledger(ids[0]).value;
    var entered := Start(ids).(infos := Enter(map[], b));
    StartConserved(ids);
    assert Conserved(ids, entered) && Waiting(ids, entered.slice);
    if ids[|ids| - 1] !in Visit(Start(ids), b).removed {
      RecordAllWaiting(ids, entered, b.hash, Events(b));
    }
  }

  /** One iteration before the last id is recorded: the cell read is no blank, and the last
      cell still shows the last id. */
  lemma LastStep(ledger: Ledger, ids: seq<string>, run: Run, cursor: nat)
    requires run.slice.Valid() && |run.slice.cells| == |ids| && 1 <= cursor < |ids|
    requires Answers(ledger, ids) && Conserved(ids, run) && LastAhead(ids, run)
    requires ids[|ids| - 1] !in run.removed
    ensures ledger(run.slice.cells[cursor]).Ok?
    ensures var next := Visit(run, ledger(run.slice.cells[cursor]).value);
            && LookupFrom(ledger, run, cursor) == LookupFrom(ledger, next, cursor + 1)
            && Conserved(ids, next) && LastAhead(ids, next)
            && (cursor == |ids| - 1 ==> ids[|ids| - 1] in next.removed)
  {
    var f := run.slice.cells[cursor];
    assert f in ids && f != "" && Found(ledger, f);
    var next := Visit(run, ledger(f).value);
    assert LookupFrom(ledger, run, cursor) == LookupFrom(ledger, next, cursor + 1);
    hide LookupFrom, Visit, Clear, Answers;
    VisitAhead(ids, run, ledger(f).value);
    VisitConserves(ids, run, ledger(f).value);
    if cursor == |ids| - 1 { VisitRecords(ledger, ids, run, f); }
  }

  lemma {:induction false} LastRead(ledger: Ledger, ids: seq<string>, run: Run, cursor: nat)
    requires run.slice.Valid() && |run.slice.cells| == |ids| && 1 <= cursor <= |ids|
    requires Answers(ledger, ids) && Conserved(ids, run) && LastAhead(ids, run)
    requires cursor == |ids| ==> ids[|ids| - 1] in run.removed
    ensures ids[|ids| - 1] in LookupFrom(ledger, run, cursor).run.removed
    decreases |ids| - cursor
  {
    hide *;
    if ids[|ids| - 1] in run.removed {
      LookupFromKeeps(ledger, run, cursor, ids[|ids| - 1]);
    } else {
      LastStep(ledger, ids, run, cursor);
      LastRead(ledger, ids, Visit(run, ledger(run.slice.cells[cursor]).value), cursor + 1);
    }
  }

  lemma LastRecorded(ledger: Ledger, ids: seq<string>)
    requires Answers(ledger, ids) && ids != [] && ids[0] != "" && ids[|ids| - 1] != ""
    requires forall j :: 2 <= j < |ids| - 1 ==> ids[j] != ""
    ensures ids[|ids| - 1] in Lookup(ledger, ids).run.removed
  {
    if |ids| == 1 {
      FirstRecorded(ledger, ids);
    } else {
      FirstVisited(ledger, ids);
      FirstClears(ledger, ids);
      hide Visit, Conserved, Lookup, LookupFrom, Answers, LastAhead;
      LastRead(ledger, ids, Visit(Start(ids), ledger(ids[0]).value), 1);
    }
  }

  /** Over every ledger that has the ids asked for, a guaranteed id is in the result, however
      often the request repeats it or others. */
  lemma GuaranteedReturned(ledger: Ledger, ids: seq<string>, x: string)
    requires Answers(ledger, ids) && Agrees(ledger, ids) && x != "" && Guaranteed(ids, x)
    ensures Returned(ledger, ids, x)
  {
    if x == ids[0] { FirstRecorded(ledger, ids); } else { LastRecorded(ledger, ids); }
    assert x in ids && Found(ledger, x);
    hide Lookup, Agrees, Answers;
    ReturnedIffRemoved(ledger, ids, x);
  }

  // ---- Ledgers that lose any other id asked for once ----

  /** A leading blank stops the loop at once, whatever the ledger. */
  lemma LeadingBlank(ledger: Ledger, ids: seq<string>)
    requires ids != [] && ids[0] == ""
    ensures Lookup(ledger, ids) == Outcome(Start(ids), None)
  {
  }

  function EventsFor(left: seq<string>): seq<ChaincodeEvent> {
    seq(|left|, i requires 0 <= i < |left| => ChaincodeEvent(left[i], []))
  }

  /** A ledger with some transactions in one block, a blank standing for one that emitted no
      event, and every other transaction in a block of its own. */
  function Bunch(left: seq<string>): Ledger
    requires left != []
  {
    id => if id in left && id != "" then Ok(Block("", left[0], "", 0, [Some(EventsFor(left))])) else Scattered(id)
  }

  lemma EventsForHas(left: seq<string>, x: string)
    ensures HasId(EventsFor(left), x) <==> x in left
  {
    if x in left {
      var k :| 0 <= k < |left| && left[k] == x;
      assert EventsFor(left)[k].txId == x;
    }
  }

  lemma BunchHasId(left: seq<string>, id: string, x: string)
    requires left != []
    ensures var b := Bunch(left)(id).value;
            HasId(Events(b), x) <==> if id in left && id != "" then x in left else x == id
  {
    EventsForHas(left, x);
    FlattenOne(EventsFor(left));
    FlattenOne([ChaincodeEvent(id, [])]);
    assert [ChaincodeEvent(id, [])][0].txId == id;
  }

  lemma BunchAnswers(left: seq<string>, ids: seq<string>)
    requires left != [] && left[0] != ""
    ensures Answers(Bunch(left), ids) && Agrees(Bunch(left), ids)
  {
    var ledger := Bunch(left);
    forall id, x
      ensures HasId(Events(ledger(id).value), x) <==> if id in left && id != "" then x in left else x == id
    {
      BunchHasId(left, id, x);
    }
    hide HasId, Events, EventsFor;
  }

  /** The array after its first `k` cells have left one by one. */
  function Shifted(ids: seq<string>, k: nat): (s: Slice)
    requires k <= |ids| && ids != []
    ensures s.Valid() && |s.cells| == |ids|
  {
    Slice(ids[k..] + seq(k, _ => ids[|ids| - 1]), |ids| - k)
  }

  lemma ShiftOne(ids: seq<string>, k: nat)
    requires k < |ids|
    ensures RemoveFirst(Shifted(ids, k), ids[k]) == Shifted(ids, k + 1) && ids[k] in Shifted(ids, k).Live()
  {
    var s := Shifted(ids, k);
    assert s.cells[0] == s.Live()[0] == ids[k];
    RemoveHead(s);
    hide RemoveFirst;
    assert s.cells[1..s.len] == ids[k + 1..];
    assert s.cells[s.len - 1..] == seq(k + 1, _ => ids[|ids| - 1]);
  }

  lemma {:induction false} RecordHeads(ids: seq<string>, run: Run, hash: string, k: nat, m: nat)
    requires ids != [] && k <= m <= |ids| && hash in run.infos && run.slice == Shifted(ids, k)
    ensures RecordAll(run, hash, EventsFor(ids[k..m])).slice == Shifted(ids, m)
    decreases m - k
  {
    var es := EventsFor(ids[k..m]);
    if k < m {
      ShiftOne(ids, k);
      assert es[0].txId == ids[k] && es[1..] == EventsFor(ids[k + 1..m]);
      hide Shifted, EventsFor, RemoveFirst;
      RecordHeads(ids, Record(run, hash, es[0]), hash, k + 1, m);
    }
  }

  /** With the first `m` ids in one block, in this order, the first iteration removes them all. */
  lemma HeadsVisited(ids: seq<string>, m: nat)
    requires 1 <= m <= |ids| && ids[0] != ""
    ensures Bunch(ids[..m])(ids[0]).Ok?
    ensures Visit(Start(ids), Bunch(ids[..m])(ids[0]).value).slice == Shifted(ids, m)
  {
    assert ids[..m][0] == ids[0] && ids[0] in ids[..m];
    var b := Bunch(ids[..m])(ids[0]).value;
    FlattenOne(EventsFor(ids[..m]));
    assert ids[0..m] == ids[..m];
    assert Start(ids).slice == Shifted(ids, 0);
    RecordHeads(ids, Start(ids).(infos := Enter(map[], b)), b.hash, 0, m);
  }

  /** From the cursor on no cell shows the id. */
  ghost predicate Unread(s: Slice, cursor: nat, id: string) {
    s.Valid() && forall j :: cursor <= j < |s.cells| ==> s.cells[j] != id
  }

  /** No other id's block has an event of `id`. */
  ghost predicate LeavesAlone(ledger: Ledger, id: string) {
    forall f :: f != "" && f != id && ledger(f).Ok? ==> !HasId(Events(ledger(f).value), id)
  }

  lemma UnreadKept(s: Slice, cursor: nat, id: string, f: string)
    requires Unread(s, cursor, id)
    ensures Unread(RemoveFirst(s, f), cursor, id)
  {
    RemoveFirstLive(s, f);
    if f in s.Live() {
      forall j | cursor <= j < |s.cells|
        ensures RemoveFirst(s, f).cells[j] != id
      {
        RemoveFirstCell(s, f, j);
      }
    }
  }

  lemma {:induction false} RecordAllUnread(run: Run, hash: string, es: seq<ChaincodeEvent>, cursor: nat, id: string)
    requires Unread(run.slice, cursor, id) && hash in run.infos
    ensures Unread(RecordAll(run, hash, es).slice, cursor, id)
    decreases |es|
  {
    assert run.slice.Valid();
    hide Unread, RemoveFirst;
    if es != [] {
      UnreadKept(run.slice, cursor, id, es[0].txId);
      RecordAllUnread(Record(run, hash, es[0]), hash, es[1..], cursor, id);
    }
  }

  /** Without its event an id is not recorded. */
  lemma {:induction false} RecordAllSkips(run: Run, hash: string, es: seq<ChaincodeEvent>, id: string)
    requires run.slice.Valid() && hash in run.infos && id !in run.removed && !HasId(es, id)
    ensures id !in RecordAll(run, hash, es).removed
    decreases |es|
  {
    if es != [] {
      HasIdSplit(es, id);
      RecordAllSkips(Record(run, hash, es[0]), hash, es[1..], id);
    }
  }

  lemma VisitSkips(run: Run, b: Block, id: string)
    requires run.slice.Valid() && id !in run.removed && !HasId(Events(b), id)
    ensures id !in Visit(run, b).removed
  {
    if b.hash != "" { RecordAllSkips(run.(infos := Enter(run.infos, b)), b.hash, Events(b), id); }
  }

  lemma PassedOverOne(ledger: Ledger, run: Run, cursor: nat, id: string)
    requires Unread(run.slice, cursor, id) && id !in run.removed && LeavesAlone(ledger, id)
    requires cursor < |run.slice.cells| && run.slice.cells[cursor] != "" && ledger(run.slice.cells[cursor]).Ok?
    ensures run.slice.Valid()
    ensures var next := Visit(run, ledger(run.slice.cells[cursor]).value);
            && Unread(next.slice, cursor + 1, id) && id !in next.removed
            && LookupFrom(ledger, run, cursor) == LookupFrom(ledger, next, cursor + 1)
  {
    var b := ledger(run.slice.cells[cursor]).value;
    assert LookupFrom(ledger, run, cursor) == LookupFrom(ledger, Visit(run, b), cursor + 1);
    hide LookupFrom;
    VisitSkips(run, b, id);
    if b.hash != "" { RecordAllUnread(run.(infos := Enter(run.infos, b)), b.hash, Events(b), cursor, id); }
  }

  /** An id that the cursor has passed, and that no other id's block brings up, stays unrecorded. */
  lemma {:induction false} PassedOver(ledger: Ledger, run: Run, cursor: nat, id: string)
    requires run.slice.Valid() && cursor <= |run.slice.cells|
    requires Unread(run.slice, cursor, id) && id !in run.removed && LeavesAlone(ledger, id)
    ensures id !in LookupFrom(ledger, run, cursor).run.removed
    decreases |run.slice.cells| - cursor
  {
    if cursor < |run.slice.cells| && run.slice.cells[cursor] != "" && ledger(run.slice.cells[cursor]).Ok? {
      PassedOverOne(ledger, run, cursor, id);
      hide *;
      PassedOver(ledger, Visit(run, ledger(run.slice.cells[cursor]).value), cursor + 1, id);
    }
  }

  lemma OncePosition(ids: seq<string>, k: nat)
    requires k < |ids| && multiset(ids)[ids[k]] == 1
    ensures ids[k] !in ids[..k] && ids[k] !in ids[k + 1..]
  {
    assert ids == ids[..k] + [ids[k]] + ids[k + 1..];
  }

  /** A first block with everything asked for before position `k`: the id there moves to the
      front at once, behind the cursor. */
  lemma InnerLost(ids: seq<string>, k: nat)
    requires 0 < k < |ids| - 1 && ids[0] != "" && ids[k] != "" && multiset(ids)[ids[k]] == 1
    ensures var ledger := Bunch(ids[..k]);
            Answers(ledger, ids) && Agrees(ledger, ids) && !Returned(ledger, ids, ids[k])
  {
    var ledger, x := Bunch(ids[..k]), ids[k];
    BunchAnswers(ids[..k], ids);
    OncePosition(ids, k);
    HeadsVisited(ids, k);
    FirstVisited(ledger, ids);
    BunchLeavesAlone(ids[..k], x);
    assert x in ids && Found(ledger, x) && ids[0] != x;
    VisitSkips(Start(ids), ledger(ids[0]).value, x);
    FrontUnread(ids, k);
    hide *;
    PassedOver(ledger, Visit(Start(ids), ledger(ids[0]).value), 1, x);
    ReturnedIffRemoved(ledger, ids, x);
  }

  lemma BunchLeavesAlone(left: seq<string>, x: string)
    requires left != [] && x !in left
    ensures LeavesAlone(Bunch(left), x)
  {
    forall f | f != "" && f != x
      ensures !HasId(Events(Bunch(left)(f).value), x)
    {
      BunchHasId(left, f, x);
    }
  }

  lemma FrontUnread(ids: seq<string>, k: nat)
    requires k < |ids| - 1 && ids[k] !in ids[k + 1..]
    ensures Unread(Shifted(ids, k), 1, ids[k])
  {
    var cells := Shifted(ids, k).cells;
    forall j | 0 < j < |ids|
      ensures cells[j] in ids[k + 1..]
    {
      assert cells[j] == ids[k + 1..][if j < |ids| - k then j - 1 else |ids| - k - 2];
    }
  }

  /** A first block with everything up to two cells before a blank: the cursor reads the blank
      next, and all ids behind it are lost. */
  lemma BehindBlankLost(ids: seq<string>, j: nat, k: nat)
    requires 2 <= j < k < |ids| && ids[0] != "" && ids[j] == "" && ids[k] != "" && multiset(ids)[ids[k]] == 1
    ensures var ledger := Bunch(ids[..j - 1]);
            Answers(ledger, ids) && Agrees(ledger, ids) && !Returned(ledger, ids, ids[k])
  {
    var ledger, x := Bunch(ids[..j - 1]), ids[k];
    BunchAnswers(ids[..j - 1], ids);
    HeadsVisited(ids, j - 1);
    FirstVisited(ledger, ids);
    assert x in ids && Found(ledger, x);
    var first := Visit(Start(ids), ledger(ids[0]).value);
    assert first.slice.cells[1] == "" && first.slice.Live()[k - (j - 1)] == x;
    assert LookupFrom(ledger, first, 1).run == first;
    hide *;
    ReturnedIffNotLive(ledger, ids, x);
  }

  /** Every id asked for once that is not guaranteed is lost on some ledger that has all ids. */
  lemma NotGuaranteedLost(ids: seq<string>, x: string) returns (ledger: Ledger)
    requires x != "" && multiset(ids)[x] == 1 && !Guaranteed(ids, x)
    ensures Answers(ledger, ids) && Agrees(ledger, ids) && !Returned(ledger, ids, x)
  {
    assert x in multiset(ids) && x in ids;
    var k :| 0 <= k < |ids| && ids[k] == x;
    if ids[0] == "" {
      ledger := Scattered;
      ScatteredAnswers(ids);
      LeadingBlank(Scattered, ids);
      assert !Holds(Lookup(Scattered, ids).run.infos, x, x);
    } else if k < |ids| - 1 {
      ledger := Bunch(ids[..k]);
      InnerLost(ids, k);
    } else {
      var j :| 2 <= j < |ids| - 1 && ids[j] == "";
      ledger := Bunch(ids[..j - 1]);
      BehindBlankLost(ids, j, k);
    }
  }

  lemma ScatteredAnswers(ids: seq<string>)
    ensures Answers(Scattered, ids) && Agrees(Scattered, ids)
  {
    forall id
      ensures EventsOf(Scattered, id) == [ChaincodeEvent(id, [])]
    {
      FlattenOne([ChaincodeEvent(id, [])]);
    }
    assert forall id :: EventsOf(Scattered, id)[0].txId == id;
  }

  // ---- The exact guarantee ----

  /** For any request, with blanks and repeats anywhere, an id asked for once is returned by
      every ledger that has the ids asked for if and only if it is guaranteed: first, or last in
      a list that starts with an id and has no blank between its second cell and its last. */
  lemma AlwaysReturnedIff(ids: seq<string>, x: string)
    requires x != "" && multiset(ids)[x] == 1
    ensures (forall ledger: Ledger :: Answers(ledger, ids) && Agrees(ledger, ids) ==> Returned(ledger, ids, x))
       <==> Guaranteed(ids, x)
  {
    if Guaranteed(ids, x) {
      forall ledger: Ledger | Answers(ledger, ids) && Agrees(ledger, ids)
        ensures Returned(ledger, ids, x)
      {
        GuaranteedReturned(ledger, ids, x);
      }
    } else {
      var ledger := NotGuaranteedLost(ids, x);
    }
  }

  /** Whenever only guaranteed ids are repeated: every ledger answers the request completely if
      and only if all its ids are guaranteed. */
  lemma CompleteIffAllGuaranteed(ids: seq<string>)
    requires forall x :: x in ids && x != "" ==> multiset(ids)[x] == 1 || Guaranteed(ids, x)
    ensures (forall ledger: Ledger :: Answers(ledger, ids) && Agrees(ledger, ids) ==> Complete(ledger, ids))
       <==> forall x :: x in ids && x != "" ==> Guaranteed(ids, x)
  {
    hide Complete, Returned, Guaranteed, Answers, Agrees;
    if forall x :: x in ids && x != "" ==> Guaranteed(ids, x) {
      forall ledger: Ledger | Answers(ledger, ids) && Agrees(ledger, ids)
        ensures Complete(ledger, ids)
      {
        forall x | x in ids && x != ""
          ensures Returned(ledger, ids, x)
        {
          GuaranteedReturned(ledger, ids, x);
        }
        CompleteIffReturned(ledger, ids);
      }
    } else {
      var x :| x in ids && x != "" && !Guaranteed(ids, x);
      var ledger := NotGuaranteedLost(ids, x);
      CompleteIffReturned(ledger, ids);
    }
  }

  /** Nothing asked; one id, first; two cells; or two ids around a blank. */
  predicate Answerable(ids: seq<string>) {
    || AllBlank(ids)
    || (ids[0] != "" && (AllBlank(ids[1..]) || |ids| == 2 || (|ids| == 3 && ids[1] == "")))
  }

  lemma AnswerableIff(ids: seq<string>)
    requires DistinctIds(ids)
    ensures Answerable(ids) <==> forall x :: x in ids && x != "" ==> Guaranteed(ids, x)
  {
    if Answerable(ids) {
      forall x | x in ids && x != ""
        ensures Guaranteed(ids, x)
      {
        assert ids == [ids[0]] + ids[1..];
      }
    } else {
      NotAnswerable(ids);
    }
  }

  lemma NotAnswerable(ids: seq<string>)
    requires DistinctIds(ids) && !Answerable(ids)
    ensures exists x :: x in ids && x != "" && !Guaranteed(ids, x)
  {
    if ids[0] == "" {
      var x :| x in ids && x != "";
      assert !Guaranteed(ids, x);
    } else {
      var x :| x in ids[1..] && x != "";
      var k :| 0 < k < |ids| && ids[k] == x;
      assert ids[1] in ids && ids[|ids| - 2] in ids;
      if k < |ids| - 1 {
        assert !Guaranteed(ids, x);
      } else if ids[1] != "" {
        assert !Guaranteed(ids, ids[1]);
      } else {
        assert ids[|ids| - 2] != "" ==> !Guaranteed(ids, ids[|ids| - 2]);
        assert ids[|ids| - 2] == "" ==> !Guaranteed(ids, x);
      }
    }
  }

  /** A caller whose non-blank ids are distinct can rely on getting every one of them, whatever
      blocks hold them, if and only if the list is answerable; it then has at most two ids. */
  lemma AlwaysCompleteIff(ids: seq<string>)
    requires DistinctIds(ids)
    ensures (forall ledger: Ledger :: Answers(ledger, ids) && Agrees(ledger, ids) ==> Complete(ledger, ids))
       <==> Answerable(ids)
  {
    forall x | x in ids && x != ""
      ensures multiset(ids)[x] == 1
    {
      CountOnce(ids, x);
    }
    CompleteIffAllGuaranteed(ids);
    AnswerableIff(ids);
  }

  /** A repeated id breaks the bound of two: of a, b, a with a block for each, b is not returned. */
  lemma RepeatLoses(a: string, b: string)
    requires a != "" && b != "" && a != b
    ensures Answers(Scattered, [a, b, a]) && Agrees(Scattered, [a, b, a])
    ensures !Complete(Scattered, [a, b, a])
  {
    var ids := [a, b, a];
    ScatteredAnswers(ids);
    FirstShifted(ids);
    FirstVisited(Scattered, ids);
    assert b in ids && Found(Scattered, b);
    ScatteredLeavesAlone(b);
    VisitSkips(Start(ids), Scattered(a).value, b);
    FrontUnread(ids, 1);
    hide *;
    PassedOver(Scattered, Visit(Start(ids), Scattered(a).value), 1, b);
    ReturnedIffRemoved(Scattered, ids, b);
    CompleteIffReturned(Scattered, ids);
  }

  lemma ScatteredLeavesAlone(id: string)
    ensures LeavesAlone(Scattered, id)
  {
    forall f
      ensures Events(Scattered(f).value) == [ChaincodeEvent(f, [])]
    {
      FlattenOne([ChaincodeEvent(f, [])]);
    }
  }

  /** One iteration over a ledger with a block for each id. */
  lemma VisitScattered(run: Run, x: string)
    requires run.slice.Valid() && x != ""
    ensures Visit(run, Scattered(x).value).slice == RemoveFirst(run.slice, x)
  {
    FlattenOne([ChaincodeEvent(x, [])]);
    var entered := run.(infos := Enter(run.infos, Scattered(x).value));
    RecordOne(entered, x, ChaincodeEvent(x, []));
  }

  lemma RecordOne(run: Run, hash: string, e: ChaincodeEvent)
    requires run.slice.Valid() && hash in run.infos
    ensures RecordAll(run, hash, [e]).slice == RemoveFirst(run.slice, e.txId)
  {
    assert RecordAll(run, hash, [e]) == Record(run, hash, e);
    RemoveFirstLive(run.slice, e.txId);
  }

  /** The first iteration over separate blocks takes the first id off the array. */
  lemma FirstShifted(ids: seq<string>)
    requires ids != [] && ids[0] != ""
    ensures Visit(Start(ids), Scattered(ids[0]).value).slice == Shifted(ids, 1)
  {
    VisitScattered(Start(ids), ids[0]);
    assert Start(ids).slice == Shifted(ids, 0);
    ShiftOne(ids, 0);
  }
}
