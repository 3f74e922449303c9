/** Requests with blank ids over ledgers whose transactions all emit events.

    Then no blank ever leaves the array, and some longer lists are answered completely: those
    in which the first removal puts a blank behind the cursor.
 */
module BlockBlanks {
  import opened Wrappers
  import opened Slices
  import opened BlockLookup
  import opened BlockContainment
  import opened BlockCoverage
  import opened BlockGuarantee

  /** The blocks of the ids asked for hold no empty event. */
  ghost predicate AllEmit(ledger: Ledger, ids: seq<string>) {
    forall id :: id in ids && id != "" ==> !HasId(EventsOf(ledger, id), "")
  }

  lemma CompleteIffBlankLive(ledger: Ledger, ids: seq<string>)
    requires DistinctIds(ids) && Answers(ledger, ids) && Agrees(ledger, ids)
    ensures Complete(ledger, ids) <==> AllBlank(Lookup(ledger, ids).run.slice.Live())
  {
    LookupSound(ledger, ids);
    CompleteIffReturned(ledger, ids);
    var live := Lookup(ledger, ids).run.slice.Live();
    hide Lookup, Agrees, DistinctIds, Complete, Returned;
    forall id | id in ids && id != ""
      ensures Returned(ledger, ids, id) <==> id !in live
    {
      CountOnce(ids, id);
      ReturnedIffNotLive(ledger, ids, id);
    }
    forall x | x in live
      ensures x in ids
    {
      SubsequenceMember(live, ids, x);
    }
  }

  // ---- What one iteration does to a live key ----

  /** Keys only ever leave. */
  lemma {:induction false} RecordAllLess(run: Run, hash: string, es: seq<ChaincodeEvent>, x: string)
    requires run.slice.Valid() && hash in run.infos && x !in run.slice.Live()
    ensures x !in RecordAll(run, hash, es).slice.Live()
    decreases |es|
  {
    if es != [] {
      RemoveFirstLive(run.slice, es[0].txId);
      RecordAllLess(Record(run, hash, es[0]), hash, es[1..], x);
    }
  }

  lemma VisitLess(run: Run, b: Block, x: string)
    requires run.slice.Valid() && x !in run.slice.Live()
    ensures x !in Visit(run, b).slice.Live()
  {
    if b.hash != "" { RecordAllLess(run.(infos := Enter(run.infos, b)), b.hash, Events(b), x); }
  }

  lemma {:induction false} LookupFromLess(ledger: Ledger, run: Run, cursor: nat, x: string)
    requires run.slice.Valid() && cursor <= |run.slice.cells| && x !in run.slice.Live()
    ensures x !in LookupFrom(ledger, run, cursor).run.slice.Live()
    decreases |run.slice.cells| - cursor
  {
    if cursor < |run.slice.cells| && run.slice.cells[cursor] != "" && ledger(run.slice.cells[cursor]).Ok? {
      var b := ledger(run.slice.cells[cursor]).value;
      VisitLess(run, b, x);
      LookupFromLess(ledger, Visit(run, b), cursor + 1, x);
    }
  }

  /** A key that is live once leaves with its event. */
  lemma {:induction false} RecordAllDrops(ids: seq<string>, run: Run, hash: string, es: seq<ChaincodeEvent>, x: string)
    requires DistinctIds(ids) && Conserved(ids, run) && hash in run.infos && x != "" && HasId(es, x)
    ensures x !in RecordAll(run, hash, es).slice.Live()
    decreases |es|
  {
    var next := Record(run, hash, es[0]);
    RecordConserves(ids, run, hash, es[0]);
    if es[0].txId == x {
      if x in run.slice.Live() {
        SubsequenceMember(run.slice.Live(), ids, x);
        CountOnce(ids, x);
        assert x in multiset(run.slice.Live());
        assert x in next.removed && x in multiset(next.removed);
        assert x !in multiset(next.slice.Live());
      }
      RecordAllLess(next, hash, es[1..], x);
    } else {
      HasIdSplit(es, x);
      RecordAllDrops(ids, next, hash, es[1..], x);
    }
  }

  lemma VisitDropsId(ledger: Ledger, ids: seq<string>, run: Run, x: string)
    requires DistinctIds(ids) && Conserved(ids, run) && x != "" && Found(ledger, x)
    ensures x !in Visit(run, ledger(x).value).slice.Live()
  {
    var b := ledger(x).value;
    RecordAllDrops(ids, run.(infos := Enter(run.infos, b)), b.hash, Events(b), x);
  }

  // ---- Lists that are always answered ----

  /** One id first, a blank second, one id third, and either only blanks behind them or one
      more cell. */
  predicate BlankSecond(ids: seq<string>) {
    |ids| >= 3 && ids[0] != "" && ids[1] == "" && ids[2] != "" && (AllBlank(ids[3..]) || |ids| == 4)
  }

  /** The lists that any ledger answers, and those. */
  predicate AnswerableIfAllEmit(ids: seq<string>) { Answerable(ids) || BlankSecond(ids) }

  /** The blank of a `BlankSecond` list stands second until the first id leaves, then first;
      the third id, while live, follows it, and no other blank gets in front of the last id. */
  ghost predicate BlankAhead(ids: seq<string>, s: Slice) {
    && s.Valid() && |s.cells| == |ids| >= 3
    && var (a, c) := (ids[0], ids[2]);
       if a in s.Live() then
         && s.len >= 2 && s.cells[0] == a && s.cells[1] == ""
         && (c in s.Live() ==> s.len >= 3 && s.cells[2] == c)
         && (ids[|ids| - 1] != "" ==> forall j :: 2 <= j < |ids| ==> s.cells[j] != "")
       else
         && s.len >= 1 && s.cells[0] == ""
         && (c in s.Live() ==> s.len >= 2 && s.cells[1] == c)
         && (ids[|ids| - 1] != "" && s.len >= 2 ==> forall j :: 1 <= j < |ids| ==> s.cells[j] != "")
  }

  lemma AheadAtStart(ids: seq<string>)
    requires BlankSecond(ids)
    ensures BlankAhead(ids, Start(ids).slice)
  {
    assert Start(ids).slice.Live() == ids;
    assert |ids| >= 5 ==> ids[|ids| - 1] == ids[3..][|ids| - 4] && ids[|ids| - 1] in ids[3..];
  }

  /** The other live keys stay live. */
  lemma RemoveFirstOthers(s: Slice, x: string)
    requires s.Valid() && x in s.Live()
    ensures forall y :: y in RemoveFirst(s, x).Live() ==> y in s.Live()
    ensures forall y :: y in s.Live() && y != x ==> y in RemoveFirst(s, x).Live()
  {
    RemoveFirstLive(s, x);
    var live, i := s.Live(), IndexOf(s.Live(), x);
    assert live == live[..i] + [x] + live[i + 1..];
  }

  lemma AheadFirst(ids: seq<string>, s: Slice)
    requires BlankSecond(ids) && ids[0] != ids[2] && BlankAhead(ids, s) && ids[0] in s.Live()
    requires ids[0] !in RemoveFirst(s, ids[0]).Live()
    ensures BlankAhead(ids, RemoveFirst(s, ids[0]))
  {
    var next := RemoveFirst(s, ids[0]);
    RemoveHead(s);
    RemoveFirstOthers(s, ids[0]);
    hide RemoveFirst, IndexOf, AllBlank;
    assert next.len == s.len - 1;
    assert forall j :: 0 <= j < |ids| ==> next.cells[j] == s.cells[if j < s.len - 1 then j + 1 else j];
  }

  lemma AheadOther(ids: seq<string>, s: Slice, x: string)
    requires BlankSecond(ids) && ids[0] != ids[2] && BlankAhead(ids, s) && x in s.Live() && x != "" && x != ids[0]
    requires x !in RemoveFirst(s, x).Live()
    ensures BlankAhead(ids, RemoveFirst(s, x))
  {
    var next, i := RemoveFirst(s, x), IndexOf(s.Live(), x);
    RemoveFirstLive(s, x);
    RemoveFirstOthers(s, x);
    assert i < s.len && s.cells[i] == x;
    hide RemoveFirst, IndexOf;
    forall j | 0 <= j < |ids|
      ensures next.cells[j] == s.cells[if i <= j < s.len - 1 then j + 1 else j]
    {
      RemoveFirstCell(s, x, j);
    }
  }

  lemma RecordAhead(ids: seq<string>, run: Run, hash: string, e: ChaincodeEvent)
    requires DistinctIds(ids) && BlankSecond(ids) && Conserved(ids, run) && BlankAhead(ids, run.slice)
    requires hash in run.infos && e.txId != ""
    ensures BlankAhead(ids, Record(run, hash, e).slice)
  {
    var x := e.txId;
    if x in run.slice.Live() {
      assert [e][0].txId == x;
      RecordAllDrops(ids, run, hash, [e], x);
      assert RecordAll(Record(run, hash, e), hash, [e][1..]) == Record(run, hash, e);
      hide RemoveFirst, BlankAhead;
      if x == ids[0] { AheadFirst(ids, run.slice); } else { AheadOther(ids, run.slice, x); }
    }
  }

  lemma {:induction false} RecordAllAhead(ids: seq<string>, run: Run, hash: string, es: seq<ChaincodeEvent>)
    requires DistinctIds(ids) && BlankSecond(ids) && Conserved(ids, run) && BlankAhead(ids, run.slice)
    requires hash in run.infos && !HasId(es, "")
    ensures BlankAhead(ids, RecordAll(run, hash, es).slice)
    decreases |es|
  {
    if es != [] {
      HasIdSplit(es, "");
      RecordAhead(ids, run, hash, es[0]);
      RecordConserves(ids, run, hash, es[0]);
      hide BlankAhead, Conserved, HasId, DistinctIds, Record;
      RecordAllAhead(ids, Record(run, hash, es[0]), hash, es[1..]);
    }
  }

  lemma VisitBlankAhead(ids: seq<string>, run: Run, b: Block)
    requires DistinctIds(ids) && BlankSecond(ids) && Conserved(ids, run) && BlankAhead(ids, run.slice)
    requires !HasId(Events(b), "")
    ensures BlankAhead(ids, Visit(run, b).slice)
  {
    if b.hash != "" {
      var entered := run.(infos := Enter(run.infos, b));
      assert Conserved(ids, entered);
      RecordAllAhead(ids, entered, b.hash, Events(b));
    }
  }

  lemma IdsBehind(ids: seq<string>, x: string)
    requires BlankSecond(ids) && x in ids && x != ""
    ensures x == ids[0] || x == ids[2] || x == ids[|ids| - 1]
  {
    var k :| 0 <= k < |ids| && ids[k] == x;
    if k >= 3 { assert x == ids[3..][k - 3] && x in ids[3..]; }
  }

  /** What is still asked for behind the blank when the cursor is at `cursor`. */
  ghost predicate Draining(ids: seq<string>, s: Slice, cursor: nat) {
    && BlankAhead(ids, s) && ids[0] !in s.Live() && 1 <= cursor <= |ids|
    && (cursor > 1 ==> ids[2] !in s.Live())
    && (cursor == |ids| ==> ids[|ids| - 1] == "" || ids[|ids| - 1] !in s.Live())
  }

  /** While some id is still live, the cursor does not read a blank. */
  lemma ReadsOn(ids: seq<string>, run: Run, cursor: nat)
    requires BlankSecond(ids) && Conserved(ids, run) && Draining(ids, run.slice, cursor)
    requires !AllBlank(run.slice.Live())
    ensures cursor < |ids| && run.slice.cells[cursor] != "" && run.slice.cells[cursor] in ids
    ensures cursor == 1 && ids[2] in run.slice.Live() ==> run.slice.cells[cursor] == ids[2]
    ensures cursor == |ids| - 1 ==> run.slice.cells[cursor] == ids[|ids| - 1]
  {
    var x :| x in run.slice.Live() && x != "";
    SubsequenceMember(run.slice.Live(), ids, x);
    IdsBehind(ids, x);
  }

  lemma BlankStays(ledger: Ledger, run: Run, cursor: nat)
    requires run.slice.Valid() && cursor <= |run.slice.cells| && AllBlank(run.slice.Live())
    ensures AllBlank(LookupFrom(ledger, run, cursor).run.slice.Live())
  {
    forall x | x in LookupFrom(ledger, run, cursor).run.slice.Live()
      ensures x == ""
    {
      if x !in run.slice.Live() { LookupFromLess(ledger, run, cursor, x); }
    }
  }

  /** One of the iterations after the first, in which the first id left. */
  lemma DrainsOne(ledger: Ledger, ids: seq<string>, run: Run, cursor: nat)
    requires DistinctIds(ids) && BlankSecond(ids) && Answers(ledger, ids) && AllEmit(ledger, ids)
    requires Conserved(ids, run) && Draining(ids, run.slice, cursor) && !AllBlank(run.slice.Live())
    ensures cursor < |ids| && run.slice.cells[cursor] != "" && ledger(run.slice.cells[cursor]).Ok?
    ensures var next := Visit(run, ledger(run.slice.cells[cursor]).value);
            && Conserved(ids, next) && Draining(ids, next.slice, cursor + 1)
            && LookupFrom(ledger, run, cursor) == LookupFrom(ledger, next, cursor + 1)
  {
    ReadsOn(ids, run, cursor);
    var f := run.slice.cells[cursor];
    assert Found(ledger, f);
    var b := ledger(f).value;
    assert LookupFrom(ledger, run, cursor) == LookupFrom(ledger, Visit(run, b), cursor + 1);
    hide LookupFrom, Visit;
    VisitBlankAhead(ids, run, b);
    VisitConserves(ids, run, b);
    VisitDropsId(ledger, ids, run, f);
    VisitLess(run, b, ids[0]);
    if ids[2] !in run.slice.Live() { VisitLess(run, b, ids[2]); }
    hide BlankAhead, DistinctIds, Answers, BlankSecond;
  }

  lemma {:induction false} AheadDrains(ledger: Ledger, ids: seq<string>, run: Run, cursor: nat)
    requires run.slice.Valid() && |run.slice.cells| == |ids| && cursor <= |ids|
    requires DistinctIds(ids) && BlankSecond(ids) && Answers(ledger, ids) && AllEmit(ledger, ids)
    requires Conserved(ids, run) && Draining(ids, run.slice, cursor)
    ensures AllBlank(LookupFrom(ledger, run, cursor).run.slice.Live())
    decreases |ids| - cursor
  {
    hide *;
    if AllBlank(run.slice.Live()) {
      BlankStays(ledger, run, cursor);
    } else {
      DrainsOne(ledger, ids, run, cursor);
      AheadDrains(ledger, ids, Visit(run, ledger(run.slice.cells[cursor]).value), cursor + 1);
    }
  }

  lemma FirstDrains(ledger: Ledger, ids: seq<string>)
    requires DistinctIds(ids) && Answers(ledger, ids) && AllEmit(ledger, ids) && BlankSecond(ids)
    ensures AllBlank(Lookup(ledger, ids).run.slice.Live())
  {
    FirstVisited(ledger, ids);
    StartConserved(ids);
    AheadAtStart(ids);
    assert ids[0] in ids;
    VisitBlankAhead(ids, Start(ids), ledger(ids[0]).value);
    VisitDropsId(ledger, ids, Start(ids), ids[0]);
    hide Visit, DistinctIds, Conserved, BlankAhead, Lookup, LookupFrom;
    AheadDrains(ledger, ids, Visit(Start(ids), ledger(ids[0]).value), 1);
  }

  // ---- Ledgers that lose an id of any other list ----

  /** A first block without an empty event. */
  lemma BunchEmits(left: seq<string>, ids: seq<string>)
    requires left != [] && left[0] != "" && "" !in left
    ensures var ledger := Bunch(left); Answers(ledger, ids) && Agrees(ledger, ids) && AllEmit(ledger, ids)
  {
    BunchAnswers(left, ids);
    forall id | id != ""
      ensures !HasId(EventsOf(Bunch(left), id), "")
    {
      BunchHasId(left, id, "");
    }
  }

  lemma ScatteredEmits(ids: seq<string>)
    ensures Answers(Scattered, ids) && Agrees(Scattered, ids) && AllEmit(Scattered, ids)
  {
    ScatteredAnswers(ids);
    forall id
      ensures EventsOf(Scattered, id) == [ChaincodeEvent(id, [])]
    {
      FlattenOne([ChaincodeEvent(id, [])]);
    }
  }

  /** The first iteration over a ledger that joins the first id to another one. */
  lemma VisitPair(run: Run, a: string, c: string)
    requires run.slice.Valid() && a != ""
    ensures Visit(run, Bunch([a, c])(a).value).slice == RemoveFirst(RemoveFirst(run.slice, a), c)
  {
    var es := EventsFor([a, c]);
    FlattenOne(es);
    var entered := run.(infos := Enter(run.infos, Bunch([a, c])(a).value));
    RemoveFirstLive(run.slice, a);
    RemoveFirstLive(RemoveFirst(run.slice, a), c);
    assert es[1..] == [ChaincodeEvent(c, [])];
    RecordOne(Record(entered, a, es[0]), a, es[1]);
  }

  lemma RemoveSecond(s: Slice)
    requires s.Valid() && s.len >= 2 && s.cells[0] != s.cells[1]
    ensures RemoveFirst(s, s.cells[1])
         == Slice([s.cells[0]] + s.cells[2..s.len] + s.cells[s.len - 1..], s.len - 1)
  {
    IndexIs(s.Live(), s.cells[1], 1);
    assert s.cells[..1] == [s.cells[0]];
  }

  /** The array once the first and the third id have left, with a blank second. */
  lemma FirstAndThirdGone(ids: seq<string>)
    requires |ids| >= 5 && ids[0] != "" && ids[1] == "" && ids[2] != ""
    ensures var z := ids[|ids| - 1];
            RemoveFirst(RemoveFirst(Start(ids).slice, ids[0]), ids[2]) == Slice([""] + ids[3..] + [z, z], |ids| - 2)
  {
    assert Start(ids).slice == Shifted(ids, 0);
    ShiftOne(ids, 0);
    hide RemoveFirst;
    ThirdGone(ids, Shifted(ids, 1));
  }

  lemma ThirdGone(ids: seq<string>, s: Slice)
    requires |ids| >= 5 && ids[1] == "" && ids[2] != "" && s == Shifted(ids, 1)
    ensures var z := ids[|ids| - 1]; RemoveFirst(s, ids[2]) == Slice([""] + ids[3..] + [z, z], |ids| - 2)
  {
    var z := ids[|ids| - 1];
    assert s.cells[0] == "" && s.cells[1] == ids[2] && s.len == |ids| - 1;
    assert s.cells[2..s.len] == ids[3..];
    assert s.cells[s.len - 1..] == [z, z];
    hide Shifted, RemoveFirst;
    RemoveSecond(s);
    assert [""] + (ids[3..] + [z, z]) == [""] + ids[3..] + [z, z];
  }

  lemma ThirdVisited(ids: seq<string>) returns (first: Run, second: Run)
    requires |ids| >= 5 && ids[0] != "" && ids[1] == "" && ids[2] != ""
    ensures first == Visit(Start(ids), Scattered(ids[0]).value) && second == Visit(first, Scattered(ids[2]).value)
    ensures second.slice == Slice([""] + ids[3..] + [ids[|ids| - 1], ids[|ids| - 1]], |ids| - 2)
    ensures Lookup(Scattered, ids) == LookupFrom(Scattered, second, 2)
  {
    ScatteredAnswers(ids);
    FirstVisited(Scattered, ids);
    FirstShifted(ids);
    VisitScattered(Start(ids), ids[0]);
    hide RemoveFirst, Visit, Answers, Agrees;
    first := Visit(Start(ids), Scattered(ids[0]).value);
    assert first.slice.cells[1] == ids[2];
    second := Visit(first, Scattered(ids[2]).value);
    VisitScattered(first, ids[2]);
    FirstAndThirdGone(ids);
    assert LookupFrom(Scattered, first, 1) == LookupFrom(Scattered, second, 2);
  }

  lemma FourthUnread(ids: seq<string>, s: Slice)
    requires DistinctIds(ids) && |ids| >= 5 && ids[3] != ""
    requires s == Slice([""] + ids[3..] + [ids[|ids| - 1], ids[|ids| - 1]], |ids| - 2)
    ensures Unread(s, 2, ids[3])
  {
    assert forall j :: 1 < j < |ids| ==> s.cells[j] == ids[if j < |ids| - 2 then j + 2 else |ids| - 1];
  }

  lemma FourthLost(ids: seq<string>)
    requires DistinctIds(ids) && |ids| >= 5 && ids[0] != "" && ids[1] == "" && ids[2] != "" && ids[3] != ""
    ensures !Complete(Scattered, ids)
  {
    var x := ids[3];
    assert x in ids && x != ids[0] && x != ids[2];
    ScatteredAnswers(ids);
    ScatteredLeavesAlone(x);
    assert LeavesAlone(Scattered, x);
    var first, second := ThirdVisited(ids);
    FourthUnread(ids, second.slice);
    VisitSkips(Start(ids), Scattered(ids[0]).value, x);
    VisitSkips(first, Scattered(ids[2]).value, x);
    hide *;
    PassedOver(Scattered, second, 2, x);
    assert Found(Scattered, x) by { AnswersFound(Scattered, ids, x); }
    ReturnedIffRemoved(Scattered, ids, x);
    CompleteIffReturned(Scattered, ids);
  }

  lemma AnswersFound(ledger: Ledger, ids: seq<string>, x: string)
    requires Answers(ledger, ids) && x in ids && x != ""
    ensures Found(ledger, x)
  {
  }

  lemma LiveTail(s: Slice, ids: seq<string>, x: string)
    requires |ids| >= 5 && x in ids[3..]
    requires s == Slice([""] + ids[3..] + [ids[|ids| - 1], ids[|ids| - 1]], |ids| - 2)
    ensures s.Valid() && x in s.Live() && s.cells[1] == ids[3]
  {
    assert s.Live() == [""] + ids[3..];
  }

  lemma PairLoses(ids: seq<string>)
    requires DistinctIds(ids) && |ids| >= 5 && ids[0] != "" && ids[1] == "" && ids[2] != "" && ids[3] == ""
    requires !AllBlank(ids[3..])
    ensures !Complete(Bunch([ids[0], ids[2]]), ids)
  {
    var ledger := Bunch([ids[0], ids[2]]);
    BunchEmits([ids[0], ids[2]], ids);
    FirstVisited(ledger, ids);
    VisitPair(Start(ids), ids[0], ids[2]);
    FirstAndThirdGone(ids);
    var x :| x in ids[3..] && x != "";
    var first := Visit(Start(ids), ledger(ids[0]).value);
    hide Visit, RemoveFirst, Bunch, Answers, Agrees, DistinctIds, Complete;
    LiveTail(first.slice, ids, x);
    assert LookupFrom(ledger, first, 1).run == first;
    CompleteIffBlankLive(ledger, ids);
  }

  lemma NonBlank(ids: seq<string>, i: nat) returns (k: nat)
    requires i <= |ids| && !AllBlank(ids[i..])
    ensures i <= k < |ids| && ids[k] != ""
  {
    var j :| 0 <= j < |ids[i..]| && ids[i..][j] != "";
    k := i + j;
  }

  /** The first id in a block of its own loses the second, or all behind a blank third. */
  lemma FirstAloneLoses(ids: seq<string>, k: nat)
    requires DistinctIds(ids) && |ids| >= 3 && ids[0] != "" && k < |ids| && ids[k] != ""
    requires k == 1 || (k > 2 && ids[2] == "")
    ensures var ledger := Bunch(ids[..1]);
            Answers(ledger, ids) && Agrees(ledger, ids) && AllEmit(ledger, ids) && !Complete(ledger, ids)
  {
    assert ids[k] in ids && ids[..1] == [ids[0]];
    hide *;
    BunchEmits(ids[..1], ids);
    CompleteIffReturned(Bunch(ids[..1]), ids);
    CountOnce(ids, ids[k]);
    if k == 1 { InnerLost(ids, 1); } else { BehindBlankLost(ids, 2, k); }
  }

  /** Every other list loses an id on some ledger whose transactions all emit events. */
  lemma NotAnswerableLoses(ids: seq<string>) returns (ledger: Ledger)
    requires DistinctIds(ids) && !AnswerableIfAllEmit(ids)
    ensures Answers(ledger, ids) && Agrees(ledger, ids) && AllEmit(ledger, ids) && !Complete(ledger, ids)
  {
    if ids[0] == "" {
      ledger := Scattered;
      ScatteredEmits(ids);
      LeadingBlank(Scattered, ids);
      assert Start(ids).slice.Live() == ids;
      CompleteIffBlankLive(Scattered, ids);
    } else if ids[1] != "" || ids[2] == "" {
      ledger := Bunch(ids[..1]);
      var k := 1;
      if ids[1] == "" { k := NonBlank(ids, 1); }
      FirstAloneLoses(ids, k);
    } else if ids[3] != "" {
      ledger := Scattered;
      ScatteredEmits(ids);
      FourthLost(ids);
    } else {
      ledger := Bunch([ids[0], ids[2]]);
      BunchEmits([ids[0], ids[2]], ids);
      PairLoses(ids);
    }
  }

  lemma AnswerableComplete(ledger: Ledger, ids: seq<string>)
    requires DistinctIds(ids) && AnswerableIfAllEmit(ids)
    requires Answers(ledger, ids) && Agrees(ledger, ids) && AllEmit(ledger, ids)
    ensures Complete(ledger, ids)
  {
    if BlankSecond(ids) {
      CompleteIffBlankLive(ledger, ids);
      FirstDrains(ledger, ids);
    } else {
      AlwaysCompleteIff(ids);
    }
  }

  /** If every transaction in the blocks emitted an event: every ledger answers the request
      completely if and only if it does so without that, or the list has a blank second. */
  lemma AllEmitCompleteIff(ids: seq<string>)
    requires DistinctIds(ids)
    ensures (forall ledger: Ledger ::
               Answers(ledger, ids) && Agrees(ledger, ids) && AllEmit(ledger, ids) ==> Complete(ledger, ids))
       <==> AnswerableIfAllEmit(ids)
  {
    if AnswerableIfAllEmit(ids) {
      forall ledger: Ledger | Answers(ledger, ids) && Agrees(ledger, ids) && AllEmit(ledger, ids)
        ensures Complete(ledger, ids)
      {
        AnswerableComplete(ledger, ids);
      }
    } else {
      var ledger := NotAnswerableLoses(ids);
      assert !Complete(ledger, ids);
    }
  }

  /** One transaction without an event in the first block undoes this: its empty event removes
      the blank, and the third id moves to the front, behind the cursor. */
  lemma EmptyEventLoses(ids: seq<string>)
    requires DistinctIds(ids) && BlankSecond(ids) && |ids| >= 4
    ensures var ledger := Bunch([ids[0], ""]);
            Answers(ledger, ids) && Agrees(ledger, ids) && !Returned(ledger, ids, ids[2]) && !Complete(ledger, ids)
  {
    assert ids[..2] == [ids[0], ""] && ids[2] in ids;
    CountOnce(ids, ids[2]);
    InnerLost(ids, 2);
    CompleteIffReturned(Bunch([ids[0], ""]), ids);
  }
}
