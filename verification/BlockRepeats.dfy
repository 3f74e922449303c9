/** An id that is asked for several times in a row.

    It can only be lost if a single iteration carries all its cells from ahead of the cursor to
    behind it, and that takes enough ids in front of them.
 */
module BlockRepeats {
  import opened Wrappers
  import opened Slices
  import opened BlockLookup
  import opened BlockContainment
  import opened BlockCoverage
  import opened BlockGuarantee

  /** The id at `g` fills the `r` cells from there on; before them are other ids and no blank. */
  predicate RunAt(ids: seq<string>, g: nat, r: nat) {
    && r >= 1 && g + r <= |ids| && ids[g] != ""
    && (forall k :: g <= k < g + r ==> ids[k] == ids[g])
    && (forall k :: 0 <= k < g ==> ids[k] != "" && ids[k] != ids[g])
  }

  // ---- Too few ids in front: the cursor meets the run ----

  /** The run is live and starts at cell `q`, with other ids before it. */
  ghost predicate Ahead(s: Slice, q: nat, r: nat, x: string) {
    && s.Valid() && q + r <= s.len
    && (forall j :: q <= j < q + r ==> s.cells[j] == x)
    && (forall j :: 0 <= j < q ==> s.cells[j] != "" && s.cells[j] != x)
  }

  lemma RemoveAhead(s: Slice, q: nat, r: nat, x: string, f: string)
    requires Ahead(s, q, r, x) && f != x
    ensures Ahead(RemoveFirst(s, f), if f in s.cells[..q] then q - 1 else q, r, x)
    ensures f !in s.cells[..q] ==> RemoveFirst(s, f).cells[..q] == s.cells[..q]
  {
    RemoveFirstLive(s, f);
    if f in s.Live() {
      var next, i := RemoveFirst(s, f), IndexOf(s.Live(), f);
      assert s.cells[i] == f && f !in s.Live()[..i];
      assert f in s.cells[..q] <==> i < q;
      forall j | 0 <= j < |s.cells|
        ensures next.cells[j] == s.cells[if i <= j < s.len - 1 then j + 1 else j]
      {
        RemoveFirstCell(s, f, j);
      }
    }
  }

  /** While the run's own id is not recorded, events only move the run to the left. */
  lemma {:induction false} RecordAllAhead(run: Run, hash: string, es: seq<ChaincodeEvent>, q: nat, r: nat, x: string)
    returns (p: nat)
    requires run.slice.Valid() && hash in run.infos && Ahead(run.slice, q, r, x) && r >= 1
    requires x !in RecordAll(run, hash, es).removed
    ensures p <= q && Ahead(RecordAll(run, hash, es).slice, p, r, x)
    decreases |es|
  {
    p := q;
    if es != [] {
      var next := Record(run, hash, es[0]);
      NotTheRun(run, hash, es, q, r, x);
      RemoveAhead(run.slice, q, r, x, es[0].txId);
      hide Ahead, RemoveFirst;
      p := RecordAllAhead(next, hash, es[1..], if es[0].txId in run.slice.cells[..q] then q - 1 else q, r, x);
    }
  }

  lemma NotTheRun(run: Run, hash: string, es: seq<ChaincodeEvent>, q: nat, r: nat, x: string)
    requires run.slice.Valid() && hash in run.infos && Ahead(run.slice, q, r, x) && r >= 1 && es != []
    requires x !in RecordAll(run, hash, es).removed
    ensures es[0].txId != x
    ensures Record(run, hash, es[0]).slice == RemoveFirst(run.slice, es[0].txId)
  {
    assert run.slice.Live()[q] == x;
    RemoveFirstLive(run.slice, es[0].txId);
    var next := Record(run, hash, es[0]);
    if es[0].txId == x { RecordAllKeeps(next, hash, es[1..], x); }
  }

  /** The event of an id before the run moves it. */
  lemma {:induction false} RecordAllCloser(run: Run, hash: string, es: seq<ChaincodeEvent>, q: nat, r: nat,
                                           x: string, f: string) returns (p: nat)
    requires run.slice.Valid() && hash in run.infos && Ahead(run.slice, q, r, x) && r >= 1
    requires x !in RecordAll(run, hash, es).removed && HasId(es, f) && f in run.slice.cells[..q]
    ensures p < q && Ahead(RecordAll(run, hash, es).slice, p, r, x)
    decreases |es|
  {
    var next := Record(run, hash, es[0]);
    NotTheRun(run, hash, es, q, r, x);
    RemoveAhead(run.slice, q, r, x, es[0].txId);
    HasIdSplit(es, f);
    hide Ahead, RemoveFirst, HasId;
    if es[0].txId in run.slice.cells[..q] {
      p := RecordAllAhead(next, hash, es[1..], q - 1, r, x);
    } else {
      p := RecordAllCloser(next, hash, es[1..], q, r, x, f);
    }
  }

  lemma VisitCloser(run: Run, b: Block, q: nat, r: nat, x: string, f: string) returns (p: nat)
    requires run.slice.Valid() && Ahead(run.slice, q, r, x) && r >= 1 && b.hash != ""
    requires x !in Visit(run, b).removed && HasId(Events(b), f) && f in run.slice.cells[..q]
    ensures p < q && Ahead(Visit(run, b).slice, p, r, x)
  {
    p := RecordAllCloser(run.(infos := Enter(run.infos, b)), b.hash, Events(b), q, r, x, f);
  }

  /** With the cursor at `c` the run still starts within reach. */
  lemma {:induction false} RunMet(ledger: Ledger, ids: seq<string>, run: Run, c: nat, q: nat, r: nat, x: string)
    requires run.slice.Valid() && |run.slice.cells| == |ids| && Conserved(ids, run) && Answers(ledger, ids)
    requires Ahead(run.slice, q, r, x) && x != "" && c < r && q + c <= 2 * r - 2
    ensures x in LookupFrom(ledger, run, c).run.removed
    decreases |ids| - c
  {
    var f := run.slice.cells[c];
    assert f in ids && f != "" && Found(ledger, f);
    var b := ledger(f).value;
    var next := Visit(run, b);
    assert LookupFrom(ledger, run, c) == LookupFrom(ledger, next, c + 1);
    VisitConserves(ids, run, b);
    if c >= q {
      assert f == x;
      VisitRecords(ledger, ids, run, x);
      LookupFromKeeps(ledger, next, c + 1, x);
    } else if x in next.removed {
      LookupFromKeeps(ledger, next, c + 1, x);
    } else {
      assert f == run.slice.cells[..q][c];
      hide Visit, LookupFrom, Conserved, Answers, Ahead;
      var p := VisitCloser(run, b, q, r, x, f);
      RunMet(ledger, ids, next, c + 1, p, r, x);
    }
  }

  /** With at most 2r - 2 ids in front, every ledger returns the id. */
  lemma ShortRunReturned(ledger: Ledger, ids: seq<string>, g: nat, r: nat)
    requires RunAt(ids, g, r) && g <= 2 * r - 2 && Answers(ledger, ids) && Agrees(ledger, ids)
    ensures Returned(ledger, ids, ids[g])
  {
    StartConserved(ids);
    assert Ahead(Start(ids).slice, g, r, ids[g]);
    assert ids[g] in ids && Found(ledger, ids[g]);
    hide Lookup, LookupFrom, Ahead, Agrees, Answers, Conserved;
    RunMet(ledger, ids, Start(ids), 0, g, r, ids[g]);
    assert Lookup(ledger, ids) == LookupFrom(ledger, Start(ids), 0) by { LookupStarts(ledger, ids); }
    ReturnedIffRemoved(ledger, ids, ids[g]);
  }

  lemma LookupStarts(ledger: Ledger, ids: seq<string>)
    ensures Lookup(ledger, ids) == LookupFrom(ledger, Start(ids), 0)
  {
  }

  // ---- Enough ids in front: some ledger carries the run behind the cursor ----

  /** The live ids before the run, one for one, and a live cell behind it; no other cell shows
      the run's id. */
  ghost predicate Behind(s: Slice, pre: seq<string>, r: nat, x: string) {
    && s.Valid() && |pre| + r < s.len && s.cells[..|pre|] == pre && x !in pre && Distinct(pre)
    && (forall j :: |pre| + r <= j < |s.cells| ==> s.cells[j] != x)
  }

  function Without(pre: seq<string>, i: nat): (p: seq<string>)
    requires i < |pre|
    ensures |p| == |pre| - 1
  {
    pre[..i] + pre[i + 1..]
  }

  lemma BehindIndex(s: Slice, pre: seq<string>, r: nat, x: string, i: nat)
    requires Behind(s, pre, r, x) && i < |pre|
    ensures i < s.len && pre[i] in s.Live() && IndexOf(s.Live(), pre[i]) == i
  {
    assert s.Live()[..|pre|] == pre;
    assert s.Live()[i] == pre[i];
    assert pre[i] !in s.Live()[..i];
    IndexIs(s.Live(), pre[i], i);
  }

  /** Closing the gap at cell `i` before the run. */
  lemma GapClosed(s: Slice, next: Slice, pre: seq<string>, r: nat, x: string, i: nat)
    requires Behind(s, pre, r, x) && i < |pre| && next.Valid() && |next.cells| == |s.cells| && next.len == s.len - 1
    requires forall j :: 0 <= j < |s.cells| ==> next.cells[j] == s.cells[if i <= j < s.len - 1 then j + 1 else j]
    ensures Behind(next, Without(pre, i), r, x)
  {
    WithoutMembers(pre, i);
    var p := Without(pre, i);
    hide Distinct;
    assert forall j :: 0 <= j < |pre| ==> s.cells[j] == pre[j];
    assert next.cells[..|p|] == p;
  }

  lemma RemoveBehind(s: Slice, pre: seq<string>, r: nat, x: string, i: nat)
    requires Behind(s, pre, r, x) && i < |pre|
    ensures Behind(RemoveFirst(s, pre[i]), Without(pre, i), r, x)
  {
    var next := RemoveFirst(s, pre[i]);
    BehindIndex(s, pre, r, x, i);
    assert s.Valid();
    hide RemoveFirst, IndexOf, Behind, Without;
    RemoveFirstLive(s, pre[i]);
    forall j | 0 <= j < |s.cells|
      ensures next.cells[j] == s.cells[if i <= j < s.len - 1 then j + 1 else j]
    {
      RemoveFirstCell(s, pre[i], j);
    }
    LiveLength(s, next, i);
    GapClosed(s, next, pre, r, x, i);
  }

  lemma LiveLength(s: Slice, next: Slice, i: nat)
    requires s.Valid() && next.Valid() && i < s.len && next.Live() == s.Live()[..i] + s.Live()[i + 1..]
    ensures next.len == s.len - 1
  {
    assert |next.Live()| == next.len;
  }

  lemma RecordPreOne(run: Run, hash: string, e: ChaincodeEvent, pre: seq<string>, r: nat, x: string)
    requires Behind(run.slice, pre, r, x) && hash in run.infos && pre != [] && e.txId == pre[0]
    ensures run.slice.Valid() && Behind(Record(run, hash, e).slice, pre[1..], r, x)
  {
    assert pre[0] == run.slice.Live()[0] && Without(pre, 0) == pre[1..];
    hide Behind, RemoveFirst;
    RemoveBehind(run.slice, pre, r, x, 0);
  }

  /** The events of all ids before the run, in order, bring it to the front. */
  lemma {:induction false} RecordPre(run: Run, hash: string, pre: seq<string>, r: nat, x: string)
    requires run.slice.Valid() && Behind(run.slice, pre, r, x) && hash in run.infos
    ensures Behind(RecordAll(run, hash, EventsFor(pre)).slice, [], r, x)
    decreases |pre|
  {
    var es := EventsFor(pre);
    hide Behind, RemoveFirst, Record;
    if pre != [] {
      assert es[1..] == EventsFor(pre[1..]) && es[0].txId == pre[0];
      hide EventsFor;
      RecordPreOne(run, hash, es[0], pre, r, x);
      RecordPre(Record(run, hash, es[0]), hash, pre[1..], r, x);
    }
  }

  /** The ids before the run after `c` iterations that each remove the id they read. */
  function Thinned(pre: seq<string>, c: nat): (p: seq<string>)
    requires |pre| + 1 >= 2 * c
    ensures |p| == |pre| - c
    decreases c
  {
    if c == 0 then pre else Without(Thinned(pre, c - 1), c - 1)
  }

  lemma WithoutMembers(pre: seq<string>, i: nat)
    requires i < |pre| && Distinct(pre)
    ensures Distinct(Without(pre, i)) && pre[i] !in Without(pre, i)
    ensures forall y :: y in Without(pre, i) ==> y in pre
  {
  }

  lemma {:induction false} ThinnedMembers(pre: seq<string>, c: nat)
    requires |pre| + 1 >= 2 * c && Distinct(pre)
    ensures Distinct(Thinned(pre, c)) && forall y :: y in Thinned(pre, c) ==> y in pre
    decreases c
  {
    if c > 0 {
      ThinnedMembers(pre, c - 1);
      WithoutMembers(Thinned(pre, c - 1), c - 1);
    }
  }

  /** What iteration `c` removes does not come back. */
  lemma {:induction false} ThinnedGone(pre: seq<string>, c: nat, d: nat)
    requires |pre| + 1 >= 2 * d && Distinct(pre) && c < d
    ensures c < |Thinned(pre, c)| && Thinned(pre, c)[c] !in Thinned(pre, d)
    decreases d
  {
    ThinnedMembers(pre, d - 1);
    WithoutMembers(Thinned(pre, d - 1), d - 1);
    if c < d - 1 { ThinnedGone(pre, c, d - 1); }
  }

  /** The ids that the first r - 1 iterations remove have blocks of their own; all the others
      before the run share one. */
  function Carrying(ids: seq<string>, g: nat, r: nat): Ledger
    requires r >= 1 && 2 * r - 1 <= g <= |ids|
  {
    Bunch(Thinned(ids[..g], r - 1))
  }

  /** The iteration at cursor r - 1 reads one of those, and the run moves behind the cursor. */
  lemma RunCarried(run: Run, pre: seq<string>, r: nat, x: string)
    requires Behind(run.slice, pre, r, x) && |pre| >= r >= 1 && "" !in pre && x !in run.removed
    ensures run.slice.Valid() && r - 1 < |run.slice.cells| && Bunch(pre)(run.slice.cells[r - 1]).Ok?
    ensures var next := Visit(run, Bunch(pre)(run.slice.cells[r - 1]).value);
            Unread(next.slice, r, x) && x !in next.removed
  {
    var f := run.slice.cells[r - 1];
    assert f == pre[r - 1] && f in pre && pre[0] in pre;
    var b := Bunch(pre)(f).value;
    FlattenOne(EventsFor(pre));
    EventsForHas(pre, x);
    hide EventsFor, HasId;
    VisitSkips(run, b, x);
    RecordPre(run.(infos := Enter(run.infos, b)), b.hash, pre, r, x);
  }

  /** One of the iterations before, which removes just the id it reads. */
  lemma RunThinned(run: Run, left: seq<string>, pre: seq<string>, c: nat, r: nat, x: string)
    requires Behind(run.slice, pre, r, x) && c < |pre| && "" !in pre && x !in run.removed
    requires left != [] && pre[c] !in left
    ensures run.slice.Valid() && c < |run.slice.cells| && run.slice.cells[c] == pre[c]
    ensures Bunch(left)(pre[c]).Ok?
    ensures var next := Visit(run, Bunch(left)(pre[c]).value);
            Behind(next.slice, Without(pre, c), r, x) && x !in next.removed
  {
    var f := run.slice.cells[c];
    assert f == pre[c] && f in pre && f != x;
    FlattenOne([ChaincodeEvent(f, [])]);
    VisitSkips(run, Scattered(f).value, x);
    hide Behind, RemoveFirst, Visit;
    VisitScattered(run, f);
    RemoveBehind(run.slice, pre, r, x, c);
  }

  lemma RunLast(ids: seq<string>, g: nat, r: nat, run: Run)
    requires RunAt(ids, g, r) && 2 * r - 1 <= g && Distinct(ids[..g]) && run.slice.Valid()
    requires Behind(run.slice, Thinned(ids[..g], r - 1), r, ids[g]) && ids[g] !in run.removed
    requires r - 1 <= |run.slice.cells|
    ensures ids[g] !in LookupFrom(Carrying(ids, g, r), run, r - 1).run.removed
  {
    var x, thin, ledger := ids[g], Thinned(ids[..g], r - 1), Carrying(ids, g, r);
    ThinnedMembers(ids[..g], r - 1);
    RunCarried(run, thin, r, x);
    BunchLeavesAlone(thin, x);
    var f := run.slice.cells[r - 1];
    assert f == thin[r - 1] && f in thin && f in ids[..g] && f != "";
    hide Behind, Thinned, Unread, LeavesAlone, Bunch, Visit, Distinct, RunAt;
    var next := Visit(run, ledger(f).value);
    assert LookupFrom(ledger, run, r - 1) == LookupFrom(ledger, next, r);
    PassedOver(ledger, next, r, x);
  }

  lemma RunNext(ids: seq<string>, g: nat, r: nat, run: Run, c: nat)
    requires RunAt(ids, g, r) && 2 * r - 1 <= g && Distinct(ids[..g]) && c < r - 1 && run.slice.Valid()
    requires Behind(run.slice, Thinned(ids[..g], c), r, ids[g]) && ids[g] !in run.removed
    requires c <= |run.slice.cells|
    ensures c < |run.slice.cells| && Carrying(ids, g, r)(run.slice.cells[c]).Ok?
    ensures var ledger := Carrying(ids, g, r);
            var next := Visit(run, ledger(run.slice.cells[c]).value);
            && Behind(next.slice, Thinned(ids[..g], c + 1), r, ids[g]) && ids[g] !in next.removed
            && LookupFrom(ledger, run, c) == LookupFrom(ledger, next, c + 1)
  {
    var pre, x, ledger := ids[..g], ids[g], Carrying(ids, g, r);
    ThinnedMembers(pre, c);
    ThinnedGone(pre, c, r - 1);
    var thin := Thinned(pre, c);
    RunThinned(run, Thinned(pre, r - 1), thin, c, r, x);
    assert thin[c] in thin && thin[c] in pre && thin[c] != "";
    assert Without(thin, c) == Thinned(pre, c + 1);
    hide Behind, Thinned, Bunch, Visit, Distinct, RunAt, Without;
    var next := Visit(run, ledger(run.slice.cells[c]).value);
    assert LookupFrom(ledger, run, c) == LookupFrom(ledger, next, c + 1);
  }

  lemma {:induction false} RunPassed(ids: seq<string>, g: nat, r: nat, run: Run, c: nat)
    requires g < |ids| && RunAt(ids, g, r) && 2 * r - 1 <= g && Distinct(ids[..g]) && c < r && run.slice.Valid()
    requires Behind(run.slice, Thinned(ids[..g], c), r, ids[g]) && ids[g] !in run.removed
    requires c <= |run.slice.cells|
    ensures ids[g] !in LookupFrom(Carrying(ids, g, r), run, c).run.removed
    decreases r - c
  {
    hide *;
    if c == r - 1 {
      RunLast(ids, g, r, run);
    } else {
      RunNext(ids, g, r, run, c);
      RunPassed(ids, g, r, Visit(run, Carrying(ids, g, r)(run.slice.cells[c]).value), c + 1);
    }
  }

  lemma LongRunLost(ids: seq<string>, g: nat, r: nat)
    requires RunAt(ids, g, r) && 2 * r - 1 <= g && Distinct(ids[..g])
    requires g + r < |ids| && ids[g] !in ids[g + r..]
    ensures var ledger := Carrying(ids, g, r);
            Answers(ledger, ids) && Agrees(ledger, ids) && !Returned(ledger, ids, ids[g])
  {
    var ledger, x := Carrying(ids, g, r), ids[g];
    ThinnedMembers(ids[..g], r - 1);
    var left := Thinned(ids[..g], r - 1);
    assert left[0] in left && left[0] in ids[..g];
    BunchAnswers(left, ids);
    assert x in ids && Found(ledger, x);
    assert Start(ids).slice.cells[..g] == ids[..g];
    assert forall j :: g + r <= j < |ids| ==> ids[j] == ids[g + r..][j - g - r];
    assert Behind(Start(ids).slice, Thinned(ids[..g], 0), r, x);
    LookupStarts(ledger, ids);
    hide *;
    RunPassed(ids, g, r, Start(ids), 0);
    ReturnedIffRemoved(ledger, ids, x);
  }

  // ---- The exact guarantee ----

  /** An id asked for r times in a row and nowhere else, behind g distinct other ids and not
      last, is returned by every ledger that has the ids if and only if g <= 2r - 2. */
  lemma RunReturnedIff(ids: seq<string>, g: nat, r: nat)
    requires RunAt(ids, g, r) && Distinct(ids[..g]) && g + r < |ids| && ids[g] !in ids[g + r..]
    ensures (forall ledger: Ledger :: Answers(ledger, ids) && Agrees(ledger, ids) ==> Returned(ledger, ids, ids[g]))
       <==> g <= 2 * r - 2
  {
    hide Answers, Agrees, Returned;
    if g <= 2 * r - 2 {
      forall ledger: Ledger | Answers(ledger, ids) && Agrees(ledger, ids)
        ensures Returned(ledger, ids, ids[g])
      {
        ShortRunReturned(ledger, ids, g, r);
      }
    } else {
      LongRunLost(ids, g, r);
    }
  }
}
