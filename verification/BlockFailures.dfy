/** When a lookup reports that a block cannot be fetched.

    The loop returns the first error it meets, with what it recorded so far.  It meets only the
    ids its cursor reads, so a failing id can go unnoticed as another one can get lost.
 */
module BlockFailures {
  import opened Wrappers
  import opened Slices
  import opened BlockLookup
  import opened BlockContainment
  import opened BlockCoverage
  import opened BlockGuarantee

  /** A failure on the first id ends the lookup at once. */
  lemma FirstFails(ledger: Ledger, ids: seq<string>, text: string)
    requires ids != [] && ids[0] != "" && ledger(ids[0]) == Err(text)
    ensures Lookup(ledger, ids) == Outcome(Start(ids), Some(text))
  {
  }

  /** A failure on the second id of two: the first one is in the map that comes with the error. */
  lemma SecondFails(ledger: Ledger, a: string, b: string, text: string)
    requires a != "" && b != "" && Found(ledger, a) && ledger(b) == Err(text)
    requires !HasId(Events(ledger(a).value), b)
    ensures Lookup(ledger, [a, b]).error == Some(text)
    ensures Holds(Lookup(ledger, [a, b]).run.infos, ledger(a).value.hash, a)
  {
    var ids := [a, b];
    var first := Visit(Start(ids), ledger(a).value);
    StartConserved(ids);
    VisitConserves(ids, Start(ids), ledger(a).value);
    VisitRecords(ledger, ids, Start(ids), a);
    assert Lookup(ledger, ids) == LookupFrom(ledger, first, 1);
    assert first.slice.cells[1] == ids[1];
    VisitFirstHolds(ledger, ids, a);
  }

  /** The entries of the first iteration are under the hash of its block. */
  lemma VisitFirstHolds(ledger: Ledger, ids: seq<string>, a: string)
    requires a in ids && a != "" && Found(ledger, a)
    ensures Holds(Visit(Start(ids), ledger(a).value).infos, ledger(a).value.hash, a)
  {
    var run := Visit(Start(ids), ledger(a).value);
    var hash := ledger(a).value.hash;
    StartConserved(ids);
    VisitRecords(ledger, ids, Start(ids), a);
    VisitSound(ledger, ids, Start(ids), a);
    var h :| Holds(run.infos, h, a);
    assert run.infos.Keys == Enter(map[], ledger(a).value).Keys;
  }

  /** Whatever the request, an error is that of some requested id, and no other is invented. */
  lemma {:induction false} LookupFromError(ledger: Ledger, ids: seq<string>, run: Run, cursor: nat)
    requires Conserved(ids, run) && cursor <= |run.slice.cells|
    requires LookupFrom(ledger, run, cursor).error.Some?
    ensures exists f :: f in ids && f != "" && ledger(f) == Err(LookupFrom(ledger, run, cursor).error.value)
    decreases |run.slice.cells| - cursor
  {
    if cursor < |run.slice.cells| && run.slice.cells[cursor] != "" {
      var f := run.slice.cells[cursor];
      assert f in ids;
      if ledger(f).Ok? {
        VisitConserves(ids, run, ledger(f).value);
        LookupFromError(ledger, ids, Visit(run, ledger(f).value), cursor + 1);
      }
    }
  }

  lemma ErrorHasCause(ledger: Ledger, ids: seq<string>)
    requires Lookup(ledger, ids).error.Some?
    ensures exists f :: f in ids && f != "" && ledger(f) == Err(Lookup(ledger, ids).error.value)
  {
    StartConserved(ids);
    LookupFromError(ledger, ids, Start(ids), 0);
  }

  /** Without blanks the last cell is read, if no earlier fetch failed. */
  lemma {:induction false} LookupFromReadsLast(ledger: Ledger, ids: seq<string>, run: Run, cursor: nat)
    requires Conserved(ids, run) && "" !in ids && cursor < |ids| && ledger(ids[|ids| - 1]).Err?
    ensures LookupFrom(ledger, run, cursor).error.Some?
    decreases |ids| - cursor
  {
    var f := run.slice.cells[cursor];
    assert f in ids;
    if ledger(f).Ok? {
      VisitConserves(ids, run, ledger(f).value);
      assert cursor < |ids| - 1;
      LookupFromReadsLast(ledger, ids, Visit(run, ledger(f).value), cursor + 1);
    }
  }

  lemma LastFails(ledger: Ledger, ids: seq<string>)
    requires ids != [] && "" !in ids && ledger(ids[|ids| - 1]).Err?
    ensures Lookup(ledger, ids).error.Some?
  {
    StartConserved(ids);
    LookupFromReadsLast(ledger, ids, Start(ids), 0);
  }

  // ---- Which failures are noticed ----

  /** Every id asked for, blanks and `x` aside, has its block, and fetching `x` fails. */
  ghost predicate FailsOn(ledger: Ledger, ids: seq<string>, x: string) {
    ledger(x).Err? && forall id :: id in ids && id != "" && id != x ==> Found(ledger, id)
  }

  /** The last id is not reached yet, and no blank is in the cursor's way. */
  lemma {:induction false} FailureRead(ledger: Ledger, ids: seq<string>, run: Run, cursor: nat)
    requires run.slice.Valid() && |run.slice.cells| == |ids| && 1 <= cursor < |ids|
    requires Conserved(ids, run) && Clear(run.slice) && ledger(ids[|ids| - 1]).Err?
    ensures LookupFrom(ledger, run, cursor).error.Some?
    decreases |ids| - cursor
  {
    var f := run.slice.cells[cursor];
    assert f in ids && f != "";
    if ledger(f).Ok? {
      var b := ledger(f).value;
      var next := Visit(run, b);
      assert cursor < |ids| - 1;
      assert LookupFrom(ledger, run, cursor) == LookupFrom(ledger, next, cursor + 1);
      VisitConserves(ids, run, b);
      if b.hash != "" { RecordAllClear(run.(infos := Enter(run.infos, b)), b.hash, Events(b)); }
      hide *;
      FailureRead(ledger, ids, next, cursor + 1);
    }
  }

  lemma GuaranteedNoticed(ledger: Ledger, ids: seq<string>, x: string)
    requires FailsOn(ledger, ids, x) && Agrees(ledger, ids) && x != "" && Guaranteed(ids, x)
    ensures Lookup(ledger, ids).error.Some?
  {
    if x == ids[0] {
      FirstFails(ledger, ids, ledger(x).error);
    } else {
      assert x in ids && ids[0] in ids && Found(ledger, ids[0]);
      var b := ledger(ids[0]).value;
      var entered := Start(ids).(infos := Enter(map[], b));
      StartConserved(ids);
      VisitConserves(ids, Start(ids), b);
      assert Waiting(ids, entered.slice) && Conserved(ids, entered);
      VisitSkips(Start(ids), b, x);
      RecordAllWaiting(ids, entered, b.hash, Events(b));
      hide *;
      FailureRead(ledger, ids, Visit(Start(ids), b), 1);
      LookupOnce(ledger, ids);
    }
  }

  lemma LookupOnce(ledger: Ledger, ids: seq<string>)
    requires ids != [] && ids[0] != "" && ledger(ids[0]).Ok?
    ensures Lookup(ledger, ids) == LookupFrom(ledger, Visit(Start(ids), ledger(ids[0]).value), 1)
  {
  }

  /** An id that the cursor has passed cannot fail. */
  lemma {:induction false} UnreadNoError(ledger: Ledger, ids: seq<string>, run: Run, cursor: nat, x: string)
    requires Conserved(ids, run) && cursor <= |run.slice.cells| && Unread(run.slice, cursor, x)
    requires forall f :: f in ids && f != "" && f != x ==> ledger(f).Ok?
    ensures LookupFrom(ledger, run, cursor).error == None
    decreases |run.slice.cells| - cursor
  {
    if cursor < |run.slice.cells| && run.slice.cells[cursor] != "" {
      var f := run.slice.cells[cursor];
      assert f in ids && f != x;
      var b := ledger(f).value;
      var next := Visit(run, b);
      assert LookupFrom(ledger, run, cursor) == LookupFrom(ledger, next, cursor + 1);
      VisitConserves(ids, run, b);
      if b.hash != "" { RecordAllUnread(run.(infos := Enter(run.infos, b)), b.hash, Events(b), cursor, x); }
      hide Conserved, Visit, LookupFrom;
      UnreadNoError(ledger, ids, next, cursor + 1, x);
    }
  }

  /** A ledger that answers like another one but fails on one id. */
  function Failing(ledger: Ledger, x: string): Ledger { id => if id == x then Err("") else ledger(id) }

  lemma FailingFits(ledger: Ledger, ids: seq<string>, x: string)
    requires Answers(ledger, ids) && Agrees(ledger, ids) && LeavesAlone(ledger, x)
    ensures FailsOn(Failing(ledger, x), ids, x) && Agrees(Failing(ledger, x), ids)
  {
  }

  lemma InnerUnnoticed(ids: seq<string>, k: nat)
    requires 0 < k < |ids| - 1 && ids[0] != "" && ids[k] != "" && multiset(ids)[ids[k]] == 1
    ensures var ledger := Failing(Bunch(ids[..k]), ids[k]);
            FailsOn(ledger, ids, ids[k]) && Agrees(ledger, ids) && Lookup(ledger, ids).error == None
  {
    var x, base := ids[k], Bunch(ids[..k]);
    var ledger := Failing(base, x);
    BunchAnswers(ids[..k], ids);
    OncePosition(ids, k);
    assert ids[0] in ids[..k];
    BunchLeavesAlone(ids[..k], x);
    FailingFits(base, ids, x);
    HeadsVisited(ids, k);
    FrontUnread(ids, k);
    StartConserved(ids);
    var b := ledger(ids[0]).value;
    assert b == base(ids[0]).value;
    VisitConserves(ids, Start(ids), b);
    LookupOnce(ledger, ids);
    assert forall f :: f in ids && f != "" && f != x ==> ledger(f).Ok?;
    hide *;
    UnreadNoError(ledger, ids, Visit(Start(ids), b), 1, x);
  }

  lemma BehindBlankUnnoticed(ids: seq<string>, j: nat, k: nat)
    requires 2 <= j < k < |ids| && ids[0] != "" && ids[j] == "" && ids[k] != "" && multiset(ids)[ids[k]] == 1
    ensures var ledger := Failing(Bunch(ids[..j - 1]), ids[k]);
            FailsOn(ledger, ids, ids[k]) && Agrees(ledger, ids) && Lookup(ledger, ids).error == None
  {
    var x, left := ids[k], ids[..j - 1];
    var base := Bunch(left);
    var ledger := Failing(base, x);
    BunchAnswers(left, ids);
    OncePosition(ids, k);
    assert left == ids[..k][..j - 1];
    assert ids[0] in left;
    BunchLeavesAlone(left, x);
    FailingFits(base, ids, x);
    HeadsVisited(ids, j - 1);
    LookupOnce(ledger, ids);
    var first := Visit(Start(ids), ledger(ids[0]).value);
    assert first.slice.cells[1] == "";
    assert LookupFrom(ledger, first, 1) == Outcome(first, None);
  }

  lemma NotGuaranteedUnnoticed(ids: seq<string>, x: string) returns (ledger: Ledger)
    requires x != "" && multiset(ids)[x] == 1 && !Guaranteed(ids, x)
    ensures FailsOn(ledger, ids, x) && Agrees(ledger, ids) && Lookup(ledger, ids).error == None
  {
    assert x in multiset(ids) && x in ids;
    var k :| 0 <= k < |ids| && ids[k] == x;
    if ids[0] == "" {
      ledger := Failing(Scattered, x);
      ScatteredAnswers(ids);
      ScatteredLeavesAlone(x);
      FailingFits(Scattered, ids, x);
      LeadingBlank(ledger, ids);
    } else if k < |ids| - 1 {
      ledger := Failing(Bunch(ids[..k]), x);
      InnerUnnoticed(ids, k);
    } else {
      var j :| 2 <= j < |ids| - 1 && ids[j] == "";
      ledger := Failing(Bunch(ids[..j - 1]), x);
      BehindBlankUnnoticed(ids, j, k);
    }
  }

  /** For any request and an id asked for once: every ledger that has the other ids and fails
      on this one makes the lookup fail if and only if the id is guaranteed.  The failure of any
      other id can be reported as success. */
  lemma AlwaysNoticedIff(ids: seq<string>, x: string)
    requires x != "" && multiset(ids)[x] == 1
    ensures (forall ledger: Ledger ::
               FailsOn(ledger, ids, x) && Agrees(ledger, ids) ==> Lookup(ledger, ids).error.Some?)
       <==> Guaranteed(ids, x)
  {
    if Guaranteed(ids, x) {
      forall ledger: Ledger | FailsOn(ledger, ids, x) && Agrees(ledger, ids)
        ensures Lookup(ledger, ids).error.Some?
      {
        GuaranteedNoticed(ledger, ids, x);
      }
    } else {
      var ledger := NotGuaranteedUnnoticed(ids, x);
    }
  }
}
