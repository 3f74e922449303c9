/** What the replay protocol guarantees over crashes and restarts, and exactly when. */
module RecoverySafety {
  import opened Wrappers
  import opened Records
  import opened Checkpoint
  import opened Recovery

  /** The starts that may happen: pairs of a height read and the first block reported.  With
      `inOrder` the heights are those of one chain, so that none is below an earlier one or
      below a block already reported; without it a peer that lags behind may answer. */
  datatype Starts = Starts(may: (Uint, Uint) -> bool, inOrder: bool) {
    predicate Fits(s: Server, height: Uint, first: Uint) {
      may(height, first) && (inOrder ==> s.committed <= height)
    }

    ghost predicate At(height: Uint) { exists first: Uint :: may(height, first) }
  }

  ghost predicate StartsIn(chain: Blocks, starts: Starts, s: Server, steps: seq<Step>)
    requires Allowed(chain, s, steps)
    decreases |steps|
  {
    steps == [] ||
    (&& (steps[0].Start? ==> starts.Fits(s, steps[0].height, steps[0].first))
     && StartsIn(chain, starts, Do(chain, s, steps[0]), steps[1..]))
  }

  ghost predicate Reachable(chain: Blocks, starts: Starts, s: Server) {
    exists steps ::
      && Allowed(chain, NEVER_STARTED, steps) && StartsIn(chain, starts, NEVER_STARTED, steps)
      && After(chain, NEVER_STARTED, steps) == s
  }

  /** The process has replayed up to the height it read. */
  ghost predicate Replayed(s: Server) { s.phase == Active && s.cursor >= s.height }

  /** Every event below the height was handled live by some process, or some replay fetched
      its block. */
  ghost predicate NothingMissing(chain: Blocks, s: Server) {
    forall b, i :: 0 <= b < s.height && 0 <= i < |chain(b)| ==>
      b in s.fetched || BlockInfo(b, chain(b)[i]) in s.received
  }

  ghost predicate NeverLoses(chain: Blocks, starts: Starts) {
    forall s :: Reachable(chain, starts, s) && Replayed(s) ==> NothingMissing(chain, s)
  }

  /** A start that leaves block `g` between the height read and the first block reported,
      while a block `m` behind it is reported, and a process may start above `g` afterwards. */
  ghost predicate Skips(chain: Blocks, starts: Starts, h: Uint, first: Uint, g: nat, m: Uint, later: Uint) {
    && h <= g < first <= m && chain(g) != [] && chain(m) != []
    && starts.At(later) && (if starts.inOrder then m < later else g < later)
  }

  /** No start that may happen skips a block with events. */
  ghost predicate Gapless(chain: Blocks, starts: Starts) {
    forall h: Uint, first: Uint, g: nat, m: Uint, later: Uint ::
      starts.may(h, first) ==> !Skips(chain, starts, h, first, g, m, later)
  }

  // ---- Without gaps nothing is lost ----

  /** Every notification of the block was handled live, or a replay fetched the block. */
  ghost predicate Covered(chain: Blocks, s: Server, b: nat) {
    b in s.fetched ||
    (b < TWO_TO_THE_64 && forall i :: 0 <= i < |chain(b)| ==> BlockInfo(b, chain(b)[i]) in s.received)
  }

  /** Blocks that this process or a later one may have to know of: those below its height or
      below a height that may still be read. */
  ghost predicate Needed(starts: Starts, s: Server, b: nat) {
    || (s.phase != Down && b < s.height)
    || exists later: Uint :: b < later && starts.At(later) && (starts.inOrder ==> s.committed <= later)
  }

  ghost predicate CoveredBelow(chain: Blocks, starts: Starts, s: Server, bound: nat) {
    forall b :: 0 <= b < bound && Needed(starts, s, b) ==> Covered(chain, s, b)
  }

  ghost predicate Reported(s: Server, b: nat, i: nat) { b < s.block || (b == s.block && i < s.index) }

  /** What the listener has reported in this session is handled or waits in the channel, and
      the channel is in chain order. */
  ghost predicate ChannelInOrder(chain: Blocks, s: Server) {
    && s.first <= s.block <= TWO_TO_THE_64
    && (forall b: nat, i: nat :: s.first <= b && b < TWO_TO_THE_64 && i < |chain(b)| && Reported(s, b, i) ==>
          BlockInfo(b, chain(b)[i]) in s.received || BlockInfo(b, chain(b)[i]) in s.channel)
    && (forall k :: 0 <= k < |s.channel| ==>
          s.first <= s.channel[k].blockNumber <= s.block && s.channel[k].blockNumber < s.committed
          && chain(s.channel[k].blockNumber) != [])
    && (forall j, k :: 0 <= j < k < |s.channel| ==> s.channel[j].blockNumber <= s.channel[k].blockNumber)
  }

  ghost predicate Safe(chain: Blocks, starts: Starts, s: Server) {
    && CoveredBelow(chain, starts, s, Resume(s.file))
    && (s.phase != Down ==>
          starts.may(s.height, s.first) && CoveredBelow(chain, starts, s, s.cursor) && ChannelInOrder(chain, s))
  }

  /** No step makes a further block needed. */
  lemma NeededShrinks(chain: Blocks, starts: Starts, s: Server, step: Step)
    requires Enabled(chain, s, step) && (step.Start? ==> starts.Fits(s, step.height, step.first))
    ensures forall b :: Needed(starts, Do(chain, s, step), b) ==> Needed(starts, s, b)
  {
    if step.Start? { assert starts.At(step.height); }
  }

  /** Coverage only grows. */
  lemma CoverageGrows(chain: Blocks, starts: Starts, s: Server, t: Server, bound: nat)
    requires s.fetched <= t.fetched && s.received <= t.received && CoveredBelow(chain, starts, s, bound)
    requires forall b :: Needed(starts, t, b) ==> Needed(starts, s, b)
    ensures CoveredBelow(chain, starts, t, bound)
  {
    forall b | 0 <= b < bound && Needed(starts, t, b)
      ensures Covered(chain, t, b)
    {
      assert Covered(chain, s, b);
    }
  }

  lemma NotifyOrdered(chain: Blocks, s: Server)
    requires ChannelInOrder(chain, s) && Enabled(chain, s, Notify)
    ensures ChannelInOrder(chain, Do(chain, s, Notify))
  {
  }

  lemma NextBlockOrdered(chain: Blocks, s: Server)
    requires ChannelInOrder(chain, s) && Enabled(chain, s, NextBlock)
    ensures ChannelInOrder(chain, Do(chain, s, NextBlock))
  {
  }

  lemma ReceiveOrdered(chain: Blocks, s: Server, outcome: WriteOutcome)
    requires ChannelInOrder(chain, s) && Enabled(chain, s, Receive(outcome))
    ensures ChannelInOrder(chain, Do(chain, s, Receive(outcome)))
  {
  }

  /** ChannelInOrder looks at neither the phase, the cursor, the file nor the fetches. */
  lemma OrderOnly(chain: Blocks, s: Server, t: Server)
    requires ChannelInOrder(chain, s)
    requires t.(phase := s.phase, cursor := s.cursor, file := s.file, fetched := s.fetched) == s
    ensures ChannelInOrder(chain, t)
  {
  }

  /** When a notification of block m is handled, every block before m is covered: below the
      height by the replay, from the listener's first block on because earlier notifications
      were handled first, and in between because there is nothing to skip. */
  lemma ReceivedBlocksCovered(chain: Blocks, starts: Starts, s: Server)
    requires Gapless(chain, starts) && Safe(chain, starts, s)
    requires s.phase == Active && s.cursor >= s.height && s.channel != []
    ensures CoveredBelow(chain, starts, s, s.channel[0].blockNumber)
  {
    var m := s.channel[0].blockNumber;
    forall b | 0 <= b < m && Needed(starts, s, b)
      ensures Covered(chain, s, b)
    {
      if b >= s.height {
        if b >= s.first {
          EarlierHandled(chain, s, b);
        } else {
          var later: Uint :| b < later && starts.At(later) && (starts.inOrder ==> s.committed <= later);
          assert !Skips(chain, starts, s.height, s.first, b, m, later);
        }
      }
    }
  }

  lemma EarlierHandled(chain: Blocks, s: Server, b: nat)
    requires ChannelInOrder(chain, s) && s.channel != [] && s.first <= b < s.channel[0].blockNumber
    ensures Covered(chain, s, b)
  {
  }

  lemma ReceiveSafe(chain: Blocks, starts: Starts, s: Server, outcome: WriteOutcome)
    requires Gapless(chain, starts) && Safe(chain, starts, s) && Enabled(chain, s, Receive(outcome))
    ensures Safe(chain, starts, Do(chain, s, Receive(outcome)))
  {
    var next := Do(chain, s, Receive(outcome));
    var m := s.channel[0];
    ReceiveOrdered(chain, s, outcome);
    NeededShrinks(chain, starts, s, Receive(outcome));
    ReceivedBlocksCovered(chain, starts, s);
    CoverageGrows(chain, starts, s, next, m.blockNumber);
    CoverageGrows(chain, starts, s, next, s.cursor);
    CoverageGrows(chain, starts, s, next, Resume(s.file));
    CheckpointCrashSafe(s.file, m, outcome);
  }

  lemma FetchSafe(chain: Blocks, starts: Starts, s: Server)
    requires Safe(chain, starts, s) && Enabled(chain, s, Fetch)
    ensures Safe(chain, starts, Do(chain, s, Fetch))
  {
    var next := Do(chain, s, Fetch);
    NeededShrinks(chain, starts, s, Fetch);
    CoverageGrows(chain, starts, s, next, s.cursor);
    CoverageGrows(chain, starts, s, next, Resume(s.file));
    assert Covered(chain, next, s.cursor);
    OrderOnly(chain, s, next);
  }

  /** Every step of every process keeps the checkpoint and the cursor honest, as long as no
      start skips a block with events. */
  lemma StepSafe(chain: Blocks, starts: Starts, s: Server, step: Step)
    requires Gapless(chain, starts) && Safe(chain, starts, s) && Enabled(chain, s, step)
    requires step.Start? ==> starts.Fits(s, step.height, step.first)
    ensures Safe(chain, starts, Do(chain, s, step))
  {
    var next := Do(chain, s, step);
    match step {
      case Fetch => FetchSafe(chain, starts, s);
      case Receive(outcome) => ReceiveSafe(chain, starts, s, outcome);
      case _ =>
        NeededShrinks(chain, starts, s, step);
        CoverageGrows(chain, starts, s, next, Resume(s.file));
        if s.phase != Down { CoverageGrows(chain, starts, s, next, s.cursor); }
        match step {
          case Notify => NotifyOrdered(chain, s);
          case NextBlock => NextBlockOrdered(chain, s);
          case FetchFails => OrderOnly(chain, s, next);
          case _ =>
        }
    }
  }

  lemma {:induction false} RunSafe(chain: Blocks, starts: Starts, s: Server, steps: seq<Step>)
    requires Gapless(chain, starts) && Safe(chain, starts, s)
    requires Allowed(chain, s, steps) && StartsIn(chain, starts, s, steps)
    ensures Safe(chain, starts, After(chain, s, steps))
    decreases |steps|
  {
    hide Safe, Gapless;
    if steps != [] {
      StepSafe(chain, starts, s, steps[0]);
      RunSafe(chain, starts, Do(chain, s, steps[0]), steps[1..]);
    }
  }

  lemma SafeComplete(chain: Blocks, starts: Starts, s: Server)
    requires Safe(chain, starts, s) && Replayed(s)
    ensures NothingMissing(chain, s)
  {
    forall b, i | 0 <= b < s.height && 0 <= i < |chain(b)|
      ensures b in s.fetched || BlockInfo(b, chain(b)[i]) in s.received
    {
      assert Needed(starts, s, b);
      assert Covered(chain, s, b);
    }
  }

  lemma GaplessNeverLoses(chain: Blocks, starts: Starts)
    requires Gapless(chain, starts)
    ensures NeverLoses(chain, starts)
  {
    forall s | Reachable(chain, starts, s) && Replayed(s)
      ensures NothingMissing(chain, s)
    {
      var steps :| Allowed(chain, NEVER_STARTED, steps) && StartsIn(chain, starts, NEVER_STARTED, steps)
                   && After(chain, NEVER_STARTED, steps) == s;
      RunSafe(chain, starts, NEVER_STARTED, steps);
      SafeComplete(chain, starts, s);
    }
  }

  // ---- With a gap some run loses an event ----

  lemma {:induction false} OneMore(chain: Blocks, starts: Starts, s: Server, steps: seq<Step>, step: Step)
    requires Allowed(chain, s, steps) && StartsIn(chain, starts, s, steps)
    requires var t := After(chain, s, steps);
             Enabled(chain, t, step) && (step.Start? ==> starts.Fits(t, step.height, step.first))
    ensures Allowed(chain, s, steps + [step]) && StartsIn(chain, starts, s, steps + [step])
    ensures After(chain, s, steps + [step]) == Do(chain, After(chain, s, steps), step)
    decreases |steps|
  {
    if steps == [] {
      assert [] + [step] == [step] && [step][1..] == [];
    } else {
      assert (steps + [step])[1..] == steps[1..] + [step];
      OneMore(chain, starts, Do(chain, s, steps[0]), steps[1..], step);
    }
  }

  lemma ReachStep(chain: Blocks, starts: Starts, s: Server, step: Step)
    requires Reachable(chain, starts, s) && Enabled(chain, s, step)
    requires step.Start? ==> starts.Fits(s, step.height, step.first)
    ensures Reachable(chain, starts, Do(chain, s, step))
  {
    var steps :| Allowed(chain, NEVER_STARTED, steps) && StartsIn(chain, starts, NEVER_STARTED, steps)
                 && After(chain, NEVER_STARTED, steps) == s;
    OneMore(chain, starts, NEVER_STARTED, steps, step);
  }

  function Range(low: nat, high: nat): (r: set<nat>)
    ensures forall b :: b in r <==> low <= b < high
    decreases high - low
  {
    if low >= high then {} else {low} + Range(low + 1, high)
  }

  lemma {:induction false} ReachReplayed(chain: Blocks, starts: Starts, s: Server)
    requires Reachable(chain, starts, s) && s.phase == Active && s.cursor <= s.height
    ensures Reachable(chain, starts, s.(cursor := s.height, fetched := s.fetched + Range(s.cursor, s.height)))
    decreases s.height - s.cursor
  {
    if s.cursor == s.height {
      assert s.fetched + Range(s.cursor, s.height) == s.fetched;
    } else {
      ReachStep(chain, starts, s, Fetch);
      var next := Do(chain, s, Fetch);
      ReachReplayed(chain, starts, next);
      assert next.fetched + Range(next.cursor, s.height) == s.fetched + Range(s.cursor, s.height);
    }
  }

  lemma {:induction false} ReachBlock(chain: Blocks, starts: Starts, s: Server, m: Uint)
    requires Reachable(chain, starts, s) && s.phase != Down && s.index == 0 && s.block <= m
    requires forall b :: s.block <= b < m ==> chain(b) == []
    ensures var committed := if s.block < m then Max(s.committed, m) else s.committed;
            Reachable(chain, starts, s.(block := m, committed := committed))
    decreases m - s.block
  {
    if s.block < m {
      ReachStep(chain, starts, s, NextBlock);
      ReachBlock(chain, starts, Do(chain, s, NextBlock), m);
    }
  }

  /** The first block from `from` on that is notified. */
  lemma {:induction false} FirstNotified(chain: Blocks, from: Uint, m: Uint) returns (e: Uint)
    requires from <= m && chain(m) != []
    ensures from <= e <= m && chain(e) != [] && forall b :: from <= b < e ==> chain(b) == []
    decreases m - from
  {
    if chain(from) != [] { return from; }
    e := FirstNotified(chain, from + 1, m);
  }

  /** A process that has replayed reports block m, handles the notification, writes the
      checkpoint and crashes. */
  lemma HandleOne(chain: Blocks, starts: Starts, s: Server, m: Uint) returns (t: Server)
    requires Reachable(chain, starts, s) && s.phase == Active && s.cursor == s.height
    requires s.channel == [] && s.block == m && s.index == 0 && chain(m) != []
    ensures Reachable(chain, starts, t) && t.phase == Down && Resume(t.file) == m
    ensures t.fetched == s.fetched && t.received == s.received + {BlockInfo(m, chain(m)[0])}
    ensures t.committed == Max(s.committed, m + 1)
  {
    var note := BlockInfo(m, chain(m)[0]);
    var outcome := Written(|Print(note)|);
    CheckpointCrashSafe(s.file, note, outcome);
    hide Reachable, FileAfter, Resume;
    ReachStep(chain, starts, s, Notify);
    t := Do(chain, s, Notify);
    ReachStep(chain, starts, t, Receive(outcome));
    t := Do(chain, t, Receive(outcome));
    ReachStep(chain, starts, t, Crash);
    t := Do(chain, t, Crash);
  }

  /** A process that starts with the gap handles its first notification, which checkpoints
      beyond the gap, and crashes. */
  lemma CheckpointBeyondGap(chain: Blocks, starts: Starts, h: Uint, first: Uint, m: Uint) returns (s: Server)
    requires starts.may(h, first) && first <= m && chain(m) != []
    requires forall b :: first <= b < m ==> chain(b) == []
    ensures Reachable(chain, starts, s) && s.phase == Down && Resume(s.file) == m
    ensures s.fetched == Range(0, h) && s.received == {BlockInfo(m, chain(m)[0])} && s.committed == Max(h, m + 1)
  {
    assert Allowed(chain, NEVER_STARTED, []) && StartsIn(chain, starts, NEVER_STARTED, []);
    assert Resume(None) == 0;
    hide Reachable, Resume;
    ReachStep(chain, starts, NEVER_STARTED, Start(h, first));
    s := Do(chain, NEVER_STARTED, Start(h, first));
    ReachReplayed(chain, starts, s);
    s := s.(cursor := h, fetched := s.fetched + Range(s.cursor, h));
    ReachBlock(chain, starts, s, m);
    s := s.(block := m, committed := if first < m then Max(h, m) else h);
    s := HandleOne(chain, starts, s, m);
  }

  /** The next process resumes beyond the gap and never sees what is in it. */
  lemma GapLoses(chain: Blocks, starts: Starts, h: Uint, first: Uint, g: nat, m: Uint, later: Uint)
    requires starts.may(h, first) && Skips(chain, starts, h, first, g, m, later)
    ensures !NeverLoses(chain, starts)
  {
    var e := FirstNotified(chain, first, m);
    var s := CheckpointBeyondGap(chain, starts, h, first, e);
    var again: Uint :| starts.may(later, again);
    ReachStep(chain, starts, s, Start(later, again));
    s := Do(chain, s, Start(later, again));
    if s.cursor < later {
      ReachReplayed(chain, starts, s);
      s := s.(cursor := later, fetched := s.fetched + Range(s.cursor, later));
    }
    assert Reachable(chain, starts, s) && Replayed(s);
    assert g !in s.fetched && BlockInfo(g, chain(g)[0]) !in s.received;
  }

  // ---- The exact condition, over all runs ----

  /** For every chain and every set of possible starts, in order or not: no run of starts,
      replays, notifications, failed or cut writes and crashes ever loses an event below the
      height that a completed replay started with, if and only if no possible start skips a
      block with events. */
  lemma NeverLosesIff(chain: Blocks, starts: Starts)
    ensures NeverLoses(chain, starts) <==> Gapless(chain, starts)
  {
    if Gapless(chain, starts) {
      GaplessNeverLoses(chain, starts);
    } else {
      var h: Uint, first: Uint, g: nat, m: Uint, later: Uint :|
        starts.may(h, first) && Skips(chain, starts, h, first, g, m, later);
      GapLoses(chain, starts, h, first, g, m, later);
    }
  }

  /** When every block is notified and a process may start again at a greater height, the
      condition is that the listener never starts above the height read. */
  lemma NeverLosesIffListenerInTime(chain: Blocks, starts: Starts)
    requires forall b :: chain(b) != []
    requires forall h: Uint, first: Uint :: starts.may(h, first) && h < first ==>
               exists later: Uint :: first < later && starts.At(later)
    ensures NeverLoses(chain, starts) <==> forall h: Uint, first: Uint :: starts.may(h, first) ==> first <= h
  {
    NeverLosesIff(chain, starts);
    if h: Uint, first: Uint :| starts.may(h, first) && h < first {
      var later: Uint :| first < later && starts.At(later);
      assert Skips(chain, starts, h, first, h, first, later);
    }
  }

  /** Every listener reports from the height read or from an earlier block. */
  ghost predicate InTime(steps: seq<Step>) {
    forall k :: 0 <= k < |steps| && steps[k].Start? ==> steps[k].first <= steps[k].height
  }

  lemma {:induction false} InTimeFits(chain: Blocks, starts: Starts, s: Server, steps: seq<Step>)
    requires Allowed(chain, s, steps) && InTime(steps) && !starts.inOrder
    requires forall h: Uint, first: Uint :: first <= h ==> starts.may(h, first)
    ensures StartsIn(chain, starts, s, steps)
    decreases |steps|
  {
    if steps != [] {
      assert InTime(steps[1..]);
      InTimeFits(chain, starts, Do(chain, s, steps[0]), steps[1..]);
    }
  }

  /** Over every run whose listeners start in time: once a process has replayed up to the
      height it read, every event below that height was handled live or its block fetched. */
  lemma NothingLost(chain: Blocks, steps: seq<Step>)
    requires Allowed(chain, NEVER_STARTED, steps) && InTime(steps)
    ensures var s := After(chain, NEVER_STARTED, steps); Replayed(s) ==> NothingMissing(chain, s)
  {
    var starts := Starts((h: Uint, first: Uint) => first <= h, false);
    assert Gapless(chain, starts);
    GaplessNeverLoses(chain, starts);
    InTimeFits(chain, starts, NEVER_STARTED, steps);
    assert Reachable(chain, starts, After(chain, NEVER_STARTED, steps));
  }

  /** When every block is notified, so that live block numbers are contiguous, every block
      below the height was received live or fetched. */
  lemma NoBlockLost(chain: Blocks, steps: seq<Step>)
    requires Allowed(chain, NEVER_STARTED, steps) && InTime(steps) && forall b :: chain(b) != []
    ensures var s := After(chain, NEVER_STARTED, steps);
            Replayed(s) ==>
              forall b :: 0 <= b < s.height ==> b in s.fetched || exists m :: m in s.received && m.blockNumber == b
  {
    NothingLost(chain, steps);
    var s := After(chain, NEVER_STARTED, steps);
    if Replayed(s) {
      forall b | 0 <= b < s.height
        ensures b in s.fetched || exists m :: m in s.received && m.blockNumber == b
      {
        var first := chain(b)[0];
        assert b in s.fetched || BlockInfo(b, first) in s.received;
      }
    }
  }
}
