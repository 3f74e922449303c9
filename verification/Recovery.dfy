/** The checkpoint and replay protocol of the event server: CheckAndRecoverEvent of
    eventserver/handle/handleevent.go, fed by the listener as the commented lines of
    eventserver/main.go and eventserver/listenevent/listenevent.go feed it. */
module Recovery {
  import opened Wrappers
  import opened Records
  import opened Checkpoint

  // ---- The source's functions ----

  /** The file after handling some notifications, each with the outcome of its write. */
  function FileAfterAll(file: Option<string>, feed: seq<BlockInfo>, outcomes: seq<WriteOutcome>): Option<string>
    requires |feed| == |outcomes|
    decreases |feed|
  {
    if feed == [] then file
    else FileAfterAll(FileAfter(file, feed[0], outcomes[0]), feed[1..], outcomes[1..])
  }

  /** The block at which the replay loop stops: the height, or the first one before it whose
      fetch fails. */
  function ReplayEnd(fetchable: Uint -> bool, from: Uint, height: Uint): (end: Uint)
    ensures from <= height ==> from <= end <= height
    ensures from > height ==> end == from
    ensures forall b: Uint :: from <= b < end ==> fetchable(b)
    ensures end < height ==> !fetchable(end)
    decreases height - from
  {
    if from >= height || !fetchable(from) then from else ReplayEnd(fetchable, from + 1, height)
  }

  /** Where the replay starts: at the checkpoint, read over what the global record holds, or
      at 0 when the file is missing or unreadable. */
  function ReplayStart(file: Option<string>, info: BlockInfo): Uint {
    match file
    case None => 0
    case Some(text) => match Parse(text, info) case None => 0 case Some(i) => i.blockNumber
  }

  /** A missing or unreadable file means block 0, whatever the global record holds. */
  lemma ReplayStartIs(file: Option<string>, info: BlockInfo)
    ensures file == None || Parse(file.value, info) == None ==> ReplayStart(file, info) == 0
    ensures file.Some? && Parse(file.value, info).Some? ==>
              ReplayStart(file, info) == Parse(file.value, info).value.blockNumber
  {
    hide Parse;
  }

  /** In a fresh process the global record is zero. */
  lemma FreshStart(file: Option<string>)
    ensures ReplayStart(file, BlockInfo(0, 0)) == Resume(file)
  {
  }

  class EventServer {
    var file: Option<string>
    var currentBlockHeight: Uint
    var info: BlockInfo

    /** A process starts on the file that earlier processes left. */
    constructor (file: Option<string>, height: Uint)
      ensures this.file == file && currentBlockHeight == height && info == BlockInfo(0, 0)
    {
      this.file, currentBlockHeight, info := file, height, BlockInfo(0, 0);
    }

    method SetBlockInfo(i: BlockInfo, outcome: WriteOutcome)
      modifies this`file
      ensures file == FileAfter(old(file), i, outcome)
    {
      var data := Print(i);
      if outcome.Written? {
        file := Some([]);
        file := Some(if outcome.bytes < |data| then data[..outcome.bytes] else data);
      }
    }

    method GetBlockInfo() returns (ok: bool)
      modifies this`info
      ensures ok <==> file.Some? && Parse(file.value, old(info)).Some?
      ensures info == if ok then Parse(file.value, old(info)).value else old(info)
    {
      if file.None? { return false; }
      var read := Parse(file.value, info);
      if read.None? { return false; }
      info := read.value;
      return true;
    }

    /** One run of CheckAndRecoverEvent, up to the point where it has
        handled `feed`.  The blocks it fetches are those from the checkpoint to `end`; without
        a filter handler it returns at once. */
    method CheckAndRecoverEvent(hasHandler: bool, fetchable: Uint -> bool,
                                feed: seq<BlockInfo>, outcomes: seq<WriteOutcome>)
      returns (end: Option<Uint>)
      requires |feed| == |outcomes|
      modifies this
      ensures currentBlockHeight == old(currentBlockHeight)
      ensures !hasHandler ==> end == None && file == old(file)
      ensures hasHandler ==>
                var last := ReplayEnd(fetchable, ReplayStart(old(file), old(info)), currentBlockHeight);
                && end == Some(last)
                && file == if last < currentBlockHeight then old(file) else FileAfterAll(old(file), feed, outcomes)
    {
      hide Parse, FileAfter, Print;
      if !hasHandler {
        return None;
      }
      var ok := GetBlockInfo();
      if !ok {
        info := info.(blockNumber := 0);
      }
      var currentBlockNum: Uint := info.blockNumber;
      assert currentBlockNum == ReplayStart(old(file), old(info));
      hide ReplayStart;
      while currentBlockNum < currentBlockHeight
        invariant file == old(file) && currentBlockHeight == old(currentBlockHeight)
        invariant ReplayEnd(fetchable, currentBlockNum, currentBlockHeight)
               == ReplayEnd(fetchable, ReplayStart(old(file), old(info)), currentBlockHeight)
        decreases currentBlockHeight - currentBlockNum
      {
        if !fetchable(currentBlockNum) {
          return Some(currentBlockNum);
        }
        currentBlockNum := currentBlockNum + 1;
      }
      end := Some(currentBlockNum);
      HandleAll(feed, outcomes);
    }

    /** The receive loop over the notifications that arrive. */
    method HandleAll(feed: seq<BlockInfo>, outcomes: seq<WriteOutcome>)
      requires |feed| == |outcomes|
      modifies this`file
      ensures file == FileAfterAll(old(file), feed, outcomes)
    {
      hide FileAfter;
      for i := 0 to |feed|
        invariant FileAfterAll(file, feed[i..], outcomes[i..]) == FileAfterAll(old(file), feed, outcomes)
      {
        assert feed[i..][1..] == feed[i + 1..] && outcomes[i..][1..] == outcomes[i + 1..];
        SetBlockInfo(feed[i], outcomes[i]);
      }
    }
  }

  // ---- The protocol ----

  /** The committed chain: for every block, the positions of its transactions that the
      listener notifies, in order.  Blocks without such transactions are not notified. */
  type Blocks = nat -> seq<Int>

  const CHANNELBUFFER: nat := 1000

  datatype Phase = Down | Active | Stopped

  /** The file, and a process: its replay cursor, the height it read at start, the first block
      its listener reports, the channel, and the position in the chain that the listener
      reports next.  `committed` is how many blocks are known to be on the chain, from heights
      read and blocks reported; `fetched` and `received` are the history over all processes. */
  datatype Server = Server(file: Option<string>, phase: Phase, cursor: nat, height: Uint, first: Uint,
                           channel: seq<BlockInfo>, block: nat, index: nat, committed: nat,
                           fetched: set<nat>, received: set<BlockInfo>)

  /** A process reads the height and later registers its listener, which starts at the newest
      block of that moment: one below the height when nothing was committed in between, and
      any number of blocks above it otherwise. */
  datatype Step =
    | Start(height: Uint, first: Uint)
    | Fetch
    | FetchFails
    | Notify
    | NextBlock
    | Receive(outcome: WriteOutcome)
    | Crash

  const NEVER_STARTED: Server := Server(None, Down, 0, 0, 0, [], 0, 0, 0, {}, {})

  function Max(a: nat, b: nat): nat { if a < b then b else a }

  ghost predicate Enabled(chain: Blocks, s: Server, step: Step) {
    match step
    case Start(_, _) => s.phase == Down
    case Fetch => s.phase == Active && s.cursor < s.height
    case FetchFails => s.phase == Active && s.cursor < s.height
    case Notify =>
      s.phase != Down && s.block < TWO_TO_THE_64 && s.index < |chain(s.block)| && |s.channel| < CHANNELBUFFER
    case NextBlock => s.phase != Down && s.block < TWO_TO_THE_64 && s.index == |chain(s.block)|
    case Receive(_) => s.phase == Active && s.cursor >= s.height && s.channel != []
    case Crash => s.phase != Down
  }

  ghost function Do(chain: Blocks, s: Server, step: Step): Server
    requires Enabled(chain, s, step)
  {
    match step
    case Start(h, first) =>
      s.(phase := Active, cursor := Resume(s.file), height := h, first := first, channel := [],
         block := first, index := 0, committed := Max(s.committed, h))
    case Fetch => s.(fetched := s.fetched + {s.cursor}, cursor := s.cursor + 1)
    case FetchFails => s.(phase := Stopped)
    case Notify =>
      s.(channel := s.channel + [BlockInfo(s.block, chain(s.block)[s.index])], index := s.index + 1,
         committed := Max(s.committed, s.block + 1))
    case NextBlock => s.(block := s.block + 1, index := 0, committed := Max(s.committed, s.block + 1))
    case Receive(outcome) =>
      s.(channel := s.channel[1..], received := s.received + {s.channel[0]},
         file := FileAfter(s.file, s.channel[0], outcome))
    case Crash => s.(phase := Down, channel := [])
  }

  ghost predicate Allowed(chain: Blocks, s: Server, steps: seq<Step>)
    decreases |steps|
  {
    steps == [] || (Enabled(chain, s, steps[0]) && Allowed(chain, Do(chain, s, steps[0]), steps[1..]))
  }

  ghost function After(chain: Blocks, s: Server, steps: seq<Step>): Server
    requires Allowed(chain, s, steps)
    decreases |steps|
  {
    if steps == [] then s else After(chain, Do(chain, s, steps[0]), steps[1..])
  }

  // ---- The method runs the protocol ----

  ghost predicate InSession(steps: seq<Step>) {
    forall k :: 0 <= k < |steps| ==> !steps[k].Start? && !steps[k].Crash?
  }

  /** The notifications that a session's steps handle, and the outcomes of their writes. */
  ghost function Handled(chain: Blocks, s: Server, steps: seq<Step>): (r: (seq<BlockInfo>, seq<WriteOutcome>))
    requires Allowed(chain, s, steps)
    ensures |r.0| == |r.1|
    decreases |steps|
  {
    if steps == [] then ([], [])
    else
      var rest := Handled(chain, Do(chain, s, steps[0]), steps[1..]);
      match steps[0]
      case Receive(outcome) => ([s.channel[0]] + rest.0, [outcome] + rest.1)
      case _ => rest
  }

  /** The fetches that succeed and the one that fails agree with `fetchable`. */
  ghost predicate Agrees(chain: Blocks, s: Server, steps: seq<Step>, fetchable: Uint -> bool)
    requires Allowed(chain, s, steps)
    decreases |steps|
  {
    steps == [] ||
    (&& (steps[0].Fetch? ==> s.cursor < TWO_TO_THE_64 && fetchable(s.cursor))
     && (steps[0].FetchFails? ==> s.cursor < TWO_TO_THE_64 && !fetchable(s.cursor))
     && Agrees(chain, Do(chain, s, steps[0]), steps[1..], fetchable))
  }

  lemma {:induction false} SessionFrom(chain: Blocks, s: Server, steps: seq<Step>, fetchable: Uint -> bool)
    requires s.phase != Down && s.cursor < TWO_TO_THE_64 && s.height < TWO_TO_THE_64
    requires s.phase == Stopped ==> s.cursor < s.height && !fetchable(s.cursor)
    requires InSession(steps) && Allowed(chain, s, steps) && Agrees(chain, s, steps, fetchable)
    ensures var t := After(chain, s, steps);
            var (feed, outcomes) := Handled(chain, s, steps);
            && t.phase != Down && t.height == s.height && s.cursor <= t.cursor < TWO_TO_THE_64
            && t.file == FileAfterAll(s.file, feed, outcomes)
            && (t.cursor < t.height ==> feed == [])
            && (t.phase == Stopped || t.cursor >= t.height ==>
                  t.cursor == ReplayEnd(fetchable, s.cursor, s.height))
    decreases |steps|
  {
    if steps != [] {
      var next := Do(chain, s, steps[0]);
      assert InSession(steps[1..]);
      SessionFrom(chain, next, steps[1..], fetchable);
      if steps[0].Receive? {
        var rest := Handled(chain, next, steps[1..]);
        var all := Handled(chain, s, steps);
        assert all.0[1..] == rest.0 && all.1[1..] == rest.1;
      }
    }
  }

  /** Every session of the protocol is a run of CheckAndRecoverEvent: with the same fetch
      results and the notifications handled as its feed, the method replays to the same block
      and leaves the same file, however the listener's reports interleave with it. */
  lemma SessionIsMethodRun(chain: Blocks, s: Server, h: Uint, first: Uint, steps: seq<Step>, fetchable: Uint -> bool)
    requires s.phase == Down
    requires var started := Do(chain, s, Start(h, first));
             && InSession(steps) && Allowed(chain, started, steps) && Agrees(chain, started, steps, fetchable)
    ensures var started := Do(chain, s, Start(h, first));
            var t := After(chain, started, steps);
            var (feed, outcomes) := Handled(chain, started, steps);
            var end := ReplayEnd(fetchable, ReplayStart(s.file, BlockInfo(0, 0)), h);
            t.phase == Stopped || t.cursor >= h ==>
              && t.cursor == end
              && t.file == if end < h then s.file else FileAfterAll(s.file, feed, outcomes)
  {
    FreshStart(s.file);
    SessionFrom(chain, Do(chain, s, Start(h, first)), steps, fetchable);
  }
}
