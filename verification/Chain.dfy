/** Runs of the chaincode: the committed ledger and the log of committed events. */
module Chain {
  import opened Wrappers
  import opened Records
  import opened Chaincode

  datatype State = State(ledger: Ledger, log: seq<Event>)

  /** An invocation that answers an error is not committed. */
  function Commit(s: State, e: Effect): State {
    if e.response.Failure? then s
    else State(s.ledger + e.writes, match e.event case Some(ev) => s.log + [ev] case None => s.log)
  }

  function Step(shim: Shim, s: State, call: Call): State { Commit(s, InvokeEffect(shim, s.ledger, call)) }

  function Run(shim: Shim, s: State, calls: seq<Call>): State
    decreases |calls|
  {
    if calls == [] then s else Run(shim, Step(shim, s, calls[0]), calls[1..])
  }

  /** The state a successful Init leaves on an empty channel. */
  const INITIAL: State := State(map[KEEPALIVETEST := KEEPALIVETEST], [])

  /** A channel with the chaincode on it. */
  class Peer {
    const shim: Shim
    var ledger: Ledger
    var log: seq<Event>

    constructor (shim: Shim)
      ensures this.shim == shim && ledger == map[] && log == []
    {
      this.shim, ledger, log := shim, map[], [];
    }

    method Instantiate() returns (response: Response)
      modifies this
      ensures response.Success? <==> Writable(shim, KEEPALIVETEST)
      ensures ledger == if response.Success? then old(ledger)[KEEPALIVETEST := KEEPALIVETEST] else old(ledger)
      ensures log == old(log)
    {
      var stub := new Stub(shim, ledger);
      response := Init(stub);
      if response.Success? { ledger := ledger + stub.writes; }
    }

    method Submit(call: Call) returns (response: Response)
      modifies this
      ensures response == InvokeEffect(shim, old(ledger), call).response
      ensures State(ledger, log) == Step(shim, old(State(ledger, log)), call)
    {
      var stub := new Stub(shim, ledger);
      response := Invoke(stub, call);
      if response.Success? {
        ledger := ledger + stub.writes;
        if stub.event.Some? { log := log + [stub.event.value]; }
      }
    }

    method SubmitAll(calls: seq<Call>)
      modifies this
      ensures State(ledger, log) == Run(shim, old(State(ledger, log)), calls)
    {
      for i := 0 to |calls|
        invariant Run(shim, State(ledger, log), calls[i..]) == Run(shim, old(State(ledger, log)), calls)
      {
        assert calls[i..][1..] == calls[i + 1..];
        var _ := Submit(calls[i]);
      }
    }
  }

  // ---- Replaying the event log ----

  /** The record a committed event carries: its value, under the id inside it. */
  function RecordOf(json: Json, e: Event): Option<(Bytes, Bytes)> {
    match json.unmarshalResponse(e.payload)
    case None => None
    case Some(response) =>
      if response.payload.None? || |response.payload.value| != 1 then None
      else match json.unmarshalMessage(response.payload.value[0])
        case None => None
        case Some(m) => Some((m.factor.fabricTxId, response.payload.value[0]))
  }

  function Apply(json: Json, base: Ledger, e: Event): Ledger {
    match RecordOf(json, e)
    case None => base
    case Some((id, value)) => base[id := value]
  }

  function Replay(json: Json, base: Ledger, log: seq<Event>): Ledger
    decreases |log|
  {
    if log == [] then base else Apply(json, Replay(json, base, log[..|log| - 1]), log[|log| - 1])
  }

  /** The request bytes come from FormatRequestMessage: the value is a message and the key
      is the record id inside it. */
  ghost predicate Formatted(json: Json, request: Bytes) {
    exists m :: request == RequestBytes(json, m)
  }

  /** Any call at all, except that SaveData is only sent formatted requests. */
  ghost predicate Sent(json: Json, call: Call) {
    call.funcName == "SaveData" && |call.args| >= 2 ==> Formatted(json, call.args[1])
  }

  lemma SaveStep(shim: Shim, s: State, call: Call, m: Message)
    requires shim.json.Faithful() && call.funcName == "SaveData" && |call.args| >= 2 && |call.args[1]| > 0
    requires call.args[1] == RequestBytes(shim.json, m)
    requires Writable(shim, m.factor.fabricTxId)
    ensures var next := Step(shim, s, call);
            && next.ledger == s.ledger[m.factor.fabricTxId := shim.json.marshalMessage(m)]
            && |next.log| == |s.log| + 1 && next.log[..|s.log|] == s.log
            && RecordOf(shim.json, next.log[|s.log|]) == Some((m.factor.fabricTxId, shim.json.marshalMessage(m)))
  {
  }

  /** One invocation: the ledger and the log move together or not at all. */
  lemma StepReplays(shim: Shim, s: State, call: Call, base: Ledger)
    requires shim.json.Faithful() && Sent(shim.json, call)
    requires Replay(shim.json, base, s.log) == s.ledger
    ensures var next := Step(shim, s, call); Replay(shim.json, base, next.log) == next.ledger
  {
    var next := Step(shim, s, call);
    if call.funcName == "SaveData" && |call.args| >= 2 && |call.args[1]| > 0 {
      var m :| call.args[1] == RequestBytes(shim.json, m);
      if Writable(shim, m.factor.fabricTxId) {
        SaveStep(shim, s, call, m);
        assert next.log[..|next.log| - 1] == s.log;
      } else {
        assert shim.json.unmarshalRequest(call.args[1])
            == Some(InvokeRequest(m.factor.fabricTxId, shim.json.marshalMessage(m)));
        assert next == s;
      }
    } else {
      assert s.ledger + map[] == s.ledger;
      assert next == s;
    }
  }

  lemma {:induction false} RunReplaysFrom(shim: Shim, s: State, calls: seq<Call>, base: Ledger)
    requires shim.json.Faithful() && forall c :: c in calls ==> Sent(shim.json, c)
    requires Replay(shim.json, base, s.log) == s.ledger
    ensures var r := Run(shim, s, calls); Replay(shim.json, base, r.log) == r.ledger
    decreases |calls|
  {
    if calls != [] {
      assert calls[0] in calls;
      StepReplays(shim, s, calls[0], base);
      RunReplaysFrom(shim, Step(shim, s, calls[0]), calls[1..], base);
    }
  }

  /** Over every run, replaying the committed events over Init's entry rebuilds the ledger. */
  lemma LogReplaysToLedger(shim: Shim, calls: seq<Call>)
    requires shim.json.Faithful() && forall c :: c in calls ==> Sent(shim.json, c)
    ensures var r := Run(shim, INITIAL, calls);
            r.ledger == Replay(shim.json, map[KEEPALIVETEST := KEEPALIVETEST], r.log)
  {
    RunReplaysFrom(shim, INITIAL, calls, INITIAL.ledger);
  }

  // ---- The keepalive entry ----

  ghost predicate Overwrites(json: Json, e: Event) {
    RecordOf(json, e).Some? && RecordOf(json, e).value.0 == KEEPALIVETEST
  }

  lemma {:induction false} ReplayEntry(json: Json, log: seq<Event>)
    requires json.unmarshalMessage(KEEPALIVETEST) == None
    ensures var l := Replay(json, map[KEEPALIVETEST := KEEPALIVETEST], log);
            KEEPALIVETEST in l
            && (l[KEEPALIVETEST] == KEEPALIVETEST <==> forall e :: e in log ==> !Overwrites(json, e))
    decreases |log|
  {
    if log != [] {
      var front, last := log[..|log| - 1], log[|log| - 1];
      ReplayEntry(json, front);
      assert log == front + [last];
      assert last in log;
      assert Overwrites(json, last) ==> RecordOf(json, last).value.1 != KEEPALIVETEST;
    }
  }

  /** The liveness probe answers "Reached", with any tracking id and any second argument that
      passes the guard, and leaves nothing for the commit. */
  ghost predicate ProbeAnswers(shim: Shim, ledger: Ledger) {
    forall args: seq<Bytes> :: |args| >= 2 && args[1] != [] ==>
      InvokeEffect(shim, ledger, Call("KeepaliveQuery", args))
      == Effect(Success([0x52, 0x65, 0x61, 0x63, 0x68, 0x65, 0x64]), map[], None)
  }

  /** The probe fails, whatever its arguments. */
  ghost predicate ProbeFails(shim: Shim, ledger: Ledger) {
    forall args :: InvokeEffect(shim, ledger, Call("KeepaliveQuery", args)).response.Failure?
  }

  lemma ProbeIff(shim: Shim, ledger: Ledger)
    requires !shim.refusesGet(KEEPALIVETEST)
    ensures ProbeAnswers(shim, ledger) <==> KEEPALIVETEST in ledger && ledger[KEEPALIVETEST] == KEEPALIVETEST
    ensures ProbeFails(shim, ledger) <==> !ProbeAnswers(shim, ledger)
  {
    var args: seq<Bytes> := [[], [1]];
    InvokeProbes(shim, ledger, args);
    forall args: seq<Bytes> | |args| >= 2 && args[1] != []
      ensures OnlyAnswers(InvokeEffect(shim, ledger, Call("KeepaliveQuery", args)),
                          if KEEPALIVETEST in ledger && ledger[KEEPALIVETEST] == KEEPALIVETEST then Success(REACHED)
                          else Failure(WrongValue))
    {
      InvokeProbes(shim, ledger, args);
    }
    forall args: seq<Bytes> | |args| < 2 || args[1] == []
      ensures InvokeEffect(shim, ledger, Call("KeepaliveQuery", args)).response.Failure?
    {
      InvokeRejects(shim, ledger, Call("KeepaliveQuery", args));
    }
    hide InvokeEffect;
  }

  /** On every reachable ledger the liveness probe answers exactly as long as no committed
      event carries a record under the probe's own key. */
  lemma KeepaliveIffLogged(shim: Shim, calls: seq<Call>)
    requires shim.json.Faithful() && forall c :: c in calls ==> Sent(shim.json, c)
    requires !shim.refusesGet(KEEPALIVETEST) && shim.json.unmarshalMessage(KEEPALIVETEST) == None
    ensures var r := Run(shim, INITIAL, calls);
            ProbeAnswers(shim, r.ledger) <==> forall e :: e in r.log ==> !Overwrites(shim.json, e)
  {
    LogReplaysToLedger(shim, calls);
    ReplayEntry(shim.json, Run(shim, INITIAL, calls).log);
    ProbeIff(shim, Run(shim, INITIAL, calls).ledger);
  }

  /** A call that asks the chaincode to store a record under the probe's key. */
  predicate ClaimsProbeKey(shim: Shim, call: Call) {
    && call.funcName == "SaveData" && |call.args| >= 2 && |call.args[1]| > 0
    && shim.json.unmarshalRequest(call.args[1]).Some?
    && shim.json.unmarshalRequest(call.args[1]).value.key == KEEPALIVETEST
  }

  lemma StepProbe(shim: Shim, s: State, call: Call)
    requires shim.json.Faithful() && Sent(shim.json, call) && KEEPALIVETEST in s.ledger
    requires Writable(shim, KEEPALIVETEST) && shim.json.unmarshalMessage(KEEPALIVETEST) == None
    ensures var l := Step(shim, s, call).ledger;
            && KEEPALIVETEST in l
            && if ClaimsProbeKey(shim, call) then l[KEEPALIVETEST] != KEEPALIVETEST
               else l[KEEPALIVETEST] == s.ledger[KEEPALIVETEST]
  {
    if ClaimsProbeKey(shim, call) {
      var m :| call.args[1] == RequestBytes(shim.json, m);
      var r := InvokeRequest(m.factor.fabricTxId, shim.json.marshalMessage(m));
      assert shim.json.unmarshalRequest(shim.json.marshalRequest(r)) == Some(r);
      SaveStep(shim, s, call, m);
      assert shim.json.unmarshalMessage(shim.json.marshalMessage(m)) == Some(m);
    }
  }

  lemma {:induction false} RunProbe(shim: Shim, s: State, calls: seq<Call>)
    requires shim.json.Faithful() && forall c :: c in calls ==> Sent(shim.json, c)
    requires KEEPALIVETEST in s.ledger
    requires Writable(shim, KEEPALIVETEST) && shim.json.unmarshalMessage(KEEPALIVETEST) == None
    ensures var l := Run(shim, s, calls).ledger;
            && KEEPALIVETEST in l
            && (l[KEEPALIVETEST] == KEEPALIVETEST <==>
                  s.ledger[KEEPALIVETEST] == KEEPALIVETEST && forall c :: c in calls ==> !ClaimsProbeKey(shim, c))
    decreases |calls|
  {
    if calls != [] {
      assert calls == [calls[0]] + calls[1..];
      assert calls[0] in calls;
      StepProbe(shim, s, calls[0]);
      hide Step, ClaimsProbeKey, Sent;
      RunProbe(shim, Step(shim, s, calls[0]), calls[1..]);
    }
  }

  /** Over every run the liveness probe answers at the end exactly if no call asked to store a
      record under the probe's own key; after one such call it never answers again. */
  lemma KeepaliveIff(shim: Shim, calls: seq<Call>)
    requires shim.json.Faithful() && forall c :: c in calls ==> Sent(shim.json, c)
    requires Writable(shim, KEEPALIVETEST) && !shim.refusesGet(KEEPALIVETEST)
    requires shim.json.unmarshalMessage(KEEPALIVETEST) == None
    ensures ProbeAnswers(shim, Run(shim, INITIAL, calls).ledger)
       <==> forall c :: c in calls ==> !ClaimsProbeKey(shim, c)
    ensures ProbeAnswers(shim, Run(shim, INITIAL, calls).ledger)
       <==> !ProbeFails(shim, Run(shim, INITIAL, calls).ledger)
  {
    RunProbe(shim, INITIAL, calls);
    ProbeIff(shim, Run(shim, INITIAL, calls).ledger);
  }

  /** A single save of any record whose id is the probe's key silences the probe. */
  lemma OneSaveSilencesProbe(shim: Shim, trackId: Bytes, m: Message)
    requires shim.json.Faithful() && shim.json.unmarshalRequest([]) == None
    requires Writable(shim, KEEPALIVETEST) && !shim.refusesGet(KEEPALIVETEST)
    requires shim.json.unmarshalMessage(KEEPALIVETEST) == None && m.factor.fabricTxId == KEEPALIVETEST
    ensures var call := Call("SaveData", [trackId, RequestBytes(shim.json, m)]);
            Sent(shim.json, call)
            && ProbeFails(shim, Run(shim, INITIAL, [call]).ledger)
  {
    var call := Call("SaveData", [trackId, RequestBytes(shim.json, m)]);
    var r := InvokeRequest(m.factor.fabricTxId, shim.json.marshalMessage(m));
    assert shim.json.unmarshalRequest(shim.json.marshalRequest(r)) == Some(r);
    StepProbe(shim, INITIAL, call);
    assert [call][1..] == [];
    ProbeIff(shim, Run(shim, INITIAL, [call]).ledger);
  }
}
