/** The chaincode: Init and Invoke of chaincode/chaincode.go, the handlers of
    chaincode/handler/handler.go and the response builders of chaincode/utils/utils.go. */
module Chaincode {
  import opened Wrappers
  import opened Records
  import opened Paging

  /** The four letters "test": the key, and the value, that Init stores. */
  const KEEPALIVETEST: Bytes := [0x74, 0x65, 0x73, 0x74]

  const REACHED: Bytes := [0x52, 0x65, 0x61, 0x63, 0x68, 0x65, 0x64]  // "Reached"

  /** The characters of ASCII bytes. */
  function Text(b: Bytes): string { seq(|b|, i requires 0 <= i < |b| => b[i] as char) }

  lemma Texts()
    ensures Text(KEEPALIVETEST) == "test" && Text(REACHED) == "Reached"
  {
  }

  type Ledger = map<Bytes, Bytes>

  datatype Event = Event(name: string, payload: Bytes)

  datatype Fault =
    | BadArguments | NoSuchFunction | DecodeFailed | PutFailed | GetFailed | WrongValue
    | QueryFault(error: QueryError)

  /** shim.Success and shim.Error. */
  datatype Response = Success(payload: Bytes) | Failure(fault: Fault)

  /** What the stub takes from the peer: which keys it refuses to write or read besides the
      empty one, its rich query engine, and the texts of errors. */
  datatype Shim = Shim(json: Json,
                       refusesPut: Bytes -> bool,
                       refusesGet: Bytes -> bool,
                       query: (Ledger, Bytes) -> Option<Iterator>,
                       describe: Fault -> string)

  predicate Writable(shim: Shim, key: Bytes) { key != [] && !shim.refusesPut(key) }

  /** shim.ChaincodeStubInterface for one transaction: reads see the committed ledger, writes
      and the event wait for the commit. */
  class Stub {
    const shim: Shim
    const ledger: Ledger
    var writes: Ledger
    var event: Option<Event>

    constructor (shim: Shim, ledger: Ledger)
      ensures this.shim == shim && this.ledger == ledger && writes == map[] && event == None
    {
      this.shim, this.ledger, writes, event := shim, ledger, map[], None;
    }

    method PutState(key: Bytes, value: Bytes) returns (ok: bool)
      modifies this`writes
      ensures ok <==> Writable(shim, key)
      ensures writes == if ok then old(writes)[key := value] else old(writes)
    {
      ok := |key| != 0 && !shim.refusesPut(key);
      if ok { writes := writes[key := value]; }
    }

    method SetEvent(name: string, payload: Bytes) returns (ok: bool)
      modifies this`event
      ensures ok <==> name != ""
      ensures event == if ok then Some(Event(name, payload)) else old(event)
    {
      ok := |name| != 0;
      if ok { event := Some(Event(name, payload)); }
    }

    /** A missing key reads as no bytes. */
    method GetState(key: Bytes) returns (value: Option<Bytes>)
      ensures value == if shim.refusesGet(key) then None else Some(if key in ledger then ledger[key] else [])
    {
      if shim.refusesGet(key) { return None; }
      return Some(if key in ledger then ledger[key] else []);
    }
  }

  // ---- Response builders ----

  function StatusOf(shim: Shim, err: Option<Fault>): ResponseStatus {
    match err
    case None => ResponseStatus(0, "Success")
    case Some(fault) => ResponseStatus(1, shim.describe(fault))
  }

  function InvokePayload(shim: Shim, err: Option<Fault>, data: Option<seq<Bytes>>, trackId: Bytes): Bytes {
    shim.json.marshalResponse(InvokeResponse(trackId, StatusOf(shim, err), data))
  }

  method BuildInvokeResponse(stub: Stub, err: Option<Fault>, funcName: string, data: Option<seq<Bytes>>,
                             eventFlag: bool, trackId: Bytes)
    returns (payload: Bytes, e: Option<Fault>)
    modifies stub`event
    ensures payload == InvokePayload(stub.shim, err, data, trackId) && e == err
    ensures stub.event == if eventFlag && funcName != "" then Some(Event(funcName, payload)) else old(stub.event)
  {
    payload, e := InvokePayload(stub.shim, err, data, trackId), err;
    if eventFlag {
      var _ := stub.SetEvent(funcName, payload);
    }
  }

  /** QueryResponse.  The error it is given goes into the status; what it returns as error is
      that of the marshalling, so a failing query is still a successful invocation. */
  function QueryPayload(shim: Shim, err: Option<Fault>, data: Option<seq<Bytes>>, page: Page, trackId: Bytes): Bytes {
    shim.json.marshalQueryResponse(QueryResponse(trackId, StatusOf(shim, err), page, data))
  }

  /** A query without records has a nil list, which is marshalled like no list at all. */
  function Listed(list: seq<Bytes>): Option<seq<Bytes>> { if list == [] then None else Some(list) }

  // ---- Handlers ----

  /** What Invoke makes of the payload and error a handler returns. */
  function Respond(payload: Bytes, err: Option<Fault>): Response {
    match err case None => Success(payload) case Some(fault) => Failure(fault)
  }

  /** What one invocation answers and what it leaves for the commit. */
  datatype Effect = Effect(response: Response, writes: Ledger, event: Option<Event>)

  /** The stub after an invocation with effect `e`, and the answer given. */
  ghost predicate Leaves(writes: Ledger, event: Option<Event>, response: Response,
                         writesBefore: Ledger, eventBefore: Option<Event>, e: Effect) {
    && response == e.response
    && writes == writesBefore + e.writes
    && event == if e.event.Some? then e.event else eventBefore
  }

  function Fails(fault: Fault): Effect { Effect(Failure(fault), map[], None) }

  function SaveEffect(shim: Shim, funcName: string, args: seq<Bytes>): Effect
    requires |args| >= 2
  {
    match shim.json.unmarshalRequest(args[1])
    case None => Fails(DecodeFailed)
    case Some(request) =>
      if !Writable(shim, request.key) then Fails(PutFailed)
      else
        var payload := InvokePayload(shim, None, Some([request.value]), args[0]);
        Effect(Success(payload), map[request.key := request.value],
               if funcName == "" then None else Some(Event(funcName, payload)))
  }

  function DslAnswer(shim: Shim, ledger: Ledger, args: seq<Bytes>): Bytes
    requires |args| >= 2
  {
    match shim.json.unmarshalQuery(args[1])
    case Err(partial) => QueryPayload(shim, Some(DecodeFailed), None, partial.splitPage, args[0])
    case Ok(q) =>
      var result := shim.query(ledger, q.dslSyntax);
      match Answer(result, q)
      case Err(e) => QueryPayload(shim, Some(QueryFault(e)), None, PageAfter(result, q), args[0])
      case Ok(list) => QueryPayload(shim, None, Listed(list), PageAfter(result, q), args[0])
  }

  function KeepaliveAnswer(shim: Shim, ledger: Ledger): Response {
    if shim.refusesGet(KEEPALIVETEST) then Failure(GetFailed)
    else if KEEPALIVETEST !in ledger || ledger[KEEPALIVETEST] != KEEPALIVETEST then Failure(WrongValue)
    else Success(REACHED)
  }

  method SaveData(stub: Stub, funcName: string, args: seq<Bytes>) returns (response: Response)
    requires |args| >= 2
    modifies stub
    ensures Leaves(stub.writes, stub.event, response,
                   old(stub.writes), old(stub.event), SaveEffect(stub.shim, funcName, args))
  {
    var request := stub.shim.json.unmarshalRequest(args[1]);
    if request.None? {
      var payload, e := BuildInvokeResponse(stub, Some(DecodeFailed), funcName, None, false, args[0]);
      return Respond(payload, e);
    }
    var ok := stub.PutState(request.value.key, request.value.value);
    if !ok {
      var payload, e := BuildInvokeResponse(stub, Some(PutFailed), funcName, None, false, args[0]);
      return Respond(payload, e);
    }
    var list: seq<Bytes> := [];
    list := list + [request.value.value];
    assert list == [request.value.value];
    var payload, e := BuildInvokeResponse(stub, None, funcName, Some(list), true, args[0]);
    return Respond(payload, e);
  }

  method DslQuery(stub: Stub, args: seq<Bytes>) returns (response: Response)
    requires |args| >= 2
    ensures response == Success(DslAnswer(stub.shim, stub.ledger, args))
  {
    var decoded := stub.shim.json.unmarshalQuery(args[1]);
    if decoded.Err? {
      return Success(QueryPayload(stub.shim, Some(DecodeFailed), None, decoded.error.splitPage, args[0]));
    }
    var request := new QueryRequest(decoded.value);
    var found := stub.shim.query(stub.ledger, request.dslSyntax);
    var result := GetValueByDSL(found, request);
    match result {
      case Err(e) =>
        return Success(QueryPayload(stub.shim, Some(QueryFault(e)), None, request.splitPage, args[0]));
      case Ok(list) =>
        return Success(QueryPayload(stub.shim, None, Listed(list), request.splitPage, args[0]));
    }
  }

  method KeepaliveQuery(stub: Stub) returns (response: Response)
    ensures response == KeepaliveAnswer(stub.shim, stub.ledger)
  {
    var targetValue := stub.GetState(KEEPALIVETEST);
    if targetValue.None? { return Failure(GetFailed); }
    if targetValue.value != KEEPALIVETEST { return Failure(WrongValue); }
    return Success(REACHED);
  }

  // ---- Init and Invoke ----

  datatype Call = Call(funcName: string, args: seq<Bytes>)

  function InvokeEffect(shim: Shim, ledger: Ledger, call: Call): Effect {
    if |call.args| < 2 || |call.args[1]| == 0 then Fails(BadArguments)
    else match call.funcName
      case "SaveData" => SaveEffect(shim, call.funcName, call.args)
      case "DslQuery" => Effect(Success(DslAnswer(shim, ledger, call.args)), map[], None)
      case "KeepaliveQuery" => Effect(KeepaliveAnswer(shim, ledger), map[], None)
      case _ => Fails(NoSuchFunction)
  }

  method Init(stub: Stub) returns (response: Response)
    modifies stub
    ensures response.Success? <==> Writable(stub.shim, KEEPALIVETEST)
    ensures response.Success? ==> Text(response.payload) == "SUCCESS"
    ensures stub.writes ==
            if response.Success? then old(stub.writes)[KEEPALIVETEST := KEEPALIVETEST] else old(stub.writes)
    ensures stub.event == old(stub.event)
  {
    var ok := stub.PutState(KEEPALIVETEST, KEEPALIVETEST);
    if !ok { return Failure(PutFailed); }
    return Success([0x53, 0x55, 0x43, 0x43, 0x45, 0x53, 0x53]);
  }

  method Invoke(stub: Stub, call: Call) returns (response: Response)
    modifies stub
    ensures Leaves(stub.writes, stub.event, response,
                   old(stub.writes), old(stub.event), InvokeEffect(stub.shim, stub.ledger, call))
  {
    if |call.args| < 2 || |call.args[1]| == 0 {
      return Failure(BadArguments);
    }
    match call.funcName {
      case "SaveData" => response := SaveData(stub, call.funcName, call.args);
      case "DslQuery" => response := DslQuery(stub, call.args);
      case "KeepaliveQuery" => response := KeepaliveQuery(stub);
      case _ => response := Failure(NoSuchFunction);
    }
  }

  // ---- What each invocation does, by its name and its request ----

  /** An invocation that answers an error or only reads: nothing is left for the commit. */
  ghost predicate OnlyAnswers(e: Effect, response: Response) {
    e.response == response && e.writes == map[] && e.event == None
  }

  /** The guard, and names that are no function of the chaincode. */
  lemma InvokeRejects(shim: Shim, ledger: Ledger, call: Call)
    ensures |call.args| < 2 || call.args[1] == [] ==>
              OnlyAnswers(InvokeEffect(shim, ledger, call), Failure(BadArguments))
    ensures |call.args| >= 2 && call.args[1] != [] && call.funcName !in {"SaveData", "DslQuery", "KeepaliveQuery"} ==>
              OnlyAnswers(InvokeEffect(shim, ledger, call), Failure(NoSuchFunction))
  {
  }

  /** A save writes the request's value under the request's key and sets one event, whose bytes
      are also the answer; undecodable bytes, an empty key and a key that the peer refuses
      answer an error. */
  lemma InvokeSaves(shim: Shim, ledger: Ledger, args: seq<Bytes>)
    requires |args| >= 2 && args[1] != []
    ensures var e := InvokeEffect(shim, ledger, Call("SaveData", args));
            match shim.json.unmarshalRequest(args[1])
            case None => OnlyAnswers(e, Failure(DecodeFailed))
            case Some(r) =>
              if r.key == [] || shim.refusesPut(r.key) then OnlyAnswers(e, Failure(PutFailed))
              else
                var payload := shim.json.marshalResponse(
                  InvokeResponse(args[0], ResponseStatus(0, "Success"), Some([r.value])));
                e == Effect(Success(payload), map[r.key := r.value], Some(Event("SaveData", payload)))
  {
  }

  /** The handler itself, under another name: the event has that name, and none has no event. */
  lemma SavesUnder(shim: Shim, name: string, args: seq<Bytes>, r: InvokeRequest)
    requires |args| >= 2 && shim.json.unmarshalRequest(args[1]) == Some(r) && r.key != [] && !shim.refusesPut(r.key)
    ensures var e := SaveEffect(shim, name, args);
            && e.response.Success? && e.writes == map[r.key := r.value]
            && e.event == if name == "" then None else Some(Event(name, e.response.payload))
  {
  }

  /** The probe answers "Reached" if and only if the peer reads the key "test" and finds "test"
      there; it never writes. */
  lemma InvokeProbes(shim: Shim, ledger: Ledger, args: seq<Bytes>)
    requires |args| >= 2 && args[1] != []
    ensures var key: Bytes := [0x74, 0x65, 0x73, 0x74];
            var reached: Bytes := [0x52, 0x65, 0x61, 0x63, 0x68, 0x65, 0x64];
            && Text(key) == "test" && Text(reached) == "Reached"
            && OnlyAnswers(InvokeEffect(shim, ledger, Call("KeepaliveQuery", args)),
                           if shim.refusesGet(key) then Failure(GetFailed)
                           else if key in ledger && ledger[key] == key then Success(reached)
                           else Failure(WrongValue))
  {
  }

  /** The answer to a ledger query, before it is marshalled. */
  ghost predicate AnswersQuery(shim: Shim, ledger: Ledger, args: seq<Bytes>, r: QueryResponse)
    requires |args| >= 2
  {
    r.trackId == args[0] &&
    match shim.json.unmarshalQuery(args[1])
    case Err(partial) =>
      r.status == ResponseStatus(1, shim.describe(DecodeFailed)) && r.page == partial.splitPage && r.payload == None
    case Ok(q) =>
      var result := shim.query(ledger, q.dslSyntax);
      if q.dslSyntax == [] then
        r == QueryResponse(args[0], ResponseStatus(1, shim.describe(QueryFault(EmptyDsl))), q.splitPage, None)
      else if result == None then
        r == QueryResponse(args[0], ResponseStatus(1, shim.describe(QueryFault(QueryFailed))), q.splitPage, None)
      else
        && r.page == PageAfter(result, q)
        && if exists k :: 0 <= k < |result.value| && result.value[k] == None then
             r.status == ResponseStatus(1, shim.describe(QueryFault(NextFailed))) && r.payload == None
           else
             && r.status == ResponseStatus(0, "Success")
             && Answer(result, q).Ok?
             && match r.payload
                case None => Answer(result, q).value == []
                case Some(list) => list != [] && list == Answer(result, q).value
  }

  /** A query is always a successful invocation that leaves nothing for the commit.  What it
      answers says why it failed, or lists what was found; nothing found is no list. */
  lemma InvokeQueries(shim: Shim, ledger: Ledger, args: seq<Bytes>) returns (r: QueryResponse)
    requires |args| >= 2 && args[1] != []
    ensures AnswersQuery(shim, ledger, args, r)
    ensures OnlyAnswers(InvokeEffect(shim, ledger, Call("DslQuery", args)),
                        Success(shim.json.marshalQueryResponse(r)))
  {
    hide PageAfter, Answer;
    match shim.json.unmarshalQuery(args[1]) {
      case Err(partial) =>
        r := QueryResponse(args[0], ResponseStatus(1, shim.describe(DecodeFailed)), partial.splitPage, None);
      case Ok(q) =>
        var result := shim.query(ledger, q.dslSyntax);
        AnswerErrIff(result, q);
        var n := PageAfterIs(result, q);
        match Answer(result, q) {
          case Err(e) =>
            r := QueryResponse(args[0], ResponseStatus(1, shim.describe(QueryFault(e))), PageAfter(result, q), None);
            if q.dslSyntax == [] {
              assert e == EmptyDsl;
            } else if result == None {
              assert e == QueryFailed;
            } else {
              assert e == NextFailed;
            }
          case Ok(list) =>
            r := QueryResponse(args[0], ResponseStatus(0, "Success"), PageAfter(result, q),
                               if list == [] then None else Some(list));
        }
    }
  }
}
