/** Turning a committed event back into records for one user: FilterEvent of
    eventserver/handle/filterevent.go. */
module FilterEvent {
  import opened Wrappers
  import opened Records
  import opened Envelope

  // The Event of eventserver/handle/event.go and its parts.
  datatype ContentDef = ContentDef(contentType: string, trackId: Bytes, language: string)
  datatype Ack = Ack(level: string, callback: string)
  datatype Header = Header(contentDef: ContentDef, ack: Ack, status: ResponseStatus)
  datatype Command = Command(uri: string, action: string, desc: string)
  datatype Contents = Contents(schema: string, payload: seq<Factor>, command: Command)
  datatype EventResponse = EventResponse(header: Header, contents: Contents)

  /** The indexing of an empty payload panics. */
  datatype Outcome<+T> = Panics | Dropped | Emitted(value: T)

  function ResponseFor(data: InvokeResponse, payload: seq<Factor>): EventResponse {
    EventResponse(Header(ContentDef("application/json", data.trackId, "zh-CN"), Ack("notRequired", ""), data.status),
                  Contents("/schema/factorList.json", payload, Command("", "Call", "")))
  }

  function Filter(env: Env, userAlias: string, value: Bytes): Outcome<EventResponse> {
    match env.json.unmarshalResponse(value)
    case None => Dropped
    case Some(data) =>
      if data.payload.None? || data.payload.value == [] then Panics
      else match env.json.unmarshalMessage(data.payload.value[0])
        case None => Dropped
        case Some(m) => Emitted(ResponseFor(data, [Open(env, userAlias, m)]))
  }

  /** FilterEvent: the response, marshalled. */
  method Run(env: Env, marshalEvent: EventResponse -> Bytes, userAlias: string, value: Bytes)
    returns (outcome: Outcome<Bytes>)
    ensures outcome == match Filter(env, userAlias, value)
                       case Panics => Panics
                       case Dropped => Dropped
                       case Emitted(response) => Emitted(marshalEvent(response))
  {
    var responseData := env.json.unmarshalResponse(value);
    if responseData.None? {
      return Dropped;
    }
    var iReqs: seq<Bytes> := [];
    if responseData.value.payload.Some? {
      iReqs := responseData.value.payload.value;
    }
    if |iReqs| == 0 {
      return Panics;
    }
    var message := env.json.unmarshalMessage(iReqs[0]);
    if message.None? {
      return Dropped;
    }
    var payload := new FactorList();
    FormatResponseMessage(env, userAlias, payload, [message.value]);
    assert payload.items == [Open(env, userAlias, message.value)];
    var eventResponse := EventResponse(
      Header(ContentDef("application/json", responseData.value.trackId, "zh-CN"),
             Ack("notRequired", ""), responseData.value.status),
      Contents("/schema/factorList.json", payload.items, Command("", "Call", "")));
    return Emitted(marshalEvent(eventResponse));
  }

  /** The fixed part of an event and what it copies from the chaincode's response. */
  ghost predicate IsAnswer(e: EventResponse, trackId: Bytes, status: ResponseStatus) {
    && e.header.contentDef.contentType == "application/json" && e.header.contentDef.language == "zh-CN"
    && e.header.contentDef.trackId == trackId && e.header.status == status
    && e.header.ack.level == "notRequired" && e.header.ack.callback == ""
    && e.contents.schema == "/schema/factorList.json"
    && e.contents.command.uri == "" && e.contents.command.action == "Call" && e.contents.command.desc == ""
  }

  /** What becomes of event bytes: dropped exactly if they, or the first element of their list,
      do not decode; a panic exactly if the list is empty or missing; and otherwise one factor,
      which is the first message as the user reads it, whatever else is in the list. */
  lemma FilterIs(env: Env, userAlias: string, value: Bytes)
    ensures var decoded := env.json.unmarshalResponse(value);
            var r := Filter(env, userAlias, value);
            var empty := decoded.Some? && (decoded.value.payload == None || decoded.value.payload == Some([]));
            && (r == Panics <==> empty)
            && (r == Dropped <==>
                  decoded == None || (!empty && env.json.unmarshalMessage(decoded.value.payload.value[0]) == None))
            && (r.Emitted? ==>
                  && IsAnswer(r.value, decoded.value.trackId, decoded.value.status)
                  && var m := env.json.unmarshalMessage(decoded.value.payload.value[0]).value;
                     r.value.contents.payload == [Open(env, userAlias, m)])
  {
    hide Open;
  }
}
