/** A record's whole way: sealed by the sender's server, saved by the chaincode, and read back
    from the event stream or from the ledger. */
module Lifecycle {
  import opened Wrappers
  import opened Records
  import opened Envelope
  import opened Chaincode
  import opened Chain
  import opened Paging
  import FilterEvent
  import BlockLookup
  import BlockContainment
  import BlockRows
  import BlockGuarantee

  /** A factor to save, the random key drawn for it, and the request's tracking id. */
  datatype Save = Save(factor: Factor, key: Bytes, trackId: Bytes)

  /** The server and the chaincode speak the same JSON, in which records survive marshalling
      and the empty text is neither a request nor a query. */
  ghost predicate Compatible(env: Env, shim: Shim) {
    && env.json == shim.json && shim.json.Faithful()
    && shim.json.unmarshalRequest([]) == None && shim.json.unmarshalQuery([]).Err?
  }

  predicate Sealable(env: Env, sv: Save) { Seal(env, sv.factor, sv.key).Ok? }

  function CallFor(env: Env, sv: Save): Call
    requires Sealable(env, sv)
  {
    Call("SaveData", [sv.trackId, RequestBytes(env.json, Seal(env, sv.factor, sv.key).value)])
  }

  /** The user is meant to read the record, and can. */
  ghost predicate Entitled(env: Env, user: string, f: Factor) {
    f.cryptoFlag == 1 ==> IsRecipient(f, user) && CanUnwrap(env, user)
  }

  /** One save, committed. */
  lemma SaveCommits(env: Env, shim: Shim, s: State, sv: Save)
    requires Compatible(env, shim) && Sealable(env, sv) && Writable(shim, sv.factor.fabricTxId)
    ensures var m := Seal(env, sv.factor, sv.key).value;
            var next := Step(shim, s, CallFor(env, sv));
            && next.ledger == s.ledger[sv.factor.fabricTxId := shim.json.marshalMessage(m)]
            && next.log == s.log + [Event("SaveData", SavedPayload(shim, sv.trackId, m))]
  {
  }

  function SavedPayload(shim: Shim, trackId: Bytes, m: Message): Bytes {
    InvokePayload(shim, None, Some([shim.json.marshalMessage(m)]), trackId)
  }

  lemma FilterSaved(env: Env, shim: Shim, trackId: Bytes, m: Message, alias: string)
    requires Compatible(env, shim)
    ensures FilterEvent.Filter(env, alias, SavedPayload(shim, trackId, m)) ==
            FilterEvent.Emitted(FilterEvent.ResponseFor(
              InvokeResponse(trackId, ResponseStatus(0, "Success"), Some([shim.json.marshalMessage(m)])),
              [Open(env, alias, m)]))
  {
    var r := InvokeResponse(trackId, ResponseStatus(0, "Success"), Some([shim.json.marshalMessage(m)]));
    assert shim.json.unmarshalResponse(shim.json.marshalResponse(r)) == Some(r);
  }

  /** The event path: the event that saving a factor commits passes the filter with one
      payload element, which is the original factor exactly if the alias may read it, the
      record is not encrypted, or there is nothing in it to encrypt. */
  lemma EventPathRoundTrip(env: Env, shim: Shim, s: State, sv: Save, alias: string)
    requires Compatible(env, shim) && Sealable(env, sv) && Writable(shim, sv.factor.fabricTxId)
    requires IsRecipient(sv.factor, alias) ==> CanUnwrap(env, alias)
    ensures var next := Step(shim, s, CallFor(env, sv));
            && |next.log| == |s.log| + 1
            && RecordOf(shim.json, next.log[|s.log|]).Some?  // exactly one payload element
            && var r := FilterEvent.Filter(env, alias, next.log[|s.log|].payload);
               && r.Emitted? && |r.value.contents.payload| == 1
               && FilterEvent.IsAnswer(r.value, sv.trackId, ResponseStatus(0, "Success"))
               && (r.value.contents.payload == [sv.factor] <==>
                     sv.factor.cryptoFlag != 1 || IsRecipient(sv.factor, alias) || sv.factor.txData == [])
  {
    var m := Seal(env, sv.factor, sv.key).value;
    SaveCommits(env, shim, s, sv);
    FilterSaved(env, shim, sv.trackId, m, alias);
    OpensIff(env, sv.factor, sv.key, alias);
    assert [Open(env, alias, m)] == [sv.factor] <==> Open(env, alias, m) == sv.factor;
  }

  // ---- What the ledger holds after a run ----

  /** What clients do: save a factor, or invoke anything else. */
  datatype Action = Send(save: Save) | Other(call: Call)

  /** A save is committed if the factor can be sealed and the peer takes its id. */
  predicate Commits(env: Env, shim: Shim, sv: Save) { Sealable(env, sv) && Writable(shim, sv.factor.fabricTxId) }

  /** The call is not a save of its own: its function differs or it carries no request. */
  predicate NoSave(shim: Shim, call: Call) {
    call.funcName == "SaveData" ==> |call.args| < 2 || shim.json.unmarshalRequest(call.args[1]) == None
  }

  ghost predicate Clients(shim: Shim, actions: seq<Action>) {
    forall a :: a in actions && a.Other? ==> NoSave(shim, a.call)
  }

  /** The calls that reach the chaincode: a factor that cannot be sealed is not sent. */
  function CallsOf(env: Env, actions: seq<Action>): seq<Call>
    decreases |actions|
  {
    if actions == [] then []
    else
      CallsOf(env, actions[..|actions| - 1]) +
      match actions[|actions| - 1]
      case Send(sv) => if Sealable(env, sv) then [CallFor(env, sv)] else []
      case Other(call) => [call]
  }

  /** The last committed save under a record id. */
  function Latest(env: Env, shim: Shim, actions: seq<Action>, id: Bytes): (r: Option<Save>)
    ensures r.Some? ==> Commits(env, shim, r.value) && r.value.factor.fabricTxId == id && Send(r.value) in actions
    decreases |actions|
  {
    if actions == [] then None
    else
      var last := actions[|actions| - 1];
      if last.Send? && last.save.factor.fabricTxId == id && Commits(env, shim, last.save) then Some(last.save)
      else Latest(env, shim, actions[..|actions| - 1], id)
  }

  lemma {:induction false} RunSplit(shim: Shim, s: State, calls: seq<Call>, last: Call)
    ensures Run(shim, s, calls + [last]) == Step(shim, Run(shim, s, calls), last)
    decreases |calls|
  {
    if calls == [] {
      assert [] + [last] == [last];
    } else {
      assert (calls + [last])[1..] == calls[1..] + [last];
      RunSplit(shim, Step(shim, s, calls[0]), calls[1..], last);
    }
  }

  /** A save that the peer refuses, and any call that is no save, leaves everything as it was. */
  lemma RefusedSave(env: Env, shim: Shim, s: State, sv: Save)
    requires Compatible(env, shim) && Sealable(env, sv) && !Writable(shim, sv.factor.fabricTxId)
    ensures Step(shim, s, CallFor(env, sv)) == s
  {
    var m := Seal(env, sv.factor, sv.key).value;
    var r := InvokeRequest(m.factor.fabricTxId, shim.json.marshalMessage(m));
    assert shim.json.unmarshalRequest(shim.json.marshalRequest(r)) == Some(r);
  }

  lemma NoSaveStep(shim: Shim, s: State, call: Call)
    requires NoSave(shim, call)
    ensures Step(shim, s, call) == s
  {
    assert s.ledger + map[] == s.ledger;
  }

  /** The state after one more action. */
  lemma ActionStep(env: Env, shim: Shim, s: State, actions: seq<Action>, last: Action)
    requires Compatible(env, shim) && (last.Other? ==> NoSave(shim, last.call))
    ensures var before, after := Run(shim, s, CallsOf(env, actions)), Run(shim, s, CallsOf(env, actions + [last]));
            if last.Send? && Commits(env, shim, last.save) then after == Step(shim, before, CallFor(env, last.save))
            else after == before
  {
    var all := actions + [last];
    assert all[..|all| - 1] == actions;
    var calls := CallsOf(env, actions);
    var before := Run(shim, s, calls);
    match last {
      case Other(call) =>
        RunSplit(shim, s, calls, call);
        NoSaveStep(shim, before, call);
      case Send(sv) =>
        if Sealable(env, sv) {
          RunSplit(shim, s, calls, CallFor(env, sv));
          if !Writable(shim, sv.factor.fabricTxId) { RefusedSave(env, shim, before, sv); }
        } else {
          assert calls + [] == calls;
        }
    }
  }

  /** After any run of saves, refused saves and other invocations, a record id holds the sealed
      form of the last factor committed under it; no other id but Init's is in the ledger. */
  lemma {:induction false} LedgerHoldsLatest(env: Env, shim: Shim, actions: seq<Action>, id: Bytes)
    requires Compatible(env, shim) && Clients(shim, actions)
    ensures var ledger := Run(shim, INITIAL, CallsOf(env, actions)).ledger;
            match Latest(env, shim, actions, id)
            case Some(sv) =>
              id in ledger && ledger[id] == shim.json.marshalMessage(Seal(env, sv.factor, sv.key).value)
            case None => (id in ledger <==> id == KEEPALIVETEST) && (id in ledger ==> ledger[id] == KEEPALIVETEST)
    decreases |actions|
  {
    if actions != [] {
      var front, last := actions[..|actions| - 1], actions[|actions| - 1];
      assert actions == front + [last] && last in actions;
      LedgerHoldsLatest(env, shim, front, id);
      ActionStep(env, shim, INITIAL, front, last);
      if last.Send? && Commits(env, shim, last.save) {
        SaveCommits(env, shim, Run(shim, INITIAL, CallsOf(env, front)), last.save);
      }
      hide Run, Step, CallsOf, Seal, Commits;
    }
  }

  /** The server's view of stored values: undecodable ones are skipped. */
  function DecodeAll(json: Json, values: seq<Bytes>): seq<Message> {
    if values == [] then []
    else (match json.unmarshalMessage(values[0]) case Some(m) => [m] case None => [])
         + DecodeAll(json, values[1..])
  }

  /** One value decides nothing about the others. */
  lemma {:induction false} DecodeAllConcat(json: Json, a: seq<Bytes>, b: seq<Bytes>)
    ensures DecodeAll(json, a + b) == DecodeAll(json, a) + DecodeAll(json, b)
    ensures forall v, m :: json.unmarshalMessage(v) == Some(m) ==> DecodeAll(json, [v]) == [m]
    ensures forall v :: json.unmarshalMessage(v) == None ==> DecodeAll(json, [v]) == []
    decreases |a|
  {
    if a == [] {
      assert a + b == b;
    } else {
      assert (a + b)[1..] == a[1..] + b;
      DecodeAllConcat(json, a[1..], b);
    }
  }

  /** A query result shows ledger entries under saved ids. */
  ghost predicate Shows(env: Env, shim: Shim, ledger: Ledger, actions: seq<Action>, rs: seq<KeyValue>) {
    forall i :: 0 <= i < |rs| ==>
      Latest(env, shim, actions, rs[i].key).Some? && rs[i].key in ledger && rs[i].value == ledger[rs[i].key]
  }

  /** `ms` are the sealed forms of the last committed saves under the ids of `rs`. */
  ghost predicate AreLatest(env: Env, shim: Shim, actions: seq<Action>, rs: seq<KeyValue>, ms: seq<Message>) {
    && |ms| == |rs|
    && forall i :: 0 <= i < |rs| ==>
         && Latest(env, shim, actions, rs[i].key).Some?
         && var sv := Latest(env, shim, actions, rs[i].key).value;
            ms[i] == Seal(env, sv.factor, sv.key).value
  }

  lemma {:induction false} DecodeStored(env: Env, shim: Shim, actions: seq<Action>, rs: seq<KeyValue>)
    requires Compatible(env, shim) && Clients(shim, actions)
    requires Shows(env, shim, Run(shim, INITIAL, CallsOf(env, actions)).ledger, actions, rs)
    ensures AreLatest(env, shim, actions, rs, DecodeAll(shim.json, Project(rs, false)))
    decreases |rs|
  {
    hide Run, Seal, Latest, CallsOf, Clients;
    if rs != [] {
      LedgerHoldsLatest(env, shim, actions, rs[0].key);
      assert Project(rs, false)[1..] == Project(rs[1..], false);
      DecodeStored(env, shim, actions, rs[1..]);
      var sv := Latest(env, shim, actions, rs[0].key).value;
      assert shim.json.unmarshalMessage(rs[0].value) == Some(Seal(env, sv.factor, sv.key).value);
    }
  }

  /** What a client decodes from the answer to a ledger query: it is always a successful
      invocation that commits nothing; its status tells whether the query succeeded.  An empty
      page and a missing one look the same. */
  lemma DslDelivers(env: Env, shim: Shim, ledger: Ledger, trackId: Bytes, q: Query)
    requires Compatible(env, shim)
    ensures var e := InvokeEffect(shim, ledger, Call("DslQuery", [trackId, shim.json.marshalQuery(q)]));
            var result := shim.query(ledger, q.dslSyntax);
            && e.response.Success? && e.writes == map[] && e.event == None
            && var r := shim.json.unmarshalQueryResponse(e.response.payload);
               && r.Some? && AnswersQuery(shim, ledger, [trackId, shim.json.marshalQuery(q)], r.value)
               && r.value.trackId == trackId && r.value.page == PageAfter(result, q)
               && (r.value.status.statusCode == 0 <==> Answer(result, q).Ok?)
               && r.value.payload == match Answer(result, q) case Ok(list) => Listed(list) case Err(_) => None
  {
    var args := [trackId, shim.json.marshalQuery(q)];
    assert shim.json.unmarshalQuery(args[1]) == Ok(q);
    var result := shim.query(ledger, q.dslSyntax);
    var r := InvokeQueries(shim, ledger, args);
    AnswerErrIff(result, q);
    assert shim.json.unmarshalQueryResponse(shim.json.marshalQueryResponse(r)) == Some(r);
    hide InvokeEffect, Answer, PageAfter;
  }

  /** What a user reads from the bytes that answer a ledger query. */
  function ReadAnswer(env: Env, user: string, payload: Bytes): seq<Factor> {
    match env.json.unmarshalQueryResponse(payload)
    case None => []
    case Some(r) =>
      match r.payload
      case None => []
      case Some(list) => OpenAll(env, user, DecodeAll(env.json, list))
  }

  /** The query path: after any run of clients, a page of a ledger query, decoded and opened by
      a user entitled to its records, is the list of the factors last committed under the ids
      on that page, in the order of the query result. */
  lemma QueryPathRoundTrip(env: Env, shim: Shim, actions: seq<Action>, trackId: Bytes, q: Query, user: string)
    requires Compatible(env, shim) && Clients(shim, actions) && q.dslSyntax != [] && !q.blockFlag
    requires forall a :: a in actions && a.Send? && Commits(env, shim, a.save) ==> Entitled(env, user, a.save.factor)
    requires var ledger := Run(shim, INITIAL, CallsOf(env, actions)).ledger;
             var it := shim.query(ledger, q.dslSyntax);
             it.Some? && |ReadAll(it.value)| == |it.value| && Shows(env, shim, ledger, actions, ReadAll(it.value))
    ensures var ledger := Run(shim, INITIAL, CallsOf(env, actions)).ledger;
            var chosen := Select(ReadAll(shim.query(ledger, q.dslSyntax).value), q.splitPage);
            var response := InvokeEffect(shim, ledger, Call("DslQuery", [trackId, shim.json.marshalQuery(q)])).response;
            && response.Success?
            && var factors := ReadAnswer(env, user, response.payload);
               && |factors| == |chosen|
               && forall i :: 0 <= i < |chosen| ==>
                    && Latest(env, shim, actions, chosen[i].key).Some?
                    && factors[i] == Latest(env, shim, actions, chosen[i].key).value.factor
  {
    var ledger := Run(shim, INITIAL, CallsOf(env, actions)).ledger;
    var rs := ReadAll(shim.query(ledger, q.dslSyntax).value);
    var chosen := Select(rs, q.splitPage);
    DslDelivers(env, shim, ledger, trackId, q);
    ShowsSelected(env, shim, ledger, actions, rs, q.splitPage);
    hide Shows, Run, Seal, Select, Latest, Entitled, Commits, CallsOf, InvokeEffect, AreLatest, Clients;
    DecodeStored(env, shim, actions, chosen);
    OpenStored(env, shim, actions, chosen, user, DecodeAll(shim.json, Project(chosen, false)));
  }

  lemma ShowsSelected(env: Env, shim: Shim, ledger: Ledger, actions: seq<Action>, rs: seq<KeyValue>, page: Page)
    requires Shows(env, shim, ledger, actions, rs)
    ensures Shows(env, shim, ledger, actions, Select(rs, page))
  {
  }

  lemma OpenStored(env: Env, shim: Shim, actions: seq<Action>, rs: seq<KeyValue>, user: string, ms: seq<Message>)
    requires forall a :: a in actions && a.Send? && Commits(env, shim, a.save) ==> Entitled(env, user, a.save.factor)
    requires AreLatest(env, shim, actions, rs, ms)
    ensures |OpenAll(env, user, ms)| == |rs|
    ensures forall i :: 0 <= i < |rs| ==>
              && Latest(env, shim, actions, rs[i].key).Some?
              && OpenAll(env, user, ms)[i] == Latest(env, shim, actions, rs[i].key).value.factor
  {
    forall i | 0 <= i < |rs|
      ensures OpenAll(env, user, ms)[i] == Latest(env, shim, actions, rs[i].key).value.factor
    {
      var sv := Latest(env, shim, actions, rs[i].key).value;
      assert Send(sv) in actions;
      OpenSeal(env, sv.factor, sv.key, user);
    }
  }

  // ---- The sending server ----

  const TXID: Bytes := [0x74, 0x78, 0x69, 0x64]  // "txid"

  /** What the server saves: the factors under the random ids it draws, with random keys. */
  function Drawn(request: seq<Factor>, draws: nat -> (Bytes, Bytes)): (actions: seq<Action>)
    ensures |actions| == |request| && Text(TXID) == "txid"
    ensures forall i :: 0 <= i < |request| ==>
              actions[i] == Send(Save(request[i].(fabricTxId := draws(i).0), draws(i).1, TXID))
  {
    seq(|request|, i requires 0 <= i < |request| =>
      Send(Save(request[i].(fabricTxId := draws(i).0), draws(i).1, TXID)))
  }

  /** The loop of the server's SaveData: draw an id and a key for each factor, format it and
      invoke, stopping at the first error.  Everything before the error is committed, nothing
      after it is. */
  method SaveFactors(env: Env, peer: Peer, request: seq<Factor>, draws: nat -> (Bytes, Bytes)) returns (done: nat)
    requires Compatible(env, peer.shim)
    modifies peer
    ensures done <= |request|
    ensures forall i :: 0 <= i < done ==> Commits(env, peer.shim, Drawn(request, draws)[i].save)
    ensures done < |request| ==> !Commits(env, peer.shim, Drawn(request, draws)[done].save)
    ensures State(peer.ledger, peer.log)
         == Run(peer.shim, old(State(peer.ledger, peer.log)), CallsOf(env, Drawn(request, draws)[..done]))
  {
    hide Run, Seal, InvokeEffect, CallsOf, Compatible;
    ghost var actions := Drawn(request, draws);
    done := 0;
    ghost var start := State(peer.ledger, peer.log);
    NothingDone(env, peer.shim, start, actions);
    while done < |request|
      invariant done <= |request|
      invariant forall i :: 0 <= i < done ==> Commits(env, peer.shim, actions[i].save)
      invariant State(peer.ledger, peer.log) == Run(peer.shim, start, CallsOf(env, actions[..done]))
    {
      var (id, key) := draws(done);
      var factor := request[done].(fabricTxId := id);
      var b := FormatRequestMessage(env, factor, key);
      if b.Err? { return; }
      ghost var before := State(peer.ledger, peer.log);
      assert actions[..done + 1] == actions[..done] + [actions[done]];
      ActionStep(env, peer.shim, start, actions[..done], actions[done]);
      SaveAnswer(env, peer.shim, before, actions[done].save);
      var response := peer.Submit(Call("SaveData", [TXID, b.value]));
      if response.Failure? { return; }
      done := done + 1;
    }
  }

  lemma NothingDone(env: Env, shim: Shim, s: State, actions: seq<Action>)
    ensures Run(shim, s, CallsOf(env, actions[..0])) == s
  {
  }

  /** A sealed save is answered with success exactly if it is committed, and an error changes
      nothing. */
  lemma SaveAnswer(env: Env, shim: Shim, s: State, sv: Save)
    requires Compatible(env, shim) && Sealable(env, sv)
    ensures InvokeEffect(shim, s.ledger, CallFor(env, sv)).response.Success? <==> Commits(env, shim, sv)
    ensures !Commits(env, shim, sv) ==> Step(shim, s, CallFor(env, sv)) == s
  {
    var m := Seal(env, sv.factor, sv.key).value;
    var r := InvokeRequest(m.factor.fabricTxId, shim.json.marshalMessage(m));
    assert shim.json.unmarshalRequest(shim.json.marshalRequest(r)) == Some(r);
  }

  // ---- Block queries over saved records ----

  /** The block query's decoders read what the chaincode writes: the payload list of a
      response, and the record inside a stored message; empty text is no JSON. */
  ghost predicate DecoderFits(dec: BlockRows.Decoder, json: Json) {
    && (forall p :: json.unmarshalResponse(p).Some? && json.unmarshalResponse(p).value.payload.Some? ==>
          dec.messages(p) == Some(json.unmarshalResponse(p).value.payload.value))
    && (forall m :: dec.record(json.marshalMessage(m)).Some?)
    && dec.messages([]) == None
  }

  /** Every event of a requested transaction is one that saving some record emitted; those of
      transactions that emitted none are empty. */
  ghost predicate OnlySaved(shim: Shim, ledger: BlockLookup.Ledger, ids: seq<string>) {
    forall f, e :: f in ids && f != "" && ledger(f).Ok? && e in BlockLookup.Events(ledger(f).value) && e.txId in ids ==>
      if e.txId == "" then e.payload == [] else exists trackId, m :: e.payload == SavedPayload(shim, trackId, m)
  }

  /** For transactions that saved records, a block query that fetches without an error loses
      only the ids that its lookup left live: rows and live ids are as many as the request. */
  lemma SavedRowConservation(shim: Shim, dec: BlockRows.Decoder, ledger: BlockLookup.Ledger, ids: seq<string>,
                             rows: seq<BlockRows.BlockchainData>)
    requires shim.json.Faithful() && DecoderFits(dec, shim.json) && OnlySaved(shim, ledger, ids)
    requires BlockGuarantee.DistinctIds(ids)
    requires var infos := BlockLookup.Lookup(ledger, ids).run.infos;
             BlockRows.Lists(dec, infos, BlockContainment.Pairs(infos), rows)
    ensures |rows| + BlockRows.Asked(BlockLookup.Lookup(ledger, ids).run.slice.Live()) == BlockRows.Asked(ids)
  {
    forall f, e | f in ids && f != "" && ledger(f).Ok? && e in BlockLookup.Events(ledger(f).value) && e.txId in ids
      && e.txId != ""
      ensures dec.messages(e.payload).Some? && |dec.messages(e.payload).value| == 1
           && dec.record(dec.messages(e.payload).value[0]).Some?
    {
      var trackId, m :| e.payload == SavedPayload(shim, trackId, m);
      var response := InvokeResponse(trackId, ResponseStatus(0, "Success"), Some([shim.json.marshalMessage(m)]));
      assert shim.json.unmarshalResponse(shim.json.marshalResponse(response)) == Some(response);
    }
    BlockRows.RowConservation(dec, ledger, ids, rows);
  }
}
