/** The records of apiserver/define and chaincode/define, and their JSON codecs.

    Strings that are only compared and copied are `string`; ledger keys and strings that are
    encrypted, encoded or serialised are byte strings, as Go strings are. */
module Records {
  import opened Wrappers

  datatype Factor = Factor(
    createBy: string, createTime: nat, sender: string, receiver: seq<string>, txData: Bytes,
    lastUpdateTime: nat, lastUpdateBy: string, cryptoFlag: int, cryptoAlgorithm: string,
    docType: string, fabricTxId: Bytes, businessNo: string, expand1: string, expand2: string,
    dataVersion: string)

  /** define.Message: the embedded factor and PeersafeData.Keys. */
  datatype Message = Message(factor: Factor, keys: map<string, Bytes>)

  datatype InvokeRequest = InvokeRequest(key: Bytes, value: Bytes)

  datatype ResponseStatus = ResponseStatus(statusCode: int, statusMsg: string)

  /** `payload` is None where the source passes nil. */
  datatype InvokeResponse = InvokeResponse(trackId: Bytes, status: ResponseStatus, payload: Option<seq<Bytes>>)

  /** Go's uint on a 64-bit platform, and uint64. */
  const TWO_TO_THE_64: nat := 0x1_0000_0000_0000_0000

  type Uint = x: int | 0 <= x < TWO_TO_THE_64

  datatype Page = Page(currentPage: Uint, pageSize: Uint, totalRecords: Uint)

  datatype Query = Query(dslSyntax: Bytes, splitPage: Page, blockFlag: bool)

  datatype QueryResponse = QueryResponse(trackId: Bytes, status: ResponseStatus, page: Page,
                                         payload: Option<seq<Bytes>>)

  /** encoding/json on these records.  An unmarshaller answers None for an error; that of
      queries answers what it had decoded before the error, which the source still reads. */
  datatype Json = Json(
    marshalMessage: Message -> Bytes, unmarshalMessage: Bytes -> Option<Message>,
    marshalRequest: InvokeRequest -> Bytes, unmarshalRequest: Bytes -> Option<InvokeRequest>,
    marshalResponse: InvokeResponse -> Bytes, unmarshalResponse: Bytes -> Option<InvokeResponse>,
    marshalQuery: Query -> Bytes, unmarshalQuery: Bytes -> Result<Query, Query>,
    marshalQueryResponse: QueryResponse -> Bytes, unmarshalQueryResponse: Bytes -> Option<QueryResponse>)
  {
    /** Marshalled records unmarshal to themselves. */
    ghost predicate Faithful() {
      && (forall m :: unmarshalMessage(marshalMessage(m)) == Some(m))
      && (forall r :: unmarshalRequest(marshalRequest(r)) == Some(r))
      && (forall r :: unmarshalResponse(marshalResponse(r)) == Some(r))
      && (forall q :: unmarshalQuery(marshalQuery(q)) == Ok(q))
      && (forall q :: unmarshalQueryResponse(marshalQueryResponse(q)) == Some(q))
    }
  }

  /** The request bytes for a sealed message: its record id is the ledger key. */
  function RequestBytes(json: Json, m: Message): Bytes {
    json.marshalRequest(InvokeRequest(m.factor.fabricTxId, json.marshalMessage(m)))
  }
}
