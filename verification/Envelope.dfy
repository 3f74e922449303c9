/** The envelope around a record's business data: FormatRequestMessage and
    FormatResponseMessage of apiserver/utils/message.go. */
module Envelope {
  import opened Wrappers
  import opened Records
  import Base64
  import Cfb

  const CRYPTO_PATH := "./crypto/"

  /** What the envelope takes from outside: the file system, ECIES under a certificate (with
      the number of the random draw it uses) and under a private key, the primitives of the
      symmetric cipher, and JSON. */
  datatype Env = Env(readFile: string -> Option<Bytes>,
                     wrap: (Bytes, Bytes, nat) -> Option<Bytes>,
                     unwrap: (Bytes, Bytes) -> Option<Bytes>,
                     primitives: Cfb.Primitives,
                     json: Json)

  datatype FormatError = ReadFileFailed(receiver: string) | EciesFailed(receiver: string)

  function CertPath(user: string): string { CRYPTO_PATH + user + "/" + "enrollment.cert" }

  function KeyPath(user: string): string { CRYPTO_PATH + user + "/" + "enrollment.key" }

  // ---- Sealing a request ----

  function WrapKey(env: Env, key: Bytes, user: string, draw: nat): Result<Bytes, FormatError> {
    match env.readFile(CertPath(user))
    case None => Err(ReadFileFailed(user))
    case Some(cert) =>
      match env.wrap(key, cert, draw)
      case None => Err(EciesFailed(user))
      case Some(w) => Ok(w)
  }

  /** The key wrapped for each user in turn; a later entry for the same user replaces it. */
  function WrapAll(env: Env, key: Bytes, users: seq<string>, draw: nat, keys: map<string, Bytes>)
    : Result<map<string, Bytes>, FormatError>
    decreases |users|
  {
    if users == [] then Ok(keys)
    else
      match WrapKey(env, key, users[0], draw)
      case Err(e) => Err(e)
      case Ok(w) => WrapAll(env, key, users[1..], draw + 1, keys[users[0] := w])
  }

  function Recipients(f: Factor): seq<string> { f.receiver + [f.sender] }

  function Seal(env: Env, f: Factor, key: Bytes): Result<Message, FormatError> {
    if f.cryptoFlag == 1 then
      match WrapAll(env, key, Recipients(f), 0, map[])
      case Err(e) => Err(e)
      case Ok(keys) =>
        Ok(Message(f.(txData := Base64.Encode(Cfb.SealBytes(env.primitives, f.txData, key))), keys))
    else Ok(Message(f, map[]))
  }

  /** FormatRequestMessage, with the key GenerateKey drew. */
  method FormatRequestMessage(env: Env, request: Factor, key: Bytes)
    returns (r: Result<Bytes, FormatError>)
    ensures r == match Seal(env, request, key)
                 case Ok(m) => Ok(RequestBytes(env.json, m))
                 case Err(e) => Err(e)
  {
    var keys: map<string, Bytes> := map[];
    var txData := request.txData;
    if request.cryptoFlag == 1 {
      var cryptoData := Cfb.AesEncrypt(env.primitives, txData, key);
      txData := Base64.Encode(cryptoData);
      var cryptoRecvSend := request.receiver + [request.sender];
      for i := 0 to |cryptoRecvSend|
        invariant WrapAll(env, key, cryptoRecvSend[i..], i, keys)
               == WrapAll(env, key, Recipients(request), 0, map[])
      {
        var receiver := cryptoRecvSend[i];
        assert cryptoRecvSend[i..][1..] == cryptoRecvSend[i + 1..];
        var cert := env.readFile(CRYPTO_PATH + receiver + "/" + "enrollment.cert");
        if cert.None? {
          return Err(ReadFileFailed(receiver));
        }
        var cryptoKey := env.wrap(key, cert.value, i);
        if cryptoKey.None? {
          return Err(EciesFailed(receiver));
        }
        keys := keys[receiver := cryptoKey.value];
      }
    }
    var message := Message(
      Factor(createBy := request.createBy, createTime := request.createTime, sender := request.sender,
             receiver := request.receiver, txData := txData, lastUpdateTime := request.lastUpdateTime,
             lastUpdateBy := request.lastUpdateBy, cryptoFlag := request.cryptoFlag,
             cryptoAlgorithm := request.cryptoAlgorithm, docType := request.docType,
             fabricTxId := request.fabricTxId, businessNo := request.businessNo,
             expand1 := request.expand1, expand2 := request.expand2, dataVersion := request.dataVersion),
      keys);
    var value := env.json.marshalMessage(message);
    r := Ok(env.json.marshalRequest(InvokeRequest(request.fabricTxId, value)));
  }

  // ---- Opening responses ----

  /** The business data of a message as one user sees it.  Any failing step leaves it as stored. */
  function OpenData(env: Env, user: string, m: Message): Bytes {
    if m.factor.cryptoFlag != 1 || user !in m.keys then m.factor.txData
    else
      match env.readFile(KeyPath(user))
      case None => m.factor.txData
      case Some(privateKey) =>
        match env.unwrap(m.keys[user], privateKey)
        case None => m.factor.txData
        case Some(key) =>
          match Base64.Decode(m.factor.txData)
          case None => m.factor.txData
          case Some(data) => Cfb.OpenBytes(env.primitives, data, key)
  }

  function Open(env: Env, user: string, m: Message): Factor { m.factor.(txData := OpenData(env, user, m)) }

  function OpenAll(env: Env, user: string, ms: seq<Message>): (fs: seq<Factor>)
    ensures |fs| == |ms|
  {
    seq(|ms|, i requires 0 <= i < |ms| => Open(env, user, ms[i]))
  }

  /** The list that FormatResponseMessage appends to through a pointer. */
  class FactorList {
    var items: seq<Factor>

    constructor ()
      ensures items == []
    {
      items := [];
    }
  }

  method FormatResponseMessage(env: Env, userId: string, request: FactorList, messages: seq<Message>)
    modifies request
    ensures request.items == old(request.items) + OpenAll(env, userId, messages)
  {
    for i := 0 to |messages|
      invariant request.items == old(request.items) + OpenAll(env, userId, messages)[..i]
    {
      var item := messages[i].factor;
      var keys := messages[i].keys;
      var txData := item.txData;
      if item.cryptoFlag == 1 && userId in keys {
        var privateKey := env.readFile(CRYPTO_PATH + userId + "/" + "enrollment.key");
        if privateKey.Some? {
          var key := env.unwrap(keys[userId], privateKey.value);
          if key.Some? {
            var tempData := Base64.Decode(item.txData);
            if tempData.Some? {
              txData := Cfb.AesDecrypt(env.primitives, tempData.value, key.value);
            }
          }
        }
      }
      var factor := Factor(
        createBy := item.createBy, createTime := item.createTime, sender := item.sender,
        receiver := item.receiver, txData := txData, lastUpdateTime := item.lastUpdateTime,
        lastUpdateBy := item.lastUpdateBy, cryptoFlag := item.cryptoFlag,
        cryptoAlgorithm := item.cryptoAlgorithm, docType := item.docType,
        fabricTxId := item.fabricTxId, businessNo := item.businessNo, expand1 := item.expand1,
        expand2 := item.expand2, dataVersion := item.dataVersion);
      assert factor == Open(env, userId, messages[i]);
      request.items := request.items + [factor];
    }
  }

  // ---- What the envelope guarantees ----

  /** Wrapping all succeeds exactly when every single wrapping does. */
  lemma {:induction false} WrapAllOk(env: Env, key: Bytes, users: seq<string>, draw: nat, keys: map<string, Bytes>)
    ensures WrapAll(env, key, users, draw, keys).Ok?
       <==> forall i :: 0 <= i < |users| ==> WrapKey(env, key, users[i], draw + i).Ok?
    decreases |users|
  {
    if users != [] && WrapKey(env, key, users[0], draw).Ok? {
      var w := WrapKey(env, key, users[0], draw).value;
      WrapAllOk(env, key, users[1..], draw + 1, keys[users[0] := w]);
      assert forall i :: 1 <= i < |users| ==> users[i] == users[1..][i - 1];
      forall i | 1 <= i < |users|
        ensures WrapKey(env, key, users[i], draw + i) == WrapKey(env, key, users[1..][i - 1], draw + 1 + (i - 1))
      {
      }
      forall j | 0 <= j < |users[1..]|
        ensures WrapKey(env, key, users[1..][j], draw + 1 + j) == WrapKey(env, key, users[j + 1], draw + (j + 1))
      {
      }
    } else if users != [] {
      assert users[0] == users[0 + 0] && !WrapKey(env, key, users[0], draw + 0).Ok?;
    }
  }

  /** The result holds a key for exactly the users named besides those it started with. */
  lemma {:induction false} WrapAllKeys(env: Env, key: Bytes, users: seq<string>, draw: nat, keys: map<string, Bytes>)
    requires WrapAll(env, key, users, draw, keys).Ok?
    ensures WrapAll(env, key, users, draw, keys).value.Keys == keys.Keys + set u | u in users
    decreases |users|
  {
    if users != [] {
      WrapAllKeys(env, key, users[1..], draw + 1, keys[users[0] := WrapKey(env, key, users[0], draw).value]);
      assert (set u | u in users) == {users[0]} + set u | u in users[1..];
    }
  }

  /** The entry of a named user is the key wrapped for that user, at some draw; an entry
      that was there before stays if its user is not named. */
  lemma {:induction false} WrapAllEntry(env: Env, key: Bytes, users: seq<string>, draw: nat,
                                        keys: map<string, Bytes>, user: string)
    requires WrapAll(env, key, users, draw, keys).Ok?
    ensures var r := WrapAll(env, key, users, draw, keys).value;
            && (user in users ==> user in r && exists d :: WrapKey(env, key, user, d) == Ok(r[user]))
            && (user !in users && user in keys ==> user in r && r[user] == keys[user])
    decreases |users|
  {
    if users != [] {
      var w := WrapKey(env, key, users[0], draw).value;
      WrapAllEntry(env, key, users[1..], draw + 1, keys[users[0] := w], user);
      assert users == [users[0]] + users[1..];
      assert WrapKey(env, key, users[0], draw) == Ok(w);
    }
  }

  ghost predicate IsRecipient(f: Factor, user: string) { user in f.receiver || user == f.sender }

  /** The key can be wrapped for the user at that draw: the certificate file is readable and
      ECIES under it succeeds. */
  ghost predicate Wraps(env: Env, key: Bytes, user: string, draw: nat) {
    var cert := env.readFile("./crypto/" + user + "/enrollment.cert");
    cert.Some? && env.wrap(key, cert.value, draw).Some?
  }

  lemma WrapKeyIs(env: Env, key: Bytes, user: string, draw: nat)
    ensures WrapKey(env, key, user, draw) ==
            var cert := env.readFile("./crypto/" + user + "/enrollment.cert");
            if cert == None then Err(ReadFileFailed(user))
            else if env.wrap(key, cert.value, draw) == None then Err(EciesFailed(user))
            else Ok(env.wrap(key, cert.value, draw).value)
  {
    assert CertPath(user) == "./crypto/" + user + "/enrollment.cert";
  }

  /** Sealing succeeds exactly when nothing has to be encrypted or the key can be wrapped for
      every receiver, and last for the sender. */
  lemma SealOkIff(env: Env, f: Factor, key: Bytes)
    ensures Seal(env, f, key).Ok? <==>
            f.cryptoFlag != 1 ||
            ((forall i :: 0 <= i < |f.receiver| ==> Wraps(env, key, f.receiver[i], i))
             && Wraps(env, key, f.sender, |f.receiver|))
  {
    WrapAllOk(env, key, Recipients(f), 0, map[]);
    forall i | 0 <= i < |Recipients(f)|
      ensures WrapKey(env, key, Recipients(f)[i], 0 + i).Ok? <==> Wraps(env, key, Recipients(f)[i], i)
    {
      WrapKeyIs(env, key, Recipients(f)[i], i);
    }
    hide WrapKey, Wraps;
    assert Recipients(f)[|f.receiver|] == f.sender;
    assert forall i :: 0 <= i < |f.receiver| ==> Recipients(f)[i] == f.receiver[i];
  }

  /** The error is that of the first user in this order for whom wrapping fails, and says
      whether the certificate could not be read or ECIES failed. */
  lemma SealErr(env: Env, f: Factor, key: Bytes) returns (i: nat)
    requires Seal(env, f, key).Err?
    ensures f.cryptoFlag == 1 && i <= |f.receiver|
    ensures forall j :: 0 <= j < i ==> Wraps(env, key, f.receiver[j], j)
    ensures var user := if i < |f.receiver| then f.receiver[i] else f.sender;
            && !Wraps(env, key, user, i)
            && Seal(env, f, key).error ==
               if env.readFile("./crypto/" + user + "/enrollment.cert") == None then ReadFileFailed(user)
               else EciesFailed(user)
  {
    i := WrapAllErr(env, key, Recipients(f), 0, map[]);
    assert forall j :: 0 <= j < |f.receiver| ==> Recipients(f)[j] == f.receiver[j];
    forall j | 0 <= j <= i
      ensures WrapKey(env, key, Recipients(f)[j], j).Ok? <==> Wraps(env, key, Recipients(f)[j], j)
    {
      WrapKeyIs(env, key, Recipients(f)[j], j);
    }
    WrapKeyIs(env, key, Recipients(f)[i], i);
  }

  lemma {:induction false} WrapAllErr(env: Env, key: Bytes, users: seq<string>, draw: nat, keys: map<string, Bytes>)
    returns (i: nat)
    requires WrapAll(env, key, users, draw, keys).Err?
    ensures i < |users| && WrapKey(env, key, users[i], draw + i) == Err(WrapAll(env, key, users, draw, keys).error)
    ensures forall j :: 0 <= j < i ==> WrapKey(env, key, users[j], draw + j).Ok?
    decreases |users|
  {
    i := 0;
    if WrapKey(env, key, users[0], draw).Ok? {
      var w := WrapKey(env, key, users[0], draw).value;
      var k := WrapAllErr(env, key, users[1..], draw + 1, keys[users[0] := w]);
      i := k + 1;
      assert users[1..][k] == users[i] && draw + 1 + k == draw + i;
      forall j | 0 <= j < i
        ensures WrapKey(env, key, users[j], draw + j).Ok?
      {
        if j > 0 { assert users[1..][j - 1] == users[j] && draw + 1 + (j - 1) == draw + j; }
      }
    }
  }

  /** Every receiver, and the sender, finds the key encrypted under the certificate in the
      user's own file; the business data is the encoded ciphertext under that key. */
  lemma SealedFor(env: Env, f: Factor, key: Bytes, user: string) returns (cert: Bytes, draw: nat)
    requires Seal(env, f, key).Ok? && f.cryptoFlag == 1 && (user in f.receiver || user == f.sender)
    ensures env.readFile("./crypto/" + user + "/enrollment.cert") == Some(cert)
    ensures var m := Seal(env, f, key).value;
            && user in m.keys && env.wrap(key, cert, draw) == Some(m.keys[user])
            && m.factor.txData == Base64.Encode(Cfb.SealBytes(env.primitives, f.txData, key))
  {
    assert user in Recipients(f);
    WrapAllEntry(env, key, Recipients(f), 0, map[], user);
    var m := Seal(env, f, key).value;
    draw :| WrapKey(env, key, user, draw) == Ok(m.keys[user]);
    WrapKeyIs(env, key, user, draw);
    cert := env.readFile("./crypto/" + user + "/enrollment.cert").value;
  }

  /** The stored key map names exactly the receivers and the sender; the stored receiver list
      does not gain the sender; only the business data of a record changes. */
  lemma SealedKeySet(env: Env, f: Factor, key: Bytes)
    requires Seal(env, f, key).Ok?
    ensures var m := Seal(env, f, key).value;
            && (forall u :: u in m.keys <==> f.cryptoFlag == 1 && IsRecipient(f, u))
            && m.factor.receiver == f.receiver
            && m.factor.(txData := f.txData) == f
            && (f.cryptoFlag == 1 ==> |m.factor.txData| == 4 * ((|f.txData| + 2) / 3))
            && (f.cryptoFlag != 1 ==> m.factor == f)
  {
    if f.cryptoFlag == 1 {
      WrapAllKeys(env, key, Recipients(f), 0, map[]);
      Base64.EncodeLength(Cfb.SealBytes(env.primitives, f.txData, key));
    }
  }

  /** The user's private key is readable and undoes any wrapping under the user's certificate. */
  ghost predicate CanUnwrap(env: Env, user: string) {
    var cert, privateKey := env.readFile("./crypto/" + user + "/enrollment.cert"),
                            env.readFile("./crypto/" + user + "/enrollment.key");
    && privateKey.Some?
    && forall key, draw, w :: cert.Some? && env.wrap(key, cert.value, draw) == Some(w) ==>
         env.unwrap(w, privateKey.value) == Some(key)
  }

  /** What a user reads of a message whose key map names the user.  Without the private key,
      the data key or decodable data it is what is stored, and otherwise the decryption. */
  lemma OpenNamed(env: Env, user: string, m: Message)
    requires m.factor.cryptoFlag == 1 && user in m.keys
    ensures var privateKey := env.readFile("./crypto/" + user + "/enrollment.key");
            Open(env, user, m) ==
            if privateKey == None || env.unwrap(m.keys[user], privateKey.value) == None
               || Base64.Decode(m.factor.txData) == None
            then m.factor
            else m.factor.(txData := Cfb.OpenBytes(env.primitives, Base64.Decode(m.factor.txData).value,
                                                   env.unwrap(m.keys[user], privateKey.value).value))
  {
    assert KeyPath(user) == "./crypto/" + user + "/enrollment.key";
    hide Base64.Decode, Cfb.OpenBytes;
  }

  /** A message that is not encrypted, or not for the user, is read as stored. */
  lemma OpenUnnamed(env: Env, user: string, m: Message)
    requires m.factor.cryptoFlag != 1 || user !in m.keys
    ensures Open(env, user, m) == m.factor
  {
  }

  /** The envelope round trip: a sender or receiver reads back the factor, all 15 fields of
      it, whatever key was drawn. */
  lemma OpenSeal(env: Env, f: Factor, key: Bytes, user: string)
    requires Seal(env, f, key).Ok?
    requires f.cryptoFlag == 1 ==> IsRecipient(f, user) && CanUnwrap(env, user)
    ensures Open(env, user, Seal(env, f, key).value) == f
  {
    if f.cryptoFlag == 1 {
      var m := Seal(env, f, key).value;
      var cert, d := SealedFor(env, f, key, user);
      OpenNamed(env, user, m);
      var data := Cfb.SealBytes(env.primitives, f.txData, key);
      Base64.DecodeEncode(data);
      Cfb.OpenSeal(env.primitives, f.txData, key);
      assert Base64.Decode(m.factor.txData) == Some(data);
    }
  }

  /** A user outside the key set gets the ciphertext text and the other 14 fields. */
  lemma OpenByOther(env: Env, f: Factor, key: Bytes, user: string)
    requires Seal(env, f, key).Ok? && f.cryptoFlag == 1 && !IsRecipient(f, user)
    ensures Open(env, user, Seal(env, f, key).value)
         == f.(txData := Base64.Encode(Cfb.SealBytes(env.primitives, f.txData, key)))
  {
    SealedKeySet(env, f, key);
  }

  /** Exactly who reads the record as it was sent: everyone if it is not encrypted or has no
      business data, and otherwise the sender and the receivers. */
  lemma OpensIff(env: Env, f: Factor, key: Bytes, user: string)
    requires Seal(env, f, key).Ok? && (IsRecipient(f, user) ==> CanUnwrap(env, user))
    ensures Open(env, user, Seal(env, f, key).value) == f
       <==> f.cryptoFlag != 1 || IsRecipient(f, user) || f.txData == []
  {
    if f.cryptoFlag != 1 || IsRecipient(f, user) {
      OpenSeal(env, f, key, user);
    } else {
      OpenByOther(env, f, key, user);
      Base64.EncodeLength(Cfb.SealBytes(env.primitives, f.txData, key));
      assert Cfb.SealBytes(env.primitives, f.txData, key) == [] <==> f.txData == [];
    }
  }
}
