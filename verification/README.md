# Verified model of the factor record service

The service keeps business records ("factors") on a Fabric channel. A server seals a record in an
envelope and sends it to a chaincode, which stores it and emits an event. Servers read records back
by ledger query, by the event stream, or by looking up the blocks of transactions; an event server
keeps a checkpoint so that it loses no event when it restarts. This project models those parts in
Dafny and proves what they guarantee, including where the code gives less than it seems to.

`dafny verify dfyconfig.toml` checks everything.

| file | models |
|---|---|
| `Slices.dfy`, `BlockLookup.dfy` | `checkAndRemove` and `GetBlockByTxids`: an array that is shifted in place while a range loop reads it |
| `BlockContainment.dfy`, `BlockCoverage.dfy` | what every lookup keeps, which ids it records or loses, and at most how many |
| `BlockGuarantee.dfy`, `BlockRepeats.dfy`, `BlockBlanks.dfy` | which ids of a request a caller can rely on, with blanks, repeats and transactions that emitted no event |
| `BlockFailures.dfy` | which failed fetches a lookup reports, and which go unnoticed |
| `BlockRows.dfy` | `BlockQuery`: rows from nested maps iterated in any order |
| `Cfb.dfy`, `Base64.dfy`, `Envelope.dfy` | encryption, encoding and the envelope of a record |
| `Paging.dfy`, `Chaincode.dfy`, `Chain.dfy` | the chaincode, its wrapping page arithmetic, and runs over ledger and event log |
| `Checkpoint.dfy`, `Recovery.dfy`, `RecoverySafety.dfy` | the checkpoint file at character level, the replay protocol over crashes, and exactly when it loses nothing |
| `FilterEvent.dfy`, `Lifecycle.dfy` | the event filter, and the way of a record through all parts |
| `Records.dfy`, `Wrappers.dfy` | the record types and JSON codecs; Option and Result |

The imperative functions of the source are methods over arrays and mutable objects. Each is proved
equal to a specification function, and the lemmas are about that function.

Main results:

- A block lookup for distinct non-blank ids returns every requested transaction for every ledger if and
  only if at most two ids are requested. It never loses more than (n - 1) / 2 of n ids; with one block
  for each id it loses exactly that many, and records the even positions and the last one. It never
  returns anything wrong, and no row goes missing other than the ids it left live.
- In any request, blanks and repeats included, an id asked for once is returned by every ledger that has
  the ids if and only if it is first, or last in a list that starts with an id and has no blank between
  its second cell and its last. If the non-blank ids are distinct, every such ledger answers the request
  completely if and only if it is all blank, or starts with an id and is otherwise blank, has two cells,
  or has three with a blank second: never more than two ids. Were every transaction to emit an event,
  longer lists with a blank second would also do, with up to three ids; one that emits none breaks them.
- An id asked for r times in a row behind g distinct others, and not last, is returned by every ledger if
  and only if g <= 2r - 2.
- A failed fetch of an id asked for once makes the lookup, and the block query's status, report an error
  for every ledger if and only if that id is one of those always returned; any other failure can end in
  success. Every error reported is that of a requested id.
- Sender and receivers read back the record in all 15 fields. Anyone else does exactly if the record
  is not encrypted or has no business data.
- Replaying the committed events rebuilds the ledger, over every run.
- A page request returns the page that unbounded arithmetic gives exactly if its offset does not wrap
  or wraps past the end; the pages of a result partition it.
- Cutting a checkpoint write at any byte never makes the event server resume at a third block.
- Over all sequences of crashes, failed writes and restarts, no event below a start height is lost if and
  only if no possible start skips a block: one with events, from the height read up to the listener's
  first block, with a block behind it that is reported and a start above both to come (above the skipped
  one, if heights may come from a peer that lags behind). If every block has events
  and higher starts can follow: if and only if every listener starts no higher than the height read.

Assumptions, all of them parameters or hypotheses of the lemmas: the peer, its query engine and its
ledger are functions; JSON marshalling of records is inverted by unmarshalling (it replaces invalid
UTF-8, but factors come from decoded JSON requests); unwrapping with a user's private key inverts
wrapping under the user's certificate; the block cipher and the key derivation are arbitrary functions
of the right lengths; a crash leaves a prefix of the text being written. `uint` and `int` have 64 bits.
The event server imports its record types and `FormatResponseMessage` under another repository path;
they are taken to be those of `apiserver/define` and `apiserver/utils`. Its wiring is commented out
(`eventserver/main.go:58`, `eventserver/listenevent/listenevent.go:32-42`); the protocol follows those
comments. The listener reports every block from its first one on, in order.
A transaction commits when it is invoked, while the source's `Invoke` returns once the orderer accepts
(`apiserver/vendor/github.com/peersafe/gohfc/client.go:403-437`) and says itself that this does not
guarantee a ledger update; the results about runs are about the calls that are committed, in commit order.
A transaction that emitted no event shows in its block as an empty event with a blank id
(`apiserver/sdk/sdk.go:478-479`, `apiserver/vendor/github.com/hyperledger/fabric/protos/utils/proputils.go:183-187`).

The source does not ensure the condition on listener starts: it reads the height first
(`eventserver/main.go:51`) and registers the listener later (`eventserver/listenevent/listenevent.go:13`),
which begins with the newest block of that moment
(`eventserver/vendor/github.com/peersafe/gohfc/client.go:492-507`). With at most one block committed in
between, that is no higher than the height read; with two or more it is above, and `GapLoses` applies.
A start is therefore any pair of height and first block, and `NothingLost` and `NoBlockLost` name the
condition as `InTime`.

Where code and expectations differ, the model follows the code: a failing ledger query is a successful
invocation with status 1, because `QueryResponse` overwrites its error (`chaincode/utils/utils.go:72`);
a save emits a list of value strings, while `chaincode/chaincode_test.go:131-137` decodes a list of
requests; `sdk.Query` sends one parameter (`apiserver/sdk/sdk.go:210`) and `Invoke` rejects it
(`chaincode/chaincode.go:51`), so the query results below are about `DslQuery` itself. An empty page is a
nil slice (`chaincode/utils/utils.go:97`) and marshals as `null`, so a client cannot tell it from a missing one.

## Model

| member | source | states |
|---|---|---|
| Slices.StringSlice.CheckAndRemove | apiserver/sdk/sdk.go:354-362 | Says whether the key was live and leaves the whole backing array, stale cells included, as shifting over the key's first occurrence leaves it |
| Slices.SubsequenceDrop | apiserver/sdk/sdk.go:357 | Removing any element of a subsequence of the request leaves a subsequence of it: order is never disturbed |
| BlockLookup.GetBlockByTxids | apiserver/sdk/sdk.go:364-439 | Result, error and the caller's own array after the call are those of the cursor semantics: one header, shifting cells, early return on an empty id or a failed fetch |
| BlockLookup.RecordEvents | apiserver/sdk/sdk.go:430-434 | The innermost loop removes each event's id from the live keys and files the event only if the id was live |
| BlockLookup.VisitBlock | apiserver/sdk/sdk.go:399-436 | A fetched block without data hash changes nothing; otherwise its entry exists and all its decodable events are processed in block order |
| BlockLookup.EventsByPosition | apiserver/sdk/sdk.go:416-434 | An event belongs to a block exactly if one of its transactions, at any position, can be extracted and has it |
| BlockLookup.FlattenConcat | apiserver/sdk/sdk.go:416-434 | The events of a block are those of any first part of its transactions, followed by those of the rest |
| BlockContainment.RecordConserves | apiserver/sdk/sdk.go:354-362 | At every removal: requested ids = live + removed as multisets, live ids are in request order, every cell holds a requested id, the last cell is untouched |
| BlockContainment.LookupSound | apiserver/sdk/sdk.go:387-438 | Every run, early returns included, ends with conservation, entries only from fetched blocks of that hash, filed ids = removed ids, and no id that is asked for once under two blocks |
| BlockContainment.Containment | apiserver/sdk/sdk.go:387-438 | For a ledger where a transaction is in one block, every returned pair of hash and non-blank id is one that looking the id up on its own gives, whatever empty events the blocks hold |
| BlockContainment.FoundByPosition | apiserver/sdk/sdk.go:394-434 | An id has its block exactly if the fetch gives one with a data hash in which some event of some transaction, wherever both stand, is that id's |
| BlockContainment.CompleteIffReturned | apiserver/sdk/sdk.go:387-438 | For any request, repeats and blanks included, the result is the intended one exactly if every non-blank id is in it under the hash of its block |
| BlockContainment.CompleteIffNoneLive | apiserver/sdk/sdk.go:387-438 | When every id has its block, the result equals looking each id up on its own exactly if no key is still live at the end |
| BlockCoverage.SingleBlockComplete | apiserver/sdk/sdk.go:390-437 | With all ids in one block, each at any event of any of its transactions, the first iteration records all of them, and the stale reads after it change nothing |
| BlockCoverage.EndsRecorded | apiserver/sdk/sdk.go:390-437 | However ids are spread over blocks, the lookup succeeds and never loses the first or the last id |
| BlockCoverage.LossBound | apiserver/sdk/sdk.go:390-438 | However n distinct ids are spread over blocks and events over each block, at most (n - 1) / 2 stay live |
| BlockCoverage.HitRemoved | apiserver/sdk/sdk.go:356-357 | Live prefix, skipped ids and stale tail of the array after each removal, cell by cell |
| BlockCoverage.VisitShape | apiserver/sdk/sdk.go:390-437 | One iteration over separate blocks moves array, history and map together to the next state, or leaves them alone once only stale cells are read |
| BlockCoverage.ExactCoverage | apiserver/sdk/sdk.go:390-438 | With a block for each id, exactly the ids at even positions and the last are recorded, each alone under its hash; the other (n - 1) / 2 stay live, in order |
| BlockCoverage.SeparateCompleteIff | apiserver/sdk/sdk.go:390-438 | With a block for each id, the intended result is returned exactly for at most two ids |
| BlockCoverage.MiddleOfThreeLost | apiserver/sdk/sdk.go:390-438 | The concrete loss: three ids in three blocks return the first and the third |
| BlockCoverage.CompleteForEveryLedgerIff | apiserver/sdk/sdk.go:364-439 | A list of distinct non-blank ids is answered completely by every ledger that has its transactions if and only if it has at most two ids |
| BlockGuarantee.LeadingBlank | apiserver/sdk/sdk.go:391-393 | A leading blank id makes every lookup return an empty map without an error, whatever ids follow |
| BlockGuarantee.GuaranteedReturned | apiserver/sdk/sdk.go:390-438 | In a list that starts with an id, that id, and the last one unless a blank stands between the second cell and it, are returned by every ledger that has the ids, however often they or others are repeated |
| BlockGuarantee.AlwaysReturnedIff | apiserver/sdk/sdk.go:364-439 | For any request and an id asked for once: every ledger that has the ids returns it if and only if the list starts with an id, and it is that one, or the last with no blank between the second cell and it |
| BlockGuarantee.CompleteIffAllGuaranteed | apiserver/sdk/sdk.go:364-439 | For any request that repeats only first or last ids: every ledger answers it completely if and only if it has no other ids |
| BlockGuarantee.AlwaysCompleteIff | apiserver/sdk/sdk.go:364-439 | For any list whose non-blank ids are distinct, blanks anywhere: every ledger that has them answers it completely if and only if it is all blank, or starts with an id and is otherwise blank, has two cells, or has three with a blank second |
| BlockGuarantee.RepeatLoses | apiserver/sdk/sdk.go:390-438 | Asking for a, b, a with a block for each loses b: with repeats two ids are already too many |
| BlockRepeats.ShortRunReturned | apiserver/sdk/sdk.go:390-437 | An id that fills r cells in a row behind at most 2r - 2 non-blank cells of other ids is returned by every ledger that has the ids, whatever follows |
| BlockRepeats.LongRunLost | apiserver/sdk/sdk.go:390-437 | Behind 2r - 1 or more distinct ids, and not at the end, a ledger carries the whole run past the cursor in one iteration and loses the id |
| BlockRepeats.RunReturnedIff | apiserver/sdk/sdk.go:364-439 | An id asked for r times in a row and nowhere else, behind g distinct other ids and not last, is returned by every ledger that has the ids if and only if g <= 2r - 2 |
| BlockBlanks.CompleteIffBlankLive | apiserver/sdk/sdk.go:387-438 | With blanks in the request and any empty events in the blocks, the result is the intended one exactly if only blanks are still live at the end |
| BlockBlanks.AllEmitCompleteIff | apiserver/sdk/sdk.go:364-439 | If the transactions in the blocks all emitted events: every ledger that has the distinct ids answers completely if and only if the list is answerable without that, or has a blank second between two ids and only blanks or one cell behind those |
| BlockBlanks.EmptyEventLoses | apiserver/sdk/sdk.go:430-434 | Such a list of four or more cells loses its third id as soon as the first id's block also holds a transaction that emitted no event |
| BlockFailures.FirstFails | apiserver/sdk/sdk.go:394-397 | A failed fetch of the first id returns its error at once, with an empty map |
| BlockFailures.SecondFails | apiserver/sdk/sdk.go:394-397 | A later failure returns its error with what was recorded before it |
| BlockFailures.ErrorHasCause | apiserver/sdk/sdk.go:394-397 | An error is the one that fetching some non-blank requested id gives |
| BlockFailures.LastFails | apiserver/sdk/sdk.go:390-397 | Without blanks in the request, a failing last id makes the lookup return an error, whatever the other fetches give |
| BlockFailures.AlwaysNoticedIff | apiserver/sdk/sdk.go:364-439 | For any request and an id asked for once: every ledger that has the others and fails on it makes the lookup return an error if and only if the id is one that is always returned |
| BlockRows.AllRows | apiserver/sdk/sdk.go:267-290 | For any iteration order, each row occurs as often as there are entries that decode to it, and there are no others |
| BlockRows.BlockQuery | apiserver/sdk/sdk.go:255-298 | Status 1 with the text of a failed fetch of a requested id, no schema and no rows, or status 0, SUCCESS, the list schema and the rows of the lookup's entries; a failing first id, and in a request without blanks a failing last id, always gives status 1 |
| BlockRows.RowsIndependentOfOrder | apiserver/sdk/sdk.go:267-290 | Any two iteration orders of the maps give the same multiset of rows |
| BlockRows.EntriesAndLive | apiserver/sdk/sdk.go:364-439 | If no id but the blank one is repeated, entries of transactions and non-blank live ids together number exactly the non-blank ids asked for |
| BlockRows.RowConservation | apiserver/sdk/sdk.go:255-298 | When the events decode and empty ones do not, rows returned plus non-blank ids still live number exactly the non-blank ids asked for |
| BlockRows.RowBound | apiserver/sdk/sdk.go:255-298 | For n distinct ids that the ledger has, between n / 2 + 1 and n rows come back, whatever blocks hold them |
| BlockRows.SeparateRowCount | apiserver/sdk/sdk.go:255-298 | With a block for each of n ids there are n / 2 + 1 rows, so all of them only for n at most 2 |
| BlockRows.RowContent | apiserver/sdk/sdk.go:277-282 | The other eleven fields of a row are those of the single record in an event of that transaction, in a block fetched under the row's hash |
| BlockRows.RowSound | apiserver/sdk/sdk.go:278-287 | Each row is about a requested id, describes a block fetched under the row's hash and, unless its id is blank, carries the hash of the block that holds the transaction |
| Cfb.EncryptEquations | apiserver/utils/crypto.go:74-85 | Ciphertext obeys the equations of section 6.3 of NIST SP 800-38A for every segment and byte, the truncated last segment included |
| Cfb.DecryptEquations | apiserver/utils/crypto.go:87-104 | So does decryption, with the previous ciphertext segment as input block |
| Cfb.DecryptEncrypt | apiserver/utils/crypto.go:74-104 | Decryption undoes encryption for every block function, feedback block and length |
| Cfb.Stream.XorKeyStream | apiserver/utils/crypto.go:82-83 | The segment loop over a buffer with a feedback register fills the buffer with the recursive definition's result |
| Cfb.AesEncrypt | apiserver/utils/crypto.go:74-85 | Ties the buffer-filling method to encryption under the derived key with its first 16 bytes as initialisation vector |
| Cfb.AesDecrypt | apiserver/utils/crypto.go:87-104 | The same for decryption |
| Cfb.SealEquations | apiserver/utils/crypto.go:75-83 | What AesEncrypt writes in terms of the primitives: the derived key drives the cipher and its first 16 bytes start the feedback chain |
| Cfb.OpenSeal | apiserver/utils/crypto.go:74-104 | AesDecrypt after AesEncrypt under one key is the identity, whatever the primitives |
| Base64.EncodeAt | apiserver/utils/message.go:24 | Section 4 of RFC 4648 position by position: digit k stands for bits 6k to 6k + 5 of the input, padding follows, length 4 * ceil(n / 3) |
| Base64.DigitTable | apiserver/utils/message.go:24 | The 64 digits in order are the characters of Table 1 of RFC 4648, and the padding is = |
| Base64.DecodeEncode | apiserver/utils/message.go:79 | Decoding the encoding of any byte string gives it back, for all three padding cases |
| Base64.DecodeOkIff | apiserver/utils/message.go:79 | Decoding succeeds exactly on digits followed by at most two padding characters, in groups of four, line breaks aside |
| Base64.EncodeDecode | apiserver/utils/message.go:79 | What is decoded has the length the text stands for and encodes to the text again, the spare bits of the last digit before padding aside |
| Base64.StripConcat | apiserver/utils/message.go:79 | Which characters are skipped does not depend on where they stand |
| Base64.StripOne | apiserver/utils/message.go:79 | The skipped characters are line feed and carriage return, and no others |
| Envelope.FormatRequestMessage | apiserver/utils/message.go:12-65 | The request bytes of the sealed message under the record's id, or the first recipient whose certificate or wrapping fails |
| Envelope.FormatResponseMessage | apiserver/utils/message.go:68-111 | Appends one factor for each message, in order, to the caller's list; a failing step leaves the stored text |
| Envelope.SealOkIff | apiserver/utils/message.go:19-40 | Formatting succeeds exactly if nothing is to be encrypted or, for each receiver and then the sender, the certificate file is readable and the key can be wrapped under it |
| Envelope.SealErr | apiserver/utils/message.go:26-36 | Otherwise the error is that of the first such user, and says whether reading or wrapping failed |
| Envelope.SealedFor | apiserver/utils/message.go:23-39 | Each recipient's entry is the data key wrapped under the certificate in that user's file, and the business data is the encoded ciphertext under the data key |
| Envelope.SealedKeySet | apiserver/utils/message.go:17-58 | The key map names exactly receivers and sender (duplicates allowed), the receiver list does not gain the sender, 14 fields stay |
| Envelope.WrapAllEntry | apiserver/utils/message.go:26-39 | A named user's entry is the key wrapped for that user, also when the user is named repeatedly |
| Envelope.OpenSeal | apiserver/utils/message.go:12-111 | Sender or receiver reads back the exact factor, for every generated key |
| Envelope.OpenNamed | apiserver/utils/message.go:72-90 | A user in the key map reads the decryption under the unwrapped key, or what is stored if the private key cannot be read, unwrapping fails or the text is no base64 |
| Envelope.OpenUnnamed | apiserver/utils/message.go:71-73 | Anyone else, and everyone for a message that is not encrypted, reads what is stored |
| Envelope.OpenByOther | apiserver/utils/message.go:71-110 | A user outside the key set gets the base64 ciphertext and the other 14 fields |
| Envelope.OpensIff | apiserver/utils/message.go:12-111 | Reading gives the original exactly if it is unencrypted, the user is a recipient, or there is no business data |
| Paging.GetValueByDSL | chaincode/utils/utils.go:82-119 | For all 64-bit page numbers and sizes and any iterator: the selected records, or the error; the request's total is the number read, modulo 2^64, also after an error |
| Paging.CountOne | chaincode/utils/utils.go:99-117 | Each turn of the loop, in every branch, keeps list and both wrapping counters in step with the records read |
| Paging.SkipWraps | chaincode/utils/utils.go:94 | Wrapping after the subtraction and after the product is wrapping (currentPage - 1) * pageSize once |
| Paging.ExactPageIff | chaincode/utils/utils.go:93-118 | The page is the one unbounded arithmetic gives exactly if the offset does not wrap or wraps past the last record |
| Paging.WrappedPageRepeats | chaincode/utils/utils.go:94 | A page number far past the end that shows the first page again |
| Paging.PageZeroEmpty | chaincode/utils/utils.go:94-117 | Page 0 is empty for any result not within one page size of 2^64 records |
| Paging.PagePartition | chaincode/utils/utils.go:93-118 | Pages 1 to ceil(n / size) in a row are the whole result, and all but the last are full |
| Paging.QueryPages | chaincode/utils/utils.go:82-119 | At the level of queries, asking for pages 1 to ceil(n / size) in turn lists every key or value of the result once |
| Paging.AnswerAt | chaincode/utils/utils.go:93-118 | Record by record, what a query that reads to its end lists: keys or values from the wrapped offset on, as many as the page holds |
| Paging.AnswerErrIff | chaincode/utils/utils.go:83-102 | The three errors, each exactly when it occurs: an empty text, a failing query, an iterator that fails anywhere |
| Paging.PageAfterIs | chaincode/utils/utils.go:97-103 | The page sent back is the caller's, with the number of records read before the end or the first failure, modulo 2^64 |
| Paging.TotalOnEveryPage | chaincode/utils/utils.go:98-104 | Every page reports the size of the whole result, whatever total the caller sent |
| Paging.AlignedProjections | chaincode/utils/utils.go:111-115 | The key run and the value run of one request list key and value of the same records, at any page |
| Chaincode.SaveData | chaincode/handler/handler.go:25-41 | One write and one event with the saved value, or an error, no write and no event |
| Chaincode.DslQuery | chaincode/handler/handler.go:43-56 | Always a successful response: page and total after the query, status 1 for any error; request bytes that do not decode answer with what was decoded before the error, an empty page as a missing list |
| Chaincode.KeepaliveQuery | chaincode/handler/handler.go:58-71 | Reached exactly if the committed value of the probe key is the probe text |
| Chaincode.BuildInvokeResponse | chaincode/utils/utils.go:22-53 | The marshalled response with status and data, and the caller's error handed back; the event is set only when asked for and named |
| Chaincode.Init | chaincode/chaincode.go:36-45 | Writes the probe entry unless the peer refuses the key |
| Chaincode.Invoke | chaincode/chaincode.go:47-67 | Guard, dispatch and the whole effect on pending writes and event |
| Chaincode.InvokeRejects | chaincode/chaincode.go:51-60 | Too few arguments, an empty second one, or a name other than the three functions answer an error and leave nothing to commit |
| Chaincode.InvokeSaves | chaincode/handler/handler.go:25-41 | An invocation of SaveData writes the request's value under its key and sets an event with the answer's bytes, or answers an error for undecodable bytes, an empty key or a refused one |
| Chaincode.SavesUnder | chaincode/handler/handler.go:40 | The handler's event carries the function name it was given, and there is none without a name |
| Chaincode.InvokeProbes | chaincode/handler/handler.go:58-71 | An invocation of KeepaliveQuery answers "Reached" exactly if the peer reads the key "test" and finds "test" there, and never writes |
| Chaincode.InvokeQueries | chaincode/handler/handler.go:43-56 | An invocation of DslQuery is always answered with a response that names its failure, or lists the records, with the page after the query; it never writes |
| Chain.Peer.Submit | chaincode/chaincode.go:47-67 | An invocation changes committed ledger and event log by its effect, and by nothing if it answers an error |
| Chain.Peer.Instantiate | chaincode/chaincode.go:36-45 | Init commits the probe entry, and no event, or nothing |
| Chain.Peer.SubmitAll | chaincode/chaincode.go:47-67 | A list of invocations leaves the ledger and log of the run that the lemmas below are about |
| Chain.StepReplays | chaincode/handler/handler.go:32-40 | Every invocation keeps the ledger equal to the replayed event log |
| Chain.LogReplaysToLedger | chaincode/handler/handler.go:25-41 | Over every run from Init, replaying the committed events over Init's entry gives the ledger |
| Chain.KeepaliveIff | chaincode/handler/handler.go:58-71 | Over every run, invoking the probe at the end answers "Reached", whatever its arguments, exactly if no call sent asked to store a record under its key; otherwise it fails, whatever they are |
| Chain.KeepaliveIffLogged | chaincode/handler/handler.go:58-71 | The same read off the event log: the probe's invocation answers exactly if no committed save named its key |
| Chain.OneSaveSilencesProbe | chaincode/handler/handler.go:58-71 | One well-formed save of a record whose id is the probe's key makes the probe fail |
| Checkpoint.ReadNatPrinted | eventserver/handle/handleevent.go:28 | Reading a printed number gives it back, before any text that does not start with a digit |
| Checkpoint.PrintNatDecimal | eventserver/handle/handleevent.go:28 | A printed number is its decimal numeral without leading zeros |
| Checkpoint.PrintIs | eventserver/handle/handleevent.go:26-31 | The file's text: members block_number and tx_index, in this order, with decimal numbers |
| Checkpoint.ParseOne | eventserver/handle/handleevent.go:53-56 | One member is stored if it fits the 64-bit field of its name, rejected if it does not, and ignored under another name |
| Checkpoint.LeadingZero | eventserver/handle/handleevent.go:53-56 | A number ends after a leading zero |
| Checkpoint.ParsePair | eventserver/handle/handleevent.go:53-56 | Two members in any order are stored into the fields of their names if they fit 64 bits, other names are ignored and the last of a name wins |
| Checkpoint.ParseEmpty | eventserver/handle/handleevent.go:53-56 | An object without members leaves the struct alone, and text after an object is an error |
| Checkpoint.ParsePrint | eventserver/handle/handleevent.go:26-57 | Reading back the printed record gives it, whatever the struct held |
| Checkpoint.PrefixFails | eventserver/handle/handleevent.go:54-56 | No proper prefix of a printed record parses |
| Checkpoint.FileAfterIs | eventserver/handle/handleevent.go:32-38 | A write leaves the old file, or a prefix of the record's text of the length that reached it |
| Checkpoint.CheckpointCrashSafe | eventserver/handle/handleevent.go:26-73 | A write cut at any byte leaves the old record, the new one or an unreadable file; replay starts at the old block, the new one or 0 |
| Recovery.EventServer.SetBlockInfo | eventserver/handle/handleevent.go:26-45 | The file after a write that fails to create, is cut, or completes |
| Recovery.EventServer.GetBlockInfo | eventserver/handle/handleevent.go:47-57 | Updates the global record exactly if the file exists and parses |
| Recovery.ReplayStartIs | eventserver/handle/handleevent.go:67-73 | The replay starts at the record read, and at block 0 if the file is missing or unreadable, whatever the global record holds |
| Recovery.EventServer.CheckAndRecoverEvent | eventserver/handle/handleevent.go:59-105 | For any file and any global record: fetches from the checkpoint to the height or the first failing fetch; after a failing fetch it writes nothing, otherwise the file is that of all handled notifications |
| RecoverySafety.ReceivedBlocksCovered | eventserver/handle/handleevent.go:88-104 | When a notification of block m is handled, every block before m that a process may have to know of is covered, if no start skips a block |
| RecoverySafety.StepSafe | eventserver/handle/handleevent.go:59-105 | Start at any height and first block the starts allow, in order or not, fetch, failed fetch, notification, handled notification with any write outcome, and crash all keep checkpoint and cursor honest |
| RecoverySafety.NothingLost | eventserver/handle/handleevent.go:59-105 | Over all step sequences with listeners in time, when a replay has completed, every event below that start's height was handled live or its block fetched |
| RecoverySafety.NoBlockLost | eventserver/handle/handleevent.go:59-105 | The same for blocks, if every block has events: each below the height was received or fetched |
| RecoverySafety.CheckpointBeyondGap | eventserver/handle/handleevent.go:88-104 | A run that any start can take: it ends with the checkpoint at a block the listener reported, past everything between the height and the listener's first block |
| RecoverySafety.GapLoses | eventserver/handle/handleevent.go:59-105 | A start that skips a block with events makes some run lose that block's events; if heights are read in order, the losing run's next start is above every block reported |
| RecoverySafety.NeverLosesIff | eventserver/handle/handleevent.go:59-105 | For every chain and every set of possible starts, with heights in the order of one chain or not: no reachable completed replay misses an event if and only if no start skips a block with events |
| RecoverySafety.NeverLosesIffListenerInTime | eventserver/main.go:51-61 | If every block has events and a start above the first block reported can follow: nothing is ever lost if and only if every listener starts no higher than the height read |
| Recovery.SessionIsMethodRun | eventserver/handle/handleevent.go:59-105 | Every session of the protocol, however notifications interleave, fetches up to the same block and leaves the same file as the method |
| FilterEvent.Run | eventserver/handle/filterevent.go:154-211 | Ties the method to the filter: dropped, a panic, or the marshalled event |
| FilterEvent.FilterIs | eventserver/handle/filterevent.go:154-206 | Dropped exactly if the bytes or the first element do not decode, a panic exactly on an empty or missing list, else the fixed header and contents fields, the response's tracking id and status, and the first message as the user reads it |
| Lifecycle.SaveCommits | chaincode/handler/handler.go:32-40 | Saving a sealed factor commits the message under the factor's id and logs one event with it |
| Lifecycle.EventPathRoundTrip | eventserver/handle/filterevent.go:154-206 | The event of a save passes the filter with its tracking id, status Success and exactly one factor, the original exactly if the alias may read it, it is unencrypted, or it has no business data |
| Lifecycle.LedgerHoldsLatest | chaincode/handler/handler.go:32-35 | After any run of saves, refused or unsealable saves and other invocations, an id holds the sealed form of the last factor committed under it, and no other id but Init's exists |
| Lifecycle.DslDelivers | chaincode/handler/handler.go:43-56 | A query always commits nothing and answers success; what a client decodes names the failure, or gives page and records of the query, an empty list as a missing one |
| Lifecycle.DecodeAllConcat | apiserver/sdk/sdk.go:233-241 | Stored values are decoded one by one: an undecodable one is skipped and costs no other |
| Lifecycle.QueryPathRoundTrip | apiserver/utils/message.go:68-111 | After any such run, the bytes that answer a ledger query, decoded and opened by an entitled user, are the list of the factors last committed under the ids on that page, in order |
| Lifecycle.SaveFactors | apiserver/handler/factor.go:62-83 | With any ids and keys drawn: factors before the first one that cannot be sealed or stored are committed under their ids in order, none after it |
| Lifecycle.SavedRowConservation | apiserver/sdk/sdk.go:255-298 | For transactions that saved records, beside any that emitted nothing, block query rows plus non-blank live ids number exactly the non-blank ids asked for |

## Left out

- Recovery.EventServer.CheckAndRecoverEvent: the endless receive loop is followed up to any finite list of notifications.
- Checkpoint.Parse: reads objects whose members are integers, with plain names matched exactly; nested values, fractions, escapes and case-insensitive names are rejected or distinguished, because no file written by SetBlockInfo has them.
- BlockLookup.GetBlockByTxids: the map's block entries are values, not pointers; each is reachable from one key only, so sharing cannot be observed.
- Cfb.Stream.XorKeyStream: a stream is driven once, as the source does, so the register for a segment continued by a second call is not modelled.
- Base64.Decode: answers an error without the bytes decoded before it, which the source discards.
- BlockCoverage.CompleteForEveryLedgerIff: distinct non-blank ids; the general forms are AlwaysReturnedIff, CompleteIffAllGuaranteed and AlwaysCompleteIff.
- BlockGuarantee.CompleteIffAllGuaranteed: lists whose repeated ids are first or last. For one repeated elsewhere RunReturnedIff is exact when its cells are in a row behind distinct ids; for one in several places, or behind repeated or blank ids, no exact condition is stated. It depends on how many cells single iterations can remove in between. Containment, conservation and CompleteIffReturned hold for all lists.
- BlockBlanks.AllEmitCompleteIff: names its hypothesis, which the source does not ensure; AlwaysCompleteIff is the form without it.
- BlockCoverage.LossBound: which ids one given ledger loses depends on the order of events inside each block; the bound, containment, conservation and the first and last id hold for all of them.
- Random draws (record ids and keys) are parameters; AES, HMAC and ECIES security is not modelled.
- HTTP handlers and routing, configuration, logging, peer and orderer selection, message queue, keepalive of the orderer, user alias handling, certificate parsing.
- BlockQueryEx decodes into one shared record and DSL never slices by page; BlockQuery and GetValueByDSL are modelled instead.
- Protobuf decoding of blocks: an entry that cannot be decoded has no events.
