/** Paged reads: GetValueByDSL of chaincode/utils/utils.go, whose unsigned counters wrap. */
module Paging {
  import opened Wrappers
  import opened Records

  datatype KeyValue = KeyValue(key: Bytes, value: Bytes)

  /** A query result iterator: the outcomes of its calls of Next, None for an error. */
  type Iterator = seq<Option<KeyValue>>

  datatype QueryError = EmptyDsl | QueryFailed | NextFailed

  /** The request object that GetValueByDSL updates through a pointer. */
  class QueryRequest {
    const dslSyntax: Bytes
    const blockFlag: bool
    var splitPage: Page

    constructor (q: Query)
      ensures dslSyntax == q.dslSyntax && blockFlag == q.blockFlag && splitPage == q.splitPage
    {
      dslSyntax, blockFlag, splitPage := q.dslSyntax, q.blockFlag, q.splitPage;
    }
  }

  function Min(a: int, b: int): int { if a < b then a else b }

  /** How many records precede the requested page, in wrapping arithmetic. */
  function Skip(p: Page): Uint { (p.currentPage - 1) * p.pageSize % TWO_TO_THE_64 }

  /** At most `size` records from position `start` on. */
  function Window<T>(rs: seq<T>, start: nat, size: nat): seq<T> {
    rs[Min(start, |rs|)..Min(start + size, |rs|)]
  }

  /** The records a page request selects; page size 0 selects all of them. */
  function Select<T>(rs: seq<T>, p: Page): seq<T> {
    if p.pageSize == 0 then rs else Window(rs, Skip(p), p.pageSize)
  }

  /** The records read before the first error of Next. */
  function ReadAll(it: Iterator): (rs: seq<KeyValue>)
    ensures |rs| <= |it|
  {
    if it == [] || it[0].None? then [] else [it[0].value] + ReadAll(it[1..])
  }

  /** Block queries want the ledger keys, the others the stored values. */
  function Project(rs: seq<KeyValue>, blockFlag: bool): (list: seq<Bytes>)
    ensures |list| == |rs|
  {
    seq(|rs|, i requires 0 <= i < |rs| => if blockFlag then rs[i].key else rs[i].value)
  }

  /** What the query answers and the request's page afterwards. */
  function Answer(result: Option<Iterator>, q: Query): Result<seq<Bytes>, QueryError> {
    if q.dslSyntax == [] then Err(EmptyDsl)
    else match result
      case None => Err(QueryFailed)
      case Some(it) =>
        if |ReadAll(it)| < |it| then Err(NextFailed)
        else Ok(Project(Select(ReadAll(it), q.splitPage), q.blockFlag))
  }

  function PageAfter(result: Option<Iterator>, q: Query): Page {
    if q.dslSyntax == [] || result.None? then q.splitPage
    else q.splitPage.(totalRecords := |ReadAll(result.value)| % TWO_TO_THE_64)
  }

  // ---- The loop ----

  lemma ModAddMultiple(x: int, k: nat)
    ensures (x + k * TWO_TO_THE_64) % TWO_TO_THE_64 == x % TWO_TO_THE_64
  {
  }

  /** The loop's initial skip count: unsigned arithmetic wraps after each operation. */
  function InitialSkip(p: Page): Uint {
    var previous := (p.currentPage + TWO_TO_THE_64 - 1) % TWO_TO_THE_64;
    previous * p.pageSize % TWO_TO_THE_64
  }

  lemma SkipWraps(p: Page)
    ensures InitialSkip(p) == Skip(p)
  {
    if p.currentPage == 0 {
      var size: int := p.pageSize;
      ModAddMultiple(-size, size);
      assert (TWO_TO_THE_64 - 1) * size == -size + size * TWO_TO_THE_64;
    } else {
      assert (p.currentPage + TWO_TO_THE_64 - 1) % TWO_TO_THE_64 == p.currentPage - 1;
    }
  }

  function Increment(x: Uint): Uint { (x + 1) % TWO_TO_THE_64 }

  function Decrement(x: Uint): Uint { (x + TWO_TO_THE_64 - 1) % TWO_TO_THE_64 }

  lemma IncrementMod(i: nat)
    ensures Increment(i % TWO_TO_THE_64) == (i + 1) % TWO_TO_THE_64
  {
  }

  lemma SelectOneMore(rs: seq<KeyValue>, r: KeyValue, p: Page)
    ensures Select(rs + [r], p) ==
            if p.pageSize == 0 || Skip(p) <= |rs| < Skip(p) + p.pageSize then Select(rs, p) + [r]
            else Select(rs, p)
  {
  }

  /** The list and the two counters after the records `read`. */
  ghost predicate Counted(page: Page, flag: bool, read: seq<KeyValue>, list: seq<Bytes>, skip: Uint, need: Uint) {
    && list == Project(Select(read, page), flag)
    && (page.pageSize > 0 ==> skip == (if |read| < Skip(page) then Skip(page) - |read| else 0))
    && (page.pageSize > 0 ==> need == page.pageSize - |list|)
  }

  /** One turn of the loop, for the branch it takes. */
  lemma CountOne(page: Page, flag: bool, read: seq<KeyValue>, list: seq<Bytes>, skip: Uint, need: Uint, r: KeyValue)
    requires Counted(page, flag, read, list, skip, need)
    ensures var item := if flag then r.key else r.value;
            if skip > 0 && page.pageSize > 0 then Counted(page, flag, read + [r], list, skip - 1, need)
            else if need > 0 || page.pageSize == 0 then
              Counted(page, flag, read + [r], list + [item], skip, Decrement(need))
            else Counted(page, flag, read + [r], list, skip, need)
  {
    SelectOneMore(read, r, page);
    SelectSize(read, page);
    assert need > 0 ==> Decrement(need) == need - 1;
    hide Skip, Select, Decrement;
    var chosen := Select(read, page);
    assert Project(chosen + [r], flag) == Project(chosen, flag) + [if flag then r.key else r.value];
  }

  lemma SelectSize(rs: seq<KeyValue>, p: Page)
    ensures p.pageSize > 0 ==>
              |Select(rs, p)| == if |rs| <= Skip(p) then 0 else Min(|rs| - Skip(p), p.pageSize)
  {
  }

  lemma ReadAllStep(it: Iterator, i: nat)
    requires i <= |it|
    ensures ReadAll(it[i..]) ==
            if i == |it| || it[i].None? then [] else [it[i].value] + ReadAll(it[i + 1..])
  {
    if i < |it| { assert it[i..][1..] == it[i + 1..]; }
  }

  method GetValueByDSL(result: Option<Iterator>, request: QueryRequest)
    returns (r: Result<seq<Bytes>, QueryError>)
    modifies request
    ensures var q := old(Query(request.dslSyntax, request.splitPage, request.blockFlag));
            r == Answer(result, q) && request.splitPage == PageAfter(result, q)
  {
    hide Skip, Counted, Select, Project, Increment, Decrement, InitialSkip, ReadAll;
    if |request.dslSyntax| == 0 {
      return Err(EmptyDsl);
    }
    if result.None? {
      return Err(QueryFailed);
    }
    var it := result.value;
    ghost var page := request.splitPage;
    var skipSize := InitialSkip(request.splitPage);
    var needSize := request.splitPage.pageSize;
    var resultList: seq<Bytes> := [];
    ghost var read: seq<KeyValue> := [];
    CountNone(page, request.blockFlag);
    assert it[0..] == it;
    request.splitPage := request.splitPage.(totalRecords := 0);
    for i := 0 to |it|
      invariant request.splitPage == page.(totalRecords := i % TWO_TO_THE_64)
      invariant |read| == i && ReadAll(it) == read + ReadAll(it[i..])
      invariant Counted(page, request.blockFlag, read, resultList, skipSize, needSize)
    {
      ReadAllStep(it, i);
      if it[i].None? {
        assert ReadAll(it) == read;
        return Err(NextFailed);
      }
      var queryResponse := it[i].value;
      CountOne(page, request.blockFlag, read, resultList, skipSize, needSize, queryResponse);
      read := read + [queryResponse];
      IncrementMod(i);
      request.splitPage := request.splitPage.(totalRecords := Increment(request.splitPage.totalRecords));
      if skipSize > 0 && request.splitPage.pageSize > 0 {
        skipSize := skipSize - 1;
      } else if needSize > 0 || request.splitPage.pageSize == 0 {
        needSize := Decrement(needSize);
        if request.blockFlag {
          resultList := resultList + [queryResponse.key];
        } else {
          resultList := resultList + [queryResponse.value];
        }
      }
    }
    CountedIs(page, request.blockFlag, read, resultList, skipSize, needSize);
    ReadAllStep(it, |it|);
    assert ReadAll(it) == read;
    return Ok(resultList);
  }

  lemma CountNone(page: Page, flag: bool)
    ensures Counted(page, flag, [], [], InitialSkip(page), page.pageSize)
  {
    SkipWraps(page);
  }

  lemma CountedIs(page: Page, flag: bool, read: seq<KeyValue>, list: seq<Bytes>, skip: Uint, need: Uint)
    requires Counted(page, flag, read, list, skip, need)
    ensures list == Project(Select(read, page), flag)
  {
  }

  // ---- What a page holds ----

  function Offset(page: Uint, size: Uint): nat
    requires page > 0
  {
    MulNonnegative(page - 1, size);
    (page - 1) * size
  }

  lemma MulNonnegative(a: nat, b: nat)
    ensures a * b >= 0
  {
  }

  /** The page that arithmetic without bounds would give. */
  function ExactPage<T>(rs: seq<T>, page: Uint, size: Uint): seq<T>
    requires page > 0
  {
    if size == 0 then rs else Window(rs, Offset(page, size), size)
  }

  /** For which requests the wrapping loop returns the page asked for: those whose offset
      does not wrap, or wraps to a value past the last record. */
  lemma ExactPageIff<T(!new)>(rs: seq<T>, p: Page)
    requires p.currentPage > 0 && |rs| < TWO_TO_THE_64
    ensures Select(rs, p) == ExactPage(rs, p.currentPage, p.pageSize)
       <==> p.pageSize == 0 || Offset(p.currentPage, p.pageSize) < TWO_TO_THE_64 || Skip(p) >= |rs|
  {
    if p.pageSize > 0 {
      var offset := Offset(p.currentPage, p.pageSize);
      assert Skip(p) == offset % TWO_TO_THE_64;
      assert offset < TWO_TO_THE_64 ==> offset % TWO_TO_THE_64 == offset;
      hide Offset, Skip;
      if offset >= TWO_TO_THE_64 { SameWindowIff(rs, offset, Skip(p), p.pageSize); }
    }
  }

  /** A window past the end is empty; another one equals it only if it is past the end too. */
  lemma SameWindowIff<T(!new)>(rs: seq<T>, past: nat, start: nat, size: nat)
    requires size > 0 && past >= |rs|
    ensures Window(rs, start, size) == Window(rs, past, size) <==> start >= |rs|
  {
    assert Window(rs, past, size) == [];
    assert |Window(rs, start, size)| == Min(start + size, |rs|) - Min(start, |rs|);
  }

  /** A page number far beyond the end can wrap to the first page again. */
  lemma WrappedPageRepeats<T>(rs: seq<T>)
    ensures Select(rs, Page(TWO_TO_THE_64 / 2 + 1, 2, 0)) == Select(rs, Page(1, 2, 0))
  {
  }

  /** Page 0 wraps to an offset just below 2^64: an empty page for any result that is not
      within one page size of 2^64 records. */
  lemma PageZeroEmpty<T>(rs: seq<T>, p: Page)
    requires p.currentPage == 0 && p.pageSize > 0 && |rs| <= TWO_TO_THE_64 - p.pageSize
    ensures Select(rs, p) == []
  {
  }

  /** Pages 1 to k, one after the other. */
  function Pages<T>(rs: seq<T>, size: Uint, k: nat): seq<T>
    requires k < TWO_TO_THE_64
  {
    if k == 0 then [] else Pages(rs, size, k - 1) + Select(rs, Page(k, size, 0))
  }

  /** How many pages `n` records fill: n / size, rounded up. */
  function PageCount(n: nat, size: Uint): nat
    requires size > 0
  {
    (n + size - 1) / size
  }

  lemma PageBounds(n: nat, size: Uint, k: nat)
    requires 0 < size && 0 < k <= PageCount(n, size) && n < TWO_TO_THE_64
    ensures k < TWO_TO_THE_64 && (k - 1) * size < n && Skip(Page(k, size, 0)) == (k - 1) * size
    ensures k < PageCount(n, size) ==> k * size < n
    ensures k * size == (k - 1) * size + size
  {
    var c := PageCount(n, size);
    assert c * size <= n + size - 1;
    assert (k - 1) * size + size == k * size;
    MulMonotone(k, c, size);
    if k < c { MulMonotone(k + 1, c, size); assert (k + 1) * size == k * size + size; }
    MulMonotone(1, size, k - 1);
    MulNonnegative(k - 1, size);
  }

  lemma MulMonotone(a: nat, b: nat, c: nat)
    requires a <= b
    ensures a * c <= b * c
  {
  }

  lemma PrefixAndWindow<T>(rs: seq<T>, from: nat, size: nat)
    ensures rs[..Min(from, |rs|)] + Window(rs, from, size) == rs[..Min(from + size, |rs|)]
  {
  }

  /** The first k pages together are the first k * size records. */
  lemma {:induction false} PagesArePrefix<T>(rs: seq<T>, size: Uint, k: nat)
    requires 0 < size && k <= PageCount(|rs|, size) && |rs| < TWO_TO_THE_64
    ensures k < TWO_TO_THE_64 && 0 <= k * size
    ensures Pages(rs, size, k) == rs[..Min(k * size, |rs|)]
  {
    if k > 0 {
      PageBounds(|rs|, size, k);
      PagesArePrefix(rs, size, k - 1);
      var from: nat := (k - 1) * size;
      assert k * size == from + size;
      PrefixAndWindow(rs, from, size);
    }
  }

  /** The pages partition the result: all ceil(n / size) of them, one after the other, give
      every record once, and every page but the last is full. */
  lemma PagePartition<T>(rs: seq<T>, size: Uint)
    requires 0 < size && |rs| < TWO_TO_THE_64
    ensures PageCount(|rs|, size) < TWO_TO_THE_64
    ensures Pages(rs, size, PageCount(|rs|, size)) == rs
    ensures forall k: Uint :: 0 < k < PageCount(|rs|, size) ==> |Select(rs, Page(k, size, 0))| == size
  {
    var n := PageCount(|rs|, size);
    PagesArePrefix(rs, size, n);
    PagesSuffice(|rs|, size);
    hide PageCount;
    forall k: Uint | 0 < k < n
      ensures |Select(rs, Page(k, size, 0))| == size
    {
      FullPage(rs, size, k);
    }
  }

  lemma PagesSuffice(n: nat, size: Uint)
    requires size > 0
    ensures PageCount(n, size) * size >= n
  {
  }

  lemma FullPage<T>(rs: seq<T>, size: Uint, k: Uint)
    requires 0 < size && |rs| < TWO_TO_THE_64 && 0 < k < PageCount(|rs|, size)
    ensures |Select(rs, Page(k, size, 0))| == size
  {
    PageBounds(|rs|, size, k);
  }

  /** The answers for pages 1 to k of one query, one after the other. */
  function AnswerPages(it: Iterator, dsl: Bytes, size: Uint, blockFlag: bool, k: nat): seq<Bytes>
    requires k < TWO_TO_THE_64
  {
    if k == 0 then []
    else
      AnswerPages(it, dsl, size, blockFlag, k - 1)
      + match Answer(Some(it), Query(dsl, Page(k, size, 0), blockFlag))
        case Ok(list) => list
        case Err(_) => []
  }

  lemma {:induction false} AnswerPagesAre(it: Iterator, dsl: Bytes, size: Uint, blockFlag: bool, k: nat)
    requires dsl != [] && |ReadAll(it)| == |it| && k < TWO_TO_THE_64
    ensures AnswerPages(it, dsl, size, blockFlag, k) == Project(Pages(ReadAll(it), size, k), blockFlag)
  {
    hide Select, Skip, ReadAll;
    if k > 0 { AnswerPagesAre(it, dsl, size, blockFlag, k - 1); }
  }

  /** Whatever total the caller sends, every page reports the size of the whole result. */
  lemma TotalOnEveryPage(it: Iterator, q: Query)
    requires q.dslSyntax != [] && |ReadAll(it)| == |it| < TWO_TO_THE_64
    ensures PageAfter(Some(it), q) == q.splitPage.(totalRecords := |it|)
  {
    hide ReadAll;
  }

  /** At the level of queries: asking for all pages in turn lists the whole result once. */
  lemma QueryPages(it: Iterator, dsl: Bytes, size: Uint, blockFlag: bool)
    requires dsl != [] && size > 0 && |ReadAll(it)| == |it| < TWO_TO_THE_64
    ensures PageCount(|it|, size) < TWO_TO_THE_64
    ensures AnswerPages(it, dsl, size, blockFlag, PageCount(|it|, size)) == Project(ReadAll(it), blockFlag)
  {
    PagePartition(ReadAll(it), size);
    hide Project, Pages, ReadAll, PageCount, Select;
    AnswerPagesAre(it, dsl, size, blockFlag, PageCount(|it|, size));
  }

  /** The key run and the value run of one request show the same records, in the same order. */
  lemma AlignedProjections(it: Iterator, dsl: Bytes, page: Page)
    ensures var keys := Answer(Some(it), Query(dsl, page, true));
            var values := Answer(Some(it), Query(dsl, page, false));
            && keys.Ok? == values.Ok?
            && (keys.Ok? ==>
                  && |keys.value| == |values.value|
                  && forall i :: 0 <= i < |keys.value| ==>
                       exists k :: 0 <= k < |it| && it[k] == Some(KeyValue(keys.value[i], values.value[i])))
  {
    if dsl != [] && |ReadAll(it)| == |it| {
      var chosen := Select(ReadAll(it), page);
      forall i | 0 <= i < |chosen|
        ensures exists k :: 0 <= k < |it| && it[k] == Some(chosen[i])
      {
        var k := i + if page.pageSize == 0 then 0 else Min(Skip(page), |it|);
        ReadAllAt(it, k);
        assert chosen[i] == ReadAll(it)[k];
      }
    }
  }

  lemma {:induction false} ReadAllAt(it: Iterator, k: nat)
    requires k < |ReadAll(it)|
    ensures it[k] == Some(ReadAll(it)[k])
  {
    if k > 0 { ReadAllAt(it[1..], k - 1); }
  }

  // ---- The answer, read off the iterator ----

  lemma {:induction false} ReadAllIs(it: Iterator)
    ensures var n := |ReadAll(it)|;
            && (forall k :: 0 <= k < n ==> it[k] == Some(ReadAll(it)[k]))
            && (n < |it| ==> it[n] == None)
  {
    if it != [] && it[0].Some? {
      ReadAllIs(it[1..]);
      forall k | 0 <= k < |ReadAll(it)|
        ensures it[k] == Some(ReadAll(it)[k])
      {
        if k > 0 { assert it[1..][k - 1] == Some(ReadAll(it[1..])[k - 1]); }
      }
    }
  }

  /** Which error a query ends with: for an empty text, for a query that fails, and for an
      iterator that fails anywhere, however much was read before. */
  lemma AnswerErrIff(result: Option<Iterator>, q: Query)
    ensures Answer(result, q) == Err(EmptyDsl) <==> q.dslSyntax == []
    ensures Answer(result, q) == Err(QueryFailed) <==> q.dslSyntax != [] && result == None
    ensures Answer(result, q) == Err(NextFailed) <==>
            q.dslSyntax != [] && result.Some? && exists k :: 0 <= k < |result.value| && result.value[k] == None
  {
    if result.Some? { ReadAllIs(result.value); }
    hide Project, Select;
  }

  /** The page that is sent back: the caller's, with the number of records read before the end
      or the first failure. */
  lemma PageAfterIs(result: Option<Iterator>, q: Query) returns (n: nat)
    ensures q.dslSyntax == [] || result == None ==> PageAfter(result, q) == q.splitPage
    ensures q.dslSyntax != [] && result.Some? ==>
              && n <= |result.value| && (n < |result.value| ==> result.value[n] == None)
              && (forall k :: 0 <= k < n ==> result.value[k].Some?)
              && PageAfter(result, q) == q.splitPage.(totalRecords := n % 0x1_0000_0000_0000_0000)
  {
    n := 0;
    if result.Some? {
      ReadAllIs(result.value);
      n := |ReadAll(result.value)|;
    }
  }

  /** The list of a query that reads to its end: record by record, from the wrapped offset on,
      the key or the value of what the iterator gave. */
  lemma AnswerAt(it: Iterator, q: Query)
    requires q.dslSyntax != [] && forall k :: 0 <= k < |it| ==> it[k].Some?
    ensures Answer(Some(it), q).Ok?
    ensures var list, page := Answer(Some(it), q).value, q.splitPage;
            var size: int := page.pageSize;
            var from := if size == 0 then 0 else (page.currentPage - 1) * size % 0x1_0000_0000_0000_0000;
            && |list| == (if |it| <= from then 0 else if size == 0 || |it| - from < size then |it| - from else size)
            && forall i :: 0 <= i < |list| ==>
                 list[i] == if q.blockFlag then it[from + i].value.key else it[from + i].value.value
  {
    ReadAllIs(it);
  }
}
