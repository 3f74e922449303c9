/** The checkpoint file: SetBlockInfo and GetBlockInfo of eventserver/handle/handleevent.go,
    with the JSON text they write and read (sections 2 to 7 of RFC 8259). */
module Checkpoint {
  import opened Wrappers
  import opened Records

  const TWO_TO_THE_63: int := 0x8000_0000_0000_0000

  /** Go's int on a 64-bit platform. */
  type Int = x: int | -TWO_TO_THE_63 <= x < TWO_TO_THE_63

  datatype BlockInfo = BlockInfo(blockNumber: Uint, txIndex: Int)

  // ---- Writing ----

  function DigitChar(d: nat): char
    requires d < 10
  {
    '0' + d as char
  }

  function PrintNat(n: nat): (s: string)
    ensures s != []
    ensures forall i :: 0 <= i < |s| ==> '0' <= s[i] <= '9'
    ensures s[0] == '0' ==> n == 0 && s == "0"
  {
    if n < 10 then [DigitChar(n)] else PrintNat(n / 10) + [DigitChar(n % 10)]
  }

  function PrintInt(n: int): string { if n < 0 then "-" + PrintNat(-n) else PrintNat(n) }

  /** json.Marshal of the two-member object. */
  function Print(i: BlockInfo): string {
    "{\"block_number\":" + PrintNat(i.blockNumber) + ",\"tx_index\":" + PrintInt(i.txIndex) + "}"
  }

  // ---- Reading ----

  predicate IsSpace(c: char) { c == ' ' || c == '\t' || c == '\n' || c == '\r' }

  predicate IsDigit(c: char) { '0' <= c <= '9' }

  function SkipSpace(s: string): (r: string)
    ensures |r| <= |s|
    ensures r != [] ==> !IsSpace(r[0])
    ensures forall c :: c in r ==> c in s
  {
    if s == [] || !IsSpace(s[0]) then s else SkipSpace(s[1..])
  }

  /** The digits at the front, after those that made `acc`, and the rest. */
  function ReadDigits(s: string, acc: nat): (r: (nat, string))
    ensures |r.1| <= |s|
    ensures forall c :: c in r.1 ==> c in s
  {
    if s == [] || !IsDigit(s[0]) then (acc, s)
    else ReadDigits(s[1..], 10 * acc + (s[0] as int - '0' as int))
  }

  /** No leading zeros: after a zero the number is over. */
  function ReadNat(s: string): (r: Option<(nat, string)>)
    ensures r.Some? ==> |r.value.1| < |s| && forall c :: c in r.value.1 ==> c in s
  {
    if s == [] || !IsDigit(s[0]) then None
    else if s[0] == '0' then Some((0, s[1..]))
    else Some(ReadDigits(s[1..], s[0] as int - '0' as int))
  }

  function ReadInt(s: string): (r: Option<(int, string)>)
    ensures r.Some? ==> |r.value.1| < |s| && forall c :: c in r.value.1 ==> c in s
  {
    if s != [] && s[0] == '-' then
      var (n, rest) :- ReadNat(s[1..]);
      Some((-(n as int), rest))
    else
      var (n, rest) :- ReadNat(s);
      Some((n, rest))
  }

  /** The characters up to the closing quote; escapes are not read. */
  function ReadName(s: string): (r: Option<(string, string)>)
    ensures r.Some? ==> |r.value.1| < |s| && forall c :: c in r.value.1 ==> c in s
  {
    if s == [] || s[0] < ' ' || s[0] == '\\' then None
    else if s[0] == '"' then Some(([], s[1..]))
    else
      var (name, rest) :- ReadName(s[1..]);
      Some(([s[0]] + name, rest))
  }

  /** Storing a number into the struct field of that name; other names are ignored. */
  function Assign(info: BlockInfo, name: string, n: int): Option<BlockInfo> {
    if name == "block_number" then
      if 0 <= n < TWO_TO_THE_64 then Some(info.(blockNumber := n)) else None
    else if name == "tx_index" then
      if -TWO_TO_THE_63 <= n < TWO_TO_THE_63 then Some(info.(txIndex := n)) else None
    else Some(info)
  }

  /** One member, without the separator after it. */
  function ReadMember(s: string, info: BlockInfo): (r: Option<(BlockInfo, string)>)
    ensures r.Some? ==> |r.value.1| < |s| && forall c :: c in r.value.1 ==> c in s
  {
    if s == [] || s[0] != '"' then None
    else
      var (name, afterName) :- ReadName(s[1..]);
      var colon := SkipSpace(afterName);
      if colon == [] || colon[0] != ':' then None
      else
        var value := SkipSpace(colon[1..]);
        assert forall c :: c in colon[1..] ==> c in colon;
        assert forall c :: c in colon ==> c in afterName;
        assert forall c :: c in value ==> c in s;
        var (n, rest) :- ReadInt(value);
        var next :- Assign(info, name, n);
        assert forall c :: c in SkipSpace(rest) ==> c in s;
        Some((next, SkipSpace(rest)))
  }

  /** The members up to the closing brace. */
  function ReadMembers(s: string, info: BlockInfo): (r: Option<(BlockInfo, string)>)
    ensures r.Some? ==> '}' in s
    decreases |s|
  {
    var (next, rest) :- ReadMember(s, info);
    if rest == [] then None
    else if rest[0] == ',' then ReadMembers(SkipSpace(rest[1..]), next)
    else if rest[0] == '}' then Some((next, rest[1..]))
    else None
  }

  /** json.Unmarshal into a struct that holds `info`. */
  function Parse(s: string, info: BlockInfo): (r: Option<BlockInfo>)
    ensures r.Some? ==> '}' in s
  {
    var open := SkipSpace(s);
    if open == [] || open[0] != '{' then None
    else
      var first := SkipSpace(open[1..]);
      assert forall c :: c in first ==> c in s;
      if first != [] && first[0] == '}' then
        assert first[0] in first;
        if SkipSpace(first[1..]) == [] then Some(info) else None
      else
        var (next, rest) :- ReadMembers(first, info);
        if SkipSpace(rest) == [] then Some(next) else None
  }

  // ---- Reading inverts writing ----

  lemma {:induction false} ReadDigitsPrinted(n: nat, rest: string)
    ensures ReadDigits(PrintNat(n) + rest, 0) == ReadDigits(rest, n)
    decreases n
  {
    if n < 10 {
      assert ([DigitChar(n)] + rest)[1..] == rest;
    } else {
      var last := [DigitChar(n % 10)];
      assert PrintNat(n) + rest == PrintNat(n / 10) + (last + rest);
      ReadDigitsPrinted(n / 10, last + rest);
      assert (last + rest)[1..] == rest;
    }
  }

  lemma ReadNatPrinted(n: nat, rest: string)
    requires rest == [] || !IsDigit(rest[0])
    ensures ReadNat(PrintNat(n) + rest) == Some((n, rest))
  {
    var s := PrintNat(n) + rest;
    if s[0] == '0' {
      assert s[1..] == rest;
    } else {
      ReadDigitsPrinted(n, rest);
    }
  }

  lemma ReadIntPrinted(n: int, rest: string)
    requires rest == [] || !IsDigit(rest[0])
    ensures ReadInt(PrintInt(n) + rest) == Some((n, rest))
  {
    hide PrintNat, ReadNat;
    var s := PrintInt(n) + rest;
    if n < 0 {
      assert s[1..] == PrintNat(-n) + rest;
      ReadNatPrinted(-n, rest);
    } else {
      ReadNatPrinted(n, rest);
    }
  }

  predicate Plain(name: string) {
    forall k :: 0 <= k < |name| ==> name[k] >= ' ' && name[k] != '\\' && name[k] != '"'
  }

  lemma {:induction false} ReadNameQuoted(name: string, rest: string)
    requires Plain(name)
    ensures ReadName(name + "\"" + rest) == Some((name, rest))
  {
    var s := name + "\"" + rest;
    if name == [] {
      assert s[1..] == rest;
    } else {
      assert s[1..] == name[1..] + "\"" + rest;
      assert [name[0]] + name[1..] == name;
      ReadNameQuoted(name[1..], rest);
    }
  }

  function PrintMember(name: string, n: int): string { "\"" + (name + "\"" + (":" + PrintInt(n))) }

  lemma MemberText(name: string, n: int, rest: string)
    ensures PrintMember(name, n) + rest == "\"" + (name + "\"" + (":" + (PrintInt(n) + rest)))
  {
  }

  lemma ReadMemberPrinted(name: string, n: int, rest: string, info: BlockInfo)
    requires Plain(name)
    requires rest != [] && !IsDigit(rest[0]) && !IsSpace(rest[0])
    ensures ReadMember(PrintMember(name, n) + rest, info)
         == match Assign(info, name, n) case None => None case Some(next) => Some((next, rest))
  {
    MemberText(name, n, rest);
    assert PrintInt(n) != [] && !IsSpace(PrintInt(n)[0]);
    hide PrintInt, PrintMember, ReadInt, ReadName, Assign;
    var tail := PrintInt(n) + rest;
    var colon := ":" + tail;
    var text := name + "\"" + colon;
    assert ("\"" + text)[1..] == text && colon[1..] == tail;
    ReadNameQuoted(name, colon);
    ReadIntPrinted(n, rest);
  }

  lemma TextParts(a: string, b: string)
    ensures "{\"block_number\":" + a + ",\"tx_index\":" + b + "}"
         == "{" + ("\"" + ("block_number" + "\"" + (":" + a)) + ("," + ("\"" + ("tx_index" + "\"" + (":" + b)) + "}")))
  {
    assert "{\"block_number\":" == "{" + ("\"" + ("block_number" + "\"" + ":"));
    assert ",\"tx_index\":" == "," + ("\"" + ("tx_index" + "\"" + ":"));
  }

  lemma PrintParts(i: BlockInfo)
    ensures Print(i) == "{" + (PrintMember("block_number", i.blockNumber)
                               + ("," + (PrintMember("tx_index", i.txIndex) + "}")))
  {
    hide PrintNat;
    TextParts(PrintInt(i.blockNumber), PrintInt(i.txIndex));
  }

  /** A member followed by a comma and another one. */
  lemma MemberThenMore(s: string, info: BlockInfo, next: BlockInfo, more: string)
    requires ReadMember(s, info) == Some((next, "," + more)) && more != [] && !IsSpace(more[0])
    ensures ReadMembers(s, info) == ReadMembers(more, next)
  {
    hide ReadMember;
    assert ("," + more)[1..] == more;
  }

  lemma MemberThenEnd(s: string, info: BlockInfo, next: BlockInfo)
    requires ReadMember(s, info) == Some((next, "}"))
    ensures ReadMembers(s, info) == Some((next, ""))
  {
    hide ReadMember;
    assert "}"[1..] == "";
  }

  lemma BlockNumberPrinted(i: BlockInfo, rest: string, info: BlockInfo)
    requires rest != [] && !IsDigit(rest[0]) && !IsSpace(rest[0])
    ensures ReadMember(PrintMember("block_number", i.blockNumber) + rest, info)
         == Some((info.(blockNumber := i.blockNumber), rest))
  {
    hide PrintMember, ReadMember;
    ReadMemberPrinted("block_number", i.blockNumber, rest, info);
  }

  lemma TxIndexPrinted(i: BlockInfo, rest: string, info: BlockInfo)
    requires rest != [] && !IsDigit(rest[0]) && !IsSpace(rest[0])
    ensures ReadMember(PrintMember("tx_index", i.txIndex) + rest, info)
         == Some((info.(txIndex := i.txIndex), rest))
  {
    hide PrintMember, ReadMember;
    ReadMemberPrinted("tx_index", i.txIndex, rest, info);
  }

  lemma MembersPrinted(i: BlockInfo, info: BlockInfo)
    ensures ReadMembers(PrintMember("block_number", i.blockNumber)
                        + ("," + (PrintMember("tx_index", i.txIndex) + "}")), info)
         == Some((i, ""))
  {
    var second := PrintMember("tx_index", i.txIndex) + "}";
    var first := PrintMember("block_number", i.blockNumber) + ("," + second);
    var half := info.(blockNumber := i.blockNumber);
    assert second[0] == '"' && !IsSpace('"');
    assert !IsDigit(',') && !IsSpace(',') && !IsDigit('}') && !IsSpace('}');
    hide *;
    BlockNumberPrinted(i, "," + second, info);
    TxIndexPrinted(i, "}", half);
    MemberThenMore(first, info, half, second);
    MemberThenEnd(second, half, i);
  }

  /** Reading back what was written gives the record, whatever the struct held before. */
  lemma ParsePrint(i: BlockInfo, info: BlockInfo)
    ensures Parse(Print(i), info) == Some(i)
  {
    var members := PrintMember("block_number", i.blockNumber)
                   + ("," + (PrintMember("tx_index", i.txIndex) + "}"));
    PrintParts(i);
    MembersPrinted(i, info);
    assert members[0] == '"';
    hide PrintMember, ReadMembers, Print;
    assert ("{" + members)[1..] == members;
  }

  /** A text cut anywhere before its end never parses: its only closing brace is gone. */
  lemma PrefixFails(i: BlockInfo, k: nat, info: BlockInfo)
    requires k < |Print(i)|
    ensures Parse(Print(i)[..k], info) == None
  {
    OneBrace(i);
    hide Print;
    assert '}' !in Print(i)[..k];
    hide *;
    NeedsBrace(Print(i)[..k], info);
  }

  lemma OneBrace(i: BlockInfo)
    ensures '}' !in Print(i)[..|Print(i)| - 1]
  {
    var body := "{\"block_number\":" + PrintNat(i.blockNumber) + ",\"tx_index\":" + PrintInt(i.txIndex);
    assert Print(i) == body + "}" && Print(i)[..|Print(i)| - 1] == body;
    assert '}' !in PrintNat(i.blockNumber) && '}' !in PrintInt(i.txIndex);
  }

  lemma NeedsBrace(s: string, info: BlockInfo)
    requires '}' !in s
    ensures Parse(s, info) == None
  {
    hide *;
    assert Parse(s, info).Some? ==> '}' in s;
  }

  // ---- The text itself ----

  /** The value of a text of decimal digits. */
  function DecimalValue(s: string): nat
    requires forall i :: 0 <= i < |s| ==> '0' <= s[i] <= '9'
  {
    if s == [] then 0 else 10 * DecimalValue(s[..|s| - 1]) + (s[|s| - 1] as int - '0' as int)
  }

  /** `d` is the decimal numeral of `n`: no leading zero. */
  predicate IsDecimal(d: string, n: nat) {
    d != [] && (forall i :: 0 <= i < |d| ==> '0' <= d[i] <= '9') && (d[0] == '0' ==> |d| == 1)
    && DecimalValue(d) == n
  }

  lemma {:induction false} PrintNatDecimal(n: nat)
    ensures IsDecimal(PrintNat(n), n)
    decreases n
  {
    var d := PrintNat(n);
    if n >= 10 {
      PrintNatDecimal(n / 10);
      assert d[..|d| - 1] == PrintNat(n / 10);
    } else {
      assert d[..0] == [];
    }
  }

  lemma {:induction false} DecimalUnique(d: string, n: nat)
    requires IsDecimal(d, n)
    ensures d == PrintNat(n)
    decreases |d|
  {
    if |d| > 1 {
      var front := d[..|d| - 1];
      DecimalFront(d, n);
      DecimalUnique(front, n / 10);
      assert d == front + [d[|d| - 1]];
    } else {
      assert DecimalValue(d[..0]) == 0;
      assert DigitChar(n) == d[0];
    }
  }

  /** A numeral without its last digit. */
  lemma DecimalFront(d: string, n: nat)
    requires IsDecimal(d, n) && |d| > 1
    ensures n >= 10 && IsDecimal(d[..|d| - 1], n / 10) && d[|d| - 1] == DigitChar(n % 10)
  {
    var front, last := d[..|d| - 1], d[|d| - 1] as int - '0' as int;
    assert front[0] == d[0];
    PositiveDecimal(front);
    assert DecimalValue(d) == 10 * DecimalValue(front) + last;
  }

  lemma {:induction false} PositiveDecimal(d: string)
    requires d != [] && (forall i :: 0 <= i < |d| ==> '0' <= d[i] <= '9') && d[0] != '0'
    ensures DecimalValue(d) > 0
    decreases |d|
  {
    if |d| > 1 { PositiveDecimal(d[..|d| - 1]); } else { assert DecimalValue(d[..0]) == 0; }
  }

  function Abs(x: int): nat { if x < 0 then -x else x }

  /** The file's text: two members, the numbers in decimal. */
  lemma PrintIs(i: BlockInfo) returns (block: string, index: string)
    ensures IsDecimal(block, i.blockNumber) && IsDecimal(index, Abs(i.txIndex))
    ensures Print(i) == "{\"block_number\":" + block + ",\"tx_index\":" + (if i.txIndex < 0 then "-" else "") + index
                        + "}"
  {
    block, index := PrintNat(i.blockNumber), PrintNat(Abs(i.txIndex));
    PrintNatDecimal(i.blockNumber);
    PrintNatDecimal(Abs(i.txIndex));
    hide PrintNat, IsDecimal;
    var front := "{\"block_number\":" + block + ",\"tx_index\":";
    if i.txIndex < 0 {
      assert front + ("-" + index) == front + "-" + index;
    } else {
      assert front + "" == front;
    }
  }

  /** The struct after a member was read: the two known names are range-checked, others ignored. */
  ghost predicate Stores(info: BlockInfo, name: string, n: int, r: Option<BlockInfo>) {
    if name == "block_number" then
      if 0 <= n < 0x1_0000_0000_0000_0000 then r == Some(BlockInfo(n, info.txIndex)) else r == None
    else if name == "tx_index" then
      if -0x8000_0000_0000_0000 <= n < 0x8000_0000_0000_0000 then r == Some(BlockInfo(info.blockNumber, n))
      else r == None
    else r == Some(info)
  }

  lemma AssignStores(info: BlockInfo, name: string, n: int)
    ensures Stores(info, name, n, Assign(info, name, n))
  {
  }

  lemma ParseBraced(members: string, info: BlockInfo)
    requires members != [] && members[0] == '"'
    ensures Parse("{" + members, info) ==
            match ReadMembers(members, info)
            case None => None
            case Some((next, rest)) => if SkipSpace(rest) == [] then Some(next) else None
  {
    hide ReadMembers;
    assert ("{" + members)[1..] == members;
  }

  lemma MemberFails(s: string, info: BlockInfo)
    requires ReadMember(s, info) == None
    ensures ReadMembers(s, info) == None
  {
  }

  /** What reading one member and the brace after it gives. */
  lemma LastMember(name: string, n: int, info: BlockInfo)
    requires Plain(name)
    ensures ReadMembers(PrintMember(name, n) + "}", info) ==
            match Assign(info, name, n) case None => None case Some(next) => Some((next, ""))
  {
    var s := PrintMember(name, n) + "}";
    assert !IsDigit('}') && !IsSpace('}');
    ReadMemberPrinted(name, n, "}", info);
    hide *;
    match Assign(info, name, n) {
      case None => MemberFails(s, info);
      case Some(next) => MemberThenEnd(s, info, next);
    }
  }

  /** A file with one member, which may be one of the struct's or not. */
  lemma ParseOne(name: string, n: int, info: BlockInfo)
    requires Plain(name)
    ensures Stores(info, name, n, Parse("{" + (PrintMember(name, n) + "}"), info))
  {
    var members := PrintMember(name, n) + "}";
    assert members[0] == '"' && SkipSpace("") == "";
    hide *;
    LastMember(name, n, info);
    ParseBraced(members, info);
    AssignStores(info, name, n);
  }

  /** A number does not go on after a leading zero. */
  lemma LeadingZero(rest: string)
    ensures ReadNat("0" + rest) == Some((0, rest))
  {
    assert ("0" + rest)[1..] == rest;
  }

  /** A file without members leaves the struct as it was; text after the object is an error. */
  lemma ParseEmpty(rest: string, info: BlockInfo)
    ensures Parse("{}" + rest, info) == if SkipSpace(rest) == [] then Some(info) else None
  {
    var s := "{}" + rest;
    assert s[1..] == "}" + rest && s[1..][1..] == rest;
  }

  /** A file with two members, in any order: a later one of the same name wins. */
  lemma ParsePair(a: string, m: int, b: string, n: int, info: BlockInfo) returns (half: Option<BlockInfo>)
    requires Plain(a) && Plain(b)
    ensures Stores(info, a, m, half)
    ensures var r := Parse("{" + (PrintMember(a, m) + ("," + (PrintMember(b, n) + "}"))), info);
            if half == None then r == None else Stores(half.value, b, n, r)
  {
    half := Assign(info, a, m);
    var second := PrintMember(b, n) + "}";
    var first := PrintMember(a, m) + ("," + second);
    assert first[0] == '"' && second[0] == '"' && !IsSpace('"') && SkipSpace("") == "";
    assert !IsDigit(',') && !IsSpace(',');
    hide *;
    ReadMemberPrinted(a, m, "," + second, info);
    ParseBraced(first, info);
    AssignStores(info, a, m);
    if half.Some? {
      MemberThenMore(first, info, half.value, second);
      LastMember(b, n, half.value);
      AssignStores(half.value, b, n);
    } else {
      MemberFails(first, info);
    }
  }

  // ---- The file ----

  /** What happens to a write: the file cannot be created, and is left alone, or it is
      truncated and the first `bytes` characters reach it before a crash or an error. */
  datatype WriteOutcome = NotCreated | Written(bytes: nat)

  function FileAfter(file: Option<string>, i: BlockInfo, outcome: WriteOutcome): Option<string> {
    match outcome
    case NotCreated => file
    case Written(n) => Some(if n < |Print(i)| then Print(i)[..n] else Print(i))
  }

  /** What a fresh process reads from the file, None for any error. */
  function Load(file: Option<string>): Option<BlockInfo> {
    match file case None => None case Some(text) => Parse(text, BlockInfo(0, 0))
  }

  /** The block from which a fresh process replays. */
  function Resume(file: Option<string>): Uint {
    match Load(file) case None => 0 case Some(i) => i.blockNumber
  }

  /** What a write leaves: the old file, or the first characters of the printed record. */
  lemma FileAfterIs(file: Option<string>, i: BlockInfo, outcome: WriteOutcome)
    ensures match outcome
            case NotCreated => FileAfter(file, i, outcome) == file
            case Written(n) =>
              exists k :: 0 <= k <= |Print(i)| && (k == n || k == |Print(i)| < n)
                && FileAfter(file, i, outcome) == Some(Print(i)[..k])
  {
    hide Print;
    if outcome.Written? {
      var k := if outcome.bytes < |Print(i)| then outcome.bytes else |Print(i)|;
      assert Print(i)[..|Print(i)|] == Print(i);
      assert FileAfter(file, i, outcome) == Some(Print(i)[..k]);
    }
  }

  /** Cutting a checkpoint write at any byte leaves the old record, the new record, or a file
      that cannot be read; replay then starts at the old block, the new one, or 0. */
  lemma CheckpointCrashSafe(file: Option<string>, i: BlockInfo, outcome: WriteOutcome)
    ensures Load(FileAfter(file, i, outcome)) ==
            match outcome
            case NotCreated => Load(file)
            case Written(n) => if n < |Print(i)| then None else Some(i)
    ensures Resume(FileAfter(file, i, outcome)) in {Resume(file), i.blockNumber, 0}
  {
    ParsePrint(i, BlockInfo(0, 0));
    match outcome {
      case NotCreated =>
      case Written(n) => if n < |Print(i)| { PrefixFails(i, n, BlockInfo(0, 0)); }
    }
  }
}
