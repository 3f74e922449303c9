/** The standard base64 encoding with padding (section 4 of RFC 4648), which carries the
    ciphertext inside a JSON string.  Texts are byte strings, as Go strings are. */
module Base64 {
  import opened Wrappers

  const PAD: bv8 := 61  // '='

  /** The alphabet of Table 1: A-Z, a-z, 0-9, '+', '/'. */
  function Digit(v: bv8): bv8 {
    if v < 26 then v + 65
    else if v < 52 then v + 71
    else if v < 62 then v - 4
    else if v == 62 then 43
    else 47
  }

  function Value(c: bv8): Option<bv8> {
    if 65 <= c <= 90 then Some(c - 65)
    else if 97 <= c <= 122 then Some(c - 71)
    else if 48 <= c <= 57 then Some(c + 4)
    else if c == 43 then Some(62)
    else if c == 47 then Some(63)
    else None
  }

  // The four sextets of a 24-bit group, and the three bytes back.
  function Sextet0(a: bv8): bv8 { a >> 2 }
  function Sextet1(a: bv8, b: bv8): bv8 { ((a & 3) << 4) | (b >> 4) }
  function Sextet2(b: bv8, c: bv8): bv8 { ((b & 15) << 2) | (c >> 6) }
  function Sextet3(c: bv8): bv8 { c & 63 }
  function Byte0(v: bv8, w: bv8): bv8 { (v << 2) | (w >> 4) }
  function Byte1(v: bv8, w: bv8): bv8 { (v << 4) | (w >> 2) }
  function Byte2(v: bv8, w: bv8): bv8 { (v << 6) | w }

  function Encode(s: Bytes): Bytes
    decreases |s|
  {
    if |s| == 0 then []
    else if |s| == 1 then [Digit(Sextet0(s[0])), Digit(Sextet1(s[0], 0)), PAD, PAD]
    else if |s| == 2 then
      [Digit(Sextet0(s[0])), Digit(Sextet1(s[0], s[1])), Digit(Sextet2(s[1], 0)), PAD]
    else
      [Digit(Sextet0(s[0])), Digit(Sextet1(s[0], s[1])), Digit(Sextet2(s[1], s[2])), Digit(Sextet3(s[2]))]
      + Encode(s[3..])
  }

  /** The decoder skips line breaks anywhere. */
  function Strip(t: Bytes): Bytes
    decreases |t|
  {
    if t == [] then []
    else if t[0] == 10 || t[0] == 13 then Strip(t[1..])
    else [t[0]] + Strip(t[1..])
  }

  /** Groups of four; padding only in the last one.  The spare bits of a padded group are
      not checked. */
  function DecodeGroups(t: Bytes): Option<Bytes>
    decreases |t|
  {
    if t == [] then Some([])
    else if |t| < 4 then None
    else
      match (Value(t[0]), Value(t[1]))
      case (Some(v0), Some(v1)) =>
        if t[2] == PAD then
          if t[3] == PAD && |t| == 4 then Some([Byte0(v0, v1)]) else None
        else (
          match Value(t[2])
          case None => None
          case Some(v2) =>
            if t[3] == PAD then
              if |t| == 4 then Some([Byte0(v0, v1), Byte1(v1, v2)]) else None
            else
              match (Value(t[3]), DecodeGroups(t[4..]))
              case (Some(v3), Some(rest)) =>
                Some([Byte0(v0, v1), Byte1(v1, v2), Byte2(v2, v3)] + rest)
              case _ => None)
      case _ => None
  }

  function Decode(t: Bytes): Option<Bytes> { DecodeGroups(Strip(t)) }

  // ---- What the encoding is ----

  function ByteAt(s: Bytes, i: nat): bv8 { if i < |s| then s[i] else 0 }

  /** The digits in order are the 64 characters of Table 1. */
  lemma DigitTable()
    ensures [Digit(0) as char, Digit(1) as char, Digit(2) as char, Digit(3) as char, Digit(4) as char,
             Digit(5) as char, Digit(6) as char, Digit(7) as char, Digit(8) as char, Digit(9) as char,
             Digit(10) as char, Digit(11) as char, Digit(12) as char, Digit(13) as char, Digit(14) as char,
             Digit(15) as char, Digit(16) as char, Digit(17) as char, Digit(18) as char, Digit(19) as char,
             Digit(20) as char, Digit(21) as char, Digit(22) as char, Digit(23) as char, Digit(24) as char,
             Digit(25) as char]
         == "ABCDEFGHIJKLMNOPQRSTUVWXYZ"
    ensures [Digit(26) as char, Digit(27) as char, Digit(28) as char, Digit(29) as char, Digit(30) as char,
             Digit(31) as char, Digit(32) as char, Digit(33) as char, Digit(34) as char, Digit(35) as char,
             Digit(36) as char, Digit(37) as char, Digit(38) as char, Digit(39) as char, Digit(40) as char,
             Digit(41) as char, Digit(42) as char, Digit(43) as char, Digit(44) as char, Digit(45) as char,
             Digit(46) as char, Digit(47) as char, Digit(48) as char, Digit(49) as char, Digit(50) as char,
             Digit(51) as char]
         == "abcdefghijklmnopqrstuvwxyz"
    ensures [Digit(52) as char, Digit(53) as char, Digit(54) as char, Digit(55) as char, Digit(56) as char,
             Digit(57) as char, Digit(58) as char, Digit(59) as char, Digit(60) as char, Digit(61) as char]
         == "0123456789"
    ensures Digit(62) as char == '+' && Digit(63) as char == '/' && PAD as char == '='
  {
  }

  /** The 24 bits of three bytes from `g` on, zero bits added on the right. */
  function Group(s: Bytes, g: nat): bv24 {
    ((ByteAt(s, g) as bv24) << 16) | ((ByteAt(s, g + 1) as bv24) << 8) | (ByteAt(s, g + 2) as bv24)
  }

  /** The r-th quarter of 24 bits. */
  function Quarter(group: bv24, r: nat): bv8
    requires r < 4
  {
    ((group >> (18 - 6 * r)) & 63) as bv8
  }

  /** Bits 6k to 6k + 5 of the input: the k-th of its sextets. */
  function SextetAt(s: Bytes, k: nat): bv8 { Quarter(Group(s, 3 * (k / 4)), k % 4) }

  lemma SextetBits(s: Bytes, k: nat)
    ensures var g := 3 * (k / 4);
            SextetAt(s, k) == if k % 4 == 0 then Sextet0(ByteAt(s, g))
                              else if k % 4 == 1 then Sextet1(ByteAt(s, g), ByteAt(s, g + 1))
                              else if k % 4 == 2 then Sextet2(ByteAt(s, g + 1), ByteAt(s, g + 2))
                              else Sextet3(ByteAt(s, g + 2))
  {
    var g := 3 * (k / 4);
    FourSextets(ByteAt(s, g), ByteAt(s, g + 1), ByteAt(s, g + 2));
    hide ByteAt, Sextet0, Sextet1, Sextet2, Sextet3;
    if k % 4 == 0 {
    } else if k % 4 == 1 {
    } else if k % 4 == 2 {
    } else {
    }
  }

  lemma FourSextets(a: bv8, b: bv8, c: bv8)
    ensures var group := ((a as bv24) << 16) | ((b as bv24) << 8) | (c as bv24);
            && ((group >> 18) & 63) as bv8 == Sextet0(a) && ((group >> 12) & 63) as bv8 == Sextet1(a, b)
            && ((group >> 6) & 63) as bv8 == Sextet2(b, c) && ((group >> 0) & 63) as bv8 == Sextet3(c)
  {
  }

  /** Position by position: a digit for every sextet with an input bit in it, padding after. */
  lemma {:induction false} EncodeAt(s: Bytes, k: nat)
    requires k < 4 * ((|s| + 2) / 3)
    ensures |Encode(s)| == 4 * ((|s| + 2) / 3)
    ensures Encode(s)[k] == if 6 * k < 8 * |s| then Digit(SextetAt(s, k)) else PAD
    decreases |s|
  {
    hide Digit, Sextet0, Sextet1, Sextet2, Sextet3;
    EncodeLength(s);
    if |s| >= 3 && k >= 4 {
      EncodeAt(s[3..], k - 4);
      EncodeSplit(s);
      SextetAtShift(s, k);
      assert Encode(s)[k] == Encode(s)[4..][k - 4];
    } else {
      EncodeFirst(s, k);
    }
  }

  lemma EncodeFirst(s: Bytes, k: nat)
    requires s != [] && k < 4
    ensures |Encode(s)| >= 4 && Encode(s)[k] == if 6 * k < 8 * |s| then Digit(SextetAt(s, k)) else PAD
  {
    SextetBits(s, k);
    hide Digit, SextetAt, Sextet0, Sextet1, Sextet2, Sextet3;
    assert k / 4 == 0 && k % 4 == k;
  }

  lemma EncodeSplit(s: Bytes)
    requires |s| >= 3
    ensures |Encode(s)| == 4 + |Encode(s[3..])| && Encode(s)[4..] == Encode(s[3..])
  {
  }

  lemma SextetAtShift(s: Bytes, k: nat)
    requires |s| >= 3 && k >= 4
    ensures SextetAt(s, k) == SextetAt(s[3..], k - 4)
  {
    var g := 3 * (k / 4);
    assert g == 3 * ((k - 4) / 4) + 3 && k % 4 == (k - 4) % 4;
    GroupShift(s, g);
    hide Group, Quarter;
  }

  lemma GroupShift(s: Bytes, g: nat)
    requires |s| >= 3 && g >= 3
    ensures Group(s, g) == Group(s[3..], g - 3)
  {
    assert forall i :: g <= i < g + 3 ==> ByteAt(s, i) == ByteAt(s[3..], i - 3);
    hide ByteAt;
  }

  lemma {:induction false} EncodeLength(s: Bytes)
    ensures |Encode(s)| == 4 * ((|s| + 2) / 3)
    decreases |s|
  {
    if |s| >= 3 { EncodeLength(s[3..]); }
  }

  // ---- Decoding inverts it ----

  lemma ValueDigit(v: bv8)
    requires v < 64
    ensures Value(Digit(v)) == Some(v)
    ensures Digit(v) != PAD && Digit(v) != 10 && Digit(v) != 13
  {
  }

  lemma SextetsFit(a: bv8, b: bv8, c: bv8)
    ensures Sextet0(a) < 64 && Sextet1(a, b) < 64 && Sextet2(b, c) < 64 && Sextet3(c) < 64
  {
  }

  lemma BytesBack(a: bv8, b: bv8, c: bv8)
    ensures Byte0(Sextet0(a), Sextet1(a, b)) == a
    ensures Byte1(Sextet1(a, b), Sextet2(b, c)) == b
    ensures Byte2(Sextet2(b, c), Sextet3(c)) == c
  {
  }

  /** What the first group of four of an encoding decodes to. */
  lemma GroupValues(a: bv8, b: bv8, c: bv8)
    ensures Value(Digit(Sextet0(a))) == Some(Sextet0(a)) && Value(Digit(Sextet1(a, b))) == Some(Sextet1(a, b))
    ensures Value(Digit(Sextet2(b, c))) == Some(Sextet2(b, c)) && Value(Digit(Sextet3(c))) == Some(Sextet3(c))
    ensures Digit(Sextet2(b, c)) != PAD && Digit(Sextet3(c)) != PAD
  {
  }

  /** A full group before text that decodes. */
  lemma DecodeGroup(a: bv8, b: bv8, c: bv8, t: Bytes)
    requires DecodeGroups(t).Some?
    ensures DecodeGroups([Digit(Sextet0(a)), Digit(Sextet1(a, b)), Digit(Sextet2(b, c)), Digit(Sextet3(c))] + t)
         == Some([a, b, c] + DecodeGroups(t).value)
  {
    GroupValues(a, b, c);
    BytesBack(a, b, c);
    hide Digit, Value, Sextet0, Sextet1, Sextet2, Sextet3, Byte0, Byte1, Byte2;
    var group := [Digit(Sextet0(a)), Digit(Sextet1(a, b)), Digit(Sextet2(b, c)), Digit(Sextet3(c))];
    assert (group + t)[4..] == t;
  }

  /** The padded group of one or two bytes. */
  lemma DecodePadded(a: bv8, b: bv8)
    ensures DecodeGroups(Encode([a])) == Some([a]) && DecodeGroups(Encode([a, b])) == Some([a, b])
  {
    GroupValues(a, 0, 0);
    BytesBack(a, 0, 0);
    GroupValues(a, b, 0);
    BytesBack(a, b, 0);
    hide Digit, Value, Sextet0, Sextet1, Sextet2, Sextet3, Byte0, Byte1, Byte2;
  }

  lemma {:induction false} DecodeGroupsEncode(s: Bytes)
    ensures DecodeGroups(Encode(s)) == Some(s)
    decreases |s|
  {
    hide Digit, Value, Sextet0, Sextet1, Sextet2, Sextet3, Byte0, Byte1, Byte2;
    if |s| >= 3 {
      DecodeGroupsEncode(s[3..]);
      DecodeGroup(s[0], s[1], s[2], Encode(s[3..]));
      assert s == [s[0], s[1], s[2]] + s[3..];
    } else if |s| > 0 {
      DecodePadded(s[0], ByteAt(s, 1));
      assert s == if |s| == 1 then [s[0]] else [s[0], s[1]];
    }
  }

  lemma {:induction false} StripEncode(s: Bytes)
    ensures forall i :: 0 <= i < |Encode(s)| ==> Encode(s)[i] != 10 && Encode(s)[i] != 13
    decreases |s|
  {
    hide Sextet0, Sextet1, Sextet2, Sextet3, Digit;
    if |s| > 0 {
      var a, b, c := ByteAt(s, 0), ByteAt(s, 1), ByteAt(s, 2);
      SextetsFit(a, b, c);
      ValueDigit(Sextet0(a));
      ValueDigit(Sextet1(a, b));
      ValueDigit(Sextet2(b, c));
      ValueDigit(Sextet3(c));
      if |s| >= 3 { StripEncode(s[3..]); }
    }
  }

  lemma {:induction false} StripNothing(t: Bytes)
    requires forall i :: 0 <= i < |t| ==> t[i] != 10 && t[i] != 13
    ensures Strip(t) == t
    decreases |t|
  {
    if t != [] {
      StripNothing(t[1..]);
    }
  }

  /** Decoding the encoding of any byte string gives it back, for all three padding cases. */
  lemma DecodeEncode(s: Bytes)
    ensures Decode(Encode(s)) == Some(s)
  {
    StripEncode(s);
    StripNothing(Encode(s));
    DecodeGroupsEncode(s);
  }

  // ---- What the decoder accepts ----

  /** Digits and then `pads` padding characters, in groups of four. */
  ghost predicate Padded(u: Bytes, pads: nat) {
    && |u| % 4 == 0 && pads <= 2 && pads <= |u|
    && (forall i :: 0 <= i < |u| - pads ==> Value(u[i]).Some?)
    && (forall i :: |u| - pads <= i < |u| ==> u[i] == PAD)
  }

  /** The characters with a value are the digits. */
  lemma ValueIff(c: bv8)
    ensures match Value(c)
            case Some(v) => v < 64 && Digit(v) == c
            case None => forall v: bv8 :: v < 64 ==> Digit(v) != c
    ensures Value(PAD) == None
  {
  }

  lemma ValueBack(c: bv8)
    ensures Value(c).Some? ==> Value(c).value < 64 && Digit(Value(c).value) == c
  {
  }

  lemma {:induction false} StripConcat(a: Bytes, b: Bytes)
    ensures Strip(a + b) == Strip(a) + Strip(b)
    decreases |a|
  {
    if a == [] {
      assert a + b == b;
    } else {
      assert (a + b)[1..] == a[1..] + b;
      StripConcat(a[1..], b);
    }
  }

  /** A line feed and a carriage return are skipped, any other character is not. */
  lemma StripOne(c: bv8)
    ensures Strip([c]) == if c == 10 || c == 13 then [] else [c]
  {
  }

  lemma PaddedShift(u: Bytes, pads: nat)
    requires |u| > 4
    ensures Padded(u, pads) <==>
            (forall i :: 0 <= i < 4 ==> Value(u[i]).Some?) && |u| % 4 == 0 && Padded(u[4..], pads)
  {
    ValueIff(PAD);
    hide Value;
    if Padded(u, pads) {
      assert |u| >= 8;
    }
    if (forall i :: 0 <= i < 4 ==> Value(u[i]).Some?) && |u| % 4 == 0 && Padded(u[4..], pads) {
      forall i | 4 <= i < |u| - pads
        ensures Value(u[i]).Some?
      {
        assert u[i] == u[4..][i - 4];
      }
      forall i | |u| - pads <= i < |u|
        ensures u[i] == PAD
      {
        assert u[i] == u[4..][i - 4];
      }
    }
  }

  lemma {:induction false} DecodeGroupsIff(u: Bytes)
    ensures DecodeGroups(u).Some? <==> exists pads :: Padded(u, pads)
    decreases |u|
  {
    ValueIff(PAD);
    hide Value, Byte0, Byte1, Byte2;
    if u == [] {
      assert Padded(u, 0);
    } else if |u| < 4 {
    } else if |u| == 4 {
      OneGroupIff(u);
    } else {
      DecodeGroupsIff(u[4..]);
      forall pads: nat
        ensures Padded(u, pads) <==>
                (forall i :: 0 <= i < 4 ==> Value(u[i]).Some?) && |u| % 4 == 0 && Padded(u[4..], pads)
      {
        PaddedShift(u, pads);
      }
      if forall i :: 0 <= i < 4 ==> Value(u[i]).Some? {
        assert u[2] != PAD && u[3] != PAD;
      }
      hide Padded;
    }
  }

  lemma OneGroupIff(u: Bytes)
    requires |u| == 4
    ensures DecodeGroups(u).Some? <==> exists pads :: Padded(u, pads)
  {
    ValueIff(PAD);
    hide Value, Byte0, Byte1, Byte2;
    assert u[4..] == [] && DecodeGroups(u[4..]) == Some([]);
    if DecodeGroups(u).Some? {
      assert Padded(u, if u[2] == PAD then 2 else if u[3] == PAD then 1 else 0);
    }
  }

  /** Decoding succeeds exactly on digits and at most two padding characters in groups of
      four, line breaks anywhere aside. */
  lemma DecodeOkIff(t: Bytes)
    ensures Decode(t).Some? <==> exists pads :: Padded(Strip(t), pads)
  {
    assert Decode(t) == DecodeGroups(Strip(t));
    hide Padded, DecodeGroups, Strip;
    DecodeGroupsIff(Strip(t));
  }

  /** What is decoded encodes to the text again, line breaks and the spare bits of the last
      digit before padding aside. */
  lemma {:induction false} EncodeDecodeGroups(u: Bytes, pads: nat)
    requires Padded(u, pads)
    ensures DecodeGroups(u).Some?
    ensures var data := DecodeGroups(u).value;
            && 4 * |data| == 3 * |u| - 4 * pads && |Encode(data)| == |u|
            && forall i :: 0 <= i < |u| && (pads == 0 || i != |u| - pads - 1) ==> Encode(data)[i] == u[i]
    decreases |u|
  {
    DecodeGroupsIff(u);
    if |u| > 4 {
      PaddedShift(u, pads);
      EncodeDecodeGroups(u[4..], pads);
      FirstGroupBack(u, DecodeGroups(u[4..]).value);
      forall i | 4 <= i < |u| && (pads == 0 || i != |u| - pads - 1)
        ensures Encode(DecodeGroups(u).value)[i] == u[i]
      {
        assert Encode(DecodeGroups(u).value)[i] == Encode(DecodeGroups(u[4..]).value)[i - 4];
        assert u[i] == u[4..][i - 4];
      }
    } else if |u| == 4 {
      LastGroupBack(u, pads);
    }
  }

  lemma DigitsBack(v0: bv8, v1: bv8, v2: bv8, v3: bv8)
    requires v0 < 64 && v1 < 64 && v2 < 64 && v3 < 64
    ensures Sextet0(Byte0(v0, v1)) == v0
    ensures Sextet1(Byte0(v0, v1), Byte1(v1, v2)) == v1
    ensures Sextet2(Byte1(v1, v2), Byte2(v2, v3)) == v2 && Sextet3(Byte2(v2, v3)) == v3
  {
  }

  lemma FirstGroupBack(u: Bytes, rest: Bytes)
    requires |u| > 4 && (forall i :: 0 <= i < 4 ==> Value(u[i]).Some?) && DecodeGroups(u[4..]) == Some(rest)
    ensures DecodeGroups(u).Some? && |DecodeGroups(u).value| == 3 + |rest|
    ensures Encode(DecodeGroups(u).value) == u[..4] + Encode(rest)
  {
    assert Value(PAD) == None;
    hide Value, Digit, Byte0, Byte1, Byte2, Sextet0, Sextet1, Sextet2, Sextet3;
    ValueBack(u[0]);
    ValueBack(u[1]);
    ValueBack(u[2]);
    ValueBack(u[3]);
    var v0, v1, v2, v3 := Value(u[0]).value, Value(u[1]).value, Value(u[2]).value, Value(u[3]).value;
    DigitsBack(v0, v1, v2, v3);
    var data := [Byte0(v0, v1), Byte1(v1, v2), Byte2(v2, v3)] + rest;
    assert DecodeGroups(u) == Some(data);
    assert data[3..] == rest;
    assert u[..4] == [u[0], u[1], u[2], u[3]];
  }

  lemma LastGroupBack(u: Bytes, pads: nat)
    requires |u| == 4 && Padded(u, pads)
    ensures DecodeGroups(u).Some? && |DecodeGroups(u).value| == 3 - pads
    ensures |Encode(DecodeGroups(u).value)| == 4
    ensures forall i :: 0 <= i < 4 && (pads == 0 || i != 3 - pads) ==> Encode(DecodeGroups(u).value)[i] == u[i]
  {
    assert Value(PAD) == None;
    hide Value, Digit, Byte0, Byte1, Byte2, Sextet0, Sextet1, Sextet2, Sextet3;
    ValueBack(u[0]);
    ValueBack(u[1]);
    ValueBack(u[2]);
    ValueBack(u[3]);
    var v0, v1 := Value(u[0]).value, Value(u[1]).value;
    var v2 := if pads < 2 then Value(u[2]).value else 0;
    var v3 := if pads < 1 then Value(u[3]).value else 0;
    DigitsBack(v0, v1, v2, v3);
    assert u[4..] == [] && DecodeGroups(u[4..]) == Some([]);
    PartsBack(v0, v1, v2);
    if pads == 0 {
      assert u[2] != PAD && u[3] != PAD;
      var data := [Byte0(v0, v1), Byte1(v1, v2), Byte2(v2, v3)];
      assert data + [] == data && DecodeGroups(u) == Some(data + []);
    } else if pads == 1 {
      assert u[2] != PAD && u[3] == PAD;
      assert DecodeGroups(u) == Some([Byte0(v0, v1), Byte1(v1, v2)]);
    } else {
      assert u[2] == PAD && u[3] == PAD;
      assert DecodeGroups(u) == Some([Byte0(v0, v1)]);
    }
  }

  /** The digits of a padded group that have no spare bits. */
  lemma PartsBack(v0: bv8, v1: bv8, v2: bv8)
    requires v0 < 64 && v1 < 64 && v2 < 64
    ensures Sextet0(Byte0(v0, v1)) == v0 && Sextet1(Byte0(v0, v1), Byte1(v1, v2)) == v1
  {
  }

  lemma EncodeDecode(t: Bytes, pads: nat)
    requires Padded(Strip(t), pads)
    ensures Decode(t).Some?
    ensures var u, data := Strip(t), Decode(t).value;
            && 4 * |data| == 3 * |u| - 4 * pads && |Encode(data)| == |u|
            && forall i :: 0 <= i < |u| && (pads == 0 || i != |u| - pads - 1) ==> Encode(data)[i] == u[i]
  {
    EncodeDecodeGroups(Strip(t), pads);
  }
}
