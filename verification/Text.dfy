/** The text encodings the wallet relies on: hexadecimal bytes and decimal numbers. */
module Text {
  import opened Prelude

  // ----- hexadecimal -----

  type nibble = x: int | 0 <= x < 16

  function HexDigit(x: nibble): char {
    if x < 10 then '0' + x as char else 'a' + (x - 10) as char
  }

  /** The alphabet of `HexDigit`. */
  predicate IsLowerHexChar(ch: char) {
    '0' <= ch <= '9' || 'a' <= ch <= 'f'
  }

  /** Both letter cases are accepted on the way in. */
  function HexValue(ch: char): Option<nibble> {
    if '0' <= ch <= '9' then Some(ch as int - '0' as int)
    else if 'a' <= ch <= 'f' then Some(ch as int - 'a' as int + 10)
    else if 'A' <= ch <= 'F' then Some(ch as int - 'A' as int + 10)
    else None
  }

  function HexEncode(data: Bytes): (s: string)
    ensures |s| == 2 * |data|
    ensures forall i :: 0 <= i < |s| ==> IsLowerHexChar(s[i])
  {
    if data == [] then ""
    else [HexDigit(data[0] / 16), HexDigit(data[0] % 16)] + HexEncode(data[1..])
  }

  /** Odd lengths and foreign characters are errors. */
  function HexDecode(s: string): Option<Bytes> {
    if s == "" then Some([])
    else if |s| == 1 then None
    else
      var hi :- HexValue(s[0]);
      var lo :- HexValue(s[1]);
      var rest :- HexDecode(s[2..]);
      Some([(hi * 16 + lo) as byte] + rest)
  }

  predicate LowerHex(s: string) {
    |s| % 2 == 0 && forall i :: 0 <= i < |s| ==> IsLowerHexChar(s[i])
  }

  lemma HexDigitValue(x: nibble)
    ensures HexValue(HexDigit(x)) == Some(x)
  {
  }

  lemma HexValueDigit(ch: char)
    requires IsLowerHexChar(ch)
    ensures HexValue(ch).Some? && HexDigit(HexValue(ch).value) == ch
  {
    if '0' <= ch <= '9' {
      assert '0' + (ch as int - '0' as int) as char == ch;
    } else {
      assert 'a' + (ch as int - 'a' as int) as char == ch;
    }
  }

  lemma {:induction false} HexRoundTrip(data: Bytes)
    ensures HexDecode(HexEncode(data)) == Some(data)
  {
    if data == [] {
    } else {
      var hi, lo := data[0] / 16, data[0] % 16;
      HexRoundTrip(data[1..]);
      HexDigitValue(hi);
      HexDigitValue(lo);
      var s := HexEncode(data);
      assert s[0] == HexDigit(hi) && s[1] == HexDigit(lo);
      assert s[2..] == HexEncode(data[1..]);
      assert HexDecode(s) == Some([(hi * 16 + lo) as byte] + data[1..]);
      assert data == [data[0]] + data[1..];
    }
  }

  /** On lower-case text, decoding loses nothing. */
  lemma {:induction false} HexReencode(s: string)
    requires LowerHex(s)
    ensures HexDecode(s).Some? && HexEncode(HexDecode(s).value) == s
    ensures |HexDecode(s).value| == |s| / 2
  {
    if s == "" {
    } else {
      HexReencode(s[2..]);
      HexValueDigit(s[0]);
      HexValueDigit(s[1]);
      var hi: int, lo: int := HexValue(s[0]).value, HexValue(s[1]).value;
      var b: byte := hi * 16 + lo;
      var rest := HexDecode(s[2..]).value;
      assert HexDecode(s) == Some([b] + rest);
      assert b / 16 == hi && b % 16 == lo;
      assert ([b] + rest)[1..] == rest;
      assert s == [s[0], s[1]] + s[2..];
    }
  }

  function LowerChar(ch: char): char {
    if 'A' <= ch <= 'F' then (ch as int - 'A' as int + 'a' as int) as char else ch
  }

  /** The text with its hexadecimal letters in lower case. */
  function Lower(s: string): (r: string)
    ensures |r| == |s| && forall i :: 0 <= i < |s| ==> r[i] == LowerChar(s[i])
  {
    seq(|s|, i requires 0 <= i < |s| => LowerChar(s[i]))
  }

  lemma HexValueIff(ch: char, x: nibble)
    ensures HexValue(ch) == Some(x) <==> LowerChar(ch) == HexDigit(x)
  {
  }

  lemma EncodeNext(data: Bytes)
    requires data != []
    ensures var s := HexEncode(data);
      s[0] == HexDigit(data[0] / 16) && s[1] == HexDigit(data[0] % 16) && s[2..] == HexEncode(data[1..])
  {
  }

  lemma DecodeNext(s: string, data: Bytes)
    requires |s| >= 2 && data != []
    ensures HexDecode(s) == Some(data)
       <==> && HexValue(s[0]) == Some(data[0] / 16) && HexValue(s[1]) == Some(data[0] % 16)
            && HexDecode(s[2..]) == Some(data[1..])
  {
    assert data == [data[0]] + data[1..];
    hide HexValue;
    if HexValue(s[0]).Some? && HexValue(s[1]).Some? && HexDecode(s[2..]).Some? {
      var hi: int, lo: int := HexValue(s[0]).value, HexValue(s[1]).value;
      assert (hi * 16 + lo) / 16 == hi && (hi * 16 + lo) % 16 == lo;
      assert ([(hi * 16 + lo) as byte] + HexDecode(s[2..]).value)[1..] == HexDecode(s[2..]).value;
    }
  }

  lemma DecodeShort(s: string, data: Bytes)
    requires |s| < 2 || data == []
    ensures HexDecode(s) == Some(data) <==> s == "" && data == []
  {
  }

  /** Decoding gives exactly the bytes whose encoding the text is, up to the case of its letters; all else fails. */
  lemma {:induction false} HexDecodesIff(s: string, data: Bytes)
    ensures HexDecode(s) == Some(data) <==> Lower(s) == HexEncode(data)
    decreases |s|
  {
    hide *;
    if |s| < 2 || data == [] {
      DecodeShort(s, data);
      EncodeShort(s, data);
    } else {
      HexDecodesIff(s[2..], data[1..]);
      DecodeNext(s, data);
      EncodeNext(data);
      HexValueIff(s[0], data[0] / 16);
      HexValueIff(s[1], data[0] % 16);
      LowerNext(s, HexEncode(data));
    }
  }

  lemma EncodeShort(s: string, data: Bytes)
    requires |s| < 2 || data == []
    ensures Lower(s) == HexEncode(data) <==> s == "" && data == []
  {
    hide LowerChar;
    assert |HexEncode(data)| == 2 * |data| && |Lower(s)| == |s|;
    if s == "" && data == [] {
      assert HexEncode(data) == "" && Lower(s) == "";
    }
  }

  lemma LowerNext(s: string, t: string)
    requires |s| >= 2 && |t| >= 2
    ensures Lower(s) == t <==> LowerChar(s[0]) == t[0] && LowerChar(s[1]) == t[1] && Lower(s[2..]) == t[2..]
  {
    hide LowerChar;
    var r := Lower(s);
    assert r == [r[0], r[1]] + r[2..] && t == [t[0], t[1]] + t[2..];
    assert r[2..] == Lower(s[2..]);
  }

  // ----- decimal -----

  function Digit(x: nat): char
    requires x < 10
  {
    '0' + x as char
  }

  predicate IsDigit(ch: char) {
    '0' <= ch <= '9'
  }

  /** `%d` of a non-negative number: no sign and no leading zero. */
  function PrintNat(n: nat): (s: string)
    ensures |s| > 0
    ensures forall i :: 0 <= i < |s| ==> IsDigit(s[i])
  {
    if n < 10 then [Digit(n)] else PrintNat(n / 10) + [Digit(n % 10)]
  }

  /** The value of a digit string, read from its last digit. */
  function DigitsValue(s: string): nat
    requires forall i :: 0 <= i < |s| ==> IsDigit(s[i])
  {
    if s == "" then 0
    else
      assert IsDigit(s[|s| - 1]);
      DigitsValue(s[..|s| - 1]) * 10 + (s[|s| - 1] as int - '0' as int)
  }

  /** `strconv.ParseUint(s, 10, 32)`: one or more digits, at most 32 bits. */
  function ParseUint32(s: string): Option<uint32> {
    if s == "" || exists i :: 0 <= i < |s| && !IsDigit(s[i]) then None
    else if DigitsValue(s) >= 0x1_0000_0000 then None
    else Some(DigitsValue(s))
  }

  lemma {:induction false} PrintNatValue(n: nat)
    ensures DigitsValue(PrintNat(n)) == n
  {
    var s := PrintNat(n);
    if n < 10 {
      assert s[..0] == "";
    } else {
      PrintNatValue(n / 10);
      assert s[..|s| - 1] == PrintNat(n / 10);
    }
  }

  lemma DecimalRoundTrip(n: uint32)
    ensures ParseUint32(PrintNat(n)) == Some(n)
  {
    PrintNatValue(n);
  }

  function Noughts(n: nat): (s: string)
    ensures |s| == n && forall i :: 0 <= i < n ==> s[i] == '0'
  {
    seq(n, _ => '0')
  }

  predicate AllDigits(s: string) {
    forall i :: 0 <= i < |s| ==> IsDigit(s[i])
  }

  lemma {:induction false} NoughtsCount(n: nat, s: string)
    requires AllDigits(s)
    ensures AllDigits(Noughts(n) + s) && DigitsValue(Noughts(n) + s) == DigitsValue(s)
    decreases n + |s|
  {
    var all := Noughts(n) + s;
    if s != "" {
      NoughtsCount(n, s[..|s| - 1]);
      assert all[..|all| - 1] == Noughts(n) + s[..|s| - 1];
    } else if n > 0 {
      NoughtsCount(n - 1, "");
      assert all[..|all| - 1] == Noughts(n - 1) + "";
    } else {
      assert all == "";
    }
  }

  lemma DigitBack(ch: char)
    requires IsDigit(ch)
    ensures 0 <= ch as int - '0' as int < 10 && Digit(ch as int - '0' as int) == ch
  {
  }

  lemma LastApart(s: string)
    requires s != ""
    ensures s == s[..|s| - 1] + [s[|s| - 1]]
  {
  }

  lemma LastDigit(s: string)
    requires s != "" && AllDigits(s)
    ensures var d: nat := s[|s| - 1] as int - '0' as int;
      && d < 10 && s == s[..|s| - 1] + [Digit(d)] && DigitsValue(s) == DigitsValue(s[..|s| - 1]) * 10 + d
  {
    assert IsDigit(s[|s| - 1]);
    DigitBack(s[|s| - 1]);
    LastApart(s);
    hide Digit;
  }

  lemma PrintNext(w: nat, d: nat)
    requires d < 10
    ensures w > 0 ==> PrintNat(w * 10 + d) == PrintNat(w) + [Digit(d)]
    ensures PrintNat(d) == [Digit(d)] && PrintNat(0) == "0"
  {
    if w > 0 {
      assert (w * 10 + d) / 10 == w && (w * 10 + d) % 10 == d;
    }
  }

  lemma OneMoreNought(k: nat)
    ensures Noughts(k) + "0" == Noughts(k + 1) && Noughts(0) == ""
  {
  }

  lemma Behind(front: string, a: string, b: string, c: string)
    requires b == a + c
    ensures front + a + c == front + b && "" + a == a
  {
  }

  /** Digits are noughts in front of the number they give. */
  lemma {:induction false} DigitsPrint(s: string) returns (k: nat)
    requires s != "" && AllDigits(s)
    ensures s == Noughts(k) + PrintNat(DigitsValue(s))
  {
    LastDigit(s);
    var init, d: nat := s[..|s| - 1], s[|s| - 1] as int - '0' as int;
    hide PrintNat, Noughts, Digit;
    if init == "" {
      k := 0;
      OneMoreNought(0);
      PrintNext(0, d);
      Behind("", "", [Digit(d)], [Digit(d)]);
    } else {
      k := DigitsPrint(init);
      var w := DigitsValue(init);
      hide DigitsValue;
      PrintNext(w, d);
      if w == 0 {
        OneMoreNought(k);
        k := k + 1;
      } else {
        Behind(Noughts(k), PrintNat(w), PrintNat(w * 10 + d), [Digit(d)]);
      }
    }
  }

  lemma ReadIsPrinted(s: string)
    requires ParseUint32(s).Some?
    ensures exists k :: s == Noughts(k) + PrintNat(ParseUint32(s).value)
  {
    var k := DigitsPrint(s);
    hide PrintNat, DigitsValue, Noughts;
  }

  lemma PrintedIsRead(k: nat, v: uint32)
    ensures ParseUint32(Noughts(k) + PrintNat(v)) == Some(v)
  {
    PrintNatValue(v);
    NoughtsCount(k, PrintNat(v));
    hide PrintNat, DigitsValue, Noughts;
    assert AllDigits(Noughts(k) + PrintNat(v));
  }

  /** A text is read as a number exactly when it is that number's decimal form, perhaps behind noughts. */
  lemma ParseIff(s: string, v: uint32)
    ensures ParseUint32(s) == Some(v) <==> exists k :: s == Noughts(k) + PrintNat(v)
  {
    if ParseUint32(s).Some? {
      ReadIsPrinted(s);
    }
    hide *;
    forall k: nat | s == Noughts(k) + PrintNat(v)
      ensures ParseUint32(s) == Some(v)
    {
      PrintedIsRead(k, v);
    }
  }
}
