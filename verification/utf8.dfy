/** UTF-8 as a partial inverse pair between bytes and Unicode scalar values. */
module Utf8 {
  import opened Net

  function EncodeChar(c: char): (r: seq<byte>)
    ensures 1 <= |r| <= 4
  {
    var n := c as int;
    if n < 0x80 then [n]
    else if n < 0x800 then [0xC0 + n / 0x40, 0x80 + n % 0x40]
    else if n < 0x10000 then [0xE0 + n / 0x1000, 0x80 + n / 0x40 % 0x40, 0x80 + n % 0x40]
    else [0xF0 + n / 0x40000, 0x80 + n / 0x1000 % 0x40, 0x80 + n / 0x40 % 0x40, 0x80 + n % 0x40]
  }

  function Encode(s: string): seq<byte> {
    if s == [] then [] else EncodeChar(s[0]) + Encode(s[1..])
  }

  predicate Scalar(n: int) { 0 <= n < 0xD800 || 0xE000 <= n < 0x110000 }

  function Width(lead: byte): nat {
    if lead < 0x80 then 1 else if lead < 0xE0 then 2 else if lead < 0xF0 then 3 else 4
  }

  /** The value the bits of a sequence spell out, well-formed or not. */
  function Value(b: seq<byte>): int
    requires 1 <= |b| <= 4
  {
    if |b| == 1 then b[0] as int
    else if |b| == 2 then (b[0] as int - 0xC0) * 0x40 + Tail(b[1])
    else if |b| == 3 then (b[0] as int - 0xE0) * 0x1000 + Tail(b[1]) * 0x40 + Tail(b[2])
    else (b[0] as int - 0xF0) * 0x40000 + Tail(b[1]) * 0x1000 + Tail(b[2]) * 0x40 + Tail(b[3])
  }

  function Tail(b: byte): int { b as int - 0x80 }

  /** The first character; malformed, overlong and surrogate sequences are rejected. */
  function DecodeFirst(b: seq<byte>): (r: Option<char>)
    requires b != []
    ensures r.Some? ==> EncodeChar(r.value) <= b
  {
    var w := Width(b[0]);
    if |b| < w then None
    else
      var n := Value(b[..w]);
      if Scalar(n) && EncodeChar(n as char) == b[..w] then Some(n as char) else None
  }

  function Decode(b: seq<byte>): Option<string>
    decreases |b|
  {
    if b == [] then Some([])
    else
      match DecodeFirst(b)
      case None => None
      case Some(c) =>
        match Decode(b[|EncodeChar(c)|..])
        case None => None
        case Some(rest) => Some([c] + rest)
  }

  /** Only an encoding decodes. */
  lemma {:induction false} DecodeEncodes(b: seq<byte>)
    requires Decode(b).Some?
    ensures Encode(Decode(b).value) == b
    decreases |b|
  {
    hide EncodeChar;
    if b != [] {
      var c := DecodeFirst(b).value;
      var w := |EncodeChar(c)|;
      DecodeEncodes(b[w..]);
      var rest := Decode(b[w..]).value;
      assert ([c] + rest)[1..] == rest;
      assert b == b[..w] + b[w..];
    }
  }

  lemma ValueOfChar(c: char)
    ensures Value(EncodeChar(c)) == c as int && Width(EncodeChar(c)[0]) == |EncodeChar(c)|
  {
    var n := c as int;
    assert n < 0x110000;
    if 0x10000 <= n {
      assert n / 0x40 / 0x40 == n / 0x1000 && n / 0x1000 / 0x40 == n / 0x40000;
    } else if 0x800 <= n {
      assert n / 0x40 / 0x40 == n / 0x1000;
    }
  }

  lemma DecodesFirst(c: char, rest: seq<byte>)
    ensures DecodeFirst(EncodeChar(c) + rest) == Some(c)
  {
    hide EncodeChar, Value, Width;
    ValueOfChar(c);
    var b := EncodeChar(c) + rest;
    assert b[0] == EncodeChar(c)[0];
    assert b[..|EncodeChar(c)|] == EncodeChar(c);
    assert (c as int) as char == c;
  }

  /** Decoding undoes encoding. */
  lemma {:induction false} EncodeDecodes(s: string)
    ensures Decode(Encode(s)) == Some(s)
  {
    if s != [] {
      DecodesFirst(s[0], Encode(s[1..]));
      EncodeDecodes(s[1..]);
      assert Encode(s)[|EncodeChar(s[0])|..] == Encode(s[1..]);
      assert [s[0]] + s[1..] == s;
    }
  }

  lemma {:induction false} EncodeAppend(s: string, t: string)
    ensures Encode(s + t) == Encode(s) + Encode(t)
  {
    hide EncodeChar;
    if s == [] {
      assert s + t == t;
    } else {
      EncodeAppend(s[1..], t);
      assert (s + t)[1..] == s[1..] + t;
    }
  }

  /** An ASCII byte at the end of an encoding is the last character. */
  lemma LastAscii(s: string)
    requires s != [] && Encode(s)[|Encode(s)| - 1] < 0x80
    ensures s[|s| - 1] as int == Encode(s)[|Encode(s)| - 1]
    ensures Encode(s[..|s| - 1]) == Encode(s)[..|Encode(s)| - 1]
  {
    hide Encode, EncodeChar;
    var front, c := s[..|s| - 1], s[|s| - 1];
    assert s == front + [c];
    EncodeAppend(front, [c]);
    EncodeOne(c);
    LastByte(c);
    Tails(Encode(front), EncodeChar(c));
  }

  lemma Tails(a: seq<byte>, e: seq<byte>)
    requires e != []
    ensures (a + e)[|a + e| - 1] == e[|e| - 1] && (|e| == 1 ==> (a + e)[..|a + e| - 1] == a)
  {
  }

  lemma EncodeOne(c: char)
    ensures Encode([c]) == EncodeChar(c)
  {
    hide EncodeChar;
    assert [c][1..] == [];
  }

  lemma LastByte(c: char)
    ensures var e := EncodeChar(c); e[|e| - 1] < 0x80 ==> e == [c as int]
  {
  }

  lemma {:induction false} EncodeBound(s: string)
    ensures |Encode(s)| <= 4 * |s|
  {
    if s != [] {
      EncodeBound(s[1..]);
    }
  }

  predicate Ascii(s: string) { forall i :: 0 <= i < |s| ==> s[i] < 128 as char }

  lemma {:induction false} AsciiLength(s: string)
    requires Ascii(s)
    ensures |Encode(s)| == |s|
    ensures forall i :: 0 <= i < |s| ==> Encode(s)[i] == s[i] as int
  {
    if s != [] {
      assert forall i :: 0 <= i < |s[1..]| ==> s[1..][i] == s[i + 1];
      AsciiLength(s[1..]);
      assert Encode(s) == [s[0] as int] + Encode(s[1..]);
    }
  }
}
