/** Bodies in chunks, section 7.1 of RFC 9112, as they stand on the wire. */
module Chunking {
  import opened Net
  import opened Text
  import Utf8

  const CRLF: seq<byte> := [13, 10]
  const LF: byte := 10

  /** A chunk's size line with its line end, and its data. */
  datatype Piece = Piece(line: seq<byte>, data: seq<byte>)

  /** The last chunk's size line and the trailer lines, all with their line ends. */
  datatype Ending = Ending(line: seq<byte>, trailers: seq<seq<byte>>)

  function PieceWire(p: Piece): seq<byte> { p.line + p.data + CRLF }

  function PiecesWire(ps: seq<Piece>): seq<byte> {
    if ps == [] then [] else PieceWire(ps[0]) + PiecesWire(ps[1..])
  }

  function EndingWire(e: Ending): seq<byte> { e.line + (Flat(e.trailers) + CRLF) }

  /** What the chunks carry. */
  function Carried(ps: seq<Piece>): seq<byte> { if ps == [] then [] else ps[0].data + Carried(ps[1..]) }

  // ---------- the plain size line ----------

  function SizeText(n: nat): seq<byte> { Utf8.Encode(Show(n, Hex)) }

  lemma HexIsPlain(n: nat)
    ensures forall i :: 0 <= i < |Show(n, Hex)| ==>
      !IsWhitespace(Show(n, Hex)[i]) && Show(n, Hex)[i] != ';' && Show(n, Hex)[i] != '\n' &&
        Show(n, Hex)[i] < 128 as char
  {
    ShowParses(n, Hex);
    forall i | 0 <= i < |Show(n, Hex)|
      ensures !IsWhitespace(Show(n, Hex)[i]) && Show(n, Hex)[i] != ';' && Show(n, Hex)[i] != '\n'
      ensures Show(n, Hex)[i] < 128 as char
    {
      assert DigitValue(Show(n, Hex)[i]) < 16;
    }
  }

  function Pow16(k: nat): nat { if k == 0 then 1 else 16 * Pow16(k - 1) }

  lemma {:induction false} HexDigits(n: nat, k: nat)
    requires 1 <= k && n < Pow16(k)
    ensures |Show(n, Hex)| <= k
    decreases k
  {
    if n >= 16 {
      assert k > 1;
      HexDigits(n / 16, k - 1);
    }
  }

  lemma SizeTextIsShort(n: nat)
    requires n <= 1024 * 1024
    ensures |SizeText(n)| <= 6
  {
    assert 1024 * 1024 < Pow16(6) by { assert Pow16(3) == 4096; }
    HexDigits(n, 6);
    HexIsPlain(n);
    Utf8.AsciiLength(Show(n, Hex));
  }
}
