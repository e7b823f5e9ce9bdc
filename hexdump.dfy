/** `hexdump(ptr, buflen)`: one line per 16 bytes, each made of the offset
    (`%06x: `), sixteen hex columns (`%02x ` per byte, three spaces past the
    end), one space, and the bytes as characters with '.' for the
    non-printable ones (nothing past the end). The output is given back as
    its sequence of lines. */
module HexDump {
  import opened Wire

  function HexDigit(d: nat): (c: char)
    requires d < 16
  {
    if d < 10 then ('0' as int + d) as char else ('a' as int + d - 10) as char
  }

  predicate IsHexDigit(c: char)
  {
    '0' <= c <= '9' || 'a' <= c <= 'f'
  }

  function HexDigitValue(c: char): (d: nat)
    requires IsHexDigit(c)
    ensures d < 16
  {
    if c <= '9' then c as int - '0' as int else c as int - 'a' as int + 10
  }

  /** `%x`: lower-case hex digits without leading zeros. */
  function Hex(n: nat): (s: string)
    ensures 1 <= |s| && forall i :: 0 <= i < |s| ==> IsHexDigit(s[i])
    decreases n
  {
    if n < 16 then [HexDigit(n)] else Hex(n / 16) + [HexDigit(n % 16)]
  }

  /** `%0<width>x`: the hex digits padded on the left with zeros to `width`. */
  function HexPadded(n: nat, width: nat): (s: string)
    ensures forall i :: 0 <= i < |s| ==> IsHexDigit(s[i])
  {
    var h := Hex(n);
    if |h| >= width then h else seq(width - |h|, _ => '0') + h
  }

  /** The value a string of hex digits denotes. */
  function HexValue(s: string): nat
    requires forall i :: 0 <= i < |s| ==> IsHexDigit(s[i])
  {
    if s == [] then 0 else HexValue(s[..|s| - 1]) * 16 + HexDigitValue(s[|s| - 1])
  }

  lemma {:induction false} HexRoundTrip(n: nat)
    ensures HexValue(Hex(n)) == n
    decreases n
  {
    if n >= 16 {
      var s := Hex(n);
      assert s[..|s| - 1] == Hex(n / 16);
      HexRoundTrip(n / 16);
    }
    assert HexDigitValue(HexDigit(n % 16)) == n % 16;
  }

  lemma {:induction false} HexLength(n: nat, k: nat)
    requires n < Pow16(k) && k >= 1
    ensures |Hex(n)| <= k
    decreases k
  {
    if n >= 16 {
      HexLength(n / 16, k - 1);
    }
  }

  function Pow16(k: nat): nat
  {
    if k == 0 then 1 else 16 * Pow16(k - 1)
  }

  /** Leading zeros do not change the value. */
  lemma {:induction false} ZerosAddNothing(z: nat, s: string)
    requires forall i :: 0 <= i < |s| ==> IsHexDigit(s[i])
    ensures HexValue(seq(z, _ => '0') + s) == HexValue(s)
    decreases |s|
  {
    var t := seq(z, _ => '0') + s;
    if s == [] {
      assert t == seq(z, _ => '0');
      AllZeros(z);
    } else {
      assert t[..|t| - 1] == seq(z, _ => '0') + s[..|s| - 1];
      ZerosAddNothing(z, s[..|s| - 1]);
    }
  }

  lemma {:induction false} AllZeros(z: nat)
    ensures HexValue(seq(z, _ => '0')) == 0
  {
    if z > 0 {
      assert seq(z, _ => '0')[..z - 1] == seq(z - 1, _ => '0');
      AllZeros(z - 1);
    }
  }

  /** `%0<width>x` prints at least `width` digits that denote `n`, and exactly
      `width` when `n` fits. */
  lemma HexPaddedMeans(n: nat, width: nat)
    ensures |HexPadded(n, width)| >= width
    ensures HexValue(HexPadded(n, width)) == n
    ensures width >= 1 && n < Pow16(width) ==> |HexPadded(n, width)| == width
  {
    var h := Hex(n);
    HexRoundTrip(n);
    if |h| < width {
      ZerosAddNothing(width - |h|, h);
    }
    if width >= 1 && n < Pow16(width) {
      HexLength(n, width);
    }
  }

  /** `isprint` in the C locale. */
  predicate Printable(b: byte)
  {
    0x20 <= b <= 0x7e
  }

  /** The ASCII column's rendering of one byte. */
  function Shown(b: byte): (c: char)
    ensures Printable(b) ==> c as int == b as int
    ensures !Printable(b) ==> c == '.'
  {
    if Printable(b) then b as char else '.'
  }

  /** Hex column `j` of the line at offset `i`. */
  function HexCell(buf: seq<byte>, buflen: int, i: nat, j: nat): string
    requires buflen <= |buf|
  {
    if i + j < buflen then HexPadded(buf[i + j] as nat, 2) + " " else "   "
  }

  /** The 16 hex columns of the line at offset `i`. */
  function HexColumns(buf: seq<byte>, buflen: int, i: nat): (cells: seq<string>)
    requires buflen <= |buf|
    ensures |cells| == 16
  {
    seq(16, c requires 0 <= c < 16 => HexCell(buf, buflen, i, c))
  }

  /** Cells `j` onwards, written one after another. */
  function Concat(cells: seq<string>, j: nat): string
    requires j <= |cells|
    decreases |cells| - j
  {
    if j == |cells| then "" else cells[j] + Concat(cells, j + 1)
  }

  /** ASCII columns `j` to 15 of the line at offset `i`. */
  function AsciiCells(buf: seq<byte>, buflen: int, i: nat, j: nat): string
    requires buflen <= |buf| && j <= 16
    decreases 16 - j
  {
    if j == 16 then ""
    else (if i + j < buflen then [Shown(buf[i + j])] else "") + AsciiCells(buf, buflen, i, j + 1)
  }

  /** The line printed for offset `i`. */
  function Line(buf: seq<byte>, buflen: int, i: nat): string
    requires buflen <= |buf|
  {
    HexPadded(i, 6) + ": " + Concat(HexColumns(buf, buflen, i), 0) + " " + AsciiCells(buf, buflen, i, 0) + "\n"
  }

  /** The offsets the outer loop visits from `i` on: `i`, `i + 16`, ...
      while below `buflen`. */
  function Offsets(buflen: int, i: nat): seq<nat>
    decreases buflen - i
  {
    if i >= buflen then [] else [i] + Offsets(buflen, i + 16)
  }

  /** Everything `hexdump(buf, buflen)` prints, line by line: one line per
      offset the outer loop visits. */
  function Hexdump(buf: seq<byte>, buflen: int): (lines: seq<string>)
    requires buflen <= |buf|
  {
    var offs := Offsets(buflen, 0);
    seq(|offs|, k requires 0 <= k < |offs| => Line(buf, buflen, offs[k]))
  }

  /** There are ceil(buflen / 16) lines, and line k is the one for offset 16k. */
  lemma HexdumpLines(buf: seq<byte>, buflen: int)
    requires buflen <= |buf|
    ensures |Hexdump(buf, buflen)| == if buflen <= 0 then 0 else (buflen + 15) / 16
    ensures forall k :: 0 <= k < |Hexdump(buf, buflen)| ==> Hexdump(buf, buflen)[k] == Line(buf, buflen, 16 * k)
  {
    OffsetsCount(buflen, 0);
    forall k | 0 <= k < |Offsets(buflen, 0)| ensures Offsets(buflen, 0)[k] == 16 * k {
      OffsetAt(buflen, 0, k);
    }
  }

  lemma {:induction false} OffsetsCount(buflen: int, i: nat)
    ensures |Offsets(buflen, i)| == if buflen <= i then 0 else (buflen - i + 15) / 16
    decreases buflen - i
  {
    if i < buflen {
      OffsetsCount(buflen, i + 16);
    }
  }

  lemma {:induction false} OffsetAt(buflen: int, i: nat, k: nat)
    requires k < |Offsets(buflen, i)|
    ensures Offsets(buflen, i)[k] == i + 16 * k
    decreases k
  {
    if k > 0 {
      OffsetAt(buflen, i + 16, k - 1);
    }
  }

  /** A hex cell is three characters: the byte's two hex digits and a space
      while the buffer lasts, three spaces after. */
  lemma HexCellLayout(buf: seq<byte>, buflen: int, i: nat, c: nat)
    requires buflen <= |buf|
    ensures |HexCell(buf, buflen, i, c)| == 3
    ensures i + c < buflen ==>
      HexValue(HexCell(buf, buflen, i, c)[..2]) == buf[i + c] as nat && HexCell(buf, buflen, i, c)[2] == ' '
    ensures i + c >= buflen ==> HexCell(buf, buflen, i, c) == "   "
  {
    if i + c < buflen {
      var b := buf[i + c] as nat;
      HexPaddedMeans(b, 2);
      assert HexCell(buf, buflen, i, c)[..2] == HexPadded(b, 2);
    }
  }

  lemma SliceOfConcat(a: string, b: string, x: nat, y: nat)
    requires |a| <= x <= y <= |a| + |b|
    ensures (a + b)[x..y] == b[x - |a|..y - |a|]
  {
  }

  /** Cells of three characters each sit at every third position. */
  lemma {:induction false} ConcatOfTriples(cells: seq<string>, j: nat, c: nat)
    requires j <= c < |cells|
    requires forall k :: 0 <= k < |cells| ==> |cells[k]| == 3
    ensures |Concat(cells, j)| == 3 * (|cells| - j)
    ensures Concat(cells, j)[3 * (c - j)..3 * (c - j) + 3] == cells[c]
    decreases c - j
  {
    ConcatLength(cells, j);
    var rest := Concat(cells, j + 1);
    if c == j {
      assert (cells[j] + rest)[0..3] == cells[j];
    } else {
      ConcatOfTriples(cells, j + 1, c);
      SliceOfConcat(cells[j], rest, 3 * (c - j), 3 * (c - j) + 3);
      assert 3 * (c - j) - 3 == 3 * (c - (j + 1));
    }
  }

  lemma {:induction false} ConcatLength(cells: seq<string>, j: nat)
    requires j <= |cells|
    requires forall k :: 0 <= k < |cells| ==> |cells[k]| == 3
    ensures |Concat(cells, j)| == 3 * (|cells| - j)
    decreases |cells| - j
  {
    if j < |cells| {
      ConcatLength(cells, j + 1);
    }
  }

  /** The hex part of a line holds the 16 cells one after another. */
  lemma HexCellsLayout(buf: seq<byte>, buflen: int, i: nat)
    requires buflen <= |buf|
    ensures |Concat(HexColumns(buf, buflen, i), 0)| == 48
    ensures forall c :: 0 <= c < 16 ==>
      Concat(HexColumns(buf, buflen, i), 0)[3 * c..3 * c + 3] == HexCell(buf, buflen, i, c)
  {
    var cells := HexColumns(buf, buflen, i);
    forall k | 0 <= k < 16 ensures |cells[k]| == 3 {
      HexCellLayout(buf, buflen, i, k);
    }
    ConcatLength(cells, 0);
    forall c | 0 <= c < 16
      ensures Concat(cells, 0)[3 * c..3 * c + 3] == HexCell(buf, buflen, i, c)
    {
      ConcatOfTriples(cells, 0, c);
    }
  }

  /** The ASCII part has one character per byte left in the line (at most
      16), each the byte itself when printable and '.' otherwise. */
  lemma {:induction false} AsciiCellsLayout(buf: seq<byte>, buflen: int, i: nat, j: nat)
    requires buflen <= |buf| && j <= 16
    ensures |AsciiCells(buf, buflen, i, j)| == Clamp(buflen - i - j, 16 - j)
    ensures forall p :: 0 <= p < |AsciiCells(buf, buflen, i, j)| ==>
      i + j + p < buflen && AsciiCells(buf, buflen, i, j)[p] == Shown(buf[i + j + p])
    decreases 16 - j
  {
    if j < 16 {
      AsciiCellsLayout(buf, buflen, i, j + 1);
      var rest := AsciiCells(buf, buflen, i, j + 1);
      if i + j < buflen {
        assert AsciiCells(buf, buflen, i, j) == [Shown(buf[i + j])] + rest;
      } else {
        assert Clamp(buflen - i - (j + 1), 16 - (j + 1)) == 0;
      }
    }
  }

  /** `x` limited to `0..hi`. */
  function Clamp(x: int, hi: nat): nat
  {
    if x < 0 then 0 else if x > hi then hi else x
  }

  /** The layout of the line at offset `i`: the offset in at least six hex
      digits, ": ", the 48-character hex part, a space, the ASCII part and a
      newline. */
  lemma LineLayout(buf: seq<byte>, buflen: int, i: nat)
    requires buflen <= |buf|
    ensures var off, hex, ascii := HexPadded(i, 6), Concat(HexColumns(buf, buflen, i), 0), AsciiCells(buf, buflen, i, 0);
      && |off| >= 6 && HexValue(off) == i
      && |hex| == 48 && |ascii| == Clamp(buflen - i, 16)
      && Line(buf, buflen, i) == off + ": " + hex + " " + ascii + "\n"
  {
    HexPaddedMeans(i, 6);
    HexCellsLayout(buf, buflen, i);
    AsciiCellsLayout(buf, buflen, i, 0);
  }
}
