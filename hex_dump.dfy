/**
 The text that `PRINT_BYTE_ARRAY(msg, array)` writes to standard output,
 as a pure function of the message and of the bytes the array shows.
 The output is the message right-justified by `%10s`, then each byte as
 `%02X ` (two upper-case hexadecimal digits and a space), with a line
 break before every byte whose index is a non-zero multiple of 16, and a
 final line break.
 */
module HexDump {
  import opened StdInt

  /** Field width of the `%10s` conversion that prints the message. */
  const MessageWidth: nat := 10

  /** Number of bytes printed on one line. */
  const BytesPerLine: nat := 16

  predicate IsUpperHexDigit(c: char) {
    '0' <= c <= '9' || 'A' <= c <= 'F'
  }

  /** Value of an upper-case hexadecimal digit, or -1 for any other character. */
  function HexValue(c: char): int {
    if '0' <= c <= '9' then c as int - '0' as int
    else if 'A' <= c <= 'F' then c as int - 'A' as int + 10
    else -1
  }

  /** The digit `%X` prints for a value below 16. */
  function HexDigit(d: int): (c: char)
    requires 0 <= d < 16
    ensures IsUpperHexDigit(c)
    ensures HexValue(c) == d
  {
    if d < 10 then ('0' as int + d) as char else ('A' as int + d - 10) as char
  }

  /** `%02X` of one byte: exactly two upper-case digits, most significant first. */
  function Hex2(b: uint8): (s: string)
    ensures |s| == 2
    ensures IsUpperHexDigit(s[0]) && IsUpperHexDigit(s[1])
    ensures HexValue(s[0]) * 16 + HexValue(s[1]) == b as int
  {
    [HexDigit(b as int / 16), HexDigit(b as int % 16)]
  }

  lemma Hex2Injective(a: uint8, b: uint8)
    requires Hex2(a) == Hex2(b)
    ensures a == b
  {
  }

  /** `n` spaces. */
  function Spaces(n: nat): (s: string)
    ensures |s| == n
  {
    if n == 0 then [] else Spaces(n - 1) + [' ']
  }

  lemma {:induction false} SpacesAt(n: nat, k: nat)
    requires k < n
    ensures Spaces(n)[k] == ' '
  {
    if k < n - 1 {
      SpacesAt(n - 1, k);
    }
  }

  /** `%10s` of `msg`: right-justified in a field of ten, never truncated. */
  function Padded(msg: string): (r: string)
    ensures |r| == if |msg| < MessageWidth then MessageWidth else |msg|
    ensures r[|r| - |msg|..] == msg
  {
    if |msg| < MessageWidth then Spaces(MessageWidth - |msg|) + msg else msg
  }

  /** The characters `%10s` writes before the message are all spaces. */
  lemma PaddedWithSpaces(msg: string, k: nat)
    requires k < |Padded(msg)| - |msg|
    ensures Padded(msg)[k] == ' '
  {
    SpacesAt(MessageWidth - |msg|, k);
  }

  /** The line break written before byte `i` when `i` starts a new line. */
  function Separator(i: nat): string {
    if i != 0 && i % BytesPerLine == 0 then "\n" else ""
  }

  /** What one iteration of the printing loop writes for byte `i`. */
  function Cell(bytes: seq<uint8>, i: nat): string
    requires i < |bytes|
  {
    Separator(i) + Hex2(bytes[i]) + " "
  }

  /** What the first `n` iterations of the printing loop write. */
  function Cells(bytes: seq<uint8>, n: nat): (r: string)
    requires n <= |bytes|
    ensures |r| >= 3 * n
  {
    if n == 0 then [] else Cells(bytes, n - 1) + Cell(bytes, n - 1)
  }

  /** Everything printed after the message: the cells of all bytes, then the final line break. */
  function Dump(bytes: seq<uint8>): (r: string)
    ensures |r| >= 3 * |bytes| + 1
  {
    Cells(bytes, |bytes|) + "\n"
  }

  /**
   One iteration of the printing loop, which writes the separator and then
   the byte, extends the output by the next cell.
   */
  lemma CellsStep(head: string, bytes: seq<uint8>, i: nat, before: string, mid: string, after: string)
    requires i < |bytes|
    requires before == head + Cells(bytes, i)
    requires mid == before + Separator(i)
    requires after == mid + Hex2(bytes[i]) + " "
    ensures after == head + Cells(bytes, i + 1)
  {
    assert after == head + (Cells(bytes, i) + Cell(bytes, i));
  }

  /** The final line break completes the dump. */
  lemma DumpComplete(head: string, bytes: seq<uint8>, before: string, after: string)
    requires before == head + Cells(bytes, |bytes|)
    requires after == before + "\n"
    ensures after == head + Dump(bytes)
  {
    assert after == head + (Cells(bytes, |bytes|) + "\n");
  }

  /** Position in the dump of the first digit of byte `i`. */
  function Pos(i: nat): nat {
    3 * i + i / BytesPerLine
  }

  lemma {:induction false} CellsLength(bytes: seq<uint8>, n: nat)
    requires n <= |bytes|
    ensures |Cells(bytes, n)| == if n == 0 then 0 else 3 * n + (n - 1) / BytesPerLine
  {
    if n > 0 {
      CellsLength(bytes, n - 1);
    }
  }

  /** The length of the dump is fixed by the number of bytes alone. */
  lemma DumpLength(bytes: seq<uint8>)
    ensures |Dump(bytes)| == if |bytes| == 0 then 1 else 3 * |bytes| + (|bytes| - 1) / BytesPerLine + 1
    ensures Dump(bytes)[|Dump(bytes)| - 1] == '\n'
  {
    CellsLength(bytes, |bytes|);
  }

  lemma {:induction false} CellsPrefix(bytes: seq<uint8>, m: nat, n: nat)
    requires m <= n <= |bytes|
    ensures Cells(bytes, m) <= Cells(bytes, n)
  {
    if m < n {
      CellsPrefix(bytes, m, n - 1);
    }
  }

  /** Where a cell that is a prefix of `d` lies within `d`. */
  lemma InPrefix(pre: string, cell: string, d: string)
    requires pre + cell <= d
    ensures |pre| + |cell| <= |d|
    ensures d[|pre|..|pre| + |cell|] == cell
  {
    assert d[..|pre| + |cell|] == pre + cell;
  }

  /** The digits of byte `i` start right after the cells before it and its separator. */
  lemma {:induction false} CellStart(bytes: seq<uint8>, i: nat)
    requires i < |bytes|
    ensures |Cells(bytes, i)| + |Separator(i)| == Pos(i)
  {
    CellsLength(bytes, i);
  }

  /**
   Byte `i` appears as its two digits and a space starting at `Pos(i)`,
   and a line break stands right before every byte that starts a new line.
   */
  lemma DumpAt(bytes: seq<uint8>, i: nat)
    requires i < |bytes|
    ensures Pos(i) + 3 <= |Dump(bytes)|
    ensures Dump(bytes)[Pos(i)..Pos(i) + 3] == Hex2(bytes[i]) + " "
    ensures i != 0 && i % BytesPerLine == 0 ==> Dump(bytes)[Pos(i) - 1] == '\n'
  {
    CellStart(bytes, i);
    CellsPrefix(bytes, i + 1, |bytes|);
    var pre, sep, hex := Cells(bytes, i), Separator(i), Hex2(bytes[i]) + " ";
    var d := Dump(bytes);
    assert (pre + sep) + hex == Cells(bytes, i + 1);
    assert (pre + sep) + hex <= d;
    InPrefix(pre + sep, hex, d);
    if i != 0 && i % BytesPerLine == 0 {
      assert pre + sep <= d;
      InPrefix(pre, sep, d);
    }
  }

  /** Different byte sequences never print the same dump. */
  lemma DumpInjective(a: seq<uint8>, b: seq<uint8>)
    requires Dump(a) == Dump(b)
    ensures a == b
  {
    DumpLength(a);
    DumpLength(b);
    assert |a| == |b|;
    forall i | 0 <= i < |a|
      ensures a[i] == b[i]
    {
      DumpAt(a, i);
      DumpAt(b, i);
      var cell := Dump(a)[Pos(i)..Pos(i) + 3];
      assert (Hex2(a[i]) + " ")[..2] == Hex2(a[i]);
      assert (Hex2(b[i]) + " ")[..2] == Hex2(b[i]);
      assert Hex2(a[i]) == cell[..2] == Hex2(b[i]);
      Hex2Injective(a[i], b[i]);
    }
  }
}
