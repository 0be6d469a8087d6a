/** Little-endian word access over byte buffers, and Python's forgiving slice. */
module Bytes {
  import opened Common

  /** The u32 whose little-endian bytes are b0, b1, b2, b3. */
  function WordOf(b0: u8, b1: u8, b2: u8, b3: u8): u32 {
    b0 + 0x100 * b1 + 0x1_0000 * b2 + 0x100_0000 * b3
  }

  /** `unpack_from("<I", f, off)`: the little-endian u32 at byte offset `off`. */
  function ReadU32(f: seq<u8>, off: nat): u32
    requires off + 4 <= |f|
  {
    WordOf(f[off], f[off + 1], f[off + 2], f[off + 3])
  }

  /** The four little-endian bytes of a u32 (`pack("<I", w)`). */
  function EncodeU32(w: u32): (b: seq<u8>)
    ensures |b| == 4
  {
    [w % 0x100, (w / 0x100) % 0x100, (w / 0x1_0000) % 0x100, w / 0x100_0000]
  }

  /** Reading back an encoded word gives the word. */
  lemma ReadEncodeU32(f: seq<u8>, off: nat, w: u32)
    requires off + 4 <= |f|
    requires f[off..off + 4] == EncodeU32(w)
    ensures ReadU32(f, off) == w
  {
    assert f[off] == w % 0x100 && f[off + 1] == (w / 0x100) % 0x100;
    assert f[off + 2] == (w / 0x1_0000) % 0x100 && f[off + 3] == w / 0x100_0000;
    var q1 := w / 0x100;
    var q2 := q1 / 0x100;
    assert q2 == w / 0x1_0000;
    assert q2 / 0x100 == w / 0x100_0000;
    assert w == w % 0x100 + 0x100 * q1;
    assert q1 == q1 % 0x100 + 0x100 * q2;
    assert q2 == q2 % 0x100 + 0x100 * (q2 / 0x100);
  }

  /** Encoding the word read at an offset reproduces the four bytes there. */
  lemma EncodeReadU32(f: seq<u8>, off: nat)
    requires off + 4 <= |f|
    ensures EncodeU32(ReadU32(f, off)) == f[off..off + 4]
  {
    var w := ReadU32(f, off);
    var hi: int := f[off + 1] as int + 0x100 * f[off + 2] as int + 0x1_0000 * f[off + 3] as int;
    assert w == f[off] as int + 0x100 * hi;
    assert w / 0x100 == hi;
    var hi2: int := f[off + 2] as int + 0x100 * f[off + 3] as int;
    assert hi == f[off + 1] as int + 0x100 * hi2;
    assert w / 0x1_0000 == hi / 0x100 == hi2;
    assert w / 0x100_0000 == hi2 / 0x100 == f[off + 3];
  }

  /** `unpack_from("<{n}I", f, off)`: n consecutive little-endian words. */
  function ReadWords(f: seq<u8>, off: nat, n: nat): (ws: seq<u32>)
    requires off + 4 * n <= |f|
    ensures |ws| == n
    ensures forall i :: 0 <= i < n ==> ws[i] == ReadU32(f, off + 4 * i)
  {
    seq(n, i requires 0 <= i < n => ReadU32(f, off + 4 * i))
  }

  /** The little-endian encoding of a word sequence, word after word. */
  function EncodeWords(ws: seq<u32>): (b: seq<u8>)
    ensures |b| == 4 * |ws|
  {
    if |ws| == 0 then [] else EncodeU32(ws[0]) + EncodeWords(ws[1..])
  }

  /** A slice split at an inner point: its head and its tail. */
  lemma SliceSplit<T>(f: seq<T>, lo: nat, mid: nat, hi: nat)
    requires lo <= mid <= hi <= |f|
    ensures f[lo..hi][..mid - lo] == f[lo..mid]
    ensures f[lo..hi][mid - lo..] == f[mid..hi]
  {
  }

  /** Reading n words is reading the first and then n - 1 words after it. */
  lemma ReadWordsCons(f: seq<u8>, off: nat, n: nat)
    requires n > 0 && off + 4 * n <= |f|
    ensures ReadWords(f, off, n) == [ReadU32(f, off)] + ReadWords(f, off + 4, n - 1)
  {
    var r := ReadWords(f, off, n);
    var t := ReadWords(f, off + 4, n - 1);
    forall i | 0 < i < n
      ensures r[i] == t[i - 1]
    {
      assert off + 4 + 4 * (i - 1) == off + 4 * i;
    }
  }

  /** Words encoded at an offset read back unchanged. */
  lemma {:induction false} ReadEncodeWords(f: seq<u8>, off: nat, ws: seq<u32>)
    requires off + 4 * |ws| <= |f|
    requires f[off..off + 4 * |ws|] == EncodeWords(ws)
    ensures ReadWords(f, off, |ws|) == ws
    decreases |ws|
  {
    if |ws| > 0 {
      var n := |ws|;
      var e := EncodeWords(ws);
      assert e == EncodeU32(ws[0]) + EncodeWords(ws[1..]);
      assert e[..4] == EncodeU32(ws[0]) && e[4..] == EncodeWords(ws[1..]);
      SliceSplit(f, off, off + 4, off + 4 * n);
      ReadEncodeU32(f, off, ws[0]);
      ReadEncodeWords(f, off + 4, ws[1..]);
      ReadWordsCons(f, off, n);
      assert ws == [ws[0]] + ws[1..];
    }
  }

  /** Python's `f[start : start + len]`: clamped to the buffer, never failing. */
  function PySlice(f: seq<u8>, start: nat, len: nat): (s: seq<u8>)
    ensures |s| <= len
    ensures start + len <= |f| ==> s == f[start..start + len]
    ensures start >= |f| ==> s == []
    ensures start <= |f| ==> s == f[start..if start + len <= |f| then start + len else |f|]
  {
    var lo := if start <= |f| then start else |f|;
    var hi := if start + len <= |f| then start + len else |f|;
    f[lo..hi]
  }

  /** The buffer read as consecutive little-endian words; a trailing partial word is dropped. */
  function LeWords(b: seq<u8>): (ws: seq<u32>)
    ensures |ws| == |b| / 4
    ensures forall i :: 0 <= i < |ws| ==> ws[i] == ReadU32(b, 4 * i)
  {
    ReadWords(b, 0, |b| / 4)
  }
}
