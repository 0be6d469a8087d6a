/** Text helpers used by the report commands: fixed-width lowercase hex
    (`{:08x}`), `u32::from_str_radix(_, 16)`, decimal rendering and parsing,
    padding (`{:08}` on a string), ASCII lowercasing, and join/split. */
module Text {
  import opened Common

  // ---------------------------------------------------------------------------
  // Hexadecimal

  function Pow16(n: nat): (p: nat)
    ensures p >= 1
  {
    if n == 0 then 1 else 16 * Pow16(n - 1)
  }

  function HexDigit(d: nat): char
    requires d < 16
  {
    "0123456789abcdef"[d]
  }

  /** The value of a hex digit of either case, if `c` is one. */
  function HexValue(c: char): (r: Option<nat>)
    ensures r.Some? ==> r.value < 16
  {
    if '0' <= c <= '9' then Some(c as int - '0' as int)
    else if 'a' <= c <= 'f' then Some(c as int - 'a' as int + 10)
    else if 'A' <= c <= 'F' then Some(c as int - 'A' as int + 10)
    else None
  }

  predicate IsHexDigit(c: char) {
    HexValue(c).Some?
  }

  /** A digit of Rust's `{:x}`: 0-9 or a-f. */
  predicate IsLowerHexDigit(c: char) {
    '0' <= c <= '9' || 'a' <= c <= 'f'
  }

  lemma HexDigitValue(d: nat)
    requires d < 16
    ensures HexValue(HexDigit(d)) == Some(d)
    ensures IsLowerHexDigit(HexDigit(d))
  {
  }

  /** The low `n` hex digits of `w`, most significant first, zero-padded. */
  function HexN(w: nat, n: nat): (s: string)
    ensures |s| == n
    ensures forall i :: 0 <= i < n ==> IsHexDigit(s[i]) && IsLowerHexDigit(s[i])
  {
    if n == 0 then ""
    else
      HexDigitValue(w % 16);
      HexN(w / 16, n - 1) + [HexDigit(w % 16)]
  }

  /** Rust's `format!("{:08x}", w)`: exactly eight lowercase hex digits. */
  function Hex8(w: u32): (s: string)
    ensures |s| == 8
    ensures forall i :: 0 <= i < 8 ==> IsHexDigit(s[i]) && IsLowerHexDigit(s[i]) && s[i] != ' ' && s[i] != '\n'
  {
    HexN(w, 8)
  }

  /** A digit of Rust's `{:X}`: 0-9 or A-F. */
  predicate IsUpperHexDigit(c: char) {
    '0' <= c <= '9' || 'A' <= c <= 'F'
  }

  /** The low `n` hex digits of `w` in upper case (`{:0nX}`): they spell `w`
      modulo 16^n. */
  function UpperHexN(w: nat, n: nat): (s: string)
    ensures |s| == n
    ensures forall i :: 0 <= i < n ==> IsUpperHexDigit(s[i]) && IsHexDigit(s[i])
    ensures DigitsValue(s) == w % Pow16(n)
  {
    if n == 0 then ""
    else
      var init, last := UpperHexN(w / 16, n - 1), "0123456789ABCDEF"[w % 16];
      assert (init + [last])[..n - 1] == init;
      assert HexValue(last) == Some(w % 16);
      ModStep(w, Pow16(n - 1));
      init + [last]
  }

  /** `{:0nX}` of a number below 16^n, embedded in a line, reads back to
      the number. */
  lemma UpperHexInLine(head: string, w: nat, n: nat, tail: string)
    requires w < Pow16(n)
    ensures var line := head + UpperHexN(w, n) + tail;
            && |head| + n <= |line|
            && (forall i :: |head| <= i < |head| + n ==> IsUpperHexDigit(line[i]) && IsHexDigit(line[i]))
            && DigitsValue(line[|head|..|head| + n]) == w
  {
    var digits := UpperHexN(w, n);
    var line := head + digits + tail;
    PiecesOfThree(head, digits, tail);
    assert line[|head|..|head| + n] == digits;
    ModUnique(w, Pow16(n), 0, w);
    assert DigitsValue(digits) == w;
    forall i | |head| <= i < |head| + n
      ensures IsUpperHexDigit(line[i]) && IsHexDigit(line[i])
    {
      assert line[i] == line[|head|..|head| + n][i - |head|];
    }
  }

  /** Peeling off the last hex digit: w mod 16p is the digits of w / 16 mod p
      followed by w mod 16. */
  lemma ModStep(w: nat, p: nat)
    requires p >= 1
    ensures (w / 16 % p) * 16 + w % 16 == w % (16 * p)
  {
    var q, r := w / 16, w % 16;
    var a, b := q / p, q % p;
    assert w == (16 * p) * a + (16 * b + r) by {
      assert q == p * a + b;
      assert w == 16 * q + r;
    }
    ModUnique(w, 16 * p, a, 16 * b + r);
  }

  /** Multiplying by a natural keeps order. */
  lemma MulMono(m: nat, i: nat, j: nat)
    requires i <= j
    ensures m * i <= m * j
  {
  }

  /** The remainder is the one `b` with x == m * a + b and 0 <= b < m. */
  lemma ModUnique(x: nat, m: nat, a: nat, b: nat)
    requires 0 <= b < m && x == m * a + b
    ensures x % m == b
  {
    var a', b' := x / m, x % m;
    assert m * a' + b' == m * a + b;
    assert a' < a ==> m * a' + m <= m * a by {
      if a' < a { MulMono(m, a' + 1, a); }
    }
    assert a < a' ==> m * a + m <= m * a' by {
      if a < a' { MulMono(m, a + 1, a'); }
    }
  }

  /** The number spelled by a string of hex digits (0 for the empty string). */
  function DigitsValue(s: string): nat
    requires forall i :: 0 <= i < |s| ==> IsHexDigit(s[i])
  {
    if |s| == 0 then 0
    else
      assert IsHexDigit(s[|s| - 1]);
      DigitsValue(s[..|s| - 1]) * 16 + HexValue(s[|s| - 1]).value
  }

  lemma {:induction false} DigitsValueOfHexN(w: nat, n: nat)
    requires w < Pow16(n)
    ensures DigitsValue(HexN(w, n)) == w
    decreases n
  {
    if n > 0 {
      var s := HexN(w, n);
      assert s[..|s| - 1] == HexN(w / 16, n - 1);
      HexDigitValue(w % 16);
      DigitsValueOfHexN(w / 16, n - 1);
    }
  }

  /** `u32::from_str_radix(s, 16)`: an optional leading `+`, then one or more
      hex digits of either case, whose value must fit in 32 bits. */
  function ParseHexU32(s: string): (r: Option<u32>)
    ensures r.Some? <==>
              var digits := if |s| > 0 && s[0] == '+' then s[1..] else s;
              && |digits| > 0
              && (forall i :: 0 <= i < |digits| ==> IsHexDigit(digits[i]))
              && DigitsValue(digits) < 0x1_0000_0000
    ensures r.Some? ==> |s| > 0
    ensures r.Some? && s[0] != '+' ==>
              (forall i :: 0 <= i < |s| ==> IsHexDigit(s[i])) && r.value == DigitsValue(s)
    ensures r.Some? && s[0] == '+' ==>
              |s| > 1 && (forall i :: 1 <= i < |s| ==> IsHexDigit(s[i])) && r.value == DigitsValue(s[1..])
  {
    if |s| == 0 then None
    else
      var digits := if s[0] == '+' then s[1..] else s;
      if |digits| == 0 then None
      else if !(forall i :: 0 <= i < |digits| ==> IsHexDigit(digits[i])) then None
      else if DigitsValue(digits) >= 0x1_0000_0000 then None
      else Some(DigitsValue(digits))
  }

  /** `{:08x}` output parses back to the same word. */
  lemma ParseHex8(w: u32)
    ensures ParseHexU32(Hex8(w)) == Some(w)
  {
    assert Pow16(8) == 0x1_0000_0000;
    DigitsValueOfHexN(w, 8);
  }

  /** Sixteen hex digits hold exactly the 64-bit words. */
  lemma Pow16Sixteen()
    ensures Pow16(16) == 0x1_0000_0000_0000_0000
  {
    assert Pow16(4) == 0x1_0000;
    assert Pow16(8) == 0x1_0000_0000;
    assert Pow16(12) == 0x1_0000_0000_0000;
  }

  /** Two words with the same `{:08x}` rendering are the same word. */
  lemma Hex8Injective(a: u32, b: u32)
    requires Hex8(a) == Hex8(b)
    ensures a == b
  {
    ParseHex8(a);
    ParseHex8(b);
  }

  // ---------------------------------------------------------------------------
  // Decimal

  function DecimalDigit(d: nat): char
    requires d < 10
  {
    "0123456789"[d]
  }

  predicate IsDecimalDigit(c: char) {
    '0' <= c <= '9'
  }

  /** The decimal digits of a natural number, without leading zeros. */
  function NatToString(n: nat): (s: string)
    ensures |s| > 0
    ensures forall i :: 0 <= i < |s| ==> IsDecimalDigit(s[i])
    decreases n
  {
    if n < 10 then [DecimalDigit(n)]
    else NatToString(n / 10) + [DecimalDigit(n % 10)]
  }

  /** Python's `str(i)` / `%d`: decimal digits with a leading `-` when negative. */
  function IntToString(i: int): (s: string)
    ensures |s| > 0
  {
    if i < 0 then "-" + NatToString(-i) else NatToString(i)
  }

  function DecimalValue(s: string): nat
    requires forall i :: 0 <= i < |s| ==> IsDecimalDigit(s[i])
  {
    if |s| == 0 then 0
    else
      assert IsDecimalDigit(s[|s| - 1]);
      DecimalValue(s[..|s| - 1]) * 10 + (s[|s| - 1] as int - '0' as int)
  }

  lemma {:induction false} DecimalValueOfNatToString(n: nat)
    ensures DecimalValue(NatToString(n)) == n
    decreases n
  {
    if n >= 10 {
      var s := NatToString(n);
      assert s[..|s| - 1] == NatToString(n / 10);
      DecimalValueOfNatToString(n / 10);
    }
  }

  // ---------------------------------------------------------------------------
  // Padding, case, join and split

  function Spaces(n: nat): (s: string)
    ensures |s| == n
    ensures forall i :: 0 <= i < n ==> s[i] == ' '
  {
    if n == 0 then "" else " " + Spaces(n - 1)
  }

  /** `format!("{:w}", s)` for a string: left-aligned, space-filled to at least
      `width` characters, never truncated. */
  function PadRight(s: string, width: nat): (r: string)
    ensures |r| == if |s| < width then width else |s|
    ensures r[..|s|] == s
    ensures forall i :: |s| <= i < |r| ==> r[i] == ' '
  {
    if |s| < width then s + Spaces(width - |s|) else s
  }

  /** ASCII lowercase of one character. */
  function LowerChar(c: char): char {
    if 'A' <= c <= 'Z' then (c as int - 'A' as int + 'a' as int) as char else c
  }

  /** Lowercases the ASCII letters of `s`, leaving every other character. */
  function AsciiLower(s: string): (r: string)
    ensures |r| == |s|
    ensures forall i :: 0 <= i < |s| ==> r[i] == LowerChar(s[i])
  {
    seq(|s|, i requires 0 <= i < |s| => LowerChar(s[i]))
  }

  lemma AsciiLowerIdempotent(s: string)
    ensures AsciiLower(AsciiLower(s)) == AsciiLower(s)
  {
  }

  /** `parts.join(sep)` for a single-character separator. */
  function Join(parts: seq<string>, sep: char): (r: string)
  {
    if |parts| == 0 then ""
    else if |parts| == 1 then parts[0]
    else parts[0] + [sep] + Join(parts[1..], sep)
  }

  predicate Lacks(s: string, c: char) {
    forall i :: 0 <= i < |s| ==> s[i] != c
  }

  /** Index of the first `c` in `s`, or |s| when there is none. */
  function FirstIndex(s: string, c: char): (k: nat)
    ensures k <= |s|
    ensures k < |s| ==> s[k] == c
    ensures Lacks(s[..k], c)
  {
    if |s| == 0 then 0
    else if s[0] == c then 0
    else
      var k := 1 + FirstIndex(s[1..], c);
      assert s[..k] == [s[0]] + s[1..][..k - 1];
      k
  }

  /** `s.split(c)`: the pieces between occurrences of `c`; always at least one. */
  function Split(s: string, c: char): (r: seq<string>)
    ensures |r| >= 1
    decreases |s|
  {
    var k := FirstIndex(s, c);
    if k == |s| then [s] else [s[..k]] + Split(s[k + 1..], c)
  }

  /** Splitting on the separator undoes a join of separator-free parts. */
  lemma {:induction false} SplitJoin(parts: seq<string>, sep: char)
    requires |parts| >= 1
    requires forall i :: 0 <= i < |parts| ==> Lacks(parts[i], sep)
    ensures Split(Join(parts, sep), sep) == parts
    decreases |parts|
  {
    var x := parts[0];
    if |parts| == 1 {
      FirstIndexAbsent(x, sep);
    } else {
      var tail := parts[1..];
      var rest := Join(tail, sep);
      var s := x + [sep] + rest;
      assert Join(parts, sep) == s;
      FirstIndexAfterPrefix(x, sep, rest);
      assert s[..|x|] == x && s[|x| + 1..] == rest by {
        assert s == x + ([sep] + rest);
      }
      assert forall i :: 0 <= i < |tail| ==> Lacks(tail[i], sep) by {
        forall i | 0 <= i < |tail| ensures Lacks(tail[i], sep) {
          assert tail[i] == parts[i + 1];
        }
      }
      SplitJoin(tail, sep);
      assert Split(s, sep) == [x] + Split(rest, sep);
      assert parts == [x] + tail;
    }
  }

  lemma FirstIndexAbsent(s: string, c: char)
    requires Lacks(s, c)
    ensures FirstIndex(s, c) == |s|
  {
  }

  lemma FirstIndexAfterPrefix(x: string, c: char, rest: string)
    requires Lacks(x, c)
    ensures FirstIndex(x + [c] + rest, c) == |x|
  {
    var s := x + [c] + rest;
    assert s[|x|] == c;
    assert s[..|x|] == x;
  }

  // ---------------------------------------------------------------------------
  // Slices of concatenations

  /** A slice inside the first part of a concatenation. */
  lemma SliceOfPrefix(a: string, b: string, p: nat, n: nat)
    requires p + n <= |a|
    ensures (a + b)[p..p + n] == a[p..p + n]
  {
  }

  /** A slice inside the second part of a concatenation. */
  lemma SliceOfSuffix(a: string, b: string, q: nat, n: nat)
    requires q + n <= |b|
    ensures (a + b)[|a| + q..|a| + q + n] == b[q..q + n]
  {
  }

  /** The second part of a concatenation, sliced back out. */
  lemma SuffixPart(a: string, b: string)
    ensures (a + b)[|a|..|a| + |b|] == b
  {
  }

  /** Regrouping a three-part concatenation. */
  lemma ConcatAssoc(a: string, b: string, c: string)
    ensures a + (b + c) == (a + b) + c
  {
  }

  /** Where the last two pieces of a three-part concatenation lie. */
  lemma PiecesOfThree(a: string, b: string, c: string)
    ensures (a + b + c)[|a|..|a| + |b|] == b
    ensures (a + b + c)[|a| + |b|..|a| + |b| + |c|] == c
  {
    assert a + b + c == a + (b + c);
    SliceOfSuffix(a, b + c, 0, |b|);
    SliceOfSuffix(a, b + c, |b|, |c|);
  }

  /** The last piece of a four-part concatenation. */
  lemma LastOfFour(a: string, b: string, c: string, d: string)
    ensures (a + b + c + d)[|a| + |b| + |c|..] == d
  {
  }

  /** A slice of a slice is a slice of the whole. */
  lemma SliceOfSlice(s: string, i: nat, j: nat, p: nat, q: nat)
    requires i <= j <= |s| && p <= q <= j - i
    ensures s[i..j][p..q] == s[i + p..i + q]
  {
    forall k | 0 <= k < q - p
      ensures s[i..j][p..q][k] == s[i + p..i + q][k]
    {
      assert s[i..j][p..q][k] == s[i + p + k];
    }
  }

  /** A hex field that parses inside a piece parses the same inside any
      text that holds the piece at position `h`. */
  lemma ParseInSlice(text: string, h: nat, piece: string, q: nat, v: u32)
    requires h + |piece| <= |text| && text[h..h + |piece|] == piece
    requires q + 8 <= |piece| && ParseHexU32(piece[q..q + 8]) == Some(v)
    ensures ParseHexU32(text[h + q..h + q + 8]) == Some(v)
  {
    SliceOfSlice(text, h, h + |piece|, q, q + 8);
  }

  /** Where the first three pieces of a four-part concatenation lie. */
  lemma PiecesOfFour(a: string, b: string, c: string, d: string)
    ensures (a + b + c + d)[..|a|] == a
    ensures (a + b + c + d)[|a|..|a| + |b|] == b
    ensures (a + b + c + d)[|a| + |b|..|a| + |b| + |c|] == c
  {
    var t := a + b + c + d;
    assert t == a + (b + c + d);
    assert t == (a + b) + (c + d);
  }
}
