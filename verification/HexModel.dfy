/** Byte strings as hexadecimal text, in which the daemon stores the id of an xclbin. */
module HexModel {

  const DIGITS: string := "0123456789abcdef"

  predicate IsDigit(ch: char) {
    '0' <= ch <= '9' || 'a' <= ch <= 'f'
  }

  function DigitOf(v: bv8): (ch: char)
    ensures IsDigit(ch)
  {
    var i := (v & 0xF) as int;
    assert i < 16;
    if i < 10 then ('0' as int + i) as char else ('a' as int + i - 10) as char
  }

  function Hex(bs: seq<bv8>): string {
    if bs == [] then [] else Hex(bs[..|bs| - 1]) + [DigitOf(bs[|bs| - 1] >> 4), DigitOf(bs[|bs| - 1])]
  }

  /** What a character counts for; below 'a', as bytes from 128 on are in signed arithmetic, it is
      taken to be a decimal digit. */
  function Value(ch: char): bv8 {
    var v := if ch < 'a' || ch as int >= 128 then ch as int - '0' as int else ch as int - 'a' as int + 10;
    (v % 256) as bv8
  }

  function Join(hi: bv8, lo: bv8): bv8 {
    ((hi << 4) & 0xF0) | (lo & 0xF)
  }

  /** Missing characters read as zero bytes. */
  function CharAt(s: string, i: nat): char {
    if i < |s| then s[i] else 0 as char
  }

  function Parse(s: string, n: nat): seq<bv8> {
    if n == 0 then [] else Parse(s, n - 1) + [Join(Value(CharAt(s, 2 * n - 2)), Value(CharAt(s, 2 * n - 1)))]
  }

  // ---------------------------------------------------------------------------------
  // The two conversions
  // ---------------------------------------------------------------------------------

  method BinToHexstr(bs: seq<bv8>) returns (s: string)
    ensures s == Hex(bs)
  {
    hide DigitOf;
    s := "";
    var i := 0;
    while i < |bs|
      invariant i <= |bs| && s == Hex(bs[..i])
    {
      assert bs[..i + 1][..i] == bs[..i];
      DigitAt(bs[i] >> 4);
      DigitAt(bs[i]);
      s := s + [DIGITS[((bs[i] >> 4) & 0xF) as int]];
      s := s + [DIGITS[(bs[i] & 0xF) as int]];
      i := i + 1;
    }
    assert bs[..i] == bs;
  }

  /** Reads `insz` characters, two per byte, into `out`. */
  method HexstrToBin(s: string, insz: nat, out: array<bv8>)
    requires insz % 2 == 0 && insz / 2 <= out.Length
    modifies out
    ensures out[..insz / 2] == Parse(s, insz / 2)
    ensures out[insz / 2..] == old(out[insz / 2..])
  {
    var i, k := 0, 0;
    while i < insz
      invariant i == 2 * k && k <= insz / 2
      invariant out[..k] == Parse(s, k)
      invariant out[insz / 2..] == old(out[insz / 2..])
    {
      var hex0, hex1 := Value(CharAt(s, i)), Value(CharAt(s, i + 1));
      out[k] := ((hex0 << 4) & 0xF0) | (hex1 & 0xF);
      i, k := i + 2, k + 1;
      assert out[..k] == out[..k - 1] + [out[k - 1]];
    }
  }

  // ---------------------------------------------------------------------------------
  // Round trips
  // ---------------------------------------------------------------------------------

  lemma DigitAt(v: bv8)
    ensures (v & 0xF) as int < 16 && DIGITS[(v & 0xF) as int] == DigitOf(v)
  {
  }

  /** A digit counts for the low half of the byte it was made from. */
  lemma ValueOfDigit(v: bv8)
    ensures Value(DigitOf(v)) == v & 0xF
  {
    var i := (v & 0xF) as int;
    DigitAt(v);
    SmallByte(i);
    assert i as bv8 == v & 0xF;
    assert Value(DigitOf(v)) == (i % 256) as bv8;
  }

  lemma JoinHalves(b: bv8)
    ensures Join((b >> 4) & 0xF, b & 0xF) == b
  {
  }

  lemma ByteAgain(b: bv8)
    ensures Join(Value(DigitOf(b >> 4)), Value(DigitOf(b))) == b
  {
    hide DigitOf, Value, Join;
    ValueOfDigit(b >> 4);
    ValueOfDigit(b);
    JoinHalves(b);
  }

  lemma {:induction false} HexText(bs: seq<bv8>)
    ensures |Hex(bs)| == 2 * |bs|
    ensures forall i :: 0 <= i < |Hex(bs)| ==> IsDigit(Hex(bs)[i])
  {
    if bs != [] { HexText(bs[..|bs| - 1]); }
  }

  lemma {:induction false} ParseOfPrefix(s: string, t: string, n: nat)
    requires 2 * n <= |s|
    ensures Parse(s + t, n) == Parse(s, n)
  {
    if n > 0 { ParseOfPrefix(s, t, n - 1); }
  }

  /** Printing and parsing gives back the bytes, whatever they are and however many. */
  lemma {:induction false} ParseUndoesHex(bs: seq<bv8>)
    ensures Parse(Hex(bs), |bs|) == bs
  {
    hide DigitOf, Value, Join;
    if bs != [] {
      var front, last := bs[..|bs| - 1], bs[|bs| - 1];
      var tail := [DigitOf(last >> 4), DigitOf(last)];
      HexText(front);
      ParseUndoesHex(front);
      ParseOfPrefix(Hex(front), tail, |front|);
      ByteAgain(last);
    }
  }

  lemma DigitOfValue(ch: char)
    requires IsDigit(ch)
    ensures DigitOf(Value(ch)) == ch && Value(ch) & 0xF == Value(ch)
  {
    var v := if ch < 'a' then ch as int - '0' as int else ch as int - 'a' as int + 10;
    SmallByte(v);
    assert Value(ch) == v as bv8;
  }

  lemma SmallByte(v: int)
    requires 0 <= v < 16
    ensures v as bv8 & 0xF == v as bv8 && (v as bv8 & 0xF) as int == v && (v % 256) as bv8 == v as bv8
  {
  }

  lemma SplitJoin(hi: bv8, lo: bv8)
    requires hi & 0xF == hi && lo & 0xF == lo
    ensures (Join(hi, lo) >> 4) & 0xF == hi && Join(hi, lo) & 0xF == lo
  {
  }

  lemma HexAppend(bs: seq<bv8>, b: bv8)
    ensures Hex(bs + [b]) == Hex(bs) + [DigitOf(b >> 4), DigitOf(b)]
  {
    assert (bs + [b])[..|bs|] == bs;
  }

  lemma ParseLast(s: string, n: nat)
    requires n > 0 && |s| == 2 * n
    ensures Parse(s, n) == Parse(s[..2 * n - 2], n - 1) + [Join(Value(s[2 * n - 2]), Value(s[2 * n - 1]))]
  {
    ParseOfPrefix(s[..2 * n - 2], s[2 * n - 2..], n - 1);
    assert s[..2 * n - 2] + s[2 * n - 2..] == s;
  }

  lemma NoText(s: string)
    requires |s| == 0
    ensures Hex(Parse(s, 0)) == s
  {
  }

  /** Text of lower-case digits, two per byte, is what its bytes print as. */
  lemma {:induction false} HexUndoesParse(s: string, n: nat)
    requires |s| == 2 * n && forall i :: 0 <= i < |s| ==> IsDigit(s[i])
    ensures Hex(Parse(s, n)) == s
  {
    hide DigitOf, Value, Join, IsDigit, Hex, Parse;
    if n == 0 {
      NoText(s);
    } else {
      var front, x, y := s[..2 * n - 2], s[2 * n - 2], s[2 * n - 1];
      HexUndoesParse(front, n - 1);
      ParseLast(s, n);
      HexAppend(Parse(front, n - 1), Join(Value(x), Value(y)));
      DigitsOfJoin(x, y);
      assert s == front + [x, y];
    }
  }

  lemma DigitsOfJoin(x: char, y: char)
    requires IsDigit(x) && IsDigit(y)
    ensures DigitOf(Join(Value(x), Value(y)) >> 4) == x && DigitOf(Join(Value(x), Value(y))) == y
  {
    var hi, lo := Value(x), Value(y);
    DigitOfValue(x);
    DigitOfValue(y);
    SplitJoin(hi, lo);
    LowHalf(Join(hi, lo) >> 4, hi);
    LowHalf(Join(hi, lo), lo);
  }

  /** The digit depends on the low half only. */
  lemma LowHalf(v: bv8, w: bv8)
    requires v & 0xF == w & 0xF
    ensures DigitOf(v) == DigitOf(w)
  {
  }
}
