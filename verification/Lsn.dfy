/** Write-ahead-log positions in PostgreSQL's text form: two hexadecimal halves around a slash. */
module Lsn {
  import opened Wrappers
  import opened Text

  const Half: nat := 0x1_0000_0000
  const Word: nat := 0x1_0000_0000_0000_0000

  /** Shifting a 64-bit word left by 32 drops its upper half; the low half of the result is zero, so
      or-ing a value below 2^32 into it is addition. */
  function ShiftOr(hi: nat, lo: nat): nat {
    hi * Half % Word + lo
  }

  lemma SmallShift(hi: nat, lo: nat)
    requires hi < Word && lo < Half
    ensures hi < Half ==> ShiftOr(hi, lo) == hi * Half + lo
    ensures hi >= Half ==> ShiftOr(hi, lo) != hi * Half + lo
  {
    var x := hi * 0x1_0000_0000;
    assert 0 <= x;
    if hi < Half {
      assert x < 0x1_0000_0000_0000_0000;
    } else {
      assert x >= 0x1_0000_0000_0000_0000 > x % 0x1_0000_0000_0000_0000;
    }
  }

  function ParseLsn(s: string): Option<nat> {
    var parts := SplitOnce(s, '/');
    if parts.None? then None
    else
      var hi := ParseNat(Trim(parts.value.0), 16, Word - 1);
      var lo := ParseNat(Trim(parts.value.1), 16, Word - 1);
      if hi.None? || lo.None? || lo.value > Half - 1 then None else Some(ShiftOr(hi.value, lo.value))
  }

  /** The text is two hexadecimal halves around its first slash, the lower one of at most 32 bits. */
  ghost predicate NamesLsn(s: string, hi: nat, lo: nat) {
    exists a, b ::
      && s == a + "/" + b && '/' !in a && lo < Half
      && ParseNat(Trim(a), 16, Word - 1) == Some(hi) && ParseNat(Trim(b), 16, Word - 1) == Some(lo)
  }

  /** For every text: what is read, and what is refused. */
  lemma ParseLsnIff(s: string, v: nat)
    ensures ParseLsn(s) == Some(v) <==>
            exists hi: nat, lo: nat :: NamesLsn(s, hi, lo) && v == hi * Half % Word + lo
  {
    hide SplitOnce, ParseNat, Trim;
    SplitOnceMeaning(s, '/');
    if ParseLsn(s) == Some(v) {
      var parts := SplitOnce(s, '/').value;
      var hi, lo := ParseNat(Trim(parts.0), 16, Word - 1).value, ParseNat(Trim(parts.1), 16, Word - 1).value;
      assert s == parts.0 + "/" + parts.1;
      assert NamesLsn(s, hi, lo);
    }
    if hi: nat, lo: nat :| NamesLsn(s, hi, lo) && v == hi * Half % Word + lo {
      var a, b :|
        && s == a + "/" + b && '/' !in a && lo < Half
        && ParseNat(Trim(a), 16, Word - 1) == Some(hi) && ParseNat(Trim(b), 16, Word - 1) == Some(lo);
      SplitOnceAt(a, '/', b);
    }
  }

  function PrintLsn(hi: nat, lo: nat, upper: bool): string {
    PrintNat(hi, 16, upper) + "/" + PrintNat(lo, 16, upper)
  }

  lemma HexIsPlain(n: nat, upper: bool)
    ensures '/' !in PrintNat(n, 16, upper)
    ensures Trim(PrintNat(n, 16, upper)) == PrintNat(n, 16, upper)
  {
    TrimClean(PrintNat(n, 16, upper));
  }

  lemma ParsePrinted(hi: nat, lo: nat, upper: bool)
    requires hi < Word && lo < Half
    ensures ParseLsn(PrintLsn(hi, lo, upper)) == Some(ShiftOr(hi, lo))
  {
    HexIsPlain(hi, upper);
    HexIsPlain(lo, upper);
    SplitOnceAt(PrintNat(hi, 16, upper), '/', PrintNat(lo, 16, upper));
    ParsePrint(hi, 16, upper, Word - 1);
    ParsePrint(lo, 16, upper, Word - 1);
  }

  /** The parser inverts the printer on every 64-bit position. */
  lemma LsnRoundTrip(hi: nat, lo: nat, upper: bool)
    requires hi < Half && lo < Half
    ensures ParseLsn(PrintLsn(hi, lo, upper)) == Some(hi * Half + lo)
  {
    ParsePrinted(hi, lo, upper);
    SmallShift(hi, lo);
  }

  /** Positions read from text are ordered as their halves are, the upper half first. */
  lemma LsnOrder(hi: nat, lo: nat, hi': nat, lo': nat, upper: bool, upper': bool)
    requires hi < Half && lo < Half && hi' < Half && lo' < Half
    ensures var a, b := ParseLsn(PrintLsn(hi, lo, upper)), ParseLsn(PrintLsn(hi', lo', upper'));
            a.Some? && b.Some? && (a.value < b.value <==> hi < hi' || (hi == hi' && lo < lo'))
  {
    LsnRoundTrip(hi, lo, upper);
    LsnRoundTrip(hi', lo', upper');
    assert hi * 0x1_0000_0000 + lo < hi' * 0x1_0000_0000 + lo' <==> hi < hi' || (hi == hi' && lo < lo');
  }

  /** Only the lower half is range-checked: the value is the position the text names exactly when
      the upper half fits in 32 bits. */
  lemma LsnExactIff(hi: nat, lo: nat, upper: bool)
    requires hi < Word && lo < Half
    ensures ParseLsn(PrintLsn(hi, lo, upper)) == Some(hi * Half + lo) <==> hi < Half
  {
    ParsePrinted(hi, lo, upper);
    SmallShift(hi, lo);
  }

  /** The least upper half that does not fit: the text names 2^64, and 0 is read. */
  lemma WideUpperHalf(upper: bool)
    ensures ParseLsn(PrintLsn(Half, 0, upper)) == Some(0)
    ensures Half * Half + 0 != 0
  {
    hide ParseLsn, PrintLsn;
    ParsePrinted(Half, 0, upper);
  }

  /** A lower half of more than 32 bits is refused. */
  lemma LowHalfChecked(hi: nat, lo: nat, upper: bool)
    requires hi < Word && lo < Word
    ensures ParseLsn(PrintLsn(hi, lo, upper)).Some? <==> lo < Half
  {
    HexIsPlain(hi, upper);
    HexIsPlain(lo, upper);
    SplitOnceAt(PrintNat(hi, 16, upper), '/', PrintNat(lo, 16, upper));
    ParsePrint(hi, 16, upper, Word - 1);
    ParsePrint(lo, 16, upper, Word - 1);
  }
}
