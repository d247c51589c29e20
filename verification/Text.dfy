/** Text shared by the parsers: numbers in positional notation, trimming, and splitting at a character. */
module Text {
  import opened Wrappers

  // ---- numbers -------------------------------------------------------------------------------

  /** The value of a digit in any radix up to 36, letters in either case. */
  function DigitValue(c: char): nat {
    if '0' <= c <= '9' then c as int - '0' as int
    else if 'a' <= c <= 'z' then c as int - 'a' as int + 10
    else if 'A' <= c <= 'Z' then c as int - 'A' as int + 10
    else 36
  }

  function DigitChar(d: nat, upper: bool): (c: char)
    requires d < 16
    ensures DigitValue(c) == d
    ensures '0' <= c <= '9' || 'a' <= c <= 'f' || 'A' <= c <= 'F'
  {
    if upper then "0123456789ABCDEF"[d] else "0123456789abcdef"[d]
  }

  function Horner(value: nat, radix: nat, digit: nat): nat {
    value * radix + digit
  }

  function ParseDigits(s: string, radix: nat): Option<nat> {
    if s == [] then Some(0)
    else
      var front, d := ParseDigits(s[..|s| - 1], radix), DigitValue(s[|s| - 1]);
      if front.Some? && d < radix then Some(Horner(front.value, radix, d)) else None
  }

  /** Only digits of the radix are read. */
  lemma {:induction false} ParseDigitsIff(s: string, radix: nat)
    ensures ParseDigits(s, radix).Some? <==> forall c :: c in s ==> DigitValue(c) < radix
  {
    if s != [] {
      ParseDigitsIff(s[..|s| - 1], radix);
      assert s == s[..|s| - 1] + [s[|s| - 1]];
    }
  }

  function Unsigned(s: string): string {
    if s != [] && s[0] == '+' then s[1..] else s
  }

  /** Rust's integer parsing: at least one digit, an optional plus sign, and no overflow. */
  function ParseNat(s: string, radix: nat, max: nat): Option<nat> {
    var t := Unsigned(s);
    var v := ParseDigits(t, radix);
    if t != [] && v.Some? && v.value <= max then v else None
  }

  function PrintNat(n: nat, radix: nat, upper: bool): (s: string)
    requires 2 <= radix <= 16
    ensures s != []
    ensures forall c :: c in s ==> DigitValue(c) < 16
  {
    if n < radix then [DigitChar(n, upper)]
    else PrintNat(n / radix, radix, upper) + [DigitChar(n % radix, upper)]
  }

  lemma DivideBack(n: nat, radix: nat)
    requires radix > 0
    ensures n / radix * radix + n % radix == n
    ensures n % radix < radix && (radix >= 2 && n >= radix ==> n / radix < n)
  {
  }

  lemma {:induction false} ParsePrintDigits(n: nat, radix: nat, upper: bool)
    requires 2 <= radix <= 16
    ensures ParseDigits(PrintNat(n, radix, upper), radix) == Some(n)
    decreases n
  {
    var s := PrintNat(n, radix, upper);
    if n < radix {
      assert s[..0] == [];
      assert ParseDigits(s[..0], radix) == Some(0);
    } else {
      DivideBack(n, radix);
      var front, last := PrintNat(n / radix, radix, upper), DigitChar(n % radix, upper);
      assert s == front + [last] && s[..|s| - 1] == front;
      ParsePrintDigits(n / radix, radix, upper);
    }
  }

  /** Reading back a printed number gives the number. */
  lemma ParsePrint(n: nat, radix: nat, upper: bool, max: nat)
    requires 2 <= radix <= 16 && n <= max
    ensures ParseNat(PrintNat(n, radix, upper), radix, max) == Some(n)
  {
    ParsePrintDigits(n, radix, upper);
    assert PrintNat(n, radix, upper)[0] in PrintNat(n, radix, upper);
  }

  // ---- white space ---------------------------------------------------------------------------

  predicate IsWhitespace(c: char) {
    var n := c as int;
    || 9 <= n <= 13 || n == 32 || n == 0x85 || n == 0xA0 || n == 0x1680 || 0x2000 <= n <= 0x200A
    || n == 0x2028 || n == 0x2029 || n == 0x202F || n == 0x205F || n == 0x3000
  }

  function TrimStart(s: string): string {
    if s != [] && IsWhitespace(s[0]) then TrimStart(s[1..]) else s
  }

  function TrimEnd(s: string): string {
    if s != [] && IsWhitespace(s[|s| - 1]) then TrimEnd(s[..|s| - 1]) else s
  }

  function Trim(s: string): string {
    TrimEnd(TrimStart(s))
  }

  lemma TrimClean(s: string)
    requires forall c :: c in s ==> !IsWhitespace(c)
    ensures Trim(s) == s
  {
  }

  ghost predicate Blank(s: string) {
    forall k :: 0 <= k < |s| ==> IsWhitespace(s[k])
  }

  /** `u` is `s` without the white space around it. */
  ghost predicate TrimsTo(s: string, u: string) {
    && (exists a, b :: Blank(a) && Blank(b) && s == a + u + b)
    && (u != [] ==> !IsWhitespace(u[0]) && !IsWhitespace(u[|u| - 1]))
  }

  lemma {:induction false} TrimStartMeaning(s: string) returns (a: string)
    ensures Blank(a) && s == a + TrimStart(s) && (TrimStart(s) != [] ==> !IsWhitespace(TrimStart(s)[0]))
  {
    a := "";
    if s != [] && IsWhitespace(s[0]) {
      a := TrimStartMeaning(s[1..]);
      a := [s[0]] + a;
    }
  }

  lemma {:induction false} TrimEndMeaning(s: string) returns (b: string)
    ensures Blank(b) && s == TrimEnd(s) + b && (TrimEnd(s) != [] ==> !IsWhitespace(TrimEnd(s)[|TrimEnd(s)| - 1]))
    ensures TrimEnd(s) != [] ==> TrimEnd(s)[0] == s[0]
  {
    b := "";
    if s != [] && IsWhitespace(s[|s| - 1]) {
      b := TrimEndMeaning(s[..|s| - 1]);
      b := b + [s[|s| - 1]];
      assert s == s[..|s| - 1] + [s[|s| - 1]];
    }
  }

  lemma TrimMeaning(s: string)
    ensures TrimsTo(s, Trim(s))
  {
    var a := TrimStartMeaning(s);
    var b := TrimEndMeaning(TrimStart(s));
    hide TrimStart, TrimEnd;
    assert s == a + Trim(s) + b;
  }

  /** The characters of a text in three parts, the middle one not empty. */
  lemma MiddleEnds(a: string, u: string, b: string)
    ensures u != [] ==> (a + u + b)[|a|] == u[0] && (a + u + b)[|a| + |u| - 1] == u[|u| - 1]
    ensures (a + u + b)[|a|..|a| + |u|] == u
  {
  }

  lemma BlankEnds(a: string, u: string, b: string)
    requires Blank(a) && Blank(b)
    ensures forall k :: 0 <= k < |a| ==> IsWhitespace((a + u + b)[k])
    ensures forall k :: |a| + |u| <= k < |a + u + b| ==> IsWhitespace((a + u + b)[k])
  {
    var s := a + u + b;
    assert forall k :: |a| + |u| <= k < |s| ==> s[k] == b[k - |a| - |u|];
  }

  /** There is only one such text. */
  lemma OneTrim(s: string, u: string, v: string)
    requires TrimsTo(s, u) && TrimsTo(s, v)
    ensures u == v
  {
    hide IsWhitespace;
    var a, b :| Blank(a) && Blank(b) && s == a + u + b;
    var c, d :| Blank(c) && Blank(d) && s == c + v + d;
    MiddleEnds(a, u, b);
    MiddleEnds(c, v, d);
    BlankEnds(a, u, b);
    BlankEnds(c, v, d);
  }

  // ---- splitting -----------------------------------------------------------------------------

  /** `split_once`: the parts before and after the first `sep`. */
  function SplitOnce(s: string, sep: char): Option<(string, string)> {
    if s == [] then None
    else if s[0] == sep then Some(("", s[1..]))
    else
      var rest := SplitOnce(s[1..], sep);
      if rest.None? then None else Some(([s[0]] + rest.value.0, rest.value.1))
  }

  lemma {:induction false} SplitOnceAt(a: string, sep: char, b: string)
    requires sep !in a
    ensures SplitOnce(a + [sep] + b, sep) == Some((a, b))
  {
    var s := a + [sep] + b;
    if a != [] {
      assert s[1..] == a[1..] + [sep] + b && a == [a[0]] + a[1..];
      SplitOnceAt(a[1..], sep, b);
    }
  }

  /** For every text: the first separator, if there is one. */
  lemma {:induction false} SplitOnceMeaning(s: string, sep: char)
    ensures var parts := SplitOnce(s, sep);
            if sep !in s then parts.None?
            else parts.Some? && sep !in parts.value.0 && s == parts.value.0 + [sep] + parts.value.1
  {
    if s != [] && s[0] != sep {
      SplitOnceMeaning(s[1..], sep);
      assert s == [s[0]] + s[1..];
    }
  }

  /** `split`: the pieces between all occurrences of `sep`. */
  function Split(s: string, sep: char): (r: seq<string>)
    ensures r != []
  {
    if s == [] then [""]
    else if s[0] == sep then [""] + Split(s[1..], sep)
    else
      var rest := Split(s[1..], sep);
      [[s[0]] + rest[0]] + rest[1..]
  }

  lemma {:induction false} SplitFirst(a: string, sep: char, b: string)
    requires sep !in a
    ensures Split(a + [sep] + b, sep) == [a] + Split(b, sep)
  {
    var s := a + [sep] + b;
    if a == [] {
      assert s[1..] == b;
    } else {
      assert s[1..] == a[1..] + [sep] + b && a == [a[0]] + a[1..];
      SplitFirst(a[1..], sep, b);
    }
  }

  lemma {:induction false} SplitNone(a: string, sep: char)
    requires sep !in a
    ensures Split(a, sep) == [a]
  {
    if a != [] {
      SplitNone(a[1..], sep);
      assert a == [a[0]] + a[1..];
    }
  }

  /** The first piece that starts with `tag`, without it. */
  function FindField(fields: seq<string>, tag: string): Option<string> {
    if fields == [] then None
    else if tag <= fields[0] then Some(fields[0][|tag|..])
    else FindField(fields[1..], tag)
  }

  /** The last piece that starts with `tag`, without it. */
  function LastField(fields: seq<string>, tag: string): Option<string> {
    if fields == [] then None
    else if tag <= fields[|fields| - 1] then Some(fields[|fields| - 1][|tag|..])
    else LastField(fields[..|fields| - 1], tag)
  }

  function Join(fields: seq<string>, sep: char): string
    requires fields != []
  {
    if |fields| == 1 then fields[0] else fields[0] + [sep] + Join(fields[1..], sep)
  }

  lemma {:induction false} JoinAppend(fields: seq<string>, last: string, sep: char)
    requires fields != []
    ensures Join(fields + [last], sep) == Join(fields, sep) + [sep] + last
  {
    var all := fields + [last];
    assert all[1..] == fields[1..] + [last];
    if |fields| == 1 {
      assert all[1..] == [last];
    } else {
      JoinAppend(fields[1..], last, sep);
    }
  }

  /** Splitting undoes joining when no piece contains the separator. */
  lemma {:induction false} SplitJoin(fields: seq<string>, sep: char)
    requires fields != [] && forall k :: 0 <= k < |fields| ==> sep !in fields[k]
    ensures Split(Join(fields, sep), sep) == fields
  {
    if |fields| == 1 {
      SplitNone(fields[0], sep);
      assert fields == [fields[0]];
    } else {
      SplitJoin(fields[1..], sep);
      SplitFirst(fields[0], sep, Join(fields[1..], sep));
      assert fields == [fields[0]] + fields[1..];
    }
  }

  /** `fields` are the pieces of `s`. */
  ghost predicate FieldsOf(s: string, sep: char, fields: seq<string>) {
    fields != [] && Join(fields, sep) == s && forall k :: 0 <= k < |fields| ==> sep !in fields[k]
  }

  /** For every text: splitting gives its pieces, and these only. */
  lemma {:induction false} SplitMeaning(s: string, sep: char)
    ensures FieldsOf(s, sep, Split(s, sep))
  {
    if s != [] {
      SplitMeaning(s[1..], sep);
      var rest := Split(s[1..], sep);
      var fields := Split(s, sep);
      if s[0] == sep {
        assert fields[1..] == rest;
        assert s == "" + [sep] + s[1..];
      } else {
        assert fields[1..] == rest[1..];
        assert s == [s[0]] + s[1..];
      }
    }
  }

  /** `value` follows `tag` in the first piece of `s` that starts with it. */
  ghost predicate FirstTagged(s: string, sep: char, tag: string, value: string) {
    exists fields: seq<string>, k: nat ::
      FieldsOf(s, sep, fields) && k < |fields| && fields[k] == tag + value && NoneTagged(fields[..k], tag)
  }

  ghost predicate NoneTagged(fields: seq<string>, tag: string) {
    forall j :: 0 <= j < |fields| ==> !(tag <= fields[j])
  }

  lemma {:induction false} FindFieldMeaning(fields: seq<string>, tag: string)
    ensures FindField(fields, tag).None? <==> NoneTagged(fields, tag)
    ensures var value := FindField(fields, tag);
            value.Some? ==>
              exists k: nat :: k < |fields| && fields[k] == tag + value.value && NoneTagged(fields[..k], tag)
  {
    if fields != [] {
      if tag <= fields[0] {
        assert fields[0] == tag + fields[0][|tag|..] && NoneTagged(fields[..0], tag);
      } else {
        FindFieldMeaning(fields[1..], tag);
        var value := FindField(fields[1..], tag);
        if value.Some? {
          var k: nat :| k < |fields| - 1 && fields[1..][k] == tag + value.value && NoneTagged(fields[1..][..k], tag);
          assert fields[k + 1] == tag + value.value;
          assert forall j :: 1 <= j < k + 1 ==> fields[j] == fields[1..][..k][j - 1];
          assert NoneTagged(fields[..k + 1], tag);
        }
        assert forall j :: 1 <= j < |fields| ==> fields[j] == fields[1..][j - 1];
      }
    }
  }

  lemma FirstOfTagged(fields: seq<string>, j: nat, k: nat, tag: string)
    requires j < |fields| && k < |fields| && tag <= fields[j] && tag <= fields[k]
    requires NoneTagged(fields[..j], tag) && NoneTagged(fields[..k], tag)
    ensures j == k
  {
    assert forall i :: 0 <= i < j ==> fields[..j][i] == fields[i];
    assert forall i :: 0 <= i < k ==> fields[..k][i] == fields[i];
  }

  /** What `FindField` on the pieces of a text finds. */
  lemma FieldMeaning(s: string, sep: char, tag: string, value: string)
    ensures FindField(Split(s, sep), tag) == Some(value) <==> FirstTagged(s, sep, tag, value)
  {
    hide Split, Join;
    var fields := Split(s, sep);
    SplitMeaning(s, sep);
    FindFieldMeaning(fields, tag);
    var found := FindField(fields, tag);
    if found == Some(value) {
      var k: nat :| k < |fields| && fields[k] == tag + value && NoneTagged(fields[..k], tag);
    }
    if FirstTagged(s, sep, tag, value) {
      var other: seq<string>, k: nat :|
        FieldsOf(s, sep, other) && k < |other| && other[k] == tag + value && NoneTagged(other[..k], tag);
      SplitJoin(other, sep);
      assert tag <= fields[k];
      var j: nat :| j < |fields| && fields[j] == tag + found.value && NoneTagged(fields[..j], tag);
      FirstOfTagged(fields, j, k, tag);
      assert (tag + value)[|tag|..] == value && (tag + found.value)[|tag|..] == found.value;
    }
  }

  /** `rfind`: where the last occurrence of `pat` begins. */
  function RFind(s: string, pat: string): (r: Option<nat>)
    ensures r.Some? ==> r.value + |pat| <= |s|
  {
    if |s| < |pat| then None
    else if s[|s| - |pat|..] == pat then Some(|s| - |pat|)
    else if s == [] then None
    else RFind(s[..|s| - 1], pat)
  }

  ghost predicate OccursAt(s: string, pat: string, j: nat) {
    j + |pat| <= |s| && s[j..j + |pat|] == pat
  }

  /** `s` is `a`, `pat` and `b`, and `pat` does not occur after that. */
  ghost predicate LastSplit(s: string, pat: string, a: string, b: string) {
    s == a + pat + b && forall j: nat :: |a| < j ==> !OccursAt(s, pat, j)
  }

  lemma OccursInFront(s: string, pat: string, j: nat)
    requires pat != [] && j + |pat| < |s|
    ensures OccursAt(s, pat, j) <==> OccursAt(s[..|s| - 1], pat, j)
  {
    assert s[j..j + |pat|] == s[..|s| - 1][j..j + |pat|];
  }

  /** For every text: the last occurrence, if there is one. */
  lemma {:induction false} RFindMeaning(s: string, pat: string)
    requires pat != []
    ensures var p := RFind(s, pat);
            if p.None? then forall j: nat :: !OccursAt(s, pat, j)
            else OccursAt(s, pat, p.value) && forall j: nat :: p.value < j ==> !OccursAt(s, pat, j)
  {
    hide OccursAt;
    var n := |s| - |pat|;
    forall j: nat | j > n ensures !OccursAt(s, pat, j) {
      OccursWithin(s, pat, j);
    }
    if n >= 0 {
      OccursAtEnd(s, pat);
      if s[n..] != pat {
        RFindMeaning(s[..|s| - 1], pat);
        forall j: nat | j < n ensures OccursAt(s, pat, j) <==> OccursAt(s[..|s| - 1], pat, j) {
          OccursInFront(s, pat, j);
        }
      }
    }
  }

  lemma OccursAtEnd(s: string, pat: string)
    requires |pat| <= |s|
    ensures OccursAt(s, pat, |s| - |pat|) <==> s[|s| - |pat|..] == pat
  {
    assert s[|s| - |pat|..] == s[|s| - |pat|..|s| - |pat| + |pat|];
  }

  lemma OccursWithin(s: string, pat: string, j: nat)
    ensures OccursAt(s, pat, j) ==> j + |pat| <= |s|
  {
  }

  /** There is only one such split. */
  lemma OneLastSplit(s: string, pat: string, a: string, b: string, c: string, d: string)
    requires LastSplit(s, pat, a, b) && LastSplit(s, pat, c, d)
    ensures a == c && b == d
  {
    assert OccursAt(s, pat, |a|) && OccursAt(s, pat, |c|);
    assert a == s[..|a|] && c == s[..|c|] && b == s[|a| + |pat|..] && d == s[|c| + |pat|..];
  }
}
