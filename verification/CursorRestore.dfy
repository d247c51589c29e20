/** Substituting `$N` in a cursor's query with quoted literals. The query is given as its bytes, one
    character each, because that is what the scanner walks over and what it emits. */
module CursorRestore {
  import opened Wrappers
  import opened Sums
  import T = Text
  import opened Sorting
  import opened SqlTokens

  type Byte = b: nat | b < 256

  datatype Param = Param(index: nat, value: seq<Byte>)

  datatype Error = NotDense(index: nat, position: nat) | InvalidReference(at: nat) | OutOfRange(index: nat, have: nat)

  /** `std::str::from_utf8`: the text of a byte string, if it is one. */
  type Utf8 = seq<Byte> -> Option<string>

  const MaxUsize: nat := 0xFFFF_FFFF_FFFF_FFFF

  // ---- the table of literals -----------------------------------------------------------------

  function HexForm(value: seq<Byte>): string {
    if value == [] then "\\x"
    else
      var b := value[|value| - 1];
      HexForm(value[..|value| - 1]) + [T.DigitChar(b / 16, false), T.DigitChar(b % 16, false)]
  }

  /** What the literal of a parameter stands for. */
  function ValueText(p: Param, utf8: Utf8): string {
    var text := utf8(p.value);
    if text.Some? then text.value else HexForm(p.value)
  }

  /** A backslash, an `x`, and for each byte its two digits in base 16, the higher one first. */
  ghost predicate IsHexOf(h: string, value: seq<Byte>) {
    && |h| == 2 + 2 * |value| && h[0] == '\\' && h[1] == 'x'
    && forall k :: 0 <= k < |value| ==> T.DigitValue(h[2 * k + 2]) * 16 + T.DigitValue(h[2 * k + 3]) == value[k]
  }

  lemma {:induction false} HexFormMeaning(value: seq<Byte>)
    ensures IsHexOf(HexForm(value), value)
  {
    if value != [] {
      var n := |value| - 1;
      HexFormMeaning(value[..n]);
      assert forall k :: 0 <= k < n ==> value[..n][k] == value[k];
    }
  }

  function LiteralToken(value: string): Token {
    Quoted('\'', Doubled(value, '\''), true)
  }

  lemma PlainDoubled(s: string, c: char, q: char)
    requires c != q
    ensures Doubled(s + [c], q) == Doubled(s, q) + [c]
  {
    assert (s + [c])[..|s|] == s;
  }

  lemma NoneDoubled()
    ensures Doubled("", '\'') == ""
  {
  }

  lemma {:induction false} HexNeedsNoDoubling(value: seq<Byte>)
    ensures Doubled(HexForm(value), '\'') == HexForm(value)
  {
    hide Doubled;
    if value == [] {
      NoneDoubled();
      PlainDoubled("", '\\', '\'');
      PlainDoubled("\\", 'x', '\'');
      assert "" + "\\" == "\\" && "\\" + "x" == "\\x";
    } else {
      var front, b := HexForm(value[..|value| - 1]), value[|value| - 1];
      var high, low := T.DigitChar(b / 16, false), T.DigitChar(b % 16, false);
      HexNeedsNoDoubling(value[..|value| - 1]);
      PlainDoubled(front, high, '\'');
      PlainDoubled(front + [high], low, '\'');
      assert front + [high] + [low] == HexForm(value);
    }
  }

  /** The two loops that build a literal. */
  method QuoteLiteral(p: Param, utf8: Utf8) returns (lit: string)
    ensures lit == Text(LiteralToken(ValueText(p, utf8)))
  {
    var text := utf8(p.value);
    if text.Some? {
      var s := text.value;
      lit := "'";
      for k := 0 to |s|
        invariant lit == "'" + Doubled(s[..k], '\'')
      {
        assert s[..k + 1][..k] == s[..k];
        if s[k] == '\'' {
          lit := lit + "''";
        } else {
          lit := lit + [s[k]];
        }
      }
      assert s[..|s|] == s;
    } else {
      lit := "'" + "\\x";
      for k := 0 to |p.value|
        invariant lit == "'" + HexForm(p.value[..k])
      {
        assert p.value[..k + 1][..k] == p.value[..k];
        var b := p.value[k];
        lit := lit + [T.DigitChar(b / 16, false), T.DigitChar(b % 16, false)];
      }
      assert p.value[..|p.value|] == p.value;
      HexNeedsNoDoubling(p.value);
    }
    lit := lit + "'";
  }

  /** The double-quoted form of an identifier. */
  method QuoteIdent(name: string) returns (out: string)
    ensures Lex(out) == [Quoted('"', Doubled(name, '"'), true)]
    ensures Undoubled(Doubled(name, '"'), '"') == name
  {
    out := "\"";
    for k := 0 to |name|
      invariant out == "\"" + Doubled(name[..k], '"')
    {
      assert name[..k + 1][..k] == name[..k];
      if name[k] == '"' {
        out := out + "\"\"";
      } else {
        out := out + [name[k]];
      }
    }
    assert name[..|name|] == name;
    out := out + "\"";
    DoubledReadsBack(name, '"');
    var t := Quoted('"', Doubled(name, '"'), true);
    assert [t][1..] == [] && Render([t]) == Text(t) + "" == out;
    LexRender([t]);
  }

  // ---- parameter order -----------------------------------------------------------------------

  ghost predicate SortedByIndex(ps: seq<Param>) {
    forall i, j :: 0 <= i < j < |ps| ==> ps[i].index <= ps[j].index
  }

  predicate IndexOrder(a: Param, b: Param) {
    a.index <= b.index
  }

  /** `sort_by_key` on the index. */
  method SortByIndex(params: seq<Param>) returns (sorted: seq<Param>)
    ensures SortedByIndex(sorted) && multiset(sorted) == multiset(params)
  {
    assert TotalPreorder(IndexOrder);
    sorted := Sort(params, IndexOrder);
    assert forall i, j :: 0 <= i < j < |sorted| ==> IndexOrder(sorted[i], sorted[j]);
  }

  /** Some parameter carries each of the indices 1 to N. */
  ghost predicate Dense(params: seq<Param>) {
    forall n :: 1 <= n <= |params| ==> HasIndex(params, n)
  }

  ghost predicate HasIndex(params: seq<Param>, n: nat) {
    exists i :: 0 <= i < |params| && params[i].index == n
  }

  ghost function Below(n: nat): Param -> nat {
    (p: Param) => if p.index < n then 1 else 0
  }

  /** In ascending order of index, the parameter at place `k` (from 0) has index `n`. */
  ghost predicate HasAtPlace(params: seq<Param>, k: nat, n: nat) {
    SeqSum(params, Below(n)) <= k < SeqSum(params, Below(n + 1))
  }

  /** In ascending order, `position` (from 1) is the first at which the index is not the position, and
      `index` is the index there. */
  ghost predicate FirstGap(params: seq<Param>, index: nat, position: nat) {
    && position >= 1 && index != position && HasAtPlace(params, position - 1, index)
    && forall k: nat :: k < position - 1 ==> InPlace(params, k)
  }

  ghost predicate InPlace(params: seq<Param>, k: nat) {
    HasAtPlace(params, k, k + 1)
  }

  /** A place has one index, so there is one first gap at most. */
  lemma OneIndexAtPlace(params: seq<Param>, k: nat, m: nat, n: nat)
    requires HasAtPlace(params, k, m) && HasAtPlace(params, k, n)
    ensures m == n
  {
    if m < n {
      SeqSumLarger(params, Below(m + 1), Below(n));
    } else if n < m {
      SeqSumLarger(params, Below(n + 1), Below(m));
    }
  }

  lemma OneFirstGap(params: seq<Param>, index: nat, position: nat, index': nat, position': nat)
    requires FirstGap(params, index, position) && FirstGap(params, index', position')
    ensures index == index' && position == position'
  {
    hide HasAtPlace;
    if position < position' {
      assert InPlace(params, position - 1);
      OneIndexAtPlace(params, position - 1, index, position);
    } else if position' < position {
      assert InPlace(params, position' - 1);
      OneIndexAtPlace(params, position' - 1, index', position');
    } else {
      OneIndexAtPlace(params, position - 1, index, index');
    }
  }

  /** Sorting puts each parameter at its place. */
  lemma SortedPlaces(sorted: seq<Param>, k: nat)
    requires SortedByIndex(sorted) && k < |sorted|
    ensures HasAtPlace(sorted, k, sorted[k].index)
  {
    hide SeqSum;
    var n := sorted[k].index;
    assert sorted == sorted[..k] + sorted[k..] == sorted[..k + 1] + sorted[k + 1..];
    SeqSumConcat(sorted[..k], sorted[k..], Below(n));
    SeqSumConcat(sorted[..k + 1], sorted[k + 1..], Below(n + 1));
    SeqSumLarger(sorted[..k], Below(n), (p: Param) => 1);
    SeqSumConstant(sorted[..k], (p: Param) => 1, 1);
    SeqSumConstant(sorted[k..], Below(n), 0);
    SeqSumConstant(sorted[..k + 1], Below(n + 1), 1);
  }

  lemma {:induction false} NotBefore(sorted: seq<Param>, i: nat)
    requires SortedByIndex(sorted) && Dense(sorted)
    requires i < |sorted| && 1 <= sorted[i].index <= |sorted|
    ensures i >= sorted[i].index - 1
    decreases sorted[i].index
  {
    if sorted[i].index > 1 {
      assert HasIndex(sorted, sorted[i].index - 1);
      var j :| 0 <= j < |sorted| && sorted[j].index == sorted[i].index - 1;
      NotBefore(sorted, j);
    }
  }

  lemma {:induction false} NotAfter(sorted: seq<Param>, i: nat)
    requires SortedByIndex(sorted) && Dense(sorted)
    requires i < |sorted| && 1 <= sorted[i].index <= |sorted|
    ensures i <= sorted[i].index - 1
    decreases |sorted| - sorted[i].index
  {
    if sorted[i].index < |sorted| {
      assert HasIndex(sorted, sorted[i].index + 1);
      var j :| 0 <= j < |sorted| && sorted[j].index == sorted[i].index + 1;
      NotAfter(sorted, j);
    }
  }

  /** Sorted parameters are dense exactly when position and index agree everywhere. */
  lemma DenseInOrder(sorted: seq<Param>)
    requires SortedByIndex(sorted)
    ensures Dense(sorted) <==> forall i :: 0 <= i < |sorted| ==> sorted[i].index == i + 1
  {
    if Dense(sorted) {
      forall i | 0 <= i < |sorted| ensures sorted[i].index == i + 1 {
        assert HasIndex(sorted, i + 1);
        var j :| 0 <= j < |sorted| && sorted[j].index == i + 1;
        NotBefore(sorted, j);
        NotAfter(sorted, j);
      }
    }
    if forall i :: 0 <= i < |sorted| ==> sorted[i].index == i + 1 {
      forall n | 1 <= n <= |sorted| ensures HasIndex(sorted, n) {
        assert sorted[n - 1].index == n;
      }
    }
  }

  lemma DensePermutes(a: seq<Param>, b: seq<Param>)
    requires multiset(a) == multiset(b)
    ensures Dense(a) ==> Dense(b)
  {
    assert |a| == |multiset(a)| == |multiset(b)| == |b|;
    if Dense(a) {
      forall n | 1 <= n <= |b| ensures HasIndex(b, n) {
        assert HasIndex(a, n);
        var i :| 0 <= i < |a| && a[i].index == n;
        assert a[i] in multiset(b);
      }
    }
  }

  lemma GapFound(sorted: seq<Param>, params: seq<Param>, i: nat)
    requires SortedByIndex(sorted) && multiset(sorted) == multiset(params)
    requires i < |sorted| && sorted[i].index != i + 1 && forall k :: 0 <= k < i ==> sorted[k].index == k + 1
    ensures FirstGap(params, sorted[i].index, i + 1)
  {
    hide SeqSum;
    forall n: nat ensures SeqSum(sorted, Below(n)) == SeqSum(params, Below(n)) {
      SeqSumPermutes(sorted, params, Below(n));
    }
    forall k: nat | k < |sorted| ensures HasAtPlace(params, k, sorted[k].index) {
      SortedPlaces(sorted, k);
    }
    forall k: nat | k < i ensures InPlace(params, k) {
      assert HasAtPlace(params, k, sorted[k].index);
    }
  }

  /** `values[n - 1]` is the text of the parameter with index `n`. */
  ghost predicate TableOf(params: seq<Param>, utf8: Utf8, values: seq<string>) {
    && |values| == |params|
    && forall i :: 0 <= i < |params| ==>
         1 <= params[i].index <= |values| && values[params[i].index - 1] == ValueText(params[i], utf8)
  }

  method BuildTable(params: seq<Param>, utf8: Utf8) returns (r: Result<seq<string>, Error>, ghost values: seq<string>)
    ensures r.Ok? <==> Dense(params)
    ensures r.Err? ==> r.error.NotDense? && FirstGap(params, r.error.index, r.error.position)
    ensures r.Ok? ==> TableOf(params, utf8, values) && Printed(r.value, values)
  {
    hide Text, Doubled, HexForm, ValueText;
    values := [];
    var sorted := SortByIndex(params);
    DenseInOrder(sorted);
    DensePermutes(sorted, params);
    DensePermutes(params, sorted);
    for i := 0 to |sorted|
      invariant forall k :: 0 <= k < i ==> sorted[k].index == k + 1
    {
      if sorted[i].index != i + 1 {
        GapFound(sorted, params, i);
        return Err(NotDense(sorted[i].index, i + 1)), values;
      }
    }
    var literals := [];
    for i := 0 to |sorted|
      invariant |literals| == |values| == i
      invariant forall k :: 0 <= k < i ==> values[k] == ValueText(sorted[k], utf8)
      invariant forall k :: 0 <= k < i ==> literals[k] == Text(LiteralToken(values[k]))
    {
      var lit := QuoteLiteral(sorted[i], utf8);
      literals, values := literals + [lit], values + [ValueText(sorted[i], utf8)];
    }
    assert |sorted| == |multiset(sorted)| == |multiset(params)| == |params|;
    forall i | 0 <= i < |params|
      ensures 1 <= params[i].index <= |values| && values[params[i].index - 1] == ValueText(params[i], utf8)
    {
      assert params[i] in multiset(sorted);
    }
    r := Ok(literals);
  }

  // ---- substitution on tokens ----------------------------------------------------------------

  /** The number a placeholder names, if it names one of the parameters. */
  function Reference(digits: string, have: nat, at: nat): (r: Result<nat, Error>)
    ensures r.Ok? ==> T.ParseDigits(T.Unsigned(digits), 10) == Some(r.value) && 1 <= r.value <= have
    ensures r.Err? ==>
              match r.error
              case OutOfRange(n, count) =>
                count == have && T.ParseDigits(T.Unsigned(digits), 10) == Some(n) && (n == 0 || n > have)
              case InvalidReference(where_) => where_ == at && !ReadsWithin(T.Unsigned(digits), MaxUsize)
              case NotDense(_, _) => false
  {
    var n := T.ParseNat(digits, 10, MaxUsize);
    if n.None? then Err(InvalidReference(at))
    else if n.value == 0 || n.value > have then Err(OutOfRange(n.value, have))
    else Ok(n.value)
  }

  /** The digits, in base 10, are a number that is not above `max`. */
  predicate ReadsWithin(digits: string, max: nat) {
    var n := T.ParseDigits(digits, 10);
    digits != [] && n.Some? && n.value <= max
  }

  predicate Resolves(t: Token, have: nat) {
    t.Placeholder? ==> Reference(t.digits, have, 0).Ok?
  }

  function Substitute(t: Token, values: seq<string>): Token
    requires Resolves(t, |values|)
  {
    if t.Placeholder? then LiteralToken(values[Reference(t.digits, |values|, 0).value - 1]) else t
  }

  ghost predicate AllResolve(ts: seq<Token>, have: nat) {
    forall k :: 0 <= k < |ts| ==> Resolves(ts[k], have)
  }

  /** Each placeholder becomes one string token; every other token stays as it is. */
  ghost function SubstituteAll(ts: seq<Token>, values: seq<string>): seq<Token>
    requires AllResolve(ts, |values|)
  {
    seq(|ts|, k requires 0 <= k < |ts| => Substitute(ts[k], values))
  }

  lemma SubstituteTail(ts: seq<Token>, values: seq<string>)
    requires ts != [] && AllResolve(ts, |values|)
    ensures SubstituteAll(ts, values) == [Substitute(ts[0], values)] + SubstituteAll(ts[1..], values)
  {
  }

  /** A token whose neighbours must not be string tokens after substitution. */
  predicate Sticky(t: Token) {
    t.Placeholder? || (t.Quoted? && t.quote == '\'')
  }

  /** No placeholder touches a single-quoted region or another placeholder. */
  ghost predicate NoTouch(ts: seq<Token>) {
    forall k :: 0 <= k < |ts| - 1 && (ts[k].Placeholder? || ts[k + 1].Placeholder?) ==>
      !Sticky(ts[k]) || !Sticky(ts[k + 1])
  }

  /** The text after substitution starts as before, except that a placeholder now starts with a quote. */
  lemma RenderStarts(ts: seq<Token>, values: seq<string>)
    requires ts != [] && Canonical(ts) && AllResolve(ts, |values|)
    ensures Render(ts) != [] && Render(SubstituteAll(ts, values)) != []
    ensures Render(ts)[0] == '\'' <==> Sticky(ts[0]) && !ts[0].Placeholder?
    ensures Render(SubstituteAll(ts, values))[0] == if ts[0].Placeholder? then '\'' else Render(ts)[0]
  {
    SubstituteTail(ts, values);
  }

  lemma FitsAfter(t: Token, rest: seq<Token>, values: seq<string>)
    requires WellFormed(t) && Fits(t, Render(rest)) && Canonical(rest)
    requires Resolves(t, |values|) && AllResolve(rest, |values|)
    ensures Fits(Substitute(t, values), Render(SubstituteAll(rest, values)))
       <==> (rest != [] && (t.Placeholder? || rest[0].Placeholder?) ==> !Sticky(t) || !Sticky(rest[0]))
  {
    if rest == [] {
      assert SubstituteAll(rest, values) == [];
    } else {
      RenderStarts(rest, values);
    }
  }

  lemma {:induction false} CanonicalAfter(ts: seq<Token>, values: seq<string>)
    requires Canonical(ts) && AllResolve(ts, |values|)
    ensures Canonical(SubstituteAll(ts, values)) <==> NoTouch(ts)
  {
    if ts == [] {
      assert SubstituteAll(ts, values) == [];
    } else {
      var t, rest := ts[0], ts[1..];
      SubstituteTail(ts, values);
      FitsAfter(t, rest, values);
      CanonicalAfter(rest, values);
      if t.Placeholder? {
        DoubledReadsBack(values[Reference(t.digits, |values|, 0).value - 1], '\'');
      }
      assert SubstituteAll(ts, values)[1..] == SubstituteAll(rest, values);
      NoTouchTail(ts);
    }
  }

  lemma NoTouchTail(ts: seq<Token>)
    requires ts != []
    ensures NoTouch(ts) <==>
            NoTouch(ts[1..])
            && (|ts| > 1 && (ts[0].Placeholder? || ts[1].Placeholder?) ==> !Sticky(ts[0]) || !Sticky(ts[1]))
  {
    var rest := ts[1..];
    if NoTouch(ts) {
      forall k | 0 <= k < |rest| - 1 && (rest[k].Placeholder? || rest[k + 1].Placeholder?)
        ensures !Sticky(rest[k]) || !Sticky(rest[k + 1])
      {
        assert rest[k] == ts[k + 1] && rest[k + 1] == ts[k + 1 + 1];
      }
    }
    if NoTouch(rest) {
      forall k | 1 <= k < |ts| - 1 && (ts[k].Placeholder? || ts[k + 1].Placeholder?)
        ensures !Sticky(ts[k]) || !Sticky(ts[k + 1])
      {
        assert ts[k] == rest[k - 1] && ts[k + 1] == rest[k - 1 + 1];
      }
    }
  }

  /** Scanning the output again gives the query's tokens with each placeholder replaced by one string
      token, exactly when no placeholder touches a single quote or another placeholder. */
  lemma RescanAfterSubstitution(query: string, values: seq<string>)
    requires AllResolve(Lex(query), |values|)
    ensures var ts := Lex(query);
            Lex(Render(SubstituteAll(ts, values))) == SubstituteAll(ts, values) <==> NoTouch(ts)
  {
    LexCanonical(query);
    RescanIff(SubstituteAll(Lex(query), values));
    CanonicalAfter(Lex(query), values);
  }

  /** And each such token reads as the parameter's value. */
  lemma TokenReadsAsValue(t: Token, values: seq<string>)
    requires t.Placeholder? && Resolves(t, |values|)
    ensures var n := Reference(t.digits, |values|, 0).value;
            var s := Substitute(t, values);
            s.Quoted? && s.quote == '\'' && s.closed && Undoubled(s.body, '\'') == values[n - 1]
  {
    DoubledReadsBack(values[Reference(t.digits, |values|, 0).value - 1], '\'');
  }

  lemma LexSingle(t: Token)
    requires WellFormed(t)
    ensures Lex(Text(t)) == [t]
  {
    assert [t][1..] == [] && Render([t]) == Text(t) + [] == Text(t);
    LexRender([t]);
  }

  /** Where the condition fails, so does the property: with `a` for `$1`, the two string tokens that
      `$1$1` should give are scanned as one. */
  lemma TouchingMerges()
    ensures Lex("$1$1") == [Placeholder("1"), Placeholder("1")]
    ensures Lex(Text(LiteralToken("a")) + Text(LiteralToken("a"))) == [Quoted('\'', "a''a", true)]
  {
    hide Lex;
    LexPair(Placeholder("1"), Placeholder("1"));
    assert Text(Placeholder("1")) + Text(Placeholder("1")) == "$1$1";
    MergedIsPaired();
    LexSingle(Quoted('\'', "a''a", true));
    assert Text(LiteralToken("a")) + Text(LiteralToken("a")) == Text(Quoted('\'', "a''a", true));
  }

  lemma MergedIsPaired()
    ensures Paired("a''a", '\'') && Doubled("a", '\'') == "a"
  {
    var body := "a''a";
    assert body[1..] == "''a" && body[1..][2..] == "a" && body[1..][2..][1..] == "";
    assert "a"[..0] == "";
  }

  lemma LexPair(t: Token, u: Token)
    requires WellFormed(t) && WellFormed(u) && Fits(t, Text(u))
    ensures Lex(Text(t) + Text(u)) == [t, u]
  {
    FirstOf(t, Text(u));
    LexSingle(u);
    FirstIsPrefix(Text(t) + Text(u));
    assert (Text(t) + Text(u))[|Text(t)|..] == Text(u);
  }

  // ---- the scanner ---------------------------------------------------------------------------

  /** What to put in place of the placeholder with these digits at this position. */
  type Lookup = (string, nat) -> Result<string, Error>

  function LookupIn(literals: seq<string>): Lookup {
    (digits: string, at: nat) =>
      var ref := Reference(digits, |literals|, at);
      if ref.Err? then Err(ref.error) else Ok(literals[ref.value - 1])
  }

  function Joined(p: Result<string, Error>, r: Result<string, Error>): Result<string, Error> {
    if p.Err? then p else if r.Err? then r else Ok(p.value + r.value)
  }

  function Emit(t: Token, at: nat, lookup: Lookup): Result<string, Error> {
    if t.Placeholder? then lookup(t.digits, at) else Ok(Text(t))
  }

  /** What the scanner should emit from `s` on, outside of quotes; `at` is the position of `s`. */
  function Expand(s: string, at: nat, lookup: Lookup): Result<string, Error>
    decreases |s|
  {
    if s == [] then Ok([])
    else
      FirstIsPrefix(s);
      var n := |Text(First(s))|;
      Joined(Emit(First(s), at, lookup), Expand(s[n..], at + n, lookup))
  }

  /** The same inside a region quoted by `q`. */
  function ExpandInside(s: string, at: nat, q: char, lookup: Lookup): Result<string, Error> {
    var n := BodyLen(s, q);
    if n < |s| then Joined(Ok(s[..n + 1]), Expand(s[n + 1..], at + n + 1, lookup)) else Ok(s)
  }

  lemma JoinedTwice(p: string, q: string, r: Result<string, Error>)
    ensures Joined(Ok(p), Joined(Ok(q), r)) == Joined(Ok(p + q), r)
  {
    if r.Ok? {
      assert p + (q + r.value) == p + q + r.value;
    }
  }

  lemma JoinedEmpty(r: Result<string, Error>)
    ensures Joined(Ok(""), r) == r
  {
    if r.Ok? {
      assert "" + r.value == r.value;
    }
  }

  lemma ExpandEmpty(at: nat, lookup: Lookup)
    ensures Expand([], at, lookup) == Ok([])
  {
  }

  lemma ExpandFirst(s: string, at: nat, lookup: Lookup)
    requires s != []
    ensures var n := |Text(First(s))|;
            && n <= |s|
            && Expand(s, at, lookup) == Joined(Emit(First(s), at, lookup), Expand(s[n..], at + n, lookup))
  {
    hide First, Text, Emit, Joined;
    FirstIsPrefix(s);
  }

  /** One token at a time. */
  lemma ExpandToken(s: string, at: nat, lookup: Lookup, t: Token, rest: string)
    requires WellFormed(t) && Fits(t, rest) && s == Text(t) + rest
    ensures Expand(s, at, lookup) == Joined(Emit(t, at, lookup), Expand(rest, at + |Text(t)|, lookup))
  {
    hide Emit, Expand, First, Text, WellFormed, Fits, Joined, Paired, BodyLen, DigitsLen, IsDigit, IsQuote;
    FirstOf(t, rest);
    ExpandFirst(s, at, lookup);
    assert s[|Text(t)|..] == rest;
  }

  lemma ExpandQuote(s: string, at: nat, lookup: Lookup)
    requires s != [] && IsQuote(s[0])
    ensures Expand(s, at, lookup) == Joined(Ok([s[0]]), ExpandInside(s[1..], at + 1, s[0], lookup))
  {
    hide Expand, BodyLen, Paired;
    var q, inside := s[0], s[1..];
    var n := BodyLen(inside, q);
    assert s == [q] + inside;
    BodyIsPaired(inside, q);
    if n < |inside| {
      ExpandClosed(q, inside, n, at, lookup);
    } else {
      var t := Quoted(q, inside, false);
      assert inside[..n] == inside && s == Text(t) + [];
      ExpandToken(s, at, lookup, t, []);
      ExpandEmpty(at + |Text(t)|, lookup);
      assert Text(t) + [] == s;
    }
  }

  lemma ExpandClosed(q: char, inside: string, n: nat, at: nat, lookup: Lookup)
    requires IsQuote(q) && n == BodyLen(inside, q) < |inside| && Paired(inside[..n], q)
    ensures Expand([q] + inside, at, lookup) == Joined(Ok([q]), ExpandInside(inside, at + 1, q, lookup))
  {
    hide Expand, BodyLen, Paired;
    var t, rest := Quoted(q, inside[..n], true), inside[n + 1..];
    assert inside == inside[..n] + [q] + rest;
    assert [q] + inside == Text(t) + rest;
    ExpandToken([q] + inside, at, lookup, t, rest);
    assert Text(t) == [q] + inside[..n + 1];
    JoinedTwice([q], inside[..n + 1], Expand(rest, at + n + 2, lookup));
  }

  /** One move of the scanner inside a quoted region consumes `k` characters and stays inside. */
  lemma StayInside(s: string, k: nat, n: nat, at: nat, q: char, lookup: Lookup)
    requires k <= n == BodyLen(s, q) && BodyLen(s[k..], q) == n - k
    ensures ExpandInside(s, at, q, lookup) == Joined(Ok(s[..k]), ExpandInside(s[k..], at + k, q, lookup))
  {
    hide Expand, BodyLen;
    var r := s[k..];
    if n < |s| {
      assert s[n + 1..] == r[n - k + 1..];
      assert s[..n + 1] == s[..k] + r[..n - k + 1];
      JoinedTwice(s[..k], r[..n - k + 1], Expand(s[n + 1..], at + n + 1, lookup));
    } else {
      assert s == s[..k] + r;
    }
  }

  lemma InsideOther(s: string, at: nat, q: char, lookup: Lookup)
    requires s != [] && s[0] != q
    ensures ExpandInside(s, at, q, lookup) == Joined(Ok([s[0]]), ExpandInside(s[1..], at + 1, q, lookup))
  {
    hide Expand;
    StayInside(s, 1, BodyLen(s, q), at, q, lookup);
    assert s[..1] == [s[0]];
  }

  lemma InsideDoubled(s: string, at: nat, q: char, lookup: Lookup)
    requires |s| > 1 && s[0] == s[1] == q
    ensures ExpandInside(s, at, q, lookup) == Joined(Ok([q, q]), ExpandInside(s[2..], at + 2, q, lookup))
  {
    hide Expand;
    StayInside(s, 2, BodyLen(s, q), at, q, lookup);
    assert s[..2] == [q, q];
  }

  lemma InsideEnd(s: string, at: nat, q: char, lookup: Lookup)
    requires s != [] && s[0] == q && !(|s| > 1 && s[1] == q)
    ensures ExpandInside(s, at, q, lookup) == Joined(Ok([q]), Expand(s[1..], at + 1, lookup))
  {
    hide Expand;
    assert s[..1] == [q];
  }

  lemma ResolveCons(t: Token, rest: seq<Token>, have: nat)
    ensures AllResolve([t] + rest, have) <==> Resolves(t, have) && AllResolve(rest, have)
  {
    var ts := [t] + rest;
    assert ts[0] == t && forall k :: 0 <= k < |rest| ==> rest[k] == ts[k + 1];
  }

  /** The literals are the printed tokens of the values. */
  ghost predicate Printed(literals: seq<string>, values: seq<string>) {
    |literals| == |values| && forall k :: 0 <= k < |values| ==> literals[k] == Text(LiteralToken(values[k]))
  }

  lemma EmitMeaning(t: Token, at: nat, literals: seq<string>, values: seq<string>)
    requires Printed(literals, values)
    ensures Emit(t, at, LookupIn(literals)).Ok? <==> Resolves(t, |values|)
    ensures Resolves(t, |values|) ==> Emit(t, at, LookupIn(literals)) == Ok(Text(Substitute(t, values)))
  {
  }

  lemma {:induction false} ExpandMeaning(s: string, at: nat, literals: seq<string>, values: seq<string>)
    requires Printed(literals, values)
    ensures Expand(s, at, LookupIn(literals)).Ok? <==> AllResolve(Lex(s), |values|)
    ensures AllResolve(Lex(s), |values|) ==>
              Expand(s, at, LookupIn(literals)) == Ok(Render(SubstituteAll(Lex(s), values)))
    decreases |s|
  {
    hide First, Emit, Reference, Resolves, Substitute, Text;
    if s == [] {
      assert AllResolve(Lex(s), |values|) && SubstituteAll(Lex(s), values) == [];
    } else {
      FirstIsPrefix(s);
      var t, n := First(s), |Text(First(s))|;
      var rest := Lex(s[n..]);
      ExpandMeaning(s[n..], at + n, literals, values);
      EmitMeaning(t, at, literals, values);
      ResolveCons(t, rest, |values|);
      if Resolves(t, |values|) && AllResolve(rest, |values|) {
        SubstituteTail([t] + rest, values);
        assert ([t] + rest)[1..] == rest;
        RenderCons(Substitute(t, values), SubstituteAll(rest, values));
      }
    }
  }

  /** `e` is the complaint about the first placeholder that names no parameter, wherever it stands. */
  ghost predicate FirstBad(ts: seq<Token>, have: nat, at: nat, e: Error) {
    exists k :: 0 <= k < |ts| && BadAt(ts, k, have, at, e)
  }

  ghost predicate BadAt(ts: seq<Token>, k: nat, have: nat, at: nat, e: Error)
    requires k < |ts|
  {
    && ts[k].Placeholder? && AllResolve(ts[..k], have)
    && Reference(ts[k].digits, have, at + |Render(ts[..k])|) == Err(e)
  }

  lemma BadLater(t: Token, rest: seq<Token>, k: nat, have: nat, at: nat, e: Error)
    requires Resolves(t, have) && k < |rest| && BadAt(rest, k, have, at + |Text(t)|, e)
    ensures BadAt([t] + rest, k + 1, have, at, e)
  {
    hide Reference, Text, Resolves;
    assert ([t] + rest)[..k + 1] == [t] + rest[..k];
    ResolveCons(t, rest[..k], have);
    RenderCons(t, rest[..k]);
  }

  lemma {:induction false} ExpandError(s: string, at: nat, literals: seq<string>)
    requires Expand(s, at, LookupIn(literals)).Err?
    ensures FirstBad(Lex(s), |literals|, at, Expand(s, at, LookupIn(literals)).error)
    decreases |s|
  {
    hide First, Reference, Text, Render;
    FirstIsPrefix(s);
    var t, n, have := First(s), |Text(First(s))|, |literals|;
    var rest, e := Lex(s[n..]), Expand(s, at, LookupIn(literals)).error;
    if Emit(t, at, LookupIn(literals)).Err? {
      assert ([t] + rest)[..0] == [];
      LexNothing();
      assert BadAt([t] + rest, 0, have, at, e);
    } else {
      ExpandError(s[n..], at + n, literals);
      var k :| 0 <= k < |rest| && BadAt(rest, k, have, at + n, e);
      assert Resolves(t, have) by {
        EmitResolves(t, at, literals);
      }
      BadLater(t, rest, k, have, at, e);
    }
  }

  lemma EmitResolves(t: Token, at: nat, literals: seq<string>)
    requires Emit(t, at, LookupIn(literals)).Ok?
    ensures Resolves(t, |literals|)
  {
  }

  /** The digits after a `$` at position `i`. */
  method ScanDigits(bytes: string, i: nat) returns (j: nat)
    requires i < |bytes|
    ensures j == i + 1 + DigitsLen(bytes[i + 1..])
  {
    j := i + 1;
    while j < |bytes| && IsDigit(bytes[j])
      invariant i + 1 <= j <= |bytes|
      invariant DigitsLen(bytes[i + 1..]) == j - i - 1 + DigitsLen(bytes[j..])
    {
      assert bytes[j..][1..] == bytes[j + 1..];
      j := j + 1;
    }
  }

  /** Where the scanner stands: what it has emitted, followed by what it should still emit. */
  ghost function Pending(bytes: string, i: nat, inString: bool, quote: char, lookup: Lookup): Result<string, Error>
    requires i <= |bytes|
  {
    if inString then ExpandInside(bytes[i..], i, quote, lookup) else Expand(bytes[i..], i, lookup)
  }

  lemma NothingPending(bytes: string, inString: bool, quote: char, lookup: Lookup)
    ensures Pending(bytes, |bytes|, inString, quote, lookup) == Ok("")
  {
    assert bytes[|bytes|..] == [];
  }

  /** The scanner loop of `interpolate_cursor_params`. */
  method Scan(bytes: string, literals: seq<string>) returns (r: Result<string, Error>)
    ensures r == Expand(bytes, 0, LookupIn(literals))
  {
    hide Expand, ExpandInside, BodyLen, DigitsLen, T.ParseNat;
    ghost var lookup := LookupIn(literals);
    var out, i, inString, quote := "", 0, false, '\'';
    assert bytes[0..] == bytes;
    JoinedEmpty(Expand(bytes, 0, lookup));
    while i < |bytes|
      invariant 0 <= i <= |bytes|
      invariant Expand(bytes, 0, lookup) == Joined(Ok(out), Pending(bytes, i, inString, quote, lookup))
    {
      var b := bytes[i];
      ghost var rest, was := bytes[i..], out;
      assert bytes[i + 1..] == rest[1..];
      if inString {
        out := out + [b];
        if b == quote {
          if i + 1 < |bytes| && bytes[i + 1] == quote {
            assert bytes[i + 2..] == rest[2..];
            InsideDoubled(rest, i, quote, lookup);
            JoinedTwice(was, [quote, quote], Pending(bytes, i + 2, true, quote, lookup));
            out := out + [quote];
            assert out == was + [quote, quote];
            i := i + 2;
            continue;
          }
          inString := false;
          InsideEnd(rest, i, quote, lookup);
        } else {
          InsideOther(rest, i, quote, lookup);
        }
        i := i + 1;
        JoinedTwice(was, [b], Pending(bytes, i, inString, quote, lookup));
        continue;
      }
      if b == '\'' || b == '"' {
        ExpandQuote(rest, i, lookup);
        inString, quote, out := true, b, out + [b];
        i := i + 1;
        JoinedTwice(was, [b], Pending(bytes, i, true, quote, lookup));
        continue;
      }
      if b == '$' && i + 1 < |bytes| && IsDigit(bytes[i + 1]) {
        var j := ScanDigits(bytes, i);
        var digits := bytes[i + 1..j];
        PlaceholderAt(rest, i, lookup);
        assert digits == rest[1..j - i] && bytes[j..] == rest[j - i..];
        var ref := Reference(digits, |literals|, i);
        if ref.Err? {
          return Err(ref.error);
        }
        JoinedTwice(was, literals[ref.value - 1], Pending(bytes, j, false, quote, lookup));
        out := out + literals[ref.value - 1];
        i := j;
        continue;
      }
      PlainAt(rest, i, lookup);
      out := out + [b];
      i := i + 1;
      JoinedTwice(was, [b], Pending(bytes, i, false, quote, lookup));
    }
    NothingPending(bytes, inString, quote, lookup);
    assert out + "" == out;
    r := Ok(out);
  }

  lemma PlaceholderAt(s: string, at: nat, lookup: Lookup)
    requires |s| > 1 && s[0] == '$' && IsDigit(s[1])
    ensures var n := DigitsLen(s[1..]) + 1;
            Expand(s, at, lookup) == Joined(lookup(s[1..n], at), Expand(s[n..], at + n, lookup))
  {
    hide Expand, Joined, DigitsLen;
    var n := DigitsLen(s[1..]) + 1;
    assert s == "$" + s[1..n] + s[n..];
    assert forall k :: 0 <= k < n - 1 ==> s[1..n][k] == s[1..][k];
    assert n < |s| ==> s[n] == s[1..][n - 1];
    ExpandToken(s, at, lookup, Placeholder(s[1..n]), s[n..]);
  }

  lemma PlainAt(s: string, at: nat, lookup: Lookup)
    requires s != [] && !IsQuote(s[0]) && !(s[0] == '$' && |s| > 1 && IsDigit(s[1]))
    ensures Expand(s, at, lookup) == Joined(Ok([s[0]]), Expand(s[1..], at + 1, lookup))
  {
    hide Expand;
    assert s == [s[0]] + s[1..];
    ExpandToken(s, at, lookup, Plain(s[0]), s[1..]);
  }

  /** What a parameter's literal must stand for: its text if it is UTF-8, its bytes in base 16 otherwise. */
  ghost predicate TextOf(p: Param, utf8: Utf8, text: string) {
    var decoded := utf8(p.value);
    if decoded.Some? then text == decoded.value else IsHexOf(text, p.value)
  }

  /** The token is a complete string literal for the parameter. */
  ghost predicate StandsFor(t: Token, p: Param, utf8: Utf8) {
    t.Quoted? && t.quote == '\'' && t.closed && TextOf(p, utf8, Undoubled(t.body, '\''))
  }

  /** The tokens of the output: a placeholder whose digits read in base 10 as the index of a parameter becomes
      the literal of that parameter, and every other token stays. */
  ghost predicate Substituted(ts: seq<Token>, out: seq<Token>, params: seq<Param>, utf8: Utf8) {
    && |out| == |ts|
    && forall k :: 0 <= k < |ts| ==>
         if ts[k].Placeholder? then
           exists p :: p in params && T.ParseDigits(ts[k].digits, 10) == Some(p.index) && StandsFor(out[k], p, utf8)
         else out[k] == ts[k]
  }

  lemma PlaceholderDigits(t: Token)
    requires t.Placeholder? && WellFormed(t)
    ensures T.Unsigned(t.digits) == t.digits
  {
  }

  lemma {:induction false} CanonicalTokens(ts: seq<Token>, k: nat)
    requires Canonical(ts) && k < |ts|
    ensures WellFormed(ts[k])
  {
    if k > 0 {
      CanonicalTokens(ts[1..], k - 1);
    }
  }

  lemma SubstituteMeaning(t: Token, params: seq<Param>, utf8: Utf8, values: seq<string>)
    requires t.Placeholder? && WellFormed(t) && Resolves(t, |values|) && TableOf(params, utf8, values) && Dense(params)
    ensures exists p :: p in params && T.ParseDigits(t.digits, 10) == Some(p.index)
                        && StandsFor(Substitute(t, values), p, utf8)
  {
    hide T.ParseNat, T.ParseDigits, HexForm, Doubled, Undoubled;
    PlaceholderDigits(t);
    var n := Reference(t.digits, |values|, 0).value;
    assert HasIndex(params, n);
    var i :| 0 <= i < |params| && params[i].index == n;
    DoubledReadsBack(values[n - 1], '\'');
    HexFormMeaning(params[i].value);
    assert params[i] in params && StandsFor(Substitute(t, values), params[i], utf8);
  }

  lemma SubstitutedAll(ts: seq<Token>, params: seq<Param>, utf8: Utf8, values: seq<string>)
    requires Canonical(ts) && AllResolve(ts, |values|) && TableOf(params, utf8, values) && Dense(params)
    ensures Substituted(ts, SubstituteAll(ts, values), params, utf8)
  {
    hide Canonical, StandsFor, T.ParseDigits, Dense, TableOf;
    var out := SubstituteAll(ts, values);
    forall k | 0 <= k < |ts| && ts[k].Placeholder?
      ensures exists p :: p in params && T.ParseDigits(ts[k].digits, 10) == Some(p.index) && StandsFor(out[k], p, utf8)
    {
      CanonicalTokens(ts, k);
      SubstituteMeaning(ts[k], params, utf8, values);
    }
  }

  /** So `$n`, printed in base 10, is a placeholder that names the parameter with index `n`. */
  lemma NumberedPlaceholder(n: nat)
    ensures var digits := T.PrintNat(n, 10, false);
            Lex("$" + digits) == [Placeholder(digits)] && T.ParseDigits(digits, 10) == Some(n)
  {
    hide Lex, T.ParseDigits, T.PrintNat;
    var digits := T.PrintNat(n, 10, false);
    T.ParsePrintDigits(n, 10, false);
    T.ParseDigitsIff(digits, 10);
    assert forall k :: 0 <= k < |digits| ==> digits[k] in digits;
    LexSingle(Placeholder(digits));
  }

  /** `interpolate_cursor_params`: succeeds exactly when the parameters are dense and every placeholder
      names one, and then prints the query's tokens with the placeholders substituted. */
  method InterpolateCursorParams(bytes: string, params: seq<Param>, utf8: Utf8)
    returns (r: Result<string, Error>, ghost out: seq<Token>)
    ensures r.Ok? <==> Dense(params) && AllResolve(Lex(bytes), |params|)
    ensures r.Ok? ==> r.value == Render(out) && Substituted(Lex(bytes), out, params, utf8)
    ensures r.Ok? ==> (Lex(r.value) == out <==> NoTouch(Lex(bytes)))
    ensures r.Err? && !Dense(params) ==> r.error.NotDense? && FirstGap(params, r.error.index, r.error.position)
    ensures r.Err? && Dense(params) ==> FirstBad(Lex(bytes), |params|, 0, r.error)
  {
    hide Expand, Lex, Render, Substituted, NoTouch, FirstGap, FirstBad, AllResolve, Dense;
    var table;
    ghost var values;
    table, values := BuildTable(params, utf8);
    out := [];
    if table.Err? {
      return Err(table.error), out;
    }
    ExpandMeaning(bytes, 0, table.value, values);
    r := Scan(bytes, table.value);
    if r.Err? {
      ExpandError(bytes, 0, table.value);
    } else {
      out := SubstituteAll(Lex(bytes), values);
      LexCanonical(bytes);
      SubstitutedAll(Lex(bytes), params, utf8, values);
      RescanAfterSubstitution(bytes, values);
    }
  }
}
