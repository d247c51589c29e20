/** The quote rules of the cursor query scanner, as a tokenizer. A token sequence survives printing
    and re-scanning exactly when it is canonical. */
module SqlTokens {

  /** `body` is the raw text between the quotes, doubled quotes included. */
  datatype Token =
    | Quoted(quote: char, body: string, closed: bool)
    | Placeholder(digits: string)
    | Plain(c: char)

  predicate IsQuote(c: char) {
    c == '\'' || c == '"'
  }

  predicate IsDigit(c: char) {
    '0' <= c <= '9'
  }

  function Text(t: Token): (s: string)
    ensures t.Quoted? || t.Plain? ==> s != []
  {
    match t
    case Quoted(q, body, closed) => [q] + body + if closed then [q] else []
    case Placeholder(digits) => "$" + digits
    case Plain(c) => [c]
  }

  function Render(ts: seq<Token>): string {
    if ts == [] then [] else Text(ts[0]) + Render(ts[1..])
  }

  // ---- scanning ------------------------------------------------------------------------------

  /** How far a quoted region extends: up to a quote that is not doubled, or to the end. */
  function BodyLen(s: string, q: char): (n: nat)
    ensures n <= |s|
    ensures n < |s| ==> s[n] == q && !(n + 1 < |s| && s[n + 1] == q)
  {
    if s == [] then 0
    else if s[0] != q then 1 + BodyLen(s[1..], q)
    else if |s| > 1 && s[1] == q then 2 + BodyLen(s[2..], q)
    else 0
  }

  function DigitsLen(s: string): (n: nat)
    ensures n <= |s|
    ensures forall k :: 0 <= k < n ==> IsDigit(s[k])
    ensures n < |s| ==> !IsDigit(s[n])
  {
    if s == [] || !IsDigit(s[0]) then 0 else 1 + DigitsLen(s[1..])
  }

  function First(s: string): Token
    requires s != []
  {
    if IsQuote(s[0]) then
      var n := BodyLen(s[1..], s[0]);
      Quoted(s[0], s[1..n + 1], n + 1 < |s|)
    else if s[0] == '$' && |s| > 1 && IsDigit(s[1]) then Placeholder(s[1..DigitsLen(s[1..]) + 1])
    else Plain(s[0])
  }

  lemma FirstIsPrefix(s: string)
    requires s != []
    ensures 0 < |Text(First(s))| <= |s|
    ensures s[..|Text(First(s))|] == Text(First(s))
  {
    hide BodyLen, DigitsLen;
    if IsQuote(s[0]) {
      var n := BodyLen(s[1..], s[0]);
      if n + 1 < |s| {
        assert s[1..][n] == s[n + 1];
        assert s[..n + 2] == [s[0]] + s[1..n + 1] + [s[n + 1]];
      } else {
        assert s == [s[0]] + s[1..];
      }
    } else if s[0] == '$' && |s| > 1 && IsDigit(s[1]) {
      var n := DigitsLen(s[1..]);
      assert s[..n + 1] == [s[0]] + s[1..n + 1];
    }
  }

  function Lex(s: string): seq<Token> {
    if s == [] then []
    else
      FirstIsPrefix(s);
      [First(s)] + Lex(s[|Text(First(s))|..])
  }

  lemma LexNothing()
    ensures Lex([]) == [] && Render([]) == []
  {
  }

  lemma LexStep(s: string)
    requires s != []
    ensures |Text(First(s))| <= |s| && Lex(s) == [First(s)] + Lex(s[|Text(First(s))|..])
  {
    hide First, Text;
    FirstIsPrefix(s);
  }

  lemma RenderCons(t: Token, rest: seq<Token>)
    ensures Render([t] + rest) == Text(t) + Render(rest)
  {
    assert ([t] + rest)[1..] == rest;
  }

  /** Nothing is lost: a text is its tokens, printed one after the other. */
  lemma {:induction false} RenderLex(s: string)
    ensures Render(Lex(s)) == s
    decreases |s|
  {
    hide Lex, Render, First, Text;
    if s == [] {
      LexNothing();
    } else {
      FirstIsPrefix(s);
      LexStep(s);
      var n := |Text(First(s))|;
      RenderLex(s[n..]);
      RenderCons(First(s), Lex(s[n..]));
      assert Render(Lex(s)) == s[..n] + s[n..];
    }
  }

  // ---- canonical sequences -------------------------------------------------------------------

  predicate Paired(body: string, q: char) {
    if body == [] then true
    else if body[0] != q then Paired(body[1..], q)
    else |body| > 1 && body[1] == q && Paired(body[2..], q)
  }

  predicate WellFormed(t: Token) {
    match t
    case Quoted(q, body, _) => IsQuote(q) && Paired(body, q)
    case Placeholder(digits) => digits != [] && forall k :: 0 <= k < |digits| ==> IsDigit(digits[k])
    case Plain(c) => !IsQuote(c)
  }

  /** The token ends where it should when the text `rest` follows. */
  predicate Fits(t: Token, rest: string) {
    match t
    case Quoted(q, _, closed) => if closed then rest == [] || rest[0] != q else rest == []
    case Placeholder(_) => rest == [] || !IsDigit(rest[0])
    case Plain(c) => c == '$' ==> rest == [] || !IsDigit(rest[0])
  }

  predicate Canonical(ts: seq<Token>) {
    ts == [] || (WellFormed(ts[0]) && Fits(ts[0], Render(ts[1..])) && Canonical(ts[1..]))
  }

  lemma {:induction false} BodyLenOfPaired(body: string, q: char, rest: string)
    requires Paired(body, q)
    requires rest == [] || (rest[0] == q && !(|rest| > 1 && rest[1] == q))
    ensures BodyLen(body + rest, q) == |body|
    decreases |body|
  {
    if body == [] {
      assert body + rest == rest;
    } else if body[0] != q {
      assert (body + rest)[1..] == body[1..] + rest;
      BodyLenOfPaired(body[1..], q, rest);
    } else {
      assert (body + rest)[2..] == body[2..] + rest;
      BodyLenOfPaired(body[2..], q, rest);
    }
  }

  lemma {:induction false} BodyIsPaired(s: string, q: char)
    ensures Paired(s[..BodyLen(s, q)], q)
    decreases |s|
  {
    var n := BodyLen(s, q);
    if s != [] {
      if s[0] != q {
        BodyIsPaired(s[1..], q);
        assert s[..n][1..] == s[1..][..n - 1];
      } else if n > 0 {
        BodyIsPaired(s[2..], q);
        assert s[..n][2..] == s[2..][..n - 2];
      }
    }
  }

  lemma {:induction false} DigitsLenAll(digits: string, rest: string)
    requires forall k :: 0 <= k < |digits| ==> IsDigit(digits[k])
    requires rest == [] || !IsDigit(rest[0])
    ensures DigitsLen(digits + rest) == |digits|
  {
    if digits == [] {
      assert digits + rest == rest;
    } else {
      assert (digits + rest)[1..] == digits[1..] + rest;
      DigitsLenAll(digits[1..], rest);
    }
  }

  lemma FirstOfQuoted(q: char, body: string, closed: bool, rest: string)
    requires IsQuote(q) && Paired(body, q) && Fits(Quoted(q, body, closed), rest)
    ensures First(Text(Quoted(q, body, closed)) + rest) == Quoted(q, body, closed)
  {
    hide BodyLen, First;
    var tail := if closed then [q] + rest else [];
    BodyLenOfPaired(body, q, tail);
    assert Text(Quoted(q, body, closed)) + rest == [q] + (body + tail);
    FirstQuotedAt(q, body + tail, |body|);
    assert (body + tail)[..|body|] == body;
  }

  lemma FirstQuotedAt(q: char, inside: string, n: nat)
    requires IsQuote(q) && BodyLen(inside, q) == n
    ensures First([q] + inside) == Quoted(q, inside[..n], n < |inside|)
  {
    assert ([q] + inside)[1..] == inside;
    assert ([q] + inside)[1..n + 1] == inside[..n];
  }

  lemma FirstOfPlaceholder(digits: string, rest: string)
    requires WellFormed(Placeholder(digits)) && Fits(Placeholder(digits), rest)
    ensures First(Text(Placeholder(digits)) + rest) == Placeholder(digits)
  {
    var s := Text(Placeholder(digits)) + rest;
    assert s[0] == '$' && s[1..] == digits + rest && s[1] == digits[0];
    DigitsLenAll(digits, rest);
    assert s[1..|digits| + 1] == s[1..][..|digits|] == digits;
  }

  /** A well-formed token that fits is the first token of its text. */
  lemma FirstOf(t: Token, rest: string)
    requires WellFormed(t) && Fits(t, rest)
    ensures Text(t) + rest != [] && First(Text(t) + rest) == t
  {
    match t
    case Quoted(q, body, closed) => FirstOfQuoted(q, body, closed, rest);
    case Placeholder(digits) => FirstOfPlaceholder(digits, rest);
    case Plain(c) => assert ([c] + rest)[1..] == rest;
  }

  lemma FirstFits(s: string)
    requires s != []
    ensures WellFormed(First(s)) && |Text(First(s))| <= |s| && Fits(First(s), s[|Text(First(s))|..])
  {
    FirstIsPrefix(s);
    if IsQuote(s[0]) {
      BodyIsPaired(s[1..], s[0]);
      var n := BodyLen(s[1..], s[0]);
      assert s[1..n + 1] == s[1..][..n];
    }
  }

  lemma {:induction false} LexCanonical(s: string)
    ensures Canonical(Lex(s))
    decreases |s|
  {
    hide First, Text, WellFormed, Fits, BodyLen, DigitsLen;
    if s != [] {
      FirstFits(s);
      FirstIsPrefix(s);
      var rest := s[|Text(First(s))|..];
      RenderLex(rest);
      LexCanonical(rest);
      assert Lex(s)[1..] == Lex(rest);
    }
  }

  lemma {:induction false} LexRender(ts: seq<Token>)
    requires Canonical(ts)
    ensures Lex(Render(ts)) == ts
  {
    if ts == [] {
      LexNothing();
    } else {
      hide First, Text, WellFormed, Fits, Lex;
      var rest := Render(ts[1..]);
      FirstOf(ts[0], rest);
      LexRender(ts[1..]);
      LexStep(Text(ts[0]) + rest);
      assert (Text(ts[0]) + rest)[|Text(ts[0])|..] == rest;
      assert ts == [ts[0]] + ts[1..];
    }
  }

  /** Re-scanning gives a token sequence back exactly when it is canonical. */
  lemma RescanIff(ts: seq<Token>)
    ensures Lex(Render(ts)) == ts <==> Canonical(ts)
  {
    LexCanonical(Render(ts));
    if Canonical(ts) {
      LexRender(ts);
    }
  }

  // ---- quoting -------------------------------------------------------------------------------

  function Doubled(value: string, q: char): string {
    if value == [] then []
    else Doubled(value[..|value| - 1], q) + (if value[|value| - 1] == q then [q, q] else [value[|value| - 1]])
  }

  /** What the text inside a quoted token stands for. */
  function Undoubled(body: string, q: char): string {
    if body == [] then []
    else if body[0] == q && |body| > 1 then [q] + Undoubled(body[2..], q)
    else [body[0]] + Undoubled(body[1..], q)
  }

  lemma {:induction false} PairedAppend(a: string, b: string, q: char)
    requires Paired(a, q)
    ensures Paired(a + b, q) <==> Paired(b, q)
    decreases |a|
  {
    if a == [] {
      assert a + b == b;
    } else {
      var n := if a[0] != q then 1 else 2;
      assert (a + b)[n..] == a[n..] + b;
      PairedAppend(a[n..], b, q);
    }
  }

  lemma {:induction false} UndoubledAppend(a: string, b: string, q: char)
    requires Paired(a, q)
    ensures Undoubled(a + b, q) == Undoubled(a, q) + Undoubled(b, q)
    decreases |a|
  {
    if a == [] {
      assert a + b == b;
    } else {
      var n := if a[0] != q then 1 else 2;
      assert (a + b)[n..] == a[n..] + b;
      UndoubledAppend(a[n..], b, q);
      assert Undoubled(a + b, q) == [a[0]] + Undoubled((a + b)[n..], q);
      assert Undoubled(a, q) == [a[0]] + Undoubled(a[n..], q);
    }
  }

  lemma OneReadsBack(c: char, q: char)
    ensures var tail := if c == q then [q, q] else [c]; Paired(tail, q) && Undoubled(tail, q) == [c]
  {
    var tail := if c == q then [q, q] else [c];
    assert tail[|tail|..] == [];
  }

  /** Doubling is undone by reading: the token stands for the value it was made from. */
  lemma {:induction false} DoubledReadsBack(value: string, q: char)
    ensures Paired(Doubled(value, q), q)
    ensures Undoubled(Doubled(value, q), q) == value
  {
    if value != [] {
      hide Paired, Undoubled;
      var front, last := value[..|value| - 1], value[|value| - 1];
      DoubledReadsBack(front, q);
      var tail := if last == q then [q, q] else [last];
      OneReadsBack(last, q);
      PairedAppend(Doubled(front, q), tail, q);
      UndoubledAppend(Doubled(front, q), tail, q);
      assert value == front + [last];
    }
  }
}
