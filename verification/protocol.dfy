/**
  The command layer of the server: splitting a received line into
  whitespace-separated tokens, and the dispatch that turns a token list into
  one call on the store and the text sent back.
 */
module Protocol {
  import opened Wrappers
  import opened Store

  // ----- Tokens -----

  /** The characters `isspace` accepts in the "C" locale, which the string stream uses to separate tokens. */
  predicate IsSpace(c: char) {
    c == ' ' || c == '\t' || c == '\n' || c == '\U{000B}' || c == '\U{000C}' || c == '\r'
  }

  /** A string made only of whitespace (possibly empty). */
  predicate IsBlank(w: string) {
    forall i :: 0 <= i < |w| ==> IsSpace(w[i])
  }

  /** What the stream extracts as one token: a non-empty run without whitespace. */
  predicate IsToken(t: string) {
    |t| > 0 && forall i :: 0 <= i < |t| ==> !IsSpace(t[i])
  }

  /**
    The first position at or after `p` that is not whitespace (`space`) or
    not non-whitespace (`!space`), or the end of `s`.
   */
  function Skip(s: string, p: nat, space: bool): (n: nat)
    requires p <= |s|
    ensures p <= n <= |s|
    ensures n < |s| ==> IsSpace(s[n]) != space
    decreases |s| - p
  {
    if p == |s| || IsSpace(s[p]) != space then p else Skip(s, p + 1, space)
  }

  /** Every character that `Skip` passes over is of the kind asked for. */
  lemma {:induction false} SkipPrefix(s: string, p: nat, space: bool)
    requires p <= |s|
    ensures forall k :: p <= k < Skip(s, p, space) ==> IsSpace(s[k]) == space
    decreases |s| - p
  {
    if p < |s| && IsSpace(s[p]) == space {
      SkipPrefix(s, p + 1, space);
    }
  }

  /** The run `Skip` passes over is the only one that ends at the end or at a character of the other kind. */
  lemma {:induction false} SkipIs(s: string, p: nat, space: bool, n: nat)
    requires p <= n <= |s|
    requires forall k :: p <= k < n ==> IsSpace(s[k]) == space
    requires n < |s| ==> IsSpace(s[n]) != space
    ensures Skip(s, p, space) == n
    decreases n - p
  {
    if p < n {
      SkipIs(s, p + 1, space, n);
    }
  }

  /**
    The tokens from position `p` on, as repeated `stream >> token` extracts
    them: skip whitespace; stop at the end; otherwise take the run up to the
    next whitespace or the end, and go on from there.
   */
  function TokensFrom(s: string, p: nat): seq<string>
    requires p <= |s|
    decreases |s| - p
  {
    var i := Skip(s, p, true);
    if i == |s| then []
    else
      var j := Skip(s, i, false);
      [s[i..j]] + TokensFrom(s, j)
  }

  /** The tokens of a whole line. */
  function Tokens(s: string): seq<string> {
    TokensFrom(s, 0)
  }

  /** Every token extracted is a non-empty run without whitespace. */
  lemma TokensAreTokens(s: string)
    ensures forall k :: 0 <= k < |Tokens(s)| ==> IsToken(Tokens(s)[k])
  {
    TokensFromAreTokens(s, 0);
  }

  lemma {:induction false} TokensFromAreTokens(s: string, p: nat)
    requires p <= |s|
    ensures forall k :: 0 <= k < |TokensFrom(s, p)| ==> IsToken(TokensFrom(s, p)[k])
    decreases |s| - p
  {
    var i := Skip(s, p, true);
    if i < |s| {
      var j := Skip(s, i, false);
      assert IsToken(s[i..j]) by {
        SkipPrefix(s, i, false);
      }
      TokensFromAreTokens(s, j);
      var ts := TokensFrom(s, p);
      assert ts == [s[i..j]] + TokensFrom(s, j);
    }
  }

  /**
    One `stream >> token` from position `i` of `line`: skips whitespace,
    fails at the end of the line, and otherwise reads the characters up to
    the next whitespace or the end.
   */
  method Extract(line: string, i: nat) returns (found: bool, token: string, next: nat)
    requires i <= |line|
    ensures !found ==> TokensFrom(line, i) == []
    ensures found ==> i < next <= |line| && TokensFrom(line, i) == [token] + TokensFrom(line, next)
  {
    var k := i;
    while k < |line| && IsSpace(line[k])
      invariant i <= k <= |line|
      invariant forall m :: i <= m < k ==> IsSpace(line[m])
    {
      k := k + 1;
    }
    SkipIs(line, i, true, k);
    if k == |line| {
      return false, [], k;
    }
    var j := k;
    while j < |line| && !IsSpace(line[j])
      invariant k <= j <= |line|
      invariant forall m :: k <= m < j ==> !IsSpace(line[m])
    {
      j := j + 1;
    }
    SkipIs(line, k, false, j);
    return true, line[k..j], j;
  }

  /** `parse`: extracts tokens from the line until extraction fails, appending each one. */
  method Parse(line: string) returns (tokens: seq<string>)
    ensures tokens == Tokens(line)
  {
    tokens := [];
    var i := 0;
    while true
      invariant 0 <= i <= |line|
      invariant tokens + TokensFrom(line, i) == Tokens(line)
      decreases |line| - i
    {
      var found, token, next := Extract(line, i);
      if !found {
        break;
      }
      tokens := tokens + [token];
      i := next;
    }
  }

  /** A line with leading, separating and trailing whitespace `gaps` around the tokens `ts`. */
  function Layout(gaps: seq<string>, ts: seq<string>): string
    requires |gaps| == |ts| + 1
  {
    if ts == [] then gaps[0] else gaps[0] + ts[0] + Layout(gaps[1..], ts[1..])
  }

  /** Gaps that `Layout` accepts: all whitespace, and non-empty between two tokens. */
  predicate GoodGaps(gaps: seq<string>, ts: seq<string>) {
    && |gaps| == |ts| + 1
    && (forall i :: 0 <= i < |gaps| ==> IsBlank(gaps[i]))
    && (forall i :: 0 < i < |ts| ==> gaps[i] != [])
  }

  /** A line with no tokens is all whitespace, and the converse. */
  lemma NoTokensIffBlank(s: string)
    ensures Tokens(s) == [] <==> IsBlank(s)
  {
    SkipPrefix(s, 0, true);
    if IsBlank(s) {
      SkipIs(s, 0, true, |s|);
    }
  }

  /** Reading on from inside a longer line that ends with `b` is reading `b`. */
  lemma {:induction false} SkipShift(a: string, b: string, p: nat, space: bool)
    requires p <= |b|
    ensures Skip(a + b, |a| + p, space) == |a| + Skip(b, p, space)
    decreases |b| - p
  {
    if p < |b| {
      assert (a + b)[|a| + p] == b[p];
      SkipShift(a, b, p + 1, space);
    }
  }

  lemma {:induction false} TokensShift(a: string, b: string, p: nat)
    requires p <= |b|
    ensures TokensFrom(a + b, |a| + p) == TokensFrom(b, p)
    decreases |b| - p
  {
    SkipShift(a, b, p, true);
    var i := Skip(b, p, true);
    if i < |b| {
      SkipShift(a, b, i, false);
      var j := Skip(b, i, false);
      TokensFromStep(a + b, |a| + p, |a| + i, |a| + j);
      TokensFromStep(b, p, i, j);
      SliceShift(a, b, i, j);
      TokensShift(a, b, j);
    }
  }

  lemma SliceShift(a: string, b: string, i: nat, j: nat)
    requires i <= j <= |b|
    ensures (a + b)[|a| + i..|a| + j] == b[i..j]
  {
  }

  /** Whitespace, then one token, then the end or more whitespace: the token comes first. */
  lemma TokensCons(g: string, t: string, rest: string)
    requires IsBlank(g) && IsToken(t)
    requires rest == [] || IsSpace(rest[0])
    ensures Tokens(g + t + rest) == [t] + Tokens(rest)
  {
    GapThenToken(g, t, rest);
    TokensFromStep(g + t + rest, 0, |g|, |g| + |t|);
    TokensAfter(g + t, rest, |g| + |t|);
  }

  /** Reading on from the end of `a` in `a + b` is reading `b` from its start. */
  lemma TokensAfter(a: string, b: string, j: nat)
    requires j == |a|
    ensures TokensFrom(a + b, j) == TokensFrom(b, 0)
  {
    TokensShift(a, b, 0);
  }

  /** On whitespace, a token and then the end or whitespace, the two runs `Skip` passes over are the gap and the token. */
  lemma GapThenToken(g: string, t: string, rest: string)
    requires IsBlank(g) && IsToken(t)
    requires rest == [] || IsSpace(rest[0])
    ensures Skip(g + t + rest, 0, true) == |g|
    ensures Skip(g + t + rest, |g|, false) == |g| + |t|
    ensures (g + t + rest)[|g|..|g| + |t|] == t
  {
    AppendAssoc(g, t, rest);
    SkipBlank(g, t + rest);
    SkipRun(t, rest);
    SkipShift(g, t + rest, 0, false);
  }

  /** Whitespace followed by the end or by a non-whitespace character is what `Skip` passes over first. */
  lemma SkipBlank(g: string, u: string)
    requires IsBlank(g)
    requires u == [] || !IsSpace(u[0])
    ensures Skip(g + u, 0, true) == |g|
  {
    var s := g + u;
    assert forall k :: 0 <= k < |g| ==> s[k] == g[k];
    assert |g| < |s| ==> s[|g|] == u[0];
    SkipIs(s, 0, true, |g|);
  }

  /** A token followed by the end or by whitespace is what `Skip` passes over when it reads a token. */
  lemma SkipRun(t: string, u: string)
    requires IsToken(t)
    requires u == [] || IsSpace(u[0])
    ensures Skip(t + u, 0, false) == |t|
  {
    var s := t + u;
    assert forall k :: 0 <= k < |t| ==> s[k] == t[k];
    assert |t| < |s| ==> s[|t|] == u[0];
    SkipIs(s, 0, false, |t|);
  }

  /** One step of `TokensFrom`, once both runs are measured. */
  lemma TokensFromStep(s: string, p: nat, i: nat, j: nat)
    requires p <= |s| && i == Skip(s, p, true) < |s| && j == Skip(s, i, false)
    ensures TokensFrom(s, p) == [s[i..j]] + TokensFrom(s, j)
  {
  }

  /** The tokens of a laid-out line are exactly the tokens it was laid out from. */
  lemma {:induction false} TokensOfLayout(gaps: seq<string>, ts: seq<string>)
    requires GoodGaps(gaps, ts)
    requires forall i :: 0 <= i < |ts| ==> IsToken(ts[i])
    ensures Tokens(Layout(gaps, ts)) == ts
  {
    if ts == [] {
      NoTokensIffBlank(gaps[0]);
    } else {
      var rest := Layout(gaps[1..], ts[1..]);
      TokensOfLayout(gaps[1..], ts[1..]);
      if ts[1..] == [] {
        assert rest == gaps[1];
      } else {
        assert gaps[1] != [] && rest[0] == gaps[1][0];
      }
      TokensCons(gaps[0], ts[0], rest);
      assert Layout(gaps, ts) == gaps[0] + ts[0] + rest;
    }
  }

  /**
    Every line is the layout of its tokens with whitespace gaps of its own:
    together with `TokensOfLayout`, the tokens are exactly the maximal
    non-whitespace runs of the line, in order.
   */
  lemma LayoutOfTokens(s: string) returns (gaps: seq<string>)
    ensures GoodGaps(gaps, Tokens(s))
    ensures Layout(gaps, Tokens(s)) == s
  {
    gaps := LayoutFrom(s, 0);
    assert s[0..] == s;
  }

  /** The layout of the part of `s` from position `p` on. */
  lemma {:induction false} LayoutFrom(s: string, p: nat) returns (gaps: seq<string>)
    requires p <= |s|
    ensures GoodGaps(gaps, TokensFrom(s, p))
    ensures Layout(gaps, TokensFrom(s, p)) == s[p..]
    ensures TokensFrom(s, p) != [] && IsSpace(s[p]) ==> gaps[0] != []
    decreases |s| - p
  {
    var i := Skip(s, p, true);
    SkipPrefix(s, p, true);
    if i == |s| {
      gaps := [s[p..]];
      BlankSlice(s, p, i);
    } else {
      var j := Skip(s, i, false);
      TokensFromStep(s, p, i, j);
      var more := LayoutFrom(s, j);
      var g, t := s[p..i], s[i..j];
      BlankSlice(s, p, i);
      LayoutCons(g, t, more, TokensFrom(s, j));
      gaps := [g] + more;
      SplitAt(s, p, i, j);
    }
  }

  lemma BlankSlice(s: string, p: nat, q: nat)
    requires p <= q <= |s|
    requires forall k :: p <= k < q ==> IsSpace(s[k])
    ensures IsBlank(s[p..q])
    ensures q == |s| ==> IsBlank(s[p..])
  {
    assert forall k :: 0 <= k < q - p ==> s[p..q][k] == s[p + k];
  }

  lemma SplitAt(s: string, p: nat, i: nat, j: nat)
    requires p <= i <= j <= |s|
    ensures s[p..] == s[p..i] + s[i..j] + s[j..]
  {
  }

  /** Putting one more gap and token in front of a layout. */
  lemma LayoutCons(g: string, t: string, more: seq<string>, rest: seq<string>)
    requires IsBlank(g) && GoodGaps(more, rest)
    requires rest != [] ==> more[0] != []
    ensures GoodGaps([g] + more, [t] + rest)
    ensures Layout([g] + more, [t] + rest) == g + t + Layout(more, rest)
  {
    assert ([g] + more)[1..] == more;
    assert ([t] + rest)[1..] == rest;
  }

  // ----- std::stoi -----

  predicate IsDigit(c: char) {
    '0' <= c <= '9'
  }

  predicate AllDigits(d: string) {
    forall i :: 0 <= i < |d| ==> IsDigit(d[i])
  }

  /** The length of the longest prefix of decimal digits. */
  function DigitSpan(s: string): (n: nat)
    ensures n <= |s| && AllDigits(s[..n])
    ensures n < |s| ==> !IsDigit(s[n])
  {
    if s == [] || !IsDigit(s[0]) then 0
    else
      var m := DigitSpan(s[1..]);
      assert s[..m + 1] == [s[0]] + s[1..][..m];
      1 + m
  }

  /** The value of one decimal digit. */
  function DigitValue(c: char): (v: nat)
    ensures IsDigit(c) ==> v == c as int - '0' as int
  {
    if IsDigit(c) then c as int - '0' as int else 0
  }

  /** The number a run of decimal digits denotes, most significant digit first. */
  function Value(d: string): nat {
    if d == [] then 0 else 10 * Value(d[..|d| - 1]) + DigitValue(d[|d| - 1])
  }

  /** The range of a 32-bit `int`, outside which `std::stoi` throws `out_of_range`. */
  const IntMin: int := -0x8000_0000
  const IntMax: int := 0x7FFF_FFFF

  /**
    `std::stoi(s)` in base 10: skips leading whitespace, takes an optional
    sign and the longest run of digits after it, and ignores whatever
    follows. None stands for the exceptions it throws: no digit at all
    (`invalid_argument`) or a value outside `int` (`out_of_range`).
   */
  function Stoi(s: string): (r: Option<int>)
    ensures r.Some? ==> IntMin <= r.value <= IntMax
  {
    var t := s[Skip(s, 0, true)..];
    if |t| > 0 && (t[0] == '+' || t[0] == '-') then SignedValue(t[0] == '-', t[1..])
    else SignedValue(false, t)
  }

  /** The value of the digit run at the start of `digits`, negated when `negative`, if there is one and it fits in `int`. */
  function SignedValue(negative: bool, digits: string): (r: Option<int>)
    ensures r.Some? ==> IntMin <= r.value <= IntMax
  {
    var n := DigitSpan(digits);
    if n == 0 then None
    else
      var magnitude: int := Value(digits[..n]);
      var v := if negative then -magnitude else magnitude;
      if IntMin <= v <= IntMax then Some(v) else None
  }

  /** The decimal digits of `n`, without leading zeros. */
  function Digits(n: nat): (d: string)
    ensures |d| > 0 && AllDigits(d) && Value(d) == n
  {
    var last := ('0' as int + n % 10) as char;
    if n < 10 then
      assert Value([last]) == Value([last][..0]) * 10 + n;
      [last]
    else
      var d := Digits(n / 10) + [last];
      assert d[..|d| - 1] == Digits(n / 10);
      d
  }

  /** `std::to_string` of an integer: a minus sign for negatives, then the digits. */
  function Decimal(n: int): string {
    if n < 0 then "-" + Digits(-n) else Digits(n)
  }

  /**
    On an optional sign, a run of digits and a text that does not go on with
    a digit, `std::stoi` gives the signed value of the digits when it fits
    in an `int` and throws otherwise.
   */
  lemma StoiOfSignedDigits(sign: string, d: string, rest: string)
    requires |sign| <= 1 && (sign != [] ==> sign[0] == '+' || sign[0] == '-')
    requires |d| > 0 && AllDigits(d)
    requires rest == [] || !IsDigit(rest[0])
    ensures var magnitude: int := Value(d);
      var v := if sign != [] && sign[0] == '-' then -magnitude else magnitude;
      Stoi(sign + d + rest) == if IntMin <= v <= IntMax then Some(v) else None
  {
    AppendAssoc(sign, d, rest);
    SignedValueOfDigits(sign != [] && sign[0] == '-', d, rest);
    StoiOfSign(sign, d + rest);
  }

  lemma AppendAssoc(a: string, b: string, c: string)
    ensures a + b + c == a + (b + c)
  {
  }

  lemma SignedValueOfDigits(negative: bool, d: string, rest: string)
    requires |d| > 0 && AllDigits(d)
    requires rest == [] || !IsDigit(rest[0])
    ensures var magnitude: int := Value(d);
      var v := if negative then -magnitude else magnitude;
      SignedValue(negative, d + rest) == if IntMin <= v <= IntMax then Some(v) else None
  {
    DigitSpanOfDigits(d, rest);
    SignedValueIs(negative, d + rest, |d|, Value(d));
  }

  lemma SignedValueIs(negative: bool, digits: string, n: nat, magnitude: int)
    requires 0 < n <= |digits| && DigitSpan(digits) == n && Value(digits[..n]) == magnitude
    ensures var v := if negative then -magnitude else magnitude;
      SignedValue(negative, digits) == if IntMin <= v <= IntMax then Some(v) else None
  {
  }

  lemma StoiOfSign(sign: string, digits: string)
    requires |sign| <= 1 && (sign != [] ==> sign[0] == '+' || sign[0] == '-')
    requires digits != [] && IsDigit(digits[0])
    ensures Stoi(sign + digits) == SignedValue(sign != [] && sign[0] == '-', digits)
  {
    var s := sign + digits;
    assert s[0] == if sign == [] then digits[0] else sign[0];
    assert Skip(s, 0, true) == 0;
    assert s[0..] == s;
    assert sign != [] ==> s[1..] == digits;
  }

  /** The digit run of a run of digits followed by a non-digit is that run. */
  lemma DigitSpanOfDigits(d: string, rest: string)
    requires AllDigits(d)
    requires rest == [] || !IsDigit(rest[0])
    ensures DigitSpan(d + rest) == |d| && (d + rest)[..|d|] == d
  {
    DigitSpanIs(d + rest, |d|);
  }

  /**
    `std::stoi` reads back every `int` written in decimal, whatever
    non-digit text follows it.
   */
  lemma StoiOfDecimal(n: int, rest: string)
    requires IntMin <= n <= IntMax
    requires rest == [] || !IsDigit(rest[0])
    ensures Stoi(Decimal(n) + rest) == Some(n)
  {
    if n < 0 {
      assert Decimal(n) == "-" + Digits(-n);
      StoiOfSignedDigits("-", Digits(-n), rest);
    } else {
      assert Decimal(n) == [] + Digits(n);
      StoiOfSignedDigits([], Digits(n), rest);
    }
  }

  lemma {:induction false} DigitSpanIs(s: string, n: nat)
    requires n <= |s| && AllDigits(s[..n])
    requires n < |s| ==> !IsDigit(s[n])
    ensures DigitSpan(s) == n
  {
    if n > 0 {
      assert IsDigit(s[..n][0]);
      assert s[1..][..n - 1] == s[..n][1..];
      DigitSpanIs(s[1..], n - 1);
    }
  }

  /** A TTL token that does not start with a digit or a sign has no number for `std::stoi` to read. */
  lemma StoiNeedsDigits(s: string)
    requires s != [] && !IsSpace(s[0]) && !IsDigit(s[0]) && s[0] != '+' && s[0] != '-'
    ensures Stoi(s) == None
  {
    SkipIs(s, 0, true, 0);
    DigitSpanIs(s, 0);
  }

  // ----- Dispatch -----

  /**
    What one received line leads to: nothing sent (no tokens), a reply text,
    or the end of the server, because an exception from `std::stoi` escapes
    the client's thread.
   */
  datatype Outcome = Silent | Reply(text: string) | Terminated

  /** The verbs the server knows; matching is exact and case-sensitive. */
  predicate IsVerb(cmd: string) {
    cmd == "SET" || cmd == "GET" || cmd == "DEL" || cmd == "EXISTS"
  }

  /** The reply to `GET`: the value and a newline, or `(nil)` for a missing key. */
  function GetReply(r: Option<string>): string {
    match r
    case Some(v) => v + "\n"
    case None => "(nil)\n"
  }

  /** The chain of the client handler that maps a token list to one store call and the reply. */
  method Dispatch(store: KeyValueStore, tokens: seq<string>, now: int) returns (out: Outcome)
    requires store.Valid()
    modifies store
    ensures store.Valid()
    ensures tokens == [] ==> out == Silent && store.State() == old(store.State())
    ensures tokens != [] && !IsVerb(tokens[0]) ==>
      out == Reply("ERROR unknown command: " + tokens[0] + "\n") && store.State() == old(store.State())
    ensures tokens != [] && tokens[0] == "SET" && |tokens| < 3 ==>
      out == Reply("ERROR usage: SET key value [ttl]\n") && store.State() == old(store.State())
    ensures |tokens| == 4 && tokens[0] == "SET" ==>
      match Stoi(tokens[3])
      case None => out == Terminated && store.State() == old(store.State())
      case Some(ttl) =>
        out == Reply("OK\n") && store.State() == AfterSet(old(store.State()), tokens[1], tokens[2], Some(ttl), now)
    ensures |tokens| >= 3 && |tokens| != 4 && tokens[0] == "SET" ==>
      out == Reply("OK\n") && store.State() == AfterSet(old(store.State()), tokens[1], tokens[2], None, now)
    ensures tokens == ["GET"] ==> out == Reply("ERROR usage: GET key\n") && store.State() == old(store.State())
    ensures tokens == ["DEL"] ==> out == Reply("ERROR usage: DEL key\n") && store.State() == old(store.State())
    ensures tokens == ["EXISTS"] ==> out == Reply("ERROR usage: EXISTS key\n") && store.State() == old(store.State())
    ensures |tokens| >= 2 && tokens[0] == "GET" ==>
      out == Reply(GetReply(Lookup(old(store.State()), tokens[1], now)))
      && store.State() == AfterGet(old(store.State()), tokens[1], now)
    ensures |tokens| >= 2 && tokens[0] == "DEL" ==>
      out == Reply("OK\n") && store.State() == AfterDel(old(store.State()), tokens[1])
    ensures |tokens| >= 2 && tokens[0] == "EXISTS" ==>
      out == Reply(if Visible(old(store.State()), tokens[1], now) then "1\n" else "0\n")
      && store.State() == old(store.State())
  {
    if tokens == [] {
      return Silent;
    }
    var cmd := tokens[0];
    if cmd == "SET" {
      if |tokens| < 3 {
        out := Reply("ERROR usage: SET key value [ttl]\n");
      } else if |tokens| == 4 {
        var ttl := Stoi(tokens[3]);
        if ttl.None? {
          return Terminated;
        }
        store.Set(tokens[1], tokens[2], ttl, now);
        out := Reply("OK\n");
      } else {
        store.Set(tokens[1], tokens[2], None, now);
        out := Reply("OK\n");
      }
    } else if cmd == "GET" {
      if |tokens| < 2 {
        out := Reply("ERROR usage: GET key\n");
      } else {
        var val := store.Get(tokens[1], now);
        out := Reply(GetReply(val));
      }
    } else if cmd == "DEL" {
      if |tokens| < 2 {
        out := Reply("ERROR usage: DEL key\n");
      } else {
        store.Del(tokens[1]);
        out := Reply("OK\n");
      }
    } else if cmd == "EXISTS" {
      if |tokens| < 2 {
        out := Reply("ERROR usage: EXISTS key\n");
      } else {
        var b := store.Exists(tokens[1], now);
        out := Reply(if b then "1\n" else "0\n");
      }
    } else {
      out := Reply("ERROR unknown command: " + cmd + "\n");
    }
  }

  /** One pass of the client loop on one received line: tokenise it and dispatch; a blank line is skipped. */
  method HandleLine(store: KeyValueStore, line: string, now: int) returns (out: Outcome)
    requires store.Valid()
    modifies store
    ensures store.Valid()
    ensures IsBlank(line) ==> out == Silent && store.State() == old(store.State())
    ensures !IsBlank(line) ==> out != Silent
  {
    var tokens := Parse(line);
    NoTokensIffBlank(line);
    out := Dispatch(store, tokens, now);
  }
}
