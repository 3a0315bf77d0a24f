/** C strings as `seq<char>`: tokens as strtok_r cuts them, joining, substring search. */
module Text {

  datatype Option<+T> = None | Some(value: T)

  lemma Associative<T>(a: seq<T>, b: seq<T>, c: seq<T>)
    ensures (a + b) + c == a + (b + c)
  {
  }

  lemma TailOfBoth<T>(a: seq<T>, b: seq<T>)
    requires a != []
    ensures (a + b)[0] == a[0] && (a + b)[1..] == a[1..] + b
  {
  }

  predicate NoneOf(s: string, seps: string) {
    forall i | 0 <= i < |s| :: s[i] !in seps
  }

  /** The length of the longest prefix of `s` that holds no separator. */
  function Span(s: string, seps: string): (n: nat)
    ensures n <= |s| && NoneOf(s[..n], seps)
    ensures n < |s| ==> s[n] in seps
  {
    if s == "" || s[0] in seps then 0 else 1 + Span(s[1..], seps)
  }

  /** All tokens of `s`: the maximal nonempty pieces without a separator. */
  function Tokens(s: string, seps: string): seq<string> {
    if s == "" then []
    else if s[0] in seps then Tokens(s[1..], seps)
    else [s[..Span(s, seps)]] + Tokens(s[Span(s, seps)..], seps)
  }

  function Join(ts: seq<string>, sep: char): string {
    if ts == [] then ""
    else if |ts| == 1 then ts[0]
    else ts[0] + [sep] + Join(ts[1..], sep)
  }

  /** A token list that survives joining and splitting again. */
  predicate Clean(ts: seq<string>, seps: string) {
    forall i | 0 <= i < |ts| :: ts[i] != "" && NoneOf(ts[i], seps)
  }

  /** strstr(s, t) != NULL */
  predicate Contains(s: string, t: string) {
    exists i | 0 <= i <= |s| :: t <= s[i..]
  }

  /** What one call of strtok_r does to the text that is left. */
  datatype Cut = NoToken | Cut(token: string, rest: string)

  lemma NoTokens(seps: string)
    ensures Tokens("", seps) == []
  {
  }

  method SkipSeparators(s: string, seps: string) returns (i: nat)
    ensures i <= |s| && (i < |s| ==> s[i] !in seps)
    ensures Tokens(s, seps) == Tokens(s[i..], seps)
  {
    i := 0;
    while i < |s| && s[i] in seps
      invariant 0 <= i <= |s|
      invariant Tokens(s, seps) == Tokens(s[i..], seps)
    {
      assert s[i..][1..] == s[i + 1..];
      i := i + 1;
    }
  }

  method TokenEnd(s: string, i: nat, seps: string) returns (j: nat)
    requires i < |s| && s[i] !in seps
    ensures i < j <= |s| && NoneOf(s[i..j], seps) && (j < |s| ==> s[j] in seps)
  {
    j := i;
    while j < |s| && s[j] !in seps
      invariant i <= j <= |s|
      invariant forall k | i <= k < j :: s[k] !in seps
    {
      j := j + 1;
    }
  }

  /** strtok_r(rest, seps, &rest): skip separators, take a token, step over the separator that ended it. */
  method NextToken(s: string, seps: string) returns (cut: Cut)
    ensures cut.NoToken? <==> Tokens(s, seps) == []
    ensures cut.Cut? ==> Tokens(s, seps) == [cut.token] + Tokens(cut.rest, seps) && |cut.rest| < |s|
    ensures cut.Cut? ==> cut.token != "" && NoneOf(cut.token, seps)
  {
    hide Tokens, NoneOf;
    NoTokens(seps);
    var i := SkipSeparators(s, seps);
    if i == |s| {
      return NoToken;
    }
    var j := TokenEnd(s, i, seps);
    assert s[i..][..j - i] == s[i..j] && s[i..][j - i..] == s[j..];
    FirstToken(s[i..], j - i, seps);
    cut := Cut(s[i..j], if j < |s| then s[j + 1..] else "");
  }

  /** A separator-free stretch that runs to a separator or to the end is the first token. */
  lemma {:induction false} FirstToken(s: string, n: nat, seps: string)
    requires 0 < n <= |s| && NoneOf(s[..n], seps)
    requires n < |s| ==> s[n] in seps
    ensures Tokens(s, seps) == [s[..n]] + Tokens(s[n..], seps)
    ensures n < |s| ==> Tokens(s[n..], seps) == Tokens(s[n + 1..], seps)
  {
    SpanWhole(s[..n], seps);
    if n < |s| {
      assert s == s[..n] + [s[n]] + s[n + 1..];
      SpanStops(s[..n], s[n], s[n + 1..], seps);
      assert s[n..][1..] == s[n + 1..];
    } else {
      assert s[..n] == s;
    }
    assert s[0] == s[..n][0];
  }

  lemma {:induction false} SpanStops(a: string, c: char, b: string, seps: string)
    requires c in seps
    ensures Span(a + [c] + b, seps) == Span(a, seps)
  {
    if a != "" && a[0] !in seps {
      assert (a + [c] + b)[1..] == a[1..] + [c] + b;
      SpanStops(a[1..], c, b, seps);
    }
  }

  /** A separator splits the text for good: tokens never cross it. */
  lemma {:induction false} TokensAppend(a: string, c: char, b: string, seps: string)
    requires c in seps
    ensures Tokens(a + [c] + b, seps) == Tokens(a, seps) + Tokens(b, seps)
    decreases |a|
  {
    SplitBefore(a, [c] + b, 0);
    Associative(a, [c], b);
    if a == "" {
      assert ([c] + b)[1..] == b;
    } else if a[0] in seps {
      SplitBefore(a, [c] + b, 1);
      Associative(a[1..], [c], b);
      TokensAppend(a[1..], c, b, seps);
    } else {
      var n := Span(a, seps);
      SpanStops(a, c, b, seps);
      SplitBefore(a, [c] + b, n);
      Associative(a[n..], [c], b);
      TokensAppend(a[n..], c, b, seps);
      Associative([a[..n]], Tokens(a[n..], seps), Tokens(b, seps));
    }
  }

  lemma SplitBefore<T>(a: seq<T>, b: seq<T>, n: nat)
    requires n <= |a|
    ensures (a + b)[..n] == a[..n] && (a + b)[n..] == a[n..] + b
    ensures a == [] ==> a + b == b
  {
  }

  lemma {:induction false} SpanWhole(s: string, seps: string)
    requires NoneOf(s, seps)
    ensures Span(s, seps) == |s|
  {
    if s != "" {
      SpanWhole(s[1..], seps);
    }
  }

  lemma TokensOfOne(t: string, seps: string)
    requires t != "" && NoneOf(t, seps)
    ensures Tokens(t, seps) == [t]
  {
    SpanWhole(t, seps);
    assert t[|t|..] == "" && t[..|t|] == t;
  }

  /** Splitting undoes joining. */
  lemma {:induction false} TokensOfJoin(ts: seq<string>, sep: char, seps: string)
    requires sep in seps && Clean(ts, seps)
    ensures Tokens(Join(ts, sep), seps) == ts
  {
    if |ts| == 1 {
      TokensOfOne(ts[0], seps);
    } else if |ts| > 1 {
      TokensOfOne(ts[0], seps);
      TokensOfJoin(ts[1..], sep, seps);
      TokensAppend(ts[0], sep, Join(ts[1..], sep), seps);
    }
  }
}
