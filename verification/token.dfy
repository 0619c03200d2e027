/** Token streams: tokenizing a range, bounds-checked access, annotation with owning
    cursors, release of the libclang-allocated array, and the tokens of a cursor. */
module TokenStreams {
  import opened Wrappers
  import opened SourceRanges
  import opened Libclang

  /** A single token together with the translation unit that owns it. */
  datatype Token = Token(c: RawToken, tu: TranslationUnit)

  /** A token array allocated by libclang for translation unit `tu`. */
  datatype Tokens = Tokens(tu: TranslationUnit, c: seq<RawToken>)

  /** A reference to a syntax-tree node. */
  datatype Cursor = Cursor(c: RawCursor)

  function TokenExtent(eng: Engine, t: Token): SourceRange {
    eng.tokenExtent(t.tu, t.c)
  }

  function CursorExtent(eng: Engine, cur: Cursor): SourceRange {
    eng.cursorExtent(cur.c)
  }

  function CursorUnit(eng: Engine, cur: Cursor): TranslationUnit {
    eng.cursorUnit(cur.c)
  }

  /** The stream as tokens: each raw token paired with the stream's translation unit. */
  function Items(t: Tokens): (r: seq<Token>)
    ensures |r| == |t.c|
    ensures forall i :: 0 <= i < |r| ==> r[i] == Token(t.c[i], t.tu)
  {
    seq(|t.c|, i requires 0 <= i < |t.c| => Token(t.c[i], t.tu))
  }

  /** The number of tokens in the stream. */
  function Count(t: Tokens): (n: nat)
    ensures n == |Items(t)|
    ensures n == 0 <==> t.c == []
  {
    |t.c|
  }

  /** Tokenizes `src`: a nil array from libclang is an empty stream; otherwise the
      stream holds exactly the tokens libclang reported, in its order. */
  function Tokenize(eng: Engine, tu: TranslationUnit, src: SourceRange): (t: Tokens)
    ensures t.tu == tu
    ensures eng.tokenize(tu, src).NilArray? ==> Count(t) == 0
    ensures eng.tokenize(tu, src).TokenArray? ==> t.c == eng.tokenize(tu, src).tokens
  {
    match eng.tokenize(tu, src)
    case NilArray => Tokens(tu, [])
    case TokenArray(ts) => Tokens(tu, ts)
  }

  /** Tokenizes the extent of `cur` within its own translation unit. */
  function CursorTokenize(eng: Engine, cur: Cursor): Tokens {
    Tokenize(eng, CursorUnit(eng, cur), CursorExtent(eng, cur))
  }

  /** The token at `idx`, or nothing when `idx` is past the end. */
  function TokenAt(t: Tokens, idx: nat): (r: Option<Token>)
    ensures r.None? <==> idx >= Count(t)
    ensures r.Some? ==> r.value == Items(t)[idx] && r.value.tu == t.tu
  {
    if idx >= |t.c| then None else Some(Token(t.c[idx], t.tu))
  }

  /** The array of `t` has been handed back to libclang in `calls`. */
  predicate Released(t: Tokens, calls: seq<TokenCall>) {
    |t.c| > 0 && DisposeCall(t.tu, t.c[0], |t.c|) in calls
  }

  /** Releases the array of a non-empty, not yet released stream: `calls` grows by one
      call, after which the stream is released. */
  function Dispose(t: Tokens, calls: seq<TokenCall>): (calls': seq<TokenCall>)
    requires Count(t) > 0
    requires !Released(t, calls)
    ensures Released(t, calls')
    ensures |calls'| == |calls| + 1 && calls'[..|calls|] == calls
  {
    calls + [DisposeCall(t.tu, t.c[0], |t.c|)]
  }

  /** One cursor per token, in the same positions: cursor `i` is the one libclang's
      annotation gives token `i`. An empty stream is not passed to libclang. */
  method Annotate(eng: Engine, t: Tokens) returns (cursors: seq<Cursor>, calls: seq<TokenCall>)
    ensures |cursors| == Count(t)
    ensures forall i :: 0 <= i < |cursors| ==> cursors[i] == Cursor(eng.annotate(t.tu, t.c, i))
    ensures Count(t) == 0 ==> calls == []
    ensures Count(t) > 0 ==> calls == [AnnotateCall(t.tu, t.c[0], Count(t))]
  {
    var n := |t.c|;
    cursors := [];
    calls := [];
    if n <= 0 {
      return;
    }
    var raw := seq(n, (j: nat) => eng.annotate(t.tu, t.c, j));
    calls := [AnnotateCall(t.tu, t.c[0], n)];
    var i := 0;
    while i < n
      invariant 0 <= i <= n
      invariant |cursors| == i
      invariant forall j :: 0 <= j < i ==> cursors[j] == Cursor(raw[j])
    {
      cursors := cursors + [Cursor(raw[i])];
      i := i + 1;
    }
  }

  /** `t` belongs to a node of extent `e`: its own extent lies inside `e`. */
  predicate Keeps(eng: Engine, t: Token, e: SourceRange) {
    IsInside(TokenExtent(eng, t), e)
  }

  /** The tokens of `s` whose extent lies inside `e`, in the order of `s`. */
  function InsideOf(eng: Engine, s: seq<Token>, e: SourceRange): (r: seq<Token>)
    ensures |r| <= |s|
    ensures forall i :: 0 <= i < |r| ==> Keeps(eng, r[i], e)
    decreases |s|
  {
    if |s| == 0 then []
    else
      var last := s[|s| - 1];
      InsideOf(eng, s[..|s| - 1], e) + (if Keeps(eng, last, e) then [last] else [])
  }

  /** Filtering keeps a token exactly when it is in the input and lies inside `e`. */
  lemma {:induction false} InsideOfMembers(eng: Engine, s: seq<Token>, e: SourceRange, t: Token)
    ensures t in InsideOf(eng, s, e) <==> t in s && Keeps(eng, t, e)
    decreases |s|
  {
    if |s| > 0 {
      var init := s[..|s| - 1];
      InsideOfMembers(eng, init, e, t);
      assert s == init + [s[|s| - 1]];
    }
  }

  /** Filtering distributes over concatenation: it keeps the relative order of the
      tokens it keeps. */
  lemma {:induction false} InsideOfAppend(eng: Engine, a: seq<Token>, b: seq<Token>, e: SourceRange)
    ensures InsideOf(eng, a + b, e) == InsideOf(eng, a, e) + InsideOf(eng, b, e)
    decreases |b|
  {
    if |b| > 0 {
      var b' := b[..|b| - 1];
      assert (a + b)[..|a + b| - 1] == a + b';
      InsideOfAppend(eng, a, b', e);
    } else {
      assert a + b == a;
    }
  }

  /** Extending the input by one token extends the filtered tokens by that token
      exactly when it lies inside `e`. */
  lemma InsideOfPrefix(eng: Engine, s: seq<Token>, i: nat, e: SourceRange)
    requires i < |s|
    ensures InsideOf(eng, s[..i + 1], e)
            == InsideOf(eng, s[..i], e) + (if Keeps(eng, s[i], e) then [s[i]] else [])
  {
    assert s[..i + 1][..i] == s[..i];
  }

  /** The extent reads of the first `n` tokens of `t`, in stream order. */
  function ExtentCalls(t: Tokens, n: nat): (r: seq<TokenCall>)
    requires n <= |t.c|
    ensures |r| == n
    ensures forall j :: 0 <= j < n ==> r[j] == ExtentCall(t.tu, t.c[j])
  {
    if n == 0 then [] else ExtentCalls(t, n - 1) + [ExtentCall(t.tu, t.c[n - 1])]
  }

  /** The tokens among the first `n` of `t` whose extent lies inside `e`. */
  function KeptTokens(eng: Engine, t: Tokens, n: nat, e: SourceRange): seq<Token>
    requires n <= |t.c|
  {
    if n == 0 then []
    else
      var token := Token(t.c[n - 1], t.tu);
      KeptTokens(eng, t, n - 1, e) + (if Keeps(eng, token, e) then [token] else [])
  }

  /** Filtering a stream token by token agrees with filtering its prefix as a whole. */
  lemma {:induction false} KeptTokensInsideOf(eng: Engine, t: Tokens, n: nat, e: SourceRange)
    requires n <= |t.c|
    ensures KeptTokens(eng, t, n, e) == InsideOf(eng, Items(t)[..n], e)
  {
    if n == 0 {
      assert Items(t)[..n] == [];
    } else {
      var s := Items(t);
      var token := s[n - 1];
      assert token == Token(t.c[n - 1], t.tu);
      calc {
        KeptTokens(eng, t, n, e);
        KeptTokens(eng, t, n - 1, e) + (if Keeps(eng, token, e) then [token] else []);
        { KeptTokensInsideOf(eng, t, n - 1, e); }
        InsideOf(eng, s[..n - 1], e) + (if Keeps(eng, token, e) then [token] else []);
        { InsideOfPrefix(eng, s, n - 1, e); }
        InsideOf(eng, s[..n], e);
      }
    }
  }

  /** Filtering all of a stream token by token is filtering the stream. */
  lemma KeptTokensAll(eng: Engine, t: Tokens, e: SourceRange)
    ensures KeptTokens(eng, t, |t.c|, e) == InsideOf(eng, Items(t), e)
  {
    KeptTokensInsideOf(eng, t, |t.c|, e);
    assert Items(t)[..|t.c|] == Items(t);
  }

  /** Reads the extent of every token of `tokens`, in order, keeping those inside `e`. */
  method ReadInside(eng: Engine, tokens: Tokens, e: SourceRange) returns (ts: seq<Token>, calls: seq<TokenCall>)
    ensures ts == KeptTokens(eng, tokens, Count(tokens), e)
    ensures calls == ExtentCalls(tokens, Count(tokens))
  {
    ts := [];
    calls := [];
    var i := 0;
    while i < Count(tokens)
      invariant 0 <= i <= Count(tokens)
      invariant ts == KeptTokens(eng, tokens, i, e)
      invariant calls == ExtentCalls(tokens, i)
    {
      var t := TokenAt(tokens, i);
      var token := t.value;
      calls := calls + [ExtentCall(token.tu, token.c)];
      if Keeps(eng, token, e) {
        ts := ts + [token];
      }
      i := i + 1;
    }
  }

  /** The tokens of a cursor: the tokens of its tokenized extent whose own extent lies
      inside the cursor's extent, in stream order. Each token's extent is read before
      the array is released; a non-empty array is released exactly once, as the last
      call, and an empty one is never released. */
  method CursorTokens(eng: Engine, cur: Cursor) returns (ts: seq<Token>, calls: seq<TokenCall>)
    ensures ts == InsideOf(eng, Items(CursorTokenize(eng, cur)), CursorExtent(eng, cur))
    ensures forall t :: t in ts ==> IsInside(TokenExtent(eng, t), CursorExtent(eng, cur))
    ensures Count(CursorTokenize(eng, cur)) == 0 ==> calls == []
    ensures var stream := CursorTokenize(eng, cur);
            Count(stream) > 0 ==>
              && |calls| == Count(stream) + 1
              && (forall j :: 0 <= j < Count(stream) ==> calls[j] == ExtentCall(stream.tu, stream.c[j]))
              && Released(stream, calls)
              && !Released(stream, calls[..Count(stream)])
  {
    var e := CursorExtent(eng, cur);
    var tokens := Tokenize(eng, CursorUnit(eng, cur), e);
    if |tokens.c| == 0 {
      return [], [];
    }
    var read;
    ts, read := ReadInside(eng, tokens, e);
    KeptTokensAll(eng, tokens, e);
    assert !Released(tokens, read);
    calls := Dispose(tokens, read);
    assert calls[..Count(tokens)] == read;
  }
}
