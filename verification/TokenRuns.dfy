/** What the tokens are: for a fixed delimiter set, exactly the maximal delimiter-free runs
    of the original string, in order. */
module TokenRuns {
  import opened Basics
  import opened CString
  import opened Tokenizers

  /** [b, e) is a maximal run of non-delimiters of the text m[s..end]. */
  ghost predicate IsRun(m: Memory, s: nat, end: nat, chars: set<Byte>, b: nat, e: nat)
    requires end <= |m|
  {
    && s <= b < e <= end
    && (forall i :: b <= i < e ==> m[i] !in chars)
    && (b == s || m[b - 1] in chars)
    && (e == end || m[e] in chars)
  }

  datatype Token = Token(start: nat, end: nat)
  datatype Tokens = Tokens(list: seq<Token>, mem: Memory)

  /** What one call from q does to a text that ends at `end`: null when only delimiters are
      left; otherwise the next run, whose ending delimiter alone is overwritten. */
  ghost predicate OneToken(m: Memory, q: nat, end: nat, chars: set<Byte>, o: Outcome<Option<nat>>)
    requires q <= end < |m|
  {
    match o.token
    case None =>
      o.mem == m && o.resume == None && forall i :: q <= i < end ==> m[i] in chars
    case Some(b) =>
      && q <= b < end && IsString(o.mem, b)
      && (forall i :: q <= i < b ==> m[i] in chars)
      && var e := b + StrLen(o.mem, b);
      && b < e <= end && (forall i :: b <= i < e ==> m[i] !in chars)
      && if e == end then o.mem == m && o.resume == None
         else m[e] in chars && o.mem == m[e := 0] && o.resume == Some(e + 1)
  }

  /** Cutting a string at `stop` leaves two strings. */
  lemma {:induction false} CutString(m: Memory, start: nat, stop: nat, end: nat)
    requires start <= stop < end && IsString(m, start) && start + StrLen(m, start) == end
    ensures IsString(m[stop := 0], start) && StrLen(m[stop := 0], start) == stop - start
    ensures IsString(m[stop := 0], stop + 1) && stop + 1 + StrLen(m[stop := 0], stop + 1) == end
  {
    StrLenIs(m[stop := 0], start, stop - start);
    StrLenIs(m[stop := 0], stop + 1, end - stop - 1);
  }

  lemma {:induction false} NullFromSpans(m: Memory, from: nat, end: nat, chars: set<Byte>, start: nat)
    requires IsString(m, from) && end == from + StrLen(m, from)
    requires start == from + Span(m, from, chars, true) && IsString(m, start)
    requires Span(m, start, chars, false) == 0 && start + StrLen(m, start) == end
    ensures OneToken(m, from, end, chars, Outcome(m, None, None))
  {
  }

  lemma {:induction false} LastTokenFromSpans(m: Memory, from: nat, end: nat, chars: set<Byte>, start: nat)
    requires IsString(m, from) && end == from + StrLen(m, from)
    requires start == from + Span(m, from, chars, true) && IsString(m, start)
    requires start < end == start + StrLen(m, start) == start + Span(m, start, chars, false)
    ensures OneToken(m, from, end, chars, Outcome(m, None, Some(start)))
  {
  }

  lemma {:induction false} CutTokenFromSpans(m: Memory, from: nat, end: nat, chars: set<Byte>, start: nat, stop: nat)
    requires IsString(m, from) && end == from + StrLen(m, from)
    requires start == from + Span(m, from, chars, true) && IsString(m, start)
    requires start + StrLen(m, start) == end
    requires start < stop < end && stop == start + Span(m, start, chars, false)
    ensures OneToken(m, from, end, chars, Outcome(m[stop := 0], Some(stop + 1), Some(start)))
  {
    CutString(m, start, stop, end);
  }

  lemma {:induction false} StrtokFromIsOneToken(m: Memory, from: nat, chars: set<Byte>)
    requires IsString(m, from)
    ensures OneToken(m, from, from + StrLen(m, from), chars, StrtokFrom(m, from, chars))
  {
    hide StrtokFrom, OneToken;
    var end := from + StrLen(m, from);
    var start := from + Span(m, from, chars, true);
    TailIsString(m, from, start);
    var stop := start + Span(m, start, chars, false);
    StrtokCases(m, from, chars, start, stop);
    if stop == start {
      NullFromSpans(m, from, end, chars, start);
    } else if stop == end {
      LastTokenFromSpans(m, from, end, chars, start);
    } else {
      CutTokenFromSpans(m, from, end, chars, start, stop);
    }
  }

  /** Where such a call resumes, the rest of the text is a string with the same end. */
  lemma {:induction false} ResumeIsString(m: Memory, q: nat, end: nat, chars: set<Byte>, o: Outcome<Option<nat>>)
    requires IsString(m, q) && q + StrLen(m, q) == end
    requires OneToken(m, q, end, chars, o) && o.resume.Some?
    ensures IsString(o.mem, o.resume.value)
    ensures q < o.resume.value && o.resume.value + StrLen(o.mem, o.resume.value) == end
  {
    var e := o.resume.value - 1;
    TailIsString(m, q, e);
    CutString(m, e, e, end);
  }

  /** The tokens that calls with a null argument return until the first null, each with the
      end a reader of the token sees. */
  ghost function TokensFrom(m: Memory, from: nat, chars: set<Byte>): Tokens
    requires IsString(m, from)
    decreases |m| - from
  {
    var o := StrtokFrom(m, from, chars);
    StrtokFromIsOneToken(m, from, chars);
    if o.token.None? then Tokens([], m)
    else
      var token := Token(o.token.value, o.token.value + StrLen(o.mem, o.token.value));
      if o.resume.None? then Tokens([token], o.mem)
      else
        ResumeIsString(m, from, from + StrLen(m, from), chars, o);
        var rest := TokensFrom(o.mem, o.resume.value, chars);
        Tokens([token] + rest.list, rest.mem)
  }

  /** The same tokens, cut out of the text with no reference to the code. */
  ghost predicate Chain(m: Memory, q: nat, end: nat, chars: set<Byte>, list: seq<Token>, mem: Memory)
    decreases |list|
  {
    q <= end < |m| &&
    if list == [] then mem == m && forall i :: q <= i < end ==> m[i] in chars
    else
      var b, e := list[0].start, list[0].end;
      && q <= b < e <= end
      && (forall i :: q <= i < b ==> m[i] in chars)
      && (forall i :: b <= i < e ==> m[i] !in chars)
      && if e == end then |list| == 1 && mem == m
         else m[e] in chars && Chain(m[e := 0], e + 1, end, chars, list[1..], mem)
  }

  lemma {:induction false} TokensFromUnfolds(m: Memory, q: nat, chars: set<Byte>)
    requires IsString(m, q)
    ensures var o := StrtokFrom(m, q, chars);
      && (o.token.None? ==> o.resume.None? && o.mem == m && TokensFrom(m, q, chars) == Tokens([], m))
      && (o.token.Some? && o.resume.None? ==>
            && IsString(o.mem, o.token.value)
            && TokensFrom(m, q, chars)
            == Tokens([Token(o.token.value, o.token.value + StrLen(o.mem, o.token.value))], o.mem))
      && (o.resume.Some? ==>
            && o.token.Some? && IsString(o.mem, o.token.value) && IsString(o.mem, o.resume.value)
            && var rest := TokensFrom(o.mem, o.resume.value, chars);
            && TokensFrom(m, q, chars)
            == Tokens([Token(o.token.value, o.token.value + StrLen(o.mem, o.token.value))] + rest.list, rest.mem))
  {
    hide StrtokFrom, StrLen, IsString;
    StrtokFromIsOneToken(m, q, chars);
    if StrtokFrom(m, q, chars).resume.Some? {
      ResumeIsString(m, q, q + StrLen(m, q), chars, StrtokFrom(m, q, chars));
    }
  }

  lemma {:induction false} ChainGrows(m: Memory, q: nat, end: nat, chars: set<Byte>,
                                      o: Outcome<Option<nat>>, rest: Tokens)
    requires q <= end < |m| && OneToken(m, q, end, chars, o)
    requires o.resume.Some? ==> Chain(o.mem, o.resume.value, end, chars, rest.list, rest.mem)
    requires o.resume.None? ==> rest == Tokens([], o.mem)
    ensures o.token.None? ==> Chain(m, q, end, chars, [], m)
    ensures o.token.Some? ==>
      Chain(m, q, end, chars,
            [Token(o.token.value, o.token.value + StrLen(o.mem, o.token.value))] + rest.list, rest.mem)
  {
  }

  lemma {:induction false} TokensFormAChain(m: Memory, q: nat, end: nat, chars: set<Byte>)
    requires IsString(m, q) && q + StrLen(m, q) == end
    ensures ChainOf(m, q, end, chars, TokensFrom(m, q, chars))
    decreases end - q
  {
    hide StrtokFrom, TokensFrom, Chain, OneToken, IsString, StrLen;
    var o := StrtokFrom(m, q, chars);
    StrtokFromIsOneToken(m, q, chars);
    TokensFromUnfolds(m, q, chars);
    if o.resume.Some? {
      ResumeIsString(m, q, end, chars, o);
      TokensFormAChain(o.mem, o.resume.value, end, chars);
      ChainGrows(m, q, end, chars, o, TokensFrom(o.mem, o.resume.value, chars));
    } else {
      ChainGrows(m, q, end, chars, o, Tokens([], o.mem));
      if o.token.Some? {
        var token := Token(o.token.value, o.token.value + StrLen(o.mem, o.token.value));
        assert [token] + [] == [token];
      }
    }
  }

  ghost predicate ChainOf(m: Memory, q: nat, end: nat, chars: set<Byte>, tokens: Tokens) {
    Chain(m, q, end, chars, tokens.list, tokens.mem)
  }

  /** m still has the original text from q on, and q is where a run may start. */
  ghost predicate Resumes(m0: Memory, m: Memory, s: nat, end: nat, chars: set<Byte>, q: nat) {
    && |m| == |m0| && s <= q <= end < |m0|
    && (forall i :: q <= i <= end ==> m[i] == m0[i])
    && (q == s || m0[q - 1] in chars)
  }

  /** The list is the runs from q on: each token is a run, every run is there, in order, and
      at most every other byte starts one. */
  ghost predicate IsRunList(m0: Memory, s: nat, end: nat, chars: set<Byte>, q: nat, list: seq<Token>)
    requires end <= |m0|
  {
    && (forall k :: 0 <= k < |list| ==>
          list[k].start >= q && IsRun(m0, s, end, chars, list[k].start, list[k].end))
    && (forall b: nat, e: nat :: q <= b && IsRun(m0, s, end, chars, b, e) ==> Token(b, e) in list)
    && (forall j, k :: 0 <= j < k < |list| ==> list[j].end < list[k].start)
    && 2 * |list| <= end - q + 1
  }

  /** Bytes change only where a token ends before the text does. */
  ghost predicate OnlyEndsCleared(m: Memory, m': Memory, end: nat, list: seq<Token>) {
    && |m'| == |m|
    && forall i :: 0 <= i < |m| ==>
         m'[i] == if i < end && (exists k :: 0 <= k < |list| && list[k].end == i) then 0 else m[i]
  }

  /** No run starts between q and the first token, or overlaps it. */
  lemma {:induction false} NextRun(m0: Memory, s: nat, end: nat, chars: set<Byte>, q: nat,
                                   b: nat, e: nat, b': nat, e': nat)
    requires s <= q <= b < e <= end < |m0|
    requires forall i :: q <= i < b ==> m0[i] in chars
    requires forall i :: b <= i < e ==> m0[i] !in chars
    requires e < end ==> m0[e] in chars
    requires q <= b' && IsRun(m0, s, end, chars, b', e')
    ensures (b' == b && e' == e) || b' > e
  {
    var before := if b' > s then m0[b' - 1] else 0;
    var first, last, mine := m0[b'], m0[e'], m0[e];
  }

  lemma {:induction false} PrependToken(m0: Memory, s: nat, end: nat, chars: set<Byte>,
                                        q: nat, token: Token, list: seq<Token>)
    requires s <= q <= token.start < token.end < end < |m0|
    requires forall i :: q <= i < token.start ==> m0[i] in chars
    requires IsRun(m0, s, end, chars, token.start, token.end)
    requires IsRunList(m0, s, end, chars, token.end + 1, list)
    ensures IsRunList(m0, s, end, chars, q, [token] + list)
  {
    var all := [token] + list;
    forall b: nat, e: nat | q <= b && IsRun(m0, s, end, chars, b, e) ensures Token(b, e) in all {
      NextRun(m0, s, end, chars, q, token.start, token.end, b, e);
    }
    forall j, k | 0 <= j < k < |all| ensures all[j].end < all[k].start {
      assert all[k] == list[k - 1];
      if j > 0 {
        assert all[j] == list[j - 1];
      }
    }
  }

  lemma {:induction false} LastToken(m0: Memory, s: nat, end: nat, chars: set<Byte>, q: nat, token: Token)
    requires s <= q <= token.start < token.end == end < |m0|
    requires forall i :: q <= i < token.start ==> m0[i] in chars
    requires IsRun(m0, s, end, chars, token.start, token.end)
    ensures IsRunList(m0, s, end, chars, q, [token])
  {
    forall b: nat, e: nat | q <= b && IsRun(m0, s, end, chars, b, e) ensures Token(b, e) in [token] {
      NextRun(m0, s, end, chars, q, token.start, token.end, b, e);
    }
  }

  lemma {:induction false} NoToken(m0: Memory, s: nat, end: nat, chars: set<Byte>, q: nat)
    requires q <= end < |m0| && forall i :: q <= i < end ==> m0[i] in chars
    ensures IsRunList(m0, s, end, chars, q, [])
  {
    forall b: nat, e: nat | q <= b ensures !IsRun(m0, s, end, chars, b, e) {
      if b < end {
        assert m0[b] in chars;
      }
    }
  }

  lemma {:induction false} ClearedThenMore(m: Memory, e: nat, m': Memory, end: nat, token: Token, list: seq<Token>)
    requires e == token.end < end <= |m|
    requires OnlyEndsCleared(m[e := 0], m', end, list)
    ensures OnlyEndsCleared(m, m', end, [token] + list)
  {
    var all := [token] + list;
    forall i | 0 <= i < |m|
      ensures m'[i] == if i < end && (exists k :: 0 <= k < |all| && all[k].end == i) then 0 else m[i]
    {
      if i == e {
        assert all[0].end == i;
      } else if i < end && exists k :: 0 <= k < |list| && list[k].end == i {
        var k :| 0 <= k < |list| && list[k].end == i;
        assert all[k + 1].end == i;
      } else {
        forall k | 0 <= k < |all| && i < end ensures all[k].end != i {
          assert k > 0 ==> all[k] == list[k - 1];
        }
      }
    }
  }

  /** A chain's tokens are the maximal runs of the original text. */
  lemma {:induction false} ChainIsRunList(m0: Memory, m: Memory, s: nat, end: nat, chars: set<Byte>,
                                          q: nat, list: seq<Token>, mem: Memory)
    requires Resumes(m0, m, s, end, chars, q) && Chain(m, q, end, chars, list, mem)
    ensures IsRunList(m0, s, end, chars, q, list)
    decreases |list|
  {
    if list == [] {
      NoToken(m0, s, end, chars, q);
    } else {
      ChainHeadIsRun(m0, m, s, end, chars, q, list, mem);
      var e := list[0].end;
      assert list == [list[0]] + list[1..];
      if e == end {
        LastToken(m0, s, end, chars, q, list[0]);
        assert list == [list[0]];
      } else {
        ChainIsRunList(m0, m[e := 0], s, end, chars, e + 1, list[1..], mem);
        PrependToken(m0, s, end, chars, q, list[0], list[1..]);
      }
    }
  }

  lemma {:induction false} ChainHeadIsRun(m0: Memory, m: Memory, s: nat, end: nat, chars: set<Byte>,
                                          q: nat, list: seq<Token>, mem: Memory)
    requires Resumes(m0, m, s, end, chars, q) && Chain(m, q, end, chars, list, mem) && list != []
    ensures q <= list[0].start < list[0].end <= end
    ensures forall i :: q <= i < list[0].start ==> m0[i] in chars
    ensures IsRun(m0, s, end, chars, list[0].start, list[0].end)
    ensures list[0].end < end ==> Resumes(m0, m[list[0].end := 0], s, end, chars, list[0].end + 1)
  {
  }

  lemma {:induction false} ChainClearsOnlyEnds(m: Memory, end: nat, chars: set<Byte>,
                                               q: nat, list: seq<Token>, mem: Memory)
    requires Chain(m, q, end, chars, list, mem)
    ensures OnlyEndsCleared(m, mem, end, list)
    decreases |list|
  {
    if list == [] || list[0].end >= end {
    } else {
      var e := list[0].end;
      ChainClearsOnlyEnds(m[e := 0], end, chars, e + 1, list[1..], mem);
      ClearedThenMore(m, e, mem, end, list[0], list[1..]);
      assert list == [list[0]] + list[1..];
    }
  }

  /** The tokens of a string are its maximal delimiter-free runs, all of them, in order. */
  lemma {:induction false} TokensAreTheMaximalRuns(m: Memory, s: nat, chars: set<Byte>)
    requires IsString(m, s)
    ensures IsRunList(m, s, s + StrLen(m, s), chars, s, TokensFrom(m, s, chars).list)
  {
    hide TokensFrom, Chain, IsRunList;
    var tokens := TokensFrom(m, s, chars);
    var end := s + StrLen(m, s);
    TokensFormAChain(m, s, end, chars);
    assert Chain(m, s, end, chars, tokens.list, tokens.mem);
    ChainIsRunList(m, m, s, end, chars, s, tokens.list, tokens.mem);
  }

  /** There are at most (length + 1) / 2 of them, and bytes change only where a delimiter
      ended one. */
  lemma {:induction false} TokenizingClearsOnlyDelimiters(m: Memory, s: nat, chars: set<Byte>)
    requires IsString(m, s)
    ensures OnlyEndsCleared(m, TokensFrom(m, s, chars).mem, s + StrLen(m, s), TokensFrom(m, s, chars).list)
    ensures |TokensFrom(m, s, chars).list| <= (StrLen(m, s) + 1) / 2
  {
    hide TokensFrom, Chain, OnlyEndsCleared;
    var tokens := TokensFrom(m, s, chars);
    var end := s + StrLen(m, s);
    TokensFormAChain(m, s, end, chars);
    ChainClearsOnlyEnds(m, end, chars, s, tokens.list, tokens.mem);
    TokensAreTheMaximalRuns(m, s, chars);
  }

  ////////////////////////////////////////////////////////////////////////////
  // The calls a program makes
  ////////////////////////////////////////////////////////////////////////////

  /** A string whose bytes up to its NUL are unchanged is the same string. */
  lemma {:induction false} StringFrame(m: Memory, m': Memory, p: nat)
    requires IsString(m, p) && |m'| == |m|
    requires forall i :: p <= i <= p + StrLen(m, p) ==> m'[i] == m[i]
    ensures IsString(m', p) && StrLen(m', p) == StrLen(m, p) && Chars(m', p) == Chars(m, p)
  {
  }

  /** The delimiter string lies outside the text m[from..end]. */
  ghost predicate Apart(m: Memory, delim: nat, from: nat, end: nat)
    requires IsString(m, delim)
  {
    delim + StrLen(m, delim) < from || end <= delim
  }

  function NullCalls(delim: nat, n: nat): seq<Call> {
    seq(n, _ => Call(None, delim))
  }

  /** The first n results: the tokens, then nulls. */
  function Results(list: seq<Token>, n: nat): seq<Option<nat>> {
    seq(n, i => if 0 <= i < |list| then Some(list[i].start) else None)
  }

  lemma {:induction false} NullForEver(m: Memory, delim: nat, n: nat)
    requires IsString(m, delim)
    ensures RunStrtok(m, None, NullCalls(delim, n)) == Session(Results([], n), m, None)
    decreases n
  {
    if n == 0 {
    } else {
      NullForEver(m, delim, n - 1);
      assert NullCalls(delim, n)[1..] == NullCalls(delim, n - 1);
      assert [None] + Results([], n - 1) == Results([], n);
    }
  }

  /** Null-argument calls from a resume pointer return the tokens, then null for ever. */
  lemma {:induction false} SessionReturnsTokens(m: Memory, q: nat, delim: nat, n: nat)
    requires IsString(m, q) && IsString(m, delim) && Apart(m, delim, q, q + StrLen(m, q))
    ensures RunStrtok(m, Some(q), NullCalls(delim, n)).tokens
         == Results(TokensFrom(m, q, Chars(m, delim)).list, n)
    ensures |TokensFrom(m, q, Chars(m, delim)).list| <= n ==>
      RunStrtok(m, Some(q), NullCalls(delim, n)).mem == TokensFrom(m, q, Chars(m, delim)).mem
    decreases n, 0
  {
    hide StrtokFrom, TokensFrom;
    TokensFromUnfolds(m, q, Chars(m, delim));
    if n == 0 {
    } else {
      var calls := NullCalls(delim, n);
      assert calls[0] == Call(None, delim);
      assert calls[1..] == NullCalls(delim, n - 1);
      OneTokenThenSession(m, q, delim, n - 1);
    }
  }

  /** One call from `from` and the null-argument calls after it. */
  lemma {:induction false} OneTokenThenSession(m: Memory, from: nat, delim: nat, n: nat)
    requires IsString(m, from) && IsString(m, delim) && Apart(m, delim, from, from + StrLen(m, from))
    ensures var o := StrtokFrom(m, from, Chars(m, delim));
      [o.token] + RunStrtok(o.mem, o.resume, NullCalls(delim, n)).tokens
      == Results(TokensFrom(m, from, Chars(m, delim)).list, n + 1)
    ensures |TokensFrom(m, from, Chars(m, delim)).list| <= n + 1 ==>
      var o := StrtokFrom(m, from, Chars(m, delim));
      RunStrtok(o.mem, o.resume, NullCalls(delim, n)).mem == TokensFrom(m, from, Chars(m, delim)).mem
    decreases n, 1
  {
    hide StrtokFrom, TokensFrom, RunStrtok, OneToken, IsString, Chars, Results, StrLen, NullCalls;
    var chars := Chars(m, delim);
    var o := StrtokFrom(m, from, chars);
    var list := TokensFrom(m, from, chars).list;
    StrtokFromIsOneToken(m, from, chars);
    TokensFromUnfolds(m, from, chars);
    DelimiterSurvives(m, from, delim, o);
    if o.resume.None? {
      NullForEver(o.mem, delim, n);
      FirstResult(list, [], n);
    } else {
      ResumeIsString(m, from, from + StrLen(m, from), chars, o);
      SessionReturnsTokens(o.mem, o.resume.value, delim, n);
      FirstResult(list, TokensFrom(o.mem, o.resume.value, chars).list, n);
    }
  }

  /** The delimiter string is not touched. */
  lemma {:induction false} DelimiterSurvives(m: Memory, from: nat, delim: nat, o: Outcome<Option<nat>>)
    requires IsString(m, from) && IsString(m, delim) && Apart(m, delim, from, from + StrLen(m, from))
    requires OneToken(m, from, from + StrLen(m, from), Chars(m, delim), o)
    ensures IsString(o.mem, delim) && Chars(o.mem, delim) == Chars(m, delim)
    ensures StrLen(o.mem, delim) == StrLen(m, delim)
  {
    StringFrame(m, o.mem, delim);
  }

  lemma {:induction false} FirstResult(list: seq<Token>, rest: seq<Token>, n: nat)
    requires if list == [] then rest == [] else list == [list[0]] + rest
    ensures [if list == [] then None else Some(list[0].start)] + Results(rest, n) == Results(list, n + 1)
  {
  }

  /** [b, e) is a maximal run of bytes of the text m[s..end] that occur at no index of the
      delimiter string m[delim..stop]. */
  ghost predicate IsRunOfBytes(m: Memory, s: nat, end: nat, delim: nat, stop: nat, b: nat, e: nat)
    requires end < |m| && stop < |m|
  {
    && s <= b < e <= end
    && (forall i, k :: b <= i < e && delim <= k < stop ==> m[k] != m[i])
    && (b == s || exists k :: delim <= k < stop && m[k] == m[b - 1])
    && (e == end || exists k :: delim <= k < stop && m[k] == m[e])
  }

  lemma {:induction false} RunsByBytes(m: Memory, s: nat, end: nat, delim: nat, b: nat, e: nat)
    requires IsString(m, delim) && end < |m|
    ensures IsRunOfBytes(m, s, end, delim, delim + StrLen(m, delim), b, e) <==>
            IsRun(m, s, end, Chars(m, delim), b, e)
  {
    hide StrLen, Chars;
    forall x: Byte
      ensures x in Chars(m, delim) <==> exists k :: delim <= k < delim + StrLen(m, delim) && m[k] == x
    {
      CharsAre(m, delim, x);
    }
  }

  /** The runs, in order: each is in the list, each entry is one, and an entry ends before the
      next begins. */
  ghost predicate RunsInOrder(m: Memory, s: nat, end: nat, delim: nat, stop: nat, list: seq<Token>)
    requires end < |m| && stop < |m|
  {
    && (forall b: nat, e: nat :: IsRunOfBytes(m, s, end, delim, stop, b, e) <==> Token(b, e) in list)
    && forall j, k :: 0 <= j < k < |list| ==> list[j].end < list[k].start
  }

  lemma {:induction false} TokensAreRunsOfBytes(m: Memory, s: nat, delim: nat)
    requires IsString(m, s) && IsString(m, delim)
    ensures RunsInOrder(m, s, s + StrLen(m, s), delim, delim + StrLen(m, delim),
                        TokensFrom(m, s, Chars(m, delim)).list)
  {
    hide TokensFrom, IsRun, IsRunOfBytes, StrLen, Chars;
    var chars, end := Chars(m, delim), s + StrLen(m, s);
    var list := TokensFrom(m, s, chars).list;
    TokensAreTheMaximalRuns(m, s, chars);
    forall b: nat, e: nat
      ensures IsRunOfBytes(m, s, end, delim, delim + StrLen(m, delim), b, e) <==> Token(b, e) in list
    {
      RunsByBytes(m, s, end, delim, b, e);
      if IsRun(m, s, end, chars, b, e) {
        RunStartsInside(m, s, end, chars, b, e);
      }
    }
  }

  lemma {:induction false} RunStartsInside(m: Memory, s: nat, end: nat, chars: set<Byte>, b: nat, e: nat)
    requires end < |m| && IsRun(m, s, end, chars, b, e)
    ensures s <= b
  {
  }

  /** The same in terms of TokensFrom. */
  lemma {:induction false} CallsOnAString(m: Memory, p: Option<nat>, s: nat, delim: nat, n: nat)
    requires IsString(m, s) && IsString(m, delim) && Apart(m, delim, s, s + StrLen(m, s))
    ensures RunStrtok(m, p, [Call(Some(s), delim)] + NullCalls(delim, n)).tokens
         == Results(TokensFrom(m, s, Chars(m, delim)).list, n + 1)
    ensures |TokensFrom(m, s, Chars(m, delim)).list| <= n + 1 ==>
      RunStrtok(m, p, [Call(Some(s), delim)] + NullCalls(delim, n)).mem == TokensFrom(m, s, Chars(m, delim)).mem
  {
    hide StrtokFrom, TokensFrom, Results, NullCalls, Apart, StrLen, Chars, IsString;
    var c := Call(Some(s), delim);
    var calls := [c] + NullCalls(delim, n);
    assert calls[0] == c && calls[1..] == NullCalls(delim, n);
    OneTokenThenSession(m, s, delim, n);
  }

  /** strtok on a fresh string, then n times with null arguments: the tokens, which are the
      maximal runs of bytes that are not in the delimiter string, in order, then null for
      ever; once they are all out, only the bytes that ended a token have changed, to NUL. */
  lemma {:induction false} TokenizingAString(m: Memory, p: Option<nat>, s: nat, delim: nat, n: nat)
    requires IsString(m, s) && IsString(m, delim) && Apart(m, delim, s, s + StrLen(m, s))
    ensures RunStrtok(m, p, [Call(Some(s), delim)] + NullCalls(delim, n)).tokens
         == Results(TokensFrom(m, s, Chars(m, delim)).list, n + 1)
    ensures |TokensFrom(m, s, Chars(m, delim)).list| <= n + 1 ==>
      RunStrtok(m, p, [Call(Some(s), delim)] + NullCalls(delim, n)).mem == TokensFrom(m, s, Chars(m, delim)).mem
    ensures RunsInOrder(m, s, s + StrLen(m, s), delim, delim + StrLen(m, delim),
                        TokensFrom(m, s, Chars(m, delim)).list)
    ensures OnlyEndsCleared(m, TokensFrom(m, s, Chars(m, delim)).mem, s + StrLen(m, s),
                            TokensFrom(m, s, Chars(m, delim)).list)
  {
    hide StrtokFrom, TokensFrom, Results, NullCalls, Apart, StrLen, Chars, IsString, RunStrtok,
      RunsInOrder, OnlyEndsCleared;
    CallsOnAString(m, p, s, delim, n);
    TokensAreRunsOfBytes(m, s, delim);
    TokenizingClearsOnlyDelimiters(m, s, Chars(m, delim));
  }
}
