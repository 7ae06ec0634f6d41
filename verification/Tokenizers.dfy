/** The two tokenizers: strtok with its static pointer and strtok_r with the caller's. */
module Tokenizers {
  import opened Basics
  import opened CString

  /** Memory, resume pointer and returned token after one call. */
  datatype Outcome<T> = Outcome(mem: Memory, resume: T, token: Option<nat>)

  datatype Call = Call(str: Option<nat>, delim: nat)

  ////////////////////////////////////////////////////////////////////////////
  // One call, as a function of the memory and the resume pointer
  ////////////////////////////////////////////////////////////////////////////

  ghost function Strtok(m: Memory, p: Option<nat>, c: Call): Outcome<Option<nat>>
    requires IsString(m, c.delim)
    requires c.str.Some? ==> IsString(m, c.str.value)
    requires c.str.None? && p.Some? ==> IsString(m, p.value)
  {
    if c.str.None? && p.None? then Outcome(m, None, None)
    else StrtokFrom(m, if c.str.Some? then c.str.value else p.value, Chars(m, c.delim))
  }

  ghost function StrtokFrom(m: Memory, from: nat, chars: set<Byte>): Outcome<Option<nat>>
    requires IsString(m, from)
  {
    var start := SkipFrom(m, from, chars);
    var end := start + Span(m, start, chars, false);
    if end == start then Outcome(m, None, None)
    else if m[end] == 0 then Outcome(m, None, Some(start))
    else Outcome(m[end := 0], Some(end + 1), Some(start))
  }

  ghost function StrtokR(m: Memory, saved: nat, c: Call): Outcome<nat>
    requires IsString(m, c.delim)
    requires IsString(m, if c.str.Some? then c.str.value else saved)
  {
    StrtokRFrom(m, if c.str.Some? then c.str.value else saved, Chars(m, c.delim))
  }

  ghost function StrtokRFrom(m: Memory, from: nat, chars: set<Byte>): Outcome<nat>
    requires IsString(m, from)
  {
    var start := SkipFrom(m, from, chars);
    if m[start] == 0 then Outcome(m, start, None)
    else
      match FirstOf(m, start, chars)
      case None => Outcome(m, start + StrLen(m, start), Some(start))
      case Some(end) => Outcome(m[end := 0], end + 1, Some(start))
  }

  /** Past the leading delimiters. */
  ghost function SkipFrom(m: Memory, from: nat, chars: set<Byte>): (start: nat)
    requires IsString(m, from)
    ensures from <= start < |m| && IsString(m, start)
    ensures m[start] == 0 || m[start] !in chars
  {
    var start := from + Span(m, from, chars, true);
    TailIsString(m, from, start);
    start
  }

  lemma {:induction false} TailIsString(m: Memory, p: nat, q: nat)
    requires IsString(m, p) && p <= q <= p + StrLen(m, p)
    ensures IsString(m, q) && q + StrLen(m, q) == p + StrLen(m, p)
  {
  }

  /** Writing a NUL never unmakes a string. */
  lemma {:induction false} NulKeepsStrings(m: Memory, at: nat, p: nat)
    requires at < |m| && IsString(m, p)
    ensures IsString(m[at := 0], p)
  {
    var e :| p <= e < |m| && m[e] == 0;
    assert m[at := 0][e] == 0;
  }

  /** strtok after its two spans. */
  lemma {:induction false} StrtokCases(m: Memory, from: nat, chars: set<Byte>, start: nat, end: nat)
    requires IsString(m, from)
    requires start == from + Span(m, from, chars, true) && IsString(m, start)
    requires end == start + Span(m, start, chars, false)
    ensures end < |m|
    ensures StrtokFrom(m, from, chars) ==
      if end == start then Outcome(m, None, None)
      else if m[end] == 0 then Outcome(m, None, Some(start))
      else Outcome(m[end := 0], Some(end + 1), Some(start))
  {
    hide Span, StrLen;
  }

  /** strtok_r after its span: at the terminator, with no delimiter ahead, with one. */
  lemma {:induction false} StrtokRCases(m: Memory, from: nat, chars: set<Byte>,
                                        start: nat, found: Option<nat>, end: nat)
    requires IsString(m, from)
    requires start == from + Span(m, from, chars, true) && IsString(m, start)
    requires m[start] != 0 ==> found == FirstOf(m, start, chars)
    requires m[start] != 0 && found.None? ==> end == start + StrLen(m, start)
    ensures m[start] != 0 && found.Some? ==> found.value < |m|
    ensures StrtokRFrom(m, from, chars) ==
      if m[start] == 0 then Outcome(m, start, None)
      else if found.None? then Outcome(m, end, Some(start))
      else Outcome(m[found.value := 0], found.value + 1, Some(start))
  {
    hide Span, StrLen;
  }

  ////////////////////////////////////////////////////////////////////////////
  // The code
  ////////////////////////////////////////////////////////////////////////////

  /** *p = 0 */
  method PutNul(mem: array<Byte>, p: nat)
    requires p < mem.Length
    modifies mem
    ensures mem[..] == old(mem[..])[p := 0]
  {
    mem[p] := 0;
  }

  /** strtok's two spans. */
  method TokenBounds(mem: array<Byte>, from: nat, delim: nat) returns (start: nat, end: nat)
    requires IsString(mem[..], from) && IsString(mem[..], delim)
    ensures start <= end < mem.Length
    ensures StrtokFrom(mem[..], from, Chars(mem[..], delim)) ==
      if end == start then Outcome(mem[..], None, None)
      else if mem[end] == 0 then Outcome(mem[..], None, Some(start))
      else Outcome(mem[..][end := 0], Some(end + 1), Some(start))
  {
    var n := Strspn(mem, from, delim);
    start := from + n;
    TailIsString(mem[..], from, start);
    var k := Strcspn(mem, start, delim);
    end := start + k;
    StrtokCases(mem[..], from, Chars(mem[..], delim), start, end);
  }

  class Tokenizer {
    var p: Option<nat>   // strtok's static pointer

    constructor ()
      ensures p == None
    {
      p := None;
    }

    method Next(mem: array<Byte>, str: Option<nat>, delim: nat) returns (r: Option<nat>)
      requires IsString(mem[..], delim)
      requires str.Some? ==> IsString(mem[..], str.value)
      requires str.None? && p.Some? ==> IsString(mem[..], p.value)
      modifies this, mem
      ensures Outcome(mem[..], p, r) == Strtok(old(mem[..]), old(p), Call(str, delim))
    {
      if str.None? && p.None? {
        return None;
      }
      var from := if str.Some? then str.value else p.value;
      var start, end := TokenBounds(mem, from, delim);
      if end == start {
        p := None;
        return None;
      }
      if mem[end] != 0 {
        PutNul(mem, end);
        p := Some(end + 1);
      } else {
        p := None;
      }
      r := Some(start);
    }
  }

  /** lfind with a NUL finds the string's end. */
  method TerminatorOf(mem: array<Byte>, start: nat) returns (end: nat)
    requires IsString(mem[..], start)
    ensures end == start + StrLen(mem[..], start)
  {
    end := Lfind(mem, start, 0);
    StrLenIs(mem[..], start, end - start);
  }

  /** strtok_r's span, then strpbrk, then lfind for the terminator when no delimiter is ahead. */
  method TokenBoundsR(mem: array<Byte>, from: nat, delim: nat)
    returns (start: nat, found: Option<nat>, end: nat)
    requires IsString(mem[..], from) && IsString(mem[..], delim)
    ensures start < mem.Length && (found.Some? ==> found.value < mem.Length)
    ensures StrtokRFrom(mem[..], from, Chars(mem[..], delim)) ==
      if mem[start] == 0 then Outcome(mem[..], start, None)
      else if found.None? then Outcome(mem[..], end, Some(start))
      else Outcome(mem[..][found.value := 0], found.value + 1, Some(start))
  {
    var n := Strspn(mem, from, delim);
    start := from + n;
    TailIsString(mem[..], from, start);
    ghost var m := mem[..];
    found, end := None, start;
    if mem[start] != 0 {
      found := Strpbrk(mem, start, delim);
      if found.None? {
        end := TerminatorOf(mem, start);
      }
    }
    StrtokRCases(m, from, Chars(m, delim), start, found, end);
  }

  class SavePointer {
    var at: nat

    constructor (at: nat)
      ensures this.at == at
    {
      this.at := at;
    }
  }

  method NextR(mem: array<Byte>, first: Option<nat>, delim: nat, save: SavePointer) returns (token: Option<nat>)
    requires IsString(mem[..], delim)
    requires IsString(mem[..], if first.Some? then first.value else save.at)
    modifies save, mem
    ensures Outcome(mem[..], save.at, token) == StrtokR(old(mem[..]), old(save.at), Call(first, delim))
  {
    hide IsString, StrLen, StrtokRFrom, Chars;
    var str := if first.None? then save.at else first.value;
    var start, found, end := TokenBoundsR(mem, str, delim);
    if mem[start] == 0 {
      save.at := start;
      return None;
    }
    token := Some(start);
    if found.None? {
      save.at := end;
    } else {
      PutNul(mem, found.value);
      save.at := found.value + 1;
    }
  }

  ////////////////////////////////////////////////////////////////////////////
  // Bisimulation
  ////////////////////////////////////////////////////////////////////////////

  /** The static pointer equals the save pointer, or is null while the save pointer is at a NUL. */
  ghost predicate Related(m: Memory, p: Option<nat>, saved: nat) {
    && (p == Some(saved) || (p.None? && saved < |m| && m[saved] == 0))
    && IsString(m, saved)
  }

  /** Behind a byte that is no NUL the string goes on, also when that byte becomes one. */
  lemma {:induction false} CutKeepsRest(m: Memory, start: nat, end: nat)
    requires IsString(m, start) && start <= end <= start + StrLen(m, start) && m[end] != 0
    ensures IsString(m[end := 0], end + 1)
  {
    var e := start + StrLen(m, start);
    assert m[end := 0][e] == 0;
  }

  /** Both find the same end of a token. */
  lemma {:induction false} EndsAgree(m: Memory, start: nat, chars: set<Byte>)
    requires IsString(m, start) && m[start] != 0
    ensures var n := Span(m, start, chars, false);
      FirstOf(m, start, chars) == if n == StrLen(m, start) then None else Some(start + n)
    ensures m[start + Span(m, start, chars, false)] == 0 <==>
            Span(m, start, chars, false) == StrLen(m, start)
  {
  }

  lemma {:induction false} TokensAgree(m: Memory, from: nat, chars: set<Byte>)
    requires IsString(m, from)
    ensures var a, b := StrtokFrom(m, from, chars), StrtokRFrom(m, from, chars);
      a.token == b.token && a.mem == b.mem && Related(a.mem, a.resume, b.resume)
  {
    hide IsString, StrtokFrom, StrtokRFrom, FirstOf;
    var start := SkipFrom(m, from, chars);
    var n := Span(m, start, chars, false);
    var end := start + n;
    StrtokCases(m, from, chars, start, end);
    if m[start] == 0 {
      StrtokRCases(m, from, chars, start, None, start);
    } else {
      EndsAgree(m, start, chars);
      StrtokRCases(m, from, chars, start, FirstOf(m, start, chars), start + StrLen(m, start));
      TailIsString(m, start, end);
      if m[end] != 0 {
        CutKeepsRest(m, start, end);
      }
    }
  }

  /** One call on related states gives the same token, the same bytes and related states. */
  lemma {:induction false} CallsAgree(m: Memory, p: Option<nat>, saved: nat, c: Call)
    requires IsString(m, c.delim)
    requires if c.str.Some? then IsString(m, c.str.value) else Related(m, p, saved)
    ensures var a, b := Strtok(m, p, c), StrtokR(m, saved, c);
      a.token == b.token && a.mem == b.mem && Related(a.mem, a.resume, b.resume)
  {
    if c.str.Some? {
      TokensAgree(m, c.str.value, Chars(m, c.delim));
    } else {
      TokensAgree(m, saved, Chars(m, c.delim));
    }
  }

  /** Every pointer the calls pass is a string. */
  ghost predicate PassesStrings(m: Memory, calls: seq<Call>) {
    forall i :: 0 <= i < |calls| ==>
      IsString(m, calls[i].delim) && (calls[i].str.Some? ==> IsString(m, calls[i].str.value))
  }

  /** The memory only ever gains NULs. */
  lemma {:induction false} CallKeepsStrings(m: Memory, saved: nat, c: Call, calls: seq<Call>)
    requires IsString(m, c.delim) && IsString(m, if c.str.Some? then c.str.value else saved)
    requires PassesStrings(m, calls)
    ensures PassesStrings(StrtokR(m, saved, c).mem, calls)
  {
    var m' := StrtokR(m, saved, c).mem;
    if m' != m {
      var at :| 0 <= at < |m| && m' == m[at := 0];
      forall i | 0 <= i < |calls|
        ensures IsString(m', calls[i].delim) && (calls[i].str.Some? ==> IsString(m', calls[i].str.value))
      {
        NulKeepsStrings(m, at, calls[i].delim);
        if calls[i].str.Some? {
          NulKeepsStrings(m, at, calls[i].str.value);
        }
      }
    }
  }

  /** The tokens a list of calls returns, and the memory and pointer it leaves; a call whose
      pointers are not strings ends the list. */
  datatype Session<T> = Session(tokens: seq<Option<nat>>, mem: Memory, resume: T)

  ghost function RunStrtok(m: Memory, p: Option<nat>, calls: seq<Call>): Session<Option<nat>>
    decreases |calls|
  {
    if calls == [] then Session([], m, p)
    else
      var c := calls[0];
      if IsString(m, c.delim) && (c.str.Some? ==> IsString(m, c.str.value))
         && (c.str.None? && p.Some? ==> IsString(m, p.value))
      then
        var o := Strtok(m, p, c);
        var rest := RunStrtok(o.mem, o.resume, calls[1..]);
        rest.(tokens := [o.token] + rest.tokens)
      else Session([], m, p)
  }

  ghost function RunStrtokR(m: Memory, saved: nat, calls: seq<Call>): Session<nat>
    decreases |calls|
  {
    if calls == [] then Session([], m, saved)
    else
      var c := calls[0];
      if IsString(m, c.delim) && IsString(m, if c.str.Some? then c.str.value else saved) then
        var o := StrtokR(m, saved, c);
        var rest := RunStrtokR(o.mem, o.resume, calls[1..]);
        rest.(tokens := [o.token] + rest.tokens)
      else Session([], m, saved)
  }

  /** strtok and strtok_r are bisimilar: over any list of calls, with delimiter strings that
      may change on every call and restarts anywhere, both return the same token or null at
      every call and leave the same bytes; the pointers stay related. */
  lemma {:induction false} TokenizersAreBisimilar(m: Memory, p: Option<nat>, saved: nat, calls: seq<Call>)
    requires PassesStrings(m, calls)
    requires Related(m, p, saved) || (calls != [] && calls[0].str.Some?)
    ensures |RunStrtok(m, p, calls).tokens| == |calls|
    ensures RunStrtok(m, p, calls).tokens == RunStrtokR(m, saved, calls).tokens
    ensures RunStrtok(m, p, calls).mem == RunStrtokR(m, saved, calls).mem
    ensures calls != [] ==> Related(RunStrtok(m, p, calls).mem, RunStrtok(m, p, calls).resume,
                                    RunStrtokR(m, saved, calls).resume)
    decreases |calls|
  {
    hide Strtok, StrtokR, IsString;
    if calls == [] {
    } else {
      var c, rest := calls[0], calls[1..];
      CallsAgree(m, p, saved, c);
      var a, b := Strtok(m, p, c), StrtokR(m, saved, c);
      CallKeepsStrings(m, saved, c, rest);
      TokenizersAreBisimilar(a.mem, a.resume, b.resume, rest);
    }
  }
}
