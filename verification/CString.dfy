/** Search, span, compare and move routines of the libc over one flat byte memory.
    Pointers are indices; a null result is None. */
module CString {
  import opened Basics

  type Memory = seq<Byte>

  ////////////////////////////////////////////////////////////////////////////
  // What strings are
  ////////////////////////////////////////////////////////////////////////////

  /** A NUL lies at or after p. */
  ghost predicate IsString(m: Memory, p: nat) {
    exists e :: p <= e < |m| && m[e] == 0
  }

  ghost function StrLen(m: Memory, p: nat): (n: nat)
    requires IsString(m, p)
    ensures p + n < |m| && m[p + n] == 0
    ensures forall i :: p <= i < p + n ==> m[i] != 0
    decreases |m| - p
  {
    if m[p] == 0 then 0 else 1 + StrLen(m, p + 1)
  }

  /** The first NUL is the only position with nothing but non-NULs before it. */
  lemma {:induction false} StrLenIs(m: Memory, p: nat, n: nat)
    requires p + n < |m| && m[p + n] == 0
    requires forall i :: p <= i < p + n ==> m[i] != 0
    ensures IsString(m, p) && StrLen(m, p) == n
  {
  }

  /** The bytes of the string at p, without its NUL. */
  ghost function Chars(m: Memory, p: nat): set<Byte>
    requires IsString(m, p)
  {
    set i | p <= i < p + StrLen(m, p) :: m[i]
  }

  /** A byte is one of them exactly when it stands at some index of the string. */
  lemma {:induction false} CharsAre(m: Memory, p: nat, b: Byte)
    requires IsString(m, p)
    ensures b in Chars(m, p) <==> exists k :: p <= k < p + StrLen(m, p) && m[k] == b
  {
  }

  /** How many leading bytes of the string at p are in the set (or, with `inside` false, out of it). */
  ghost function Span(m: Memory, p: nat, chars: set<Byte>, inside: bool): (n: nat)
    requires IsString(m, p)
    ensures n <= StrLen(m, p)
    ensures forall i :: p <= i < p + n ==> m[i] != 0 && (m[i] in chars <==> inside)
    ensures n < StrLen(m, p) ==> !(m[p + n] in chars <==> inside)
    decreases |m| - p
  {
    if m[p] == 0 || !(m[p] in chars <==> inside) then 0 else 1 + Span(m, p + 1, chars, inside)
  }

  /** A span is the one length with those properties. */
  lemma {:induction false} SpanIs(m: Memory, p: nat, chars: set<Byte>, inside: bool, n: nat)
    requires IsString(m, p) && n <= StrLen(m, p)
    requires forall i :: p <= i < p + n ==> (m[i] in chars <==> inside)
    requires n < StrLen(m, p) ==> !(m[p + n] in chars <==> inside)
    ensures Span(m, p, chars, inside) == n
  {
  }

  ////////////////////////////////////////////////////////////////////////////
  // strlen, strchr, lfind
  ////////////////////////////////////////////////////////////////////////////

  method Strlen(mem: array<Byte>, s: nat) returns (i: nat)
    requires IsString(mem[..], s)
    ensures i == StrLen(mem[..], s)
  {
    i := 0;
    while mem[s + i] != 0
      invariant s + i < mem.Length
      invariant forall k :: s <= k < s + i ==> mem[k] != 0
      invariant IsString(mem[..], s + i)
      decreases mem.Length - i
    {
      i := i + 1;
    }
    StrLenIs(mem[..], s, i);
  }

  /** The first c of the string, its terminator included. */
  method Strchr(mem: array<Byte>, str: nat, c: Byte) returns (r: Option<nat>)
    requires IsString(mem[..], str)
    ensures r.None? <==> c != 0 && forall k :: str <= k < str + StrLen(mem[..], str) ==> mem[k] != c
    ensures r.None? <==> c != 0 && c !in Chars(mem[..], str)
    ensures r.Some? ==>
      && str <= r.value <= str + StrLen(mem[..], str) && mem[r.value] == c
      && forall k :: str <= k < r.value ==> mem[k] != c
  {
    var s := str;
    ghost var end := str + StrLen(mem[..], str);
    while mem[s] != c
      invariant str <= s <= end
      invariant forall k :: str <= k < s ==> mem[k] != c && mem[k] != 0
      decreases end - s
    {
      if mem[s] == 0 {
        return None;
      }
      s := s + 1;
    }
    r := Some(s);
  }

  /** The first byte equal to `accept`, with no terminator to stop at. */
  method Lfind(mem: array<Byte>, str: nat, accept: Byte) returns (r: nat)
    requires exists e :: str <= e < mem.Length && mem[e] == accept
    ensures str <= r < mem.Length && mem[r] == accept
    ensures forall k :: str <= k < r ==> mem[k] != accept
  {
    var i := 0;
    ghost var e :| str <= e < mem.Length && mem[e] == accept;
    while mem[str + i] != accept
      invariant str + i <= e
      invariant forall k :: str <= k < str + i ==> mem[k] != accept
      decreases e - i
    {
      i := i + 1;
    }
    r := str + i;
  }

  ////////////////////////////////////////////////////////////////////////////
  // strspn, strcspn, strpbrk
  ////////////////////////////////////////////////////////////////////////////

  /** The first n bytes of the string at p all occur in the string `other` (or, with `inside`
      false, none does), and a byte behind them does not (or does). */
  ghost predicate SpansBytes(m: Memory, p: nat, other: nat, inside: bool, n: nat)
    requires IsString(m, p) && IsString(m, other)
  {
    var stop := other + StrLen(m, other);
    && n <= StrLen(m, p)
    && (forall i :: p <= i < p + n ==> ((exists k :: other <= k < stop && m[k] == m[i]) <==> inside))
    && (n < StrLen(m, p) ==> ((exists k :: other <= k < stop && m[k] == m[p + n]) <==> !inside))
  }

  /** A span over the characters of a string, said of the bytes of both strings. */
  lemma {:induction false} SpanByBytes(m: Memory, p: nat, other: nat, inside: bool)
    requires IsString(m, p) && IsString(m, other)
    ensures SpansBytes(m, p, other, inside, Span(m, p, Chars(m, other), inside))
  {
    hide Span, Chars, StrLen;
    var chars := Chars(m, other);
    forall b: Byte ensures b in chars <==> exists k :: other <= k < other + StrLen(m, other) && m[k] == b {
      CharsAre(m, other, b);
    }
  }

  method Strspn(mem: array<Byte>, str: nat, accept: nat) returns (ret: nat)
    requires IsString(mem[..], str) && IsString(mem[..], accept)
    ensures ret == Span(mem[..], str, Chars(mem[..], accept), true)
    ensures SpansBytes(mem[..], str, accept, true, ret)
  {
    hide StrLen, IsString, Span, SpansBytes;
    var s1 := str;
    ret := 0;
    ghost var end := str + StrLen(mem[..], str);
    ghost var chars := Chars(mem[..], accept);
    while mem[s1] != 0
      invariant s1 == str + ret <= end
      invariant forall i :: str <= i < s1 ==> mem[i] in chars
      decreases end - s1
    {
      var found := Strchr(mem, accept, mem[s1]);
      s1 := s1 + 1;
      if found.None? {
        break;
      }
      ret := ret + 1;
    }
    SpanIs(mem[..], str, chars, true, ret);
    SpanByBytes(mem[..], str, accept, true);
  }

  method Strcspn(mem: array<Byte>, str: nat, reject: nat) returns (ret: nat)
    requires IsString(mem[..], str) && IsString(mem[..], reject)
    ensures ret == Span(mem[..], str, Chars(mem[..], reject), false)
    ensures SpansBytes(mem[..], str, reject, false, ret)
  {
    hide StrLen, IsString, Span, SpansBytes;
    var s1 := str;
    ret := 0;
    ghost var end := str + StrLen(mem[..], str);
    ghost var chars := Chars(mem[..], reject);
    while mem[s1] != 0
      invariant s1 == str + ret <= end
      invariant forall i :: str <= i < s1 ==> mem[i] !in chars
      decreases end - s1
    {
      var found := Strchr(mem, reject, mem[s1]);
      if found.Some? {
        break;
      }
      s1, ret := s1 + 1, ret + 1;
    }
    SpanIs(mem[..], str, chars, false, ret);
    SpanByBytes(mem[..], str, reject, false);
  }

  /** The first byte of the string that is in the set, judged by where the inner pointer stopped. */
  ghost function FirstOf(m: Memory, p: nat, chars: set<Byte>): Option<nat>
    requires IsString(m, p)
  {
    var n := Span(m, p, chars, false);
    if n == StrLen(m, p) then None else Some(p + n)
  }

  /** r is the first byte of the string at p that occurs in the string `other`. */
  ghost predicate IsFirstOf(m: Memory, p: nat, other: nat, r: Option<nat>)
    requires IsString(m, p) && IsString(m, other)
  {
    var end, stop := p + StrLen(m, p), other + StrLen(m, other);
    && (forall i, k :: p <= i < (if r.Some? then r.value else end) && other <= k < stop && i < end ==> m[k] != m[i])
    && (r.Some? ==> p <= r.value < end && exists k :: other <= k < stop && m[k] == m[r.value])
  }

  lemma {:induction false} FirstOfByBytes(m: Memory, p: nat, other: nat)
    requires IsString(m, p) && IsString(m, other)
    ensures IsFirstOf(m, p, other, FirstOf(m, p, Chars(m, other)))
  {
    hide Span, Chars, StrLen;
    SpanByBytes(m, p, other, false);
  }

  method Strpbrk(mem: array<Byte>, start: nat, accept: nat) returns (r: Option<nat>)
    requires IsString(mem[..], start) && IsString(mem[..], accept)
    ensures r == FirstOf(mem[..], start, Chars(mem[..], accept))
    ensures IsFirstOf(mem[..], start, accept, r)
  {
    hide StrLen, Span, SpansBytes, IsFirstOf;
    var str, acc := start, accept;
    ghost var end := start + StrLen(mem[..], start);
    ghost var stop := accept + StrLen(mem[..], accept);
    ghost var chars := Chars(mem[..], accept);
    if mem[str] == 0 {
      FirstOfByBytes(mem[..], start, accept);
      return None;
    }
    while mem[str] != 0
      invariant start <= str <= end
      invariant forall i :: start <= i < str ==> mem[i] !in chars
      invariant accept <= acc <= stop
      invariant str > start ==> acc == stop
      decreases end - str
    {
      acc := accept;
      while mem[acc] != 0
        invariant accept <= acc <= stop
        invariant forall i :: accept <= i < acc ==> mem[i] != mem[str]
        decreases stop - acc
      {
        if mem[str] == mem[acc] {
          break;
        }
        acc := acc + 1;
      }
      if mem[acc] != 0 {
        assert mem[str] in chars;
        break;
      }
      assert mem[str] !in chars;
      str := str + 1;
    }
    SpanIs(mem[..], start, chars, false, str - start);
    FirstOfByBytes(mem[..], start, accept);
    if mem[acc] == 0 {
      return None;
    }
    r := Some(str);
  }

  ////////////////////////////////////////////////////////////////////////////
  // memcmp, strstr
  ////////////////////////////////////////////////////////////////////////////

  /** The first k bytes at a and b agree and lie inside the memory. */
  ghost predicate Agree(m: Memory, a: nat, b: nat, k: nat) {
    && a + k <= |m| && b + k <= |m|
    && forall i :: a <= i < a + k ==> m[i] == m[i - a + b]
  }

  /** A mismatch at offset k, the first. */
  ghost predicate MismatchAt(m: Memory, a: nat, b: nat, k: nat) {
    Agree(m, a, b, k) && a + k < |m| && b + k < |m| && m[a + k] != m[b + k]
  }

  ghost predicate SameBytes(m: Memory, a: nat, b: nat, k: nat) {
    a + k <= |m| && b + k <= |m| && m[a..a + k] == m[b..b + k]
  }

  lemma {:induction false} AgreeIsSame(m: Memory, a: nat, b: nat, k: nat)
    requires a + k <= |m| && b + k <= |m|
    ensures Agree(m, a, b, k) <==> SameBytes(m, a, b, k)
  {
    if m[a..a + k] == m[b..b + k] {
      forall i | a <= i < a + k ensures m[i] == m[i - a + b] {
        assert m[a..a + k][i - a] == m[b..b + k][i - a];
      }
    }
  }

  lemma {:induction false} AgreementStops(m: Memory, a: nat, b: nat, k: nat, j: nat)
    requires Agree(m, a, b, k) && MismatchAt(m, a, b, j)
    ensures k <= j
  {
  }

  /** Compares up to n bytes and reads nothing behind the first mismatch: all n bytes need
      to exist only when there is none.  `seen` is how many bytes of each side were read. */
  method Memcmp(mem: array<Byte>, s1: nat, s2: nat, n: nat) returns (r: int, ghost seen: nat)
    requires Agree(mem[..], s1, s2, n) || exists k: nat :: k < n && MismatchAt(mem[..], s1, s2, k)
    ensures r == 0 <==> Agree(mem[..], s1, s2, n)
    ensures r == 0 ==> seen == n
    ensures r != 0 ==>
      && 0 < seen <= n && MismatchAt(mem[..], s1, s2, seen - 1)
      && r == mem[s1 + seen - 1] as int - mem[s2 + seen - 1] as int
    ensures s1 + seen <= mem.Length && s2 + seen <= mem.Length
    ensures r == 0 ==> SameBytes(mem[..], s1, s2, n)
    ensures r != 0 ==> SameBytes(mem[..], s1, s2, seen - 1) && mem[s1 + seen - 1] != mem[s2 + seen - 1]
  {
    hide SameBytes;
    var p1, p2, left := s1, s2, n;
    while left != 0
      invariant 0 <= left <= n && p1 == s1 + (n - left) && p2 == s2 + (n - left)
      invariant Agree(mem[..], s1, s2, n - left)
    {
      ghost var k := n - left;
      assert s1 + k < mem.Length && s2 + k < mem.Length by {
        if !Agree(mem[..], s1, s2, n) {
          var j: nat :| j < n && MismatchAt(mem[..], s1, s2, j);
          AgreementStops(mem[..], s1, s2, k, j);
        }
      }
      left := left - 1;
      if mem[p1] != mem[p2] {
        assert MismatchAt(mem[..], s1, s2, k);
        AgreeIsSame(mem[..], s1, s2, k);
        return mem[p1] as int - mem[p2] as int, k + 1;
      }
      p1, p2 := p1 + 1, p2 + 1;
    }
    AgreeIsSame(mem[..], s1, s2, n);
    return 0, n;
  }

  /** The needle at s2 occurs at position a of the haystack at s1. */
  ghost predicate OccursAt(m: Memory, s1: nat, s2: nat, a: nat)
    requires IsString(m, s1) && IsString(m, s2)
  {
    && s1 <= a && a + StrLen(m, s2) <= s1 + StrLen(m, s1)
    && Agree(m, a, s2, StrLen(m, s2))
  }

  /** A compare of the needle's length at a stays within the haystack's terminator, because
      the terminator itself mismatches. */
  lemma {:induction false} TerminatorStopsCompare(m: Memory, s1: nat, s2: nat, a: nat)
    requires IsString(m, s1) && IsString(m, s2) && s1 <= a <= s1 + StrLen(m, s1)
    ensures OccursAt(m, s1, s2, a) <==> Agree(m, a, s2, StrLen(m, s2))
    ensures !OccursAt(m, s1, s2, a) ==>
      exists j: nat :: j < StrLen(m, s2) && a + j <= s1 + StrLen(m, s1) && MismatchAt(m, a, s2, j)
  {
    var n := StrLen(m, s2);
    var room := s1 + StrLen(m, s1) - a;
    if room < n {
      assert m[a + room] == 0 && m[s2 + room] != 0;
      var j := FirstMismatch(m, a, s2, room + 1);
    } else if !Agree(m, a, s2, n) {
      var j := FirstMismatch(m, a, s2, n);
    }
  }

  lemma {:induction false} FirstMismatch(m: Memory, a: nat, b: nat, n: nat) returns (j: nat)
    requires a + n <= |m| && b + n <= |m| && !Agree(m, a, b, n)
    ensures j < n && MismatchAt(m, a, b, j)
  {
    if Agree(m, a, b, n - 1) {
      j := n - 1;
    } else {
      j := FirstMismatch(m, a, b, n - 1);
    }
  }

  /** What one compare of strstr reads of the haystack. */
  lemma {:induction false} CompareStaysInside(m: Memory, s1: nat, s2: nat, a: nat, seen: nat)
    requires IsString(m, s1) && IsString(m, s2) && s1 <= a <= s1 + StrLen(m, s1)
    requires if OccursAt(m, s1, s2, a) then seen == StrLen(m, s2)
             else 0 < seen <= StrLen(m, s2) && MismatchAt(m, a, s2, seen - 1)
    ensures seen > 0 ==> a + seen - 1 <= s1 + StrLen(m, s1)
  {
    TerminatorStopsCompare(m, s1, s2, a);
    if !OccursAt(m, s1, s2, a) {
      var j: nat :| j < StrLen(m, s2) && a + j <= s1 + StrLen(m, s1) && MismatchAt(m, a, s2, j);
      AgreementStops(m, a, s2, seen - 1, j);
    }
  }

  ghost predicate NoneBefore(m: Memory, s1: nat, s2: nat, end: nat)
    requires IsString(m, s1) && IsString(m, s2)
  {
    forall a: nat :: a < end ==> !OccursAt(m, s1, s2, a)
  }

  /** r is the least occurrence, or None when there is none. */
  ghost predicate LeastOccurrence(m: Memory, s1: nat, s2: nat, r: Option<nat>)
    requires IsString(m, s1) && IsString(m, s2)
  {
    match r
    case Some(a) => OccursAt(m, s1, s2, a) && NoneBefore(m, s1, s2, a)
    case None => forall a: nat :: !OccursAt(m, s1, s2, a)
  }

  /** A search of every position before the haystack's end misses only the empty needle in
      the empty haystack. */
  lemma {:induction false} NoneBeforeTheEnd(m: Memory, s1: nat, s2: nat)
    requires IsString(m, s1) && IsString(m, s2)
    requires NoneBefore(m, s1, s2, s1 + StrLen(m, s1))
    ensures LeastOccurrence(m, s1, s2, None) <==> !(StrLen(m, s1) == 0 && StrLen(m, s2) == 0)
  {
    if StrLen(m, s2) == 0 {
      assert OccursAt(m, s1, s2, s1);
    }
  }

  /** r is the first place where the needle's bytes stand within the haystack; with None they
      stand nowhere before its end. */
  ghost predicate FirstSlice(m: Memory, s1: nat, s2: nat, r: Option<nat>)
    requires IsString(m, s1) && IsString(m, s2)
  {
    var n, end := StrLen(m, s2), s1 + StrLen(m, s1);
    && (r.Some? ==> s1 <= r.value && r.value + n <= end && m[r.value..r.value + n] == m[s2..s2 + n])
    && forall a, b :: s1 <= a < (if r.Some? then r.value else end) && b == a + n && b <= end ==>
         m[a..b] != m[s2..s2 + n]
  }

  lemma {:induction false} OccurrencesAreSlices(m: Memory, s1: nat, s2: nat, r: Option<nat>)
    requires IsString(m, s1) && IsString(m, s2)
    requires r.Some? ==> OccursAt(m, s1, s2, r.value)
    requires NoneBefore(m, s1, s2, if r.Some? then r.value else s1 + StrLen(m, s1))
    ensures FirstSlice(m, s1, s2, r)
  {
    hide StrLen, Agree;
    var n, end := StrLen(m, s2), s1 + StrLen(m, s1);
    if r.Some? {
      AgreeIsSame(m, r.value, s2, n);
    }
    forall a, b | s1 <= a < (if r.Some? then r.value else end) && b == a + n && b <= end
      ensures m[a..b] != m[s2..s2 + n]
    {
      assert !OccursAt(m, s1, s2, a);
      AgreeIsSame(m, a, s2, n);
    }
  }

  /** The least occurrence, or None when there is none, exactly when the two strings are not
      both empty; for two empty strings None although the needle occurs.  `farthest` is the
      last haystack byte any memcmp call read. */
  method Strstr(mem: array<Byte>, haystack: nat, s2: nat) returns (r: Option<nat>, ghost farthest: nat)
    requires IsString(mem[..], haystack) && IsString(mem[..], s2)
    ensures LeastOccurrence(mem[..], haystack, s2, r) <==>
            !(StrLen(mem[..], haystack) == 0 && StrLen(mem[..], s2) == 0)
    ensures StrLen(mem[..], haystack) == 0 ==> r == None
    ensures FirstSlice(mem[..], haystack, s2, r)
    ensures farthest <= haystack + StrLen(mem[..], haystack)
  {
    hide StrLen, Agree, MismatchAt, FirstSlice, SameBytes;
    var n := Strlen(mem, s2);
    var s1 := haystack;
    ghost var m := mem[..];
    ghost var end := haystack + StrLen(m, haystack);
    farthest := 0;
    while mem[s1] != 0
      invariant haystack <= s1 <= end
      invariant NoneBefore(m, haystack, s2, s1)
      invariant farthest <= end
      decreases end - s1
    {
      TerminatorStopsCompare(m, haystack, s2, s1);
      var c;
      ghost var seen;
      c, seen := Memcmp(mem, s1, s2, n);
      CompareStaysInside(m, haystack, s2, s1, seen);
      farthest := if seen > 0 && farthest < s1 + seen - 1 then s1 + seen - 1 else farthest;
      s1 := s1 + 1;
      if c == 0 {
        OccurrencesAreSlices(m, haystack, s2, Some(s1 - 1));
        return Some(s1 - 1), farthest;
      }
    }
    NoneBeforeTheEnd(m, haystack, s2);
    OccurrencesAreSlices(m, haystack, s2, None);
    r := None;
  }

  ////////////////////////////////////////////////////////////////////////////
  // memmove
  ////////////////////////////////////////////////////////////////////////////

  lemma {:induction false} SameSlice(now: Memory, was: Memory, dst: nat, src: nat, size: nat)
    requires dst + size <= |now| && src + size <= |was|
    requires forall k :: dst <= k < dst + size ==> now[k] == was[k - dst + src]
    ensures now[dst..dst + size] == was[src..src + size]
  {
    var a, b := now[dst..dst + size], was[src..src + size];
    forall j | 0 <= j < size ensures a[j] == b[j] {
      assert a[j] == now[dst + j];
    }
  }

  /** The destination gets what the source held before, however the two overlap, and no
      other byte changes. */
  method Memmove(mem: array<Byte>, dst: nat, src: nat, size: nat) returns (r: nat)
    requires dst + size <= mem.Length && src + size <= mem.Length
    modifies mem
    ensures r == dst
    ensures mem[dst..dst + size] == old(mem[src..src + size])
    ensures forall k :: 0 <= k < mem.Length && !(dst <= k < dst + size) ==> mem[k] == old(mem[k])
  {
    if dst < src {
      var i := 0;
      while i < size
        invariant i <= size
        invariant forall k :: dst <= k < dst + i ==> mem[k] == old(mem[k - dst + src])
        invariant forall k :: 0 <= k < mem.Length && !(dst <= k < dst + i) ==> mem[k] == old(mem[k])
      {
        mem[dst + i] := mem[src + i];
        i := i + 1;
      }
    } else {
      var i := size;
      while i != 0
        invariant 0 <= i <= size
        invariant forall k :: dst + i <= k < dst + size ==> mem[k] == old(mem[k - dst + src])
        invariant forall k :: 0 <= k < mem.Length && !(dst + i <= k < dst + size) ==> mem[k] == old(mem[k])
      {
        mem[dst + i - 1] := mem[src + i - 1];
        i := i - 1;
      }
    }
    SameSlice(mem[..], old(mem[..]), dst, src, size);
    r := dst;
  }
}
