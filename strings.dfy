/** The Python `str` operations the modelled code relies on: searching,
    `split`/`join`, `splitlines`, `strip`, `lower`, decimal rendering and
    the code-point ordering that `sorted` uses. */
module Strings {
  import opened Errors

  predicate IsDigit(c: char) { '0' <= c <= '9' }

  predicate AllDigits(s: string) { forall i :: 0 <= i < |s| ==> IsDigit(s[i]) }

  /** ASCII letters, digits and underscore: what the regular expressions'
      `\w` means under the ASCII assumption. */
  predicate IsWordChar(c: char) {
    ('a' <= c <= 'z') || ('A' <= c <= 'Z') || IsDigit(c) || c == '_'
  }

  /** The characters Python's `str.isspace` accepts. */
  predicate IsSpace(c: char) {
    c == ' ' || ('\t' <= c <= '\r') || ('\U{1c}' <= c <= '\U{1f}') || c == '\U{85}' || c == '\U{a0}'
    || c == '\U{1680}' || ('\U{2000}' <= c <= '\U{200a}') || c == '\U{2028}' || c == '\U{2029}'
    || c == '\U{202f}' || c == '\U{205f}' || c == '\U{3000}'
  }

  /** The characters at which Python's `str.splitlines` breaks a line. */
  predicate IsLineBoundary(c: char) {
    c == '\n' || c == '\r' || c == '\U{0b}' || c == '\U{0c}' || ('\U{1c}' <= c <= '\U{1e}')
    || c == '\U{85}' || c == '\U{2028}' || c == '\U{2029}'
  }

  // ---------------------------------------------------------------------
  // Searching

  /** `sep` occurs in `s` starting at position `k`. */
  predicate OccursAt(s: string, sep: string, k: nat) {
    k + |sep| <= |s| && s[k..k + |sep|] == sep
  }

  /** The first occurrence of `sep` in `s` at or after `i`. */
  function FindFrom(s: string, sep: string, i: nat): (r: Option<nat>)
    ensures r.Some? ==> i <= r.value && OccursAt(s, sep, r.value)
    ensures r.Some? ==> forall k :: i <= k < r.value ==> !OccursAt(s, sep, k)
    ensures r.None? ==> forall k :: i <= k ==> !OccursAt(s, sep, k)
    decreases |s| - i
  {
    if OccursAt(s, sep, i) then Some(i)
    else if i >= |s| then None
    else FindFrom(s, sep, i + 1)
  }

  /** `s.find(sep)`, with `None` for Python's -1. */
  function Find(s: string, sep: string): (r: Option<nat>)
    ensures r.Some? ==> OccursAt(s, sep, r.value) && forall k: nat :: k < r.value ==> !OccursAt(s, sep, k)
    ensures r.None? ==> forall k: nat :: !OccursAt(s, sep, k)
  {
    FindFrom(s, sep, 0)
  }

  /** Python's `sub in s`. */
  predicate Contains(s: string, sub: string) { Find(s, sub).Some? }

  lemma FindIs(s: string, sep: string, k: nat)
    requires OccursAt(s, sep, k)
    requires forall j: nat :: j < k ==> !OccursAt(s, sep, j)
    ensures Find(s, sep) == Some(k)
  {
  }

  /** An occurrence that lies inside a prefix is an occurrence in the whole. */
  lemma OccursInPrefix(x: string, y: string, sep: string, k: nat)
    requires k + |sep| <= |x|
    ensures OccursAt(x + y, sep, k) <==> OccursAt(x, sep, k)
  {
    assert (x + y)[k..k + |sep|] == x[k..k + |sep|];
  }

  /** An occurrence anywhere in `x` is an occurrence in `x + y`. */
  lemma ContainsExtends(x: string, y: string, sub: string)
    requires Contains(x, sub)
    ensures Contains(x + y, sub)
  {
    var k := Find(x, sub).value;
    OccursInPrefix(x, y, sub, k);
  }

  // ---------------------------------------------------------------------
  // split / join

  /** Python's `s.split(sep)` for a non-empty separator. */
  function Split(s: string, sep: string): (r: seq<string>)
    requires |sep| > 0
    ensures |r| >= 1
    decreases |s|
  {
    match Find(s, sep)
    case None => [s]
    case Some(k) => [s[..k]] + Split(s[k + |sep|..], sep)
  }

  /** Python's `sep.join(parts)`. */
  function Join(parts: seq<string>, sep: string): string
  {
    if |parts| == 0 then ""
    else if |parts| == 1 then parts[0]
    else parts[0] + sep + Join(parts[1..], sep)
  }

  /** A string is its three slices around two positions. */
  lemma Slices(s: string, i: nat, j: nat)
    requires i <= j <= |s|
    ensures s == s[..i] + s[i..j] + s[j..]
  {
    assert s[..i] + s[i..j] == s[..j];
  }

  /** Joining a piece in front of at least one more. */
  lemma JoinCons(a: string, parts: seq<string>, sep: string)
    requires |parts| > 0
    ensures Join([a] + parts, sep) == a + sep + Join(parts, sep)
  {
    assert ([a] + parts)[1..] == parts;
  }

  /** Joining the pieces of a split gives back the string. */
  lemma {:induction false} JoinSplit(s: string, sep: string)
    requires |sep| > 0
    ensures Join(Split(s, sep), sep) == s
    decreases |s|
  {
    if Find(s, sep).Some? {
      var k := Find(s, sep).value;
      var rest := s[k + |sep|..];
      SplitAt(s, sep, k);
      JoinSplit(rest, sep);
      JoinCons(s[..k], Split(rest, sep), sep);
      Slices(s, k, k + |sep|);
    }
  }

  /** No piece of a split contains the separator. */
  lemma {:induction false} SplitPiecesFree(s: string, sep: string)
    requires |sep| > 0
    ensures forall p :: p in Split(s, sep) ==> !Contains(p, sep)
    decreases |s|
  {
    match Find(s, sep)
    case None =>
    case Some(k) =>
      SplitPiecesFree(s[k + |sep|..], sep);
      BeforeFirstIsFree(s, sep);
  }

  /** The text before the first occurrence of `sep` does not contain it. */
  lemma BeforeFirstIsFree(s: string, sep: string)
    requires |sep| > 0 && Find(s, sep).Some?
    ensures !Contains(s[..Find(s, sep).value], sep)
  {
    var k := Find(s, sep).value;
    if Contains(s[..k], sep) {
      var j := Find(s[..k], sep).value;
      assert s == s[..k] + s[k..];
      OccursInPrefix(s[..k], s[k..], sep, j);
    }
  }

  /** With a one-character separator placed after `x`, the first
      occurrence is the first one in `x`, or that separator. */
  lemma FindInConcat(x: string, sep: string, y: string)
    requires |sep| == 1
    ensures Find(x + sep + y, sep) == (if Find(x, sep).None? then Some(|x|) else Find(x, sep))
  {
    var s := x + sep + y;
    assert s == x + (sep + y);
    forall j: nat | j < |x|
      ensures OccursAt(s, sep, j) <==> OccursAt(x, sep, j)
    {
      OccursInPrefix(x, sep + y, sep, j);
    }
    match Find(x, sep)
    case None =>
      assert OccursAt(s, sep, |x|);
      FindIs(s, sep, |x|);
    case Some(k) =>
      FindIs(s, sep, k);
  }

  /** One step of a split at the first occurrence of the separator. */
  lemma SplitAt(s: string, sep: string, k: nat)
    requires |sep| > 0 && Find(s, sep) == Some(k)
    ensures Split(s, sep) == [s[..k]] + Split(s[k + |sep|..], sep)
  {
  }

  /** For a one-character separator, splitting distributes over a
      separator placed between two strings. */
  lemma {:induction false} SplitConcat(x: string, sep: string, y: string)
    requires |sep| == 1
    ensures Split(x + sep + y, sep) == Split(x, sep) + Split(y, sep)
    decreases |x|
  {
    var s := x + sep + y;
    FindInConcat(x, sep, y);
    match Find(x, sep)
    case None =>
      SplitConcatLast(x, sep, y);
    case Some(k) =>
      var head, rest := x[..k], x[k + 1..];
      SplitAt(s, sep, k);
      SplitAt(x, sep, k);
      assert s[..k] == head;
      assert s[k + 1..] == rest + sep + y;
      SplitConcat(rest, sep, y);
      assert Split(s, sep) == [head] + (Split(rest, sep) + Split(y, sep));
      PrependAssoc(head, Split(rest, sep), Split(y, sep));
  }

  /** The case of SplitConcat where `x` holds no separator. */
  lemma SplitConcatLast(x: string, sep: string, y: string)
    requires |sep| == 1 && Find(x, sep).None?
    ensures Split(x + sep + y, sep) == [x] + Split(y, sep)
  {
    var s := x + sep + y;
    FindInConcat(x, sep, y);
    SplitAt(s, sep, |x|);
    assert s[..|x|] == x;
    assert s[|x| + 1..] == y;
  }

  lemma PrependAssoc(a: string, b: seq<string>, c: seq<string>)
    ensures [a] + (b + c) == ([a] + b) + c
  {
  }

  /** The character `c` does not occur in `s`. */
  predicate Lacks(s: string, c: char) {
    forall i :: 0 <= i < |s| ==> s[i] != c
  }

  /** A one-character separator is contained exactly when its character
      occurs. */
  lemma ContainsChar(s: string, c: char)
    ensures Contains(s, [c]) <==> !Lacks(s, c)
  {
    if Contains(s, [c]) {
      var k := Find(s, [c]).value;
      assert s[k..k + 1][0] == s[k];
    } else {
      forall i | 0 <= i < |s|
        ensures s[i] != c
      {
        assert !OccursAt(s, [c], i);
        assert s[i..i + 1] == [s[i]];
      }
    }
  }

  /** Splitting a join of lines free of the separator gives the lines back. */
  lemma {:induction false} SplitJoin(lines: seq<string>, c: char)
    requires |lines| > 0
    requires forall l :: l in lines ==> Lacks(l, c)
    ensures Split(Join(lines, [c]), [c]) == lines
  {
    ContainsChar(lines[0], c);
    if |lines| > 1 {
      SplitConcat(lines[0], [c], Join(lines[1..], [c]));
      SplitJoin(lines[1..], c);
    }
  }

  /** A character missing from a string is missing from every piece of
      its split. */
  lemma {:induction false} SplitPiecesLack(s: string, sep: string, c: char)
    requires |sep| > 0 && Lacks(s, c)
    ensures forall p :: p in Split(s, sep) ==> Lacks(p, c)
    decreases |s|
  {
    match Find(s, sep)
    case None =>
    case Some(k) =>
      SplitPiecesLack(s[k + |sep|..], sep, c);
  }

  /** `s.split(sep, 1)`: at most one split, at the first occurrence. */
  function SplitOnce(s: string, sep: string): (r: seq<string>)
    requires |sep| > 0
    ensures 1 <= |r| <= 2
    ensures |r| == 1 <==> !Contains(s, sep)
    ensures |r| == 1 ==> r[0] == s
    ensures |r| == 2 ==> s == r[0] + sep + r[1] && !Contains(r[0], sep)
  {
    match Find(s, sep)
    case None => [s]
    case Some(k) =>
      assert s == s[..k] + sep + s[k + |sep|..];
      BeforeFirstIsFree(s, sep);
      [s[..k], s[k + |sep|..]]
  }

  // ---------------------------------------------------------------------
  // Scanning

  /** The length of the longest prefix whose characters all satisfy `p`. */
  function SpanLength(s: string, p: char -> bool): (n: nat)
    ensures n <= |s|
    ensures forall i :: 0 <= i < n ==> p(s[i])
    ensures n < |s| ==> !p(s[n])
  {
    if |s| > 0 && p(s[0]) then 1 + SpanLength(s[1..], p) else 0
  }

  /** The longest prefix whose characters all satisfy `p`, and the rest. */
  function TakeWhile(s: string, p: char -> bool): (r: (string, string))
    ensures r.0 + r.1 == s
    ensures forall i :: 0 <= i < |r.0| ==> p(r.0[i])
    ensures |r.1| > 0 ==> !p(r.1[0])
  {
    var n := SpanLength(s, p);
    assert s == s[..n] + s[n..];
    (s[..n], s[n..])
  }

  /** A string made of a run of `p`-characters followed by text that does not
      start with one scans back into exactly those two parts. */
  lemma TakeWhileOf(t: string, u: string, p: char -> bool)
    requires forall i :: 0 <= i < |t| ==> p(t[i])
    requires |u| > 0 ==> !p(u[0])
    ensures TakeWhile(t + u, p) == (t, u)
  {
    assert (t + u)[..|t|] == t && (t + u)[|t|..] == u;
  }

  /** `s.splitlines()`. */
  function SplitLines(s: string): (r: seq<string>)
    ensures forall k, i :: 0 <= k < |r| && 0 <= i < |r[k]| ==> !IsLineBoundary(r[k][i])
    decreases |s|
  {
    if |s| == 0 then []
    else
      var (line, rest) := TakeWhile(s, c => !IsLineBoundary(c));
      if |rest| == 0 then [line]
      else if |rest| >= 2 && rest[0] == '\r' && rest[1] == '\n' then [line] + SplitLines(rest[2..])
      else [line] + SplitLines(rest[1..])
  }

  // ---------------------------------------------------------------------
  // strip / lower

  /** Drops leading characters that satisfy `p`. */
  function TrimStart(s: string, p: char -> bool): (r: string)
    ensures |r| <= |s| && r == s[|s| - |r|..]
    ensures forall i :: 0 <= i < |s| - |r| ==> p(s[i])
    ensures |r| > 0 ==> !p(r[0])
  {
    if |s| > 0 && p(s[0]) then
      var r := TrimStart(s[1..], p);
      assert s[1..][|s| - 1 - |r|..] == s[|s| - |r|..];
      assert forall i :: 1 <= i < |s| - |r| ==> s[i] == s[1..][i - 1];
      r
    else s
  }

  /** Drops trailing characters that satisfy `p`. */
  function TrimEnd(s: string, p: char -> bool): (r: string)
    ensures |r| <= |s| && r == s[..|r|]
    ensures forall i :: |r| <= i < |s| ==> p(s[i])
    ensures |r| > 0 ==> !p(r[|r| - 1])
  {
    if |s| > 0 && p(s[|s| - 1]) then
      var r := TrimEnd(s[..|s| - 1], p);
      assert s[..|s| - 1][..|r|] == s[..|r|];
      r
    else s
  }

  /** `s.strip(chars)` where `p` tells which characters are stripped. */
  function Strip(s: string, p: char -> bool): string
  {
    TrimEnd(TrimStart(s, p), p)
  }

  function LowerChar(c: char): char
  {
    if 'A' <= c <= 'Z' then (c as int + 32) as char else c
  }

  /** `s.lower()` for ASCII text. */
  function Lower(s: string): (r: string)
    ensures |r| == |s|
    ensures forall i :: 0 <= i < |s| ==> r[i] == LowerChar(s[i])
  {
    seq(|s|, i requires 0 <= i < |s| => LowerChar(s[i]))
  }

  // ---------------------------------------------------------------------
  // Decimal rendering, as `str(int)` and `format` produce it

  function DigitChar(d: nat): (c: char)
    requires d < 10
    ensures IsDigit(c)
  {
    ('0' as int + d) as char
  }

  function DigitValue(c: char): nat
    requires IsDigit(c)
  {
    c as int - '0' as int
  }

  function NatToString(n: nat): (r: string)
    ensures |r| > 0 && AllDigits(r)
    decreases n
  {
    if n < 10 then [DigitChar(n)] else NatToString(n / 10) + [DigitChar(n % 10)]
  }

  /** `str(i)` for a Python `int`. */
  function IntToString(i: int): string
  {
    if i < 0 then "-" + NatToString(-i) else NatToString(i)
  }

  /** The value of a string of decimal digits. */
  function ParseNat(s: string): nat
    requires AllDigits(s)
  {
    if |s| == 0 then 0 else ParseNat(s[..|s| - 1]) * 10 + DigitValue(s[|s| - 1])
  }

  /** Rendering a natural number in decimal can be read back. */
  lemma {:induction false} ParseNatToString(n: nat)
    ensures ParseNat(NatToString(n)) == n
    decreases n
  {
    if n >= 10 {
      var s := NatToString(n / 10) + [DigitChar(n % 10)];
      assert s[..|s| - 1] == NatToString(n / 10);
      ParseNatToString(n / 10);
    }
  }

  // ---------------------------------------------------------------------
  // The ordering `sorted` uses on `str`: lexicographic by code point

  predicate LessEq(a: string, b: string)
    decreases |a|
  {
    |a| == 0 || (|b| > 0 && (a[0] < b[0] || (a[0] == b[0] && LessEq(a[1..], b[1..]))))
  }

  lemma {:induction false} LessEqRefl(a: string)
    ensures LessEq(a, a)
    decreases |a|
  {
    if |a| > 0 { LessEqRefl(a[1..]); }
  }

  lemma {:induction false} LessEqTotal(a: string, b: string)
    ensures LessEq(a, b) || LessEq(b, a)
    decreases |a|
  {
    if |a| > 0 && |b| > 0 && a[0] == b[0] {
      LessEqTotal(a[1..], b[1..]);
    }
  }

  lemma {:induction false} LessEqTrans(a: string, b: string, c: string)
    requires LessEq(a, b) && LessEq(b, c)
    ensures LessEq(a, c)
    decreases |a|
  {
    if |a| > 0 && a[0] == b[0] && b[0] == c[0] {
      LessEqTrans(a[1..], b[1..], c[1..]);
    }
  }

  lemma {:induction false} LessEqAntisym(a: string, b: string)
    requires LessEq(a, b) && LessEq(b, a)
    ensures a == b
    decreases |a|
  {
    if |a| > 0 {
      LessEqAntisym(a[1..], b[1..]);
      assert a == [a[0]] + a[1..] && b == [b[0]] + b[1..];
    }
  }

  predicate Sorted(s: seq<string>)
  {
    forall i, j :: 0 <= i < j < |s| ==> LessEq(s[i], s[j])
  }

  lemma BelowAll(x: string, s: seq<string>)
    requires Sorted(s) && |s| > 0 && LessEq(x, s[0])
    ensures forall j :: 0 <= j < |s| ==> LessEq(x, s[j])
  {
    forall j | 0 <= j < |s| ensures LessEq(x, s[j]) {
      if j > 0 { LessEqTrans(x, s[0], s[j]); }
    }
  }

  lemma HeadBelowInserted(x: string, s: seq<string>, t: seq<string>)
    requires Sorted(s) && |s| > 0 && LessEq(s[0], x)
    requires multiset(t) == multiset(s[1..]) + multiset{x}
    ensures forall j :: 0 <= j < |t| ==> LessEq(s[0], t[j])
  {
    forall j | 0 <= j < |t| ensures LessEq(s[0], t[j]) {
      assert t[j] in multiset(t);
      if t[j] != x {
        assert t[j] in multiset(s[1..]);
        var m :| 0 <= m < |s[1..]| && s[1..][m] == t[j];
        assert s[m + 1] == t[j];
      }
    }
  }

  /** Inserts `x` into a sorted sequence. */
  function Insert(x: string, s: seq<string>): (r: seq<string>)
    requires Sorted(s)
    ensures Sorted(r) && multiset(r) == multiset(s) + multiset{x}
  {
    if |s| == 0 then [x]
    else if LessEq(x, s[0]) then
      BelowAll(x, s);
      [x] + s
    else
      var t := Insert(x, s[1..]);
      assert s == [s[0]] + s[1..];
      assert multiset([s[0]] + t) == multiset{s[0]} + multiset(t);
      LessEqTotal(x, s[0]);
      HeadBelowInserted(x, s, t);
      [s[0]] + t
  }

  /** Python's `sorted` on a list of `str`. */
  function SortStrings(s: seq<string>): (r: seq<string>)
    ensures Sorted(r) && multiset(r) == multiset(s)
  {
    if |s| == 0 then []
    else
      assert s == [s[0]] + s[1..];
      Insert(s[0], SortStrings(s[1..]))
  }

  lemma SortedTail(a: seq<string>)
    requires Sorted(a) && |a| > 0
    ensures Sorted(a[1..])
  {
    forall x, y | 0 <= x < y < |a[1..]| ensures LessEq(a[1..][x], a[1..][y]) {
      assert a[1..][x] == a[x + 1] && a[1..][y] == a[y + 1];
    }
  }

  lemma SortedHeadLeast(a: seq<string>, x: string)
    requires Sorted(a) && x in a
    ensures LessEq(a[0], x)
  {
    var i :| 0 <= i < |a| && a[i] == x;
    if i == 0 { LessEqRefl(x); }
  }

  /** A sorted arrangement of a collection of strings is unique, so the
      sorting above yields exactly what `sorted` yields. */
  lemma {:induction false} SortedUnique(a: seq<string>, b: seq<string>)
    requires Sorted(a) && Sorted(b) && multiset(a) == multiset(b)
    ensures a == b
    decreases |a|
  {
    if |a| > 0 {
      assert a[0] in multiset(b);
      assert b[0] in multiset(a);
      SortedHeadLeast(b, a[0]);
      SortedHeadLeast(a, b[0]);
      LessEqAntisym(a[0], b[0]);
      assert a == [a[0]] + a[1..] && b == [b[0]] + b[1..];
      assert multiset(a[1..]) == multiset(a) - multiset{a[0]};
      assert multiset(b[1..]) == multiset(b) - multiset{b[0]};
      SortedTail(a);
      SortedTail(b);
      SortedUnique(a[1..], b[1..]);
    }
  }
}
