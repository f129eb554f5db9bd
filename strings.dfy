/**
 * The JavaScript string operations the modelled routes use: the whitespace class of `\s` and of
 * `trim`, `substring(0, n)`, `indexOf` / `lastIndexOf` of one character, `join` and `split("\n")`.
 * A JavaScript string is a sequence of UTF-16 code units; here it is a `string` (a `seq<char>`), and
 * lengths and indices count `char`s.
 */
module Strings {

  /** JavaScript's `\s` class; `String.prototype.trim` strips exactly these characters: tab, line feed,
      vertical tab, form feed, carriage return, space, no-break space, the Unicode space separators, the
      line and paragraph separators and the byte order mark. */
  predicate IsSpace(c: char) {
    || '\t' <= c <= '\r' || c == ' ' || c == '\U{A0}' || c == '\U{1680}'
    || '\U{2000}' <= c <= '\U{200A}' || c == '\U{2028}' || c == '\U{2029}' || c == '\U{202F}'
    || c == '\U{205F}' || c == '\U{3000}' || c == '\U{FEFF}'
  }

  /** `!s.trim()`: the string is empty or holds only whitespace. */
  predicate IsBlank(s: string) {
    forall i :: 0 <= i < |s| ==> IsSpace(s[i])
  }

  /** The length of the whitespace run that starts `s`. */
  function LeadingSpace(s: string): (n: nat)
    ensures n <= |s|
    ensures IsBlank(s[..n])
    ensures n < |s| ==> !IsSpace(s[n])
  {
    if s == [] || !IsSpace(s[0]) then 0
    else
      var k := LeadingSpace(s[1..]);
      assert s[..k + 1] == [s[0]] + s[1..][..k];
      k + 1
  }

  /** The length of the whitespace run that ends `s`. */
  function TrailingSpace(s: string): (n: nat)
    ensures n <= |s|
    ensures IsBlank(s[|s| - n..])
    ensures n < |s| ==> !IsSpace(s[|s| - n - 1])
  {
    if s == [] || !IsSpace(s[|s| - 1]) then 0
    else
      var init := s[..|s| - 1];
      var k := TrailingSpace(init);
      assert s[|s| - k - 1..] == init[|init| - k..] + [s[|s| - 1]];
      k + 1
  }

  /** The bounds `[lo, hi)` of `s.trim()` inside `s`; `TrimBoundsSpec` says what they cut off. */
  function TrimBounds(s: string): (b: (nat, nat))
    ensures b.0 <= b.1 <= |s|
  {
    var lo := LeadingSpace(s);
    (lo, |s| - TrailingSpace(s[lo..]))
  }

  /** All that `trim` cuts off is whitespace, and what it keeps neither starts nor ends with whitespace;
      it keeps nothing exactly when the string is blank. */
  lemma TrimBoundsSpec(s: string)
    ensures var b := TrimBounds(s);
      && IsBlank(s[..b.0]) && IsBlank(s[b.1..])
      && (b.0 < b.1 ==> !IsSpace(s[b.0]) && !IsSpace(s[b.1 - 1]))
      && (b.0 == b.1 <==> IsBlank(s))
  {
    var lo := LeadingSpace(s);
    TrimBoundsHold(s, lo, TrailingSpace(s[lo..]));
  }

  lemma TrimBoundsHold(s: string, lo: nat, n: nat)
    requires lo == LeadingSpace(s) && n == TrailingSpace(s[lo..])
    ensures lo <= |s| - n
    ensures IsBlank(s[|s| - n..])
    ensures lo < |s| - n ==> !IsSpace(s[lo]) && !IsSpace(s[|s| - n - 1])
    ensures lo == |s| - n <==> IsBlank(s)
  {
    TrailOfSuffix(s, lo, n);
    TrimEmptyIffBlank(s, lo, n);
  }

  /** The whitespace run that ends a suffix of `s` ends `s`. */
  lemma TrailOfSuffix(s: string, lo: nat, n: nat)
    requires lo <= |s| && n == TrailingSpace(s[lo..])
    ensures n <= |s| - lo
    ensures IsBlank(s[|s| - n..])
    ensures n < |s| - lo ==> !IsSpace(s[|s| - n - 1])
  {
    var t := s[lo..];
    SuffixOfTail(s, lo, n);
    if n < |t| {
      assert t[|t| - n - 1] == s[|s| - n - 1];
    }
  }

  lemma TrimEmptyIffBlank(s: string, lo: nat, n: nat)
    requires lo <= |s| - n
    requires IsBlank(s[..lo]) && (lo < |s| ==> !IsSpace(s[lo])) && IsBlank(s[|s| - n..])
    ensures lo == |s| - n <==> IsBlank(s)
  {
    if lo == |s| - n {
      BlankConcat(s[..lo], s[lo..]);
      Halves(s, lo);
    }
  }

  /** A string is its prefix followed by its suffix. */
  lemma Halves(s: string, i: nat)
    requires i <= |s|
    ensures s == s[..i] + s[i..]
  {
  }

  /** Concatenation is associative. */
  lemma Assoc(a: string, b: string, c: string)
    ensures a + b + c == a + (b + c)
  {
  }

  /** The last `n` characters of a suffix of `s` are the last `n` characters of `s`. */
  lemma SuffixOfTail(s: string, lo: nat, n: nat)
    requires lo <= |s| && n <= |s| - lo
    ensures s[|s| - n..] == s[lo..][|s| - lo - n..]
  {
  }

  /** A slice of a slice of `s` is a slice of `s`. */
  lemma SliceOfSlice(s: string, lo: nat, hi: nat, a: nat, b: nat)
    requires lo <= a <= b <= hi <= |s|
    ensures s[lo..hi][a - lo..b - lo] == s[a..b]
  {
    var u := s[lo..hi][a - lo..b - lo];
    assert |u| == b - a;
    forall i | 0 <= i < b - a ensures u[i] == s[a..b][i] {
      assert u[i] == s[lo..hi][a - lo + i] == s[a + i];
    }
  }

  /** A suffix of a slice of `s` is a slice of `s`. */
  lemma DropOfSlice(s: string, lo: nat, hi: nat, a: nat)
    requires lo <= a <= hi <= |s|
    ensures s[lo..hi][a - lo..] == s[a..hi]
  {
  }

  /** A prefix of a slice of `s` is a slice of `s`. */
  lemma TakeOfSlice(s: string, lo: nat, hi: nat, b: nat)
    requires lo <= b <= hi <= |s|
    ensures s[lo..hi][..b - lo] == s[lo..b]
  {
  }

  lemma BlankConcat(a: string, b: string)
    ensures IsBlank(a + b) <==> IsBlank(a) && IsBlank(b)
  {
    if IsBlank(a) && IsBlank(b) {
      forall i | 0 <= i < |a + b| ensures IsSpace((a + b)[i]) {
        if i >= |a| { assert (a + b)[i] == b[i - |a|]; }
      }
    }
    if IsBlank(a + b) {
      forall i | 0 <= i < |a| ensures IsSpace(a[i]) {
        assert a[i] == (a + b)[i];
      }
      forall i | 0 <= i < |b| ensures IsSpace(b[i]) {
        assert b[i] == (a + b)[i + |a|];
      }
    }
  }

  /** `s.trim()`. */
  function Trim(s: string): (t: string)
    ensures t == [] <==> IsBlank(s)
  {
    var b := TrimBounds(s);
    TrimBoundsSpec(s);
    s[b.0..b.1]
  }

  /** `LeadingSpace` is the one run length that covers only whitespace and stops before a non-space. */
  lemma {:induction false} LeadingSpaceIs(t: string, n: nat)
    requires n <= |t|
    requires forall k :: 0 <= k < n ==> IsSpace(t[k])
    requires n < |t| ==> !IsSpace(t[n])
    ensures LeadingSpace(t) == n
  {
    if n > 0 {
      assert IsSpace(t[0]);
      var rest := t[1..];
      assert forall k :: 0 <= k < n - 1 ==> rest[k] == t[k + 1];
      LeadingSpaceIs(rest, n - 1);
    }
  }

  /** `TrailingSpace` is the one run length that covers only whitespace and stops after a non-space. */
  lemma {:induction false} TrailingSpaceIs(t: string, n: nat)
    requires n <= |t|
    requires forall k :: |t| - n <= k < |t| ==> IsSpace(t[k])
    requires n < |t| ==> !IsSpace(t[|t| - n - 1])
    ensures TrailingSpace(t) == n
  {
    if n > 0 {
      assert IsSpace(t[|t| - 1]);
      var init := t[..|t| - 1];
      assert forall k :: |init| - (n - 1) <= k < |init| ==> init[k] == t[k];
      TrailingSpaceIs(init, n - 1);
    }
  }

  /** `s.substring(0, n)` for `n >= 0`: the first `min(n, |s|)` characters. */
  function Truncate(s: string, n: nat): (t: string)
    ensures |t| == (if |s| < n then |s| else n)
    ensures t <= s
  {
    if |s| <= n then s else s[..n]
  }

  /** `s.indexOf(c)`: the first position of `c`, or -1 (`IndexOfSpec`). */
  function IndexOf(s: string, c: char): (i: int)
    ensures -1 <= i < |s|
    ensures i >= 0 ==> s[i] == c
  {
    if s == [] then -1
    else if s[0] == c then 0
    else
      var k := IndexOf(s[1..], c);
      if k == -1 then -1 else k + 1
  }

  /** `indexOf` finds the first occurrence, and -1 means there is none. */
  lemma {:induction false} IndexOfSpec(s: string, c: char)
    ensures var i := IndexOf(s, c);
      && (i >= 0 ==> c !in s[..i])
      && (i == -1 <==> c !in s)
  {
    if s != [] && s[0] != c {
      IndexOfSpec(s[1..], c);
      var k := IndexOf(s[1..], c);
      assert s == [s[0]] + s[1..];
      if k >= 0 {
        assert s[..k + 1] == [s[0]] + s[1..][..k];
      }
    }
  }

  /** `s.lastIndexOf(c)`: the last position of `c`, or -1 (`LastIndexOfSpec`). */
  function LastIndexOf(s: string, c: char): (i: int)
    ensures -1 <= i < |s|
    ensures i >= 0 ==> s[i] == c
  {
    if s == [] then -1
    else if s[|s| - 1] == c then |s| - 1
    else LastIndexOf(s[..|s| - 1], c)
  }

  /** `lastIndexOf` finds the last occurrence, and -1 means there is none. */
  lemma {:induction false} LastIndexOfSpec(s: string, c: char)
    ensures var i := LastIndexOf(s, c);
      && (i >= 0 ==> c !in s[i + 1..])
      && (i == -1 <==> c !in s)
  {
    if s != [] && s[|s| - 1] != c {
      var init := s[..|s| - 1];
      LastIndexOfSpec(init, c);
      var k := LastIndexOf(init, c);
      assert s == init + [s[|s| - 1]];
      if k >= 0 {
        assert s[k + 1..] == init[k + 1..] + [s[|s| - 1]];
      }
    }
  }

  /** `xs.join(sep)`. */
  function Join(xs: seq<string>, sep: string): string
  {
    if |xs| == 0 then "" else if |xs| == 1 then xs[0] else xs[0] + sep + Join(xs[1..], sep)
  }

  /** `s.split("\n")`: the pieces between newline characters, always at least one. */
  function Lines(s: string): (r: seq<string>)
    ensures |r| >= 1
    decreases |s|
  {
    if s == [] then [""]
    else
      var rest := Lines(s[1..]);
      if s[0] == '\n' then [""] + rest else [[s[0]] + rest[0]] + rest[1..]
  }

  /** The number a string of decimal digits spells, most significant digit first (what `parseInt(r, 10)`
      reads back). */
  function DigitsValue(r: string): nat
    requires forall i :: 0 <= i < |r| ==> '0' <= r[i] <= '9'
  {
    if r == [] then 0 else DigitsValue(r[..|r| - 1]) * 10 + (r[|r| - 1] as int - '0' as int)
  }

  /** The decimal numeral of `n`, as `${n}` writes it: digits that spell `n`, without leading zeros. */
  function NatToString(n: nat): (r: string)
    ensures |r| >= 1
    ensures forall i :: 0 <= i < |r| ==> '0' <= r[i] <= '9'
    ensures DigitsValue(r) == n
    ensures |r| > 1 ==> r[0] != '0'
  {
    var d := [(('0' as int) + n % 10) as char];
    if n < 10 then
      assert d[..0] == [];
      d
    else
      var high := NatToString(n / 10);
      var r := high + d;
      assert r[..|r| - 1] == high;
      assert |high| == 1 ==> high[..0] == [];
      r
  }

  /** A string without a newline splits into itself. */
  lemma {:induction false} LinesOfLine(s: string)
    requires '\n' !in s
    ensures Lines(s) == [s]
    decreases |s|
  {
    if s != [] {
      LinesOfLine(s[1..]);
      assert s == [s[0]] + s[1..];
    }
  }

  /** `Lines` of a string that starts with the character `c`, in terms of `Lines` of the rest. */
  lemma LinesCons(c: char, s: string)
    ensures c == '\n' ==> Lines([c] + s) == [""] + Lines(s)
    ensures c != '\n' ==> Lines([c] + s) == [[c] + Lines(s)[0]] + Lines(s)[1..]
  {
    assert ([c] + s)[1..] == s;
  }

  /** A line followed by a newline is split off as the first piece. */
  lemma {:induction false} LinesBreak(x: string, t: string)
    requires '\n' !in x
    ensures Lines(x + "\n" + t) == [x] + Lines(t)
    decreases |x|
  {
    if x == [] {
      assert x + "\n" + t == ['\n'] + t;
      LinesCons('\n', t);
    } else {
      LinesBreak(x[1..], t);
      assert x + "\n" + t == [x[0]] + (x[1..] + "\n" + t);
      LinesCons(x[0], x[1..] + "\n" + t);
      assert [x[0]] + x[1..] == x;
    }
  }

  /** `split("\n")` undoes `join("\n")` when no element holds a newline: the pieces of a split are the
      only newline-free sequence that joins back to the string. */
  lemma {:induction false} LinesOfJoin(xs: seq<string>)
    requires |xs| >= 1
    requires forall k :: 0 <= k < |xs| ==> '\n' !in xs[k]
    ensures Lines(Join(xs, "\n")) == xs
  {
    if |xs| == 1 {
      LinesOfLine(xs[0]);
    } else {
      LinesOfJoin(xs[1..]);
      LinesBreak(xs[0], Join(xs[1..], "\n"));
      assert xs == [xs[0]] + xs[1..];
    }
  }

  /** `join("\n")` undoes `split("\n")`: splitting loses nothing. */
  lemma {:induction false} JoinOfLines(s: string)
    ensures Join(Lines(s), "\n") == s
    decreases |s|
  {
    if s != [] {
      JoinOfLines(s[1..]);
      var r := Lines(s[1..]);
      LinesCons(s[0], s[1..]);
      assert s == [s[0]] + s[1..];
      if s[0] == '\n' {
        assert Lines(s) == [""] + r;
      } else if |r| == 1 {
        assert Lines(s) == [[s[0]] + r[0]];
      } else {
        assert Lines(s) == [[s[0]] + r[0]] + r[1..];
        assert Join(r, "\n") == r[0] + "\n" + Join(r[1..], "\n");
      }
    }
  }

  /** Joining two non-empty lists after fusing the last element of the first with the first element of
      the second is concatenation of the two joins. */
  lemma {:induction false} JoinFuse(xs: seq<string>, ys: seq<string>, sep: string)
    requires |xs| >= 1 && |ys| >= 1
    ensures Join(xs[..|xs| - 1] + [xs[|xs| - 1] + ys[0]] + ys[1..], sep) == Join(xs, sep) + Join(ys, sep)
    decreases |xs|
  {
    var fused := xs[..|xs| - 1] + [xs[|xs| - 1] + ys[0]] + ys[1..];
    if |xs| == 1 {
      assert fused == [xs[0] + ys[0]] + ys[1..];
      if |ys| > 1 {
        assert fused[1..] == ys[1..];
      }
    } else {
      JoinFuse(xs[1..], ys, sep);
      var rest := xs[1..][..|xs| - 2] + [xs[|xs| - 1] + ys[0]] + ys[1..];
      assert fused == [xs[0]] + rest;
      assert fused[1..] == rest;
    }
  }

  /** Every piece of a split is free of newlines. */
  lemma {:induction false} LinesHaveNoNewline(s: string)
    ensures forall k :: 0 <= k < |Lines(s)| ==> '\n' !in Lines(s)[k]
    decreases |s|
  {
    if s != [] {
      LinesHaveNoNewline(s[1..]);
      LinesCons(s[0], s[1..]);
      assert s == [s[0]] + s[1..];
    }
  }

  /** Splitting a concatenation: the last piece of `a` and the first piece of `b` fuse into one line,
      every other piece is kept. This is what lets a reader split a stream fragment by fragment. */
  lemma LinesAppend(a: string, b: string)
    ensures var la, lb := Lines(a), Lines(b);
      Lines(a + b) == la[..|la| - 1] + [la[|la| - 1] + lb[0]] + lb[1..]
  {
    var la, lb := Lines(a), Lines(b);
    var fused := la[..|la| - 1] + [la[|la| - 1] + lb[0]] + lb[1..];
    LinesHaveNoNewline(a);
    LinesHaveNoNewline(b);
    forall k | 0 <= k < |fused| ensures '\n' !in fused[k] {
      if k == |la| - 1 {
        assert fused[k] == la[|la| - 1] + lb[0];
      } else if k < |la| - 1 {
        assert fused[k] == la[k];
      } else {
        assert fused[k] == lb[k - |la| + 1];
      }
    }
    JoinFuse(la, lb, "\n");
    JoinOfLines(a);
    JoinOfLines(b);
    LinesOfJoin(fused);
  }

  /** Appending one element to a non-empty list appends the separator and the element to the join. */
  lemma {:induction false} JoinSnoc(xs: seq<string>, x: string, sep: string)
    requires |xs| >= 1
    ensures Join(xs + [x], sep) == Join(xs, sep) + sep + x
  {
    if |xs| > 1 {
      assert (xs + [x])[1..] == xs[1..] + [x];
      JoinSnoc(xs[1..], x, sep);
    }
  }

  /** Where element `k` starts in `Join(xs, sep)`: after the first `k` elements, each followed by `sep`. */
  function JoinOffset(xs: seq<string>, sep: string, k: nat): nat
    requires k <= |xs|
  {
    if k == 0 then 0 else JoinOffset(xs, sep, k - 1) + |xs[k - 1]| + |sep|
  }

  lemma {:induction false} JoinOffsetTail(xs: seq<string>, sep: string, k: nat)
    requires 1 <= k <= |xs|
    ensures JoinOffset(xs, sep, k) == |xs[0]| + |sep| + JoinOffset(xs[1..], sep, k - 1)
  {
    if k > 1 {
      JoinOffsetTail(xs, sep, k - 1);
    }
  }

  /** A slice of the second half of a concatenation. */
  lemma SliceOfAppend(a: string, b: string, i: nat, l: nat)
    requires i <= l <= |b|
    ensures (a + b)[|a| + i..|a| + l] == b[i..l]
  {
  }

  /** A slice of the first half of a concatenation. */
  lemma SliceOfPrefix(a: string, b: string, i: nat, l: nat)
    requires i <= l <= |a|
    ensures (a + b)[i..l] == a[i..l]
  {
  }

  /** The second half of a concatenation, found at the length of the first. */
  lemma SecondHalf(a: string, b: string)
    ensures (a + b)[|a|..|a| + |b|] == b
  {
  }

  /** `Join` of two or more elements: the first element, the separator, then the join of the rest. */
  lemma JoinCons(xs: seq<string>, sep: string)
    requires |xs| >= 2
    ensures Join(xs, sep) == (xs[0] + sep) + Join(xs[1..], sep)
  {
  }

  /** `xs.join(sep)` holds every element, in order, each at its offset: nothing is dropped, reordered or
      merged. */
  lemma {:induction false} JoinSlice(xs: seq<string>, sep: string, k: nat)
    requires k < |xs|
    ensures JoinOffset(xs, sep, k) + |xs[k]| <= |Join(xs, sep)|
    ensures Join(xs, sep)[JoinOffset(xs, sep, k)..JoinOffset(xs, sep, k) + |xs[k]|] == xs[k]
  {
    if k == 0 {
      JoinHead(xs, sep);
    } else {
      var tail := xs[1..];
      JoinSlice(tail, sep, k - 1);
      assert tail[k - 1] == xs[k];
      JoinSliceTail(xs, sep, k);
    }
  }

  /** The join starts with the first element. */
  lemma JoinHead(xs: seq<string>, sep: string)
    requires |xs| >= 1
    ensures |xs[0]| <= |Join(xs, sep)| && Join(xs, sep)[..|xs[0]|] == xs[0]
  {
    if |xs| > 1 {
      var t := sep + Join(xs[1..], sep);
      assert Join(xs, sep) == xs[0] + t;
      assert (xs[0] + t)[..|xs[0]|] == xs[0];
    }
  }

  /** Element `k > 0` of `xs` sits in the join at its offset when it does so in the join of the tail. */
  lemma JoinSliceTail(xs: seq<string>, sep: string, k: nat)
    requires 1 <= k < |xs|
    requires var t, o' := Join(xs[1..], sep), JoinOffset(xs[1..], sep, k - 1);
      o' + |xs[k]| <= |t| && t[o'..o' + |xs[k]|] == xs[k]
    ensures JoinOffset(xs, sep, k) + |xs[k]| <= |Join(xs, sep)|
    ensures Join(xs, sep)[JoinOffset(xs, sep, k)..JoinOffset(xs, sep, k) + |xs[k]|] == xs[k]
  {
    var h, t := xs[0] + sep, Join(xs[1..], sep);
    var o' := JoinOffset(xs[1..], sep, k - 1);
    JoinCons(xs, sep);
    JoinOffsetTail(xs, sep, k);
    SliceOfAppend(h, t, o', o' + |xs[k]|);
  }

  /** In `xs.join(sep)` every element but the last is followed by exactly `sep`, and the last element ends
      the string. */
  lemma {:induction false} JoinSeparators(xs: seq<string>, sep: string, k: nat)
    requires k < |xs|
    ensures var o := JoinOffset(xs, sep, k) + |xs[k]|;
      && (k + 1 < |xs| ==> o + |sep| <= |Join(xs, sep)| && Join(xs, sep)[o..o + |sep|] == sep)
      && (k + 1 == |xs| ==> o == |Join(xs, sep)|)
  {
    if |xs| > 1 {
      var h, t := xs[0] + sep, Join(xs[1..], sep);
      JoinCons(xs, sep);
      if k == 0 {
        assert (h + t)[|xs[0]|..|xs[0]| + |sep|] == sep;
      } else {
        var tail := xs[1..];
        JoinSeparators(tail, sep, k - 1);
        assert tail[k - 1] == xs[k];
        JoinOffsetTail(xs, sep, k);
        var o' := JoinOffset(tail, sep, k - 1) + |xs[k]|;
        if k + 1 < |xs| {
          SliceOfAppend(h, t, o', o' + |sep|);
        }
      }
    }
  }
}
