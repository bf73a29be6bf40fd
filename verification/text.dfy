/** The few JavaScript string operations the ledger's pages rely on:
    `trim`, splitting on a line-break pattern, `includes`, `replace` of one
    character, `String(n)`, `padStart` and the relational `<` on strings. */
module Text {
  import opened Wrappers
  import opened Seqs

  /** White space and line terminators as `String.prototype.trim` removes
      them (sections 12.2 and 12.3 of ECMA-262). */
  predicate IsSpace(c: char) {
    || c == '\t' || c == '\n' || c == '\U{000B}' || c == '\U{000C}' || c == '\r'
    || c == ' ' || c == '\U{00A0}' || c == '\U{1680}'
    || ('\U{2000}' <= c <= '\U{200A}')
    || c == '\U{2028}' || c == '\U{2029}' || c == '\U{202F}' || c == '\U{205F}'
    || c == '\U{3000}' || c == '\U{FEFF}'
  }

  /** Number of white-space characters at the front of `s`. */
  function LeadingSpaces(s: string): (n: nat)
    ensures n <= |s|
    ensures forall k :: 0 <= k < n ==> IsSpace(s[k])
    ensures n == |s| || !IsSpace(s[n])
  {
    if |s| == 0 || !IsSpace(s[0]) then 0 else 1 + LeadingSpaces(s[1..])
  }

  /** Number of white-space characters at the end of `s`. */
  function TrailingSpaces(s: string): (n: nat)
    ensures n <= |s|
    ensures forall k :: |s| - n <= k < |s| ==> IsSpace(s[k])
    ensures n == |s| || !IsSpace(s[|s| - n - 1])
  {
    if |s| == 0 || !IsSpace(s[|s| - 1]) then 0 else 1 + TrailingSpaces(s[..|s| - 1])
  }

  /** `s.trim()`: the slice of `s` left after dropping white space at both ends. */
  function Trim(s: string): (r: string)
    ensures LeadingSpaces(s) + |r| <= |s|
    ensures r == s[LeadingSpaces(s)..LeadingSpaces(s) + |r|]
    ensures forall k :: LeadingSpaces(s) + |r| <= k < |s| ==> IsSpace(s[k])
    ensures r == [] || (!IsSpace(r[0]) && !IsSpace(r[|r| - 1]))
    ensures r == [] <==> forall k :: 0 <= k < |s| ==> IsSpace(s[k])
  {
    TrimSlice(s)
  }

  /** The slice `Trim` returns, without the facts `Trim` promises about it,
      for proofs that only need to compare two such slices. */
  function TrimSlice(s: string): string
  {
    var rest := s[LeadingSpaces(s)..];
    rest[..|rest| - TrailingSpaces(rest)]
  }

  /** Trimming twice is trimming once. */
  lemma TrimIdempotent(s: string)
    ensures Trim(Trim(s)) == Trim(s)
  {
    var t := Trim(s);
    if t != [] {
      assert LeadingSpaces(t) == 0;
      assert TrailingSpaces(t) == 0;
    }
  }

  /** Index of the first occurrence of `c` in `s`, if any. */
  function IndexOf(s: string, c: char): (r: Option<nat>)
    ensures r.None? <==> c !in s
    ensures r.Some? ==> r.value < |s| && s[r.value] == c && c !in s[..r.value]
  {
    if |s| == 0 then None
    else if s[0] == c then Some(0)
    else match IndexOf(s[1..], c)
      case None => None
      case Some(i) =>
        assert s[..i + 1] == [s[0]] + s[1..][..i];
        Some(i + 1)
  }

  /** Number of occurrences of `c` in `s`. */
  function Count(s: string, c: char): nat {
    if |s| == 0 then 0 else (if s[0] == c then 1 else 0) + Count(s[1..], c)
  }

  lemma {:induction false} CountAppend(a: string, b: string, c: char)
    ensures Count(a + b, c) == Count(a, c) + Count(b, c)
  {
    if |a| == 0 {
      assert a + b == b;
    } else {
      assert (a + b)[1..] == a[1..] + b;
      CountAppend(a[1..], b, c);
    }
  }

  lemma {:induction false} CountAbsent(s: string, c: char)
    requires c !in s
    ensures Count(s, c) == 0
  {
    if |s| > 0 {
      CountAbsent(s[1..], c);
    }
  }

  /** Removes one `'\r'` at the end of a piece cut before a `'\n'`. */
  function DropTrailingCr(p: string): (r: string)
    ensures r == p || (p == r + "\r")
  {
    if |p| > 0 && p[|p| - 1] == '\r' then p[..|p| - 1] else p
  }

  /** `s.split(/\r?\n/)`: the pieces between line breaks, where a line
      break is `"\n"` or `"\r\n"`. */
  function SplitLines(s: string): (r: seq<string>)
    ensures |r| == 1 + Count(s, '\n')
    ensures forall k :: 0 <= k < |r| ==> '\n' !in r[k]
    decreases |s|
  {
    match IndexOf(s, '\n')
    case None =>
      CountAbsent(s, '\n');
      [s]
    case Some(i) =>
      var tail := SplitLines(s[i + 1..]);
      assert s == s[..i] + ([s[i]] + s[i + 1..]);
      CountAppend(s[..i], [s[i]] + s[i + 1..], '\n');
      CountAbsent(s[..i], '\n');
      [DropTrailingCr(s[..i])] + tail
  }

  /** `pieces.join("\n")`: the reference the line splitter inverts. */
  function JoinLines(pieces: seq<string>): string {
    if |pieces| == 0 then []
    else if |pieces| == 1 then pieces[0]
    else pieces[0] + "\n" + JoinLines(pieces[1..])
  }

  /** A piece a line split can give back unchanged: no line break inside
      and no carriage return at its end. */
  predicate BreakFree(p: string) {
    '\n' !in p && DropTrailingCr(p) == p
  }

  /** Leading white space ends inside `s` when `s` has a non-space
      character, whatever follows. */
  lemma {:induction false} LeadingSpacesAppend(s: string, t: string)
    requires LeadingSpaces(s) < |s|
    ensures LeadingSpaces(s + t) == LeadingSpaces(s)
  {
    assert (s + t)[0] == s[0];
    if IsSpace(s[0]) {
      assert (s + t)[1..] == s[1..] + t;
      LeadingSpacesAppend(s[1..], t);
    }
  }

  /** Trailing white space after a piece that has non-space characters. */
  lemma TrimBeforeSpace(q: string, c: char)
    requires LeadingSpaces(q) < |q| && IsSpace(c)
    ensures Trim(q + [c]) == Trim(q)
  {
    TrimSliceBeforeSpace(q, c);
  }

  lemma TrailingSpacesSnoc(r: string, c: char)
    requires IsSpace(c)
    ensures TrailingSpaces(r + [c]) == 1 + TrailingSpaces(r)
  {
    TakeFromAppend(r, [c], |r|);
    assert (r + [c])[..|r|] == r;
  }

  lemma TrimSliceBeforeSpace(q: string, c: char)
    requires LeadingSpaces(q) < |q| && IsSpace(c)
    ensures TrimSlice(q + [c]) == TrimSlice(q)
  {
    var restQ := q[LeadingSpaces(q)..];
    var restP := (q + [c])[LeadingSpaces(q + [c])..];
    assert restP == restQ + [c] by {
      LeadingSpacesAppend(q, [c]);
      DropFromAppend(q, [c], LeadingSpaces(q));
    }
    var m := |restQ| - TrailingSpaces(restQ);
    assert |restP| - TrailingSpaces(restP) == m by {
      TrailingSpacesSnoc(restQ, c);
    }
    TakeFromAppend(restQ, [c], m);
    assert TrimSlice(q + [c]) == restP[..m];
    assert TrimSlice(q) == restQ[..m];
  }

  /** A blank piece stays blank with white space after it. */
  lemma TrimBlankBeforeSpace(q: string, c: char)
    requires forall k :: 0 <= k < |q| ==> IsSpace(q[k])
    requires IsSpace(c)
    ensures Trim(q + [c]) == [] && Trim(q) == []
  {
    assert forall k :: 0 <= k < |q + [c]| ==> IsSpace((q + [c])[k]);
  }

  /** A carriage return left at the end of a piece disappears in the trim:
      `"a\r".trim()` is `"a"`. */
  lemma TrimDropsCr(p: string)
    ensures Trim(DropTrailingCr(p)) == Trim(p)
  {
    if |p| > 0 && p[|p| - 1] == '\r' {
      var q := p[..|p| - 1];
      assert p == q + ['\r'];
      if LeadingSpaces(q) < |q| {
        TrimBeforeSpace(q, '\r');
      } else {
        TrimBlankBeforeSpace(q, '\r');
      }
    }
  }

  /** Splitting at the first line break of `p + "\n" + rest`. */
  lemma SplitFirstBreak(p: string, rest: string)
    requires '\n' !in p
    ensures SplitLines(p + "\n" + rest) == [DropTrailingCr(p)] + SplitLines(rest)
  {
    var s := p + "\n" + rest;
    assert s[|p|] == '\n';
    assert s[..|p|] == p;
    var i := IndexOf(s, '\n').value;
    assert i == |p|;
    assert s[i + 1..] == rest;
  }

  /** Joining break-free pieces and splitting again gives the pieces back. */
  lemma {:induction false} SplitJoinRoundTrip(pieces: seq<string>)
    requires |pieces| >= 1
    requires forall k :: 0 <= k < |pieces| ==> BreakFree(pieces[k])
    ensures SplitLines(JoinLines(pieces)) == pieces
  {
    if |pieces| == 1 {
      assert IndexOf(pieces[0], '\n').None?;
    } else {
      SplitFirstBreak(pieces[0], JoinLines(pieces[1..]));
      SplitJoinRoundTrip(pieces[1..]);
      assert pieces == [pieces[0]] + pieces[1..];
    }
  }

  /** Joining a first piece in front of at least one more. */
  lemma JoinCons(p: string, tail: seq<string>)
    requires |tail| >= 1
    ensures JoinLines([p] + tail) == p + "\n" + JoinLines(tail)
  {
    assert ([p] + tail)[1..] == tail;
  }

  /** Splitting a text without carriage returns and joining the pieces
      again gives the text back. */
  lemma {:induction false} JoinSplitRoundTrip(s: string)
    requires '\r' !in s
    ensures JoinLines(SplitLines(s)) == s
    decreases |s|
  {
    match IndexOf(s, '\n')
    case None =>
    case Some(i) =>
      var p, rest := s[..i], s[i + 1..];
      assert s == p + "\n" + rest;
      assert DropTrailingCr(p) == p by {
        if |p| > 0 {
          assert p[|p| - 1] == s[i - 1];
        }
      }
      assert '\r' !in rest by {
        assert forall x :: x in rest ==> x in s;
      }
      JoinSplitRoundTrip(rest);
      assert SplitLines(s) == [p] + SplitLines(rest);
      JoinCons(p, SplitLines(rest));
  }

  /** `p` occurs in `s` starting at index `i`. */
  predicate OccursAt(s: string, p: string, i: int) {
    0 <= i <= |s| - |p| && s[i..i + |p|] == p
  }

  /** `s.includes(p)`. */
  predicate Contains(s: string, p: string) {
    exists i | 0 <= i <= |s| - |p| :: OccursAt(s, p, i)
  }

  /** `s.startsWith(c)` for a one-character prefix. */
  predicate StartsWith(s: string, c: char) {
    |s| > 0 && s[0] == c
  }

  /** `s.replace(/^c/, "")`: drops one leading `c`. */
  function DropLeading(s: string, c: char): (r: string)
    ensures StartsWith(s, c) ==> s == [c] + r
    ensures !StartsWith(s, c) ==> r == s
  {
    if StartsWith(s, c) then s[1..] else s
  }

  /** `s.replace(/c/g, "")`: every `c` removed, everything else kept in order. */
  function RemoveAll(s: string, c: char): (r: string)
    ensures c !in r
    ensures multiset(r) == multiset(s)[c := 0]
    ensures c !in s ==> r == s
  {
    if |s| == 0 then []
    else
      assert s == [s[0]] + s[1..];
      (if s[0] == c then [] else [s[0]]) + RemoveAll(s[1..], c)
  }

  /** Removal works character by character: removing from a concatenation
      is removing from each part, so every kept character stays in place. */
  lemma {:induction false} RemoveAllAppend(a: string, b: string, c: char)
    ensures RemoveAll(a + b, c) == RemoveAll(a, c) + RemoveAll(b, c)
  {
    if |a| == 0 {
      assert a + b == b;
    } else {
      var kept: string := if a[0] == c then [] else [a[0]];
      assert (a + b)[0] == a[0];
      assert (a + b)[1..] == a[1..] + b;
      calc {
        RemoveAll(a + b, c);
        kept + RemoveAll(a[1..] + b, c);
        { RemoveAllAppend(a[1..], b, c); }
        kept + (RemoveAll(a[1..], c) + RemoveAll(b, c));
        (kept + RemoveAll(a[1..], c)) + RemoveAll(b, c);
      }
    }
  }

  /** JavaScript's `a < b` on strings, lexicographic by character (Dafny's
      `char` order is code-point order). */
  predicate Less(a: string, b: string) {
    if |a| == 0 then |b| > 0
    else if |b| == 0 then false
    else if a[0] != b[0] then a[0] < b[0]
    else Less(a[1..], b[1..])
  }

  lemma {:induction false} LessIrreflexive(a: string)
    ensures !Less(a, a)
  {
    if |a| > 0 {
      LessIrreflexive(a[1..]);
    }
  }

  lemma {:induction false} LessTransitive(a: string, b: string, c: string)
    requires Less(a, b) && Less(b, c)
    ensures Less(a, c)
  {
    if |a| > 0 && |b| > 0 && |c| > 0 && a[0] == b[0] && b[0] == c[0] {
      LessTransitive(a[1..], b[1..], c[1..]);
    }
  }

  /** Any two different strings are ordered one way or the other. */
  lemma {:induction false} LessTotal(a: string, b: string)
    requires a != b
    ensures Less(a, b) || Less(b, a)
  {
    if |a| > 0 && |b| > 0 && a[0] == b[0] {
      assert a == [a[0]] + a[1..] && b == [b[0]] + b[1..];
      LessTotal(a[1..], b[1..]);
    }
  }

  /** The ASCII digit for `d`. */
  function DigitChar(d: nat): (c: char)
    requires d < 10
    ensures '0' <= c <= '9'
  {
    (d + '0' as int) as char
  }

  /** `String(n)` for a non-negative integer: decimal digits, no leading zeros. */
  function NatToDecimal(n: nat): (r: string)
    ensures |r| >= 1
    ensures forall k :: 0 <= k < |r| ==> '0' <= r[k] <= '9'
    ensures |r| > 1 ==> r[0] != '0'
  {
    if n < 10 then [DigitChar(n)] else NatToDecimal(n / 10) + [DigitChar(n % 10)]
  }

  /** `String(n)` for an integer: a minus sign before the digits of `-n`. */
  function IntToDecimal(n: int): string {
    if n >= 0 then NatToDecimal(n) else "-" + NatToDecimal(-n)
  }

  /** `s.padStart(width, fill)` for a one-character fill. */
  function PadStart(s: string, width: nat, fill: char): (r: string)
    ensures |s| >= width ==> r == s
    ensures |s| < width ==> |r| == width
    ensures |r| >= |s| && r[|r| - |s|..] == s
    ensures forall k :: 0 <= k < |r| - |s| ==> r[k] == fill
  {
    if |s| >= width then s else seq(width - |s|, _ => fill) + s
  }
}
