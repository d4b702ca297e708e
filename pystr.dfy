/** The Python `str` operations the class-dump parser relies on, over strings as
    sequences of characters: slicing with clamped bounds, `in`, `startswith`,
    `endswith`, `split(sep)`, `sep.join(parts)`, `replace(pat, rep)` and
    `splitlines()`. Each is defined by the same left-to-right scan Python
    performs, and the lemmas below relate them to one another. */
module PyStr {

  // ---------------------------------------------------------------------------
  // Slicing, prefixes and substrings
  // ---------------------------------------------------------------------------

  /** Python `s[:n]`: an index past the end is clamped. */
  function Take(s: string, n: nat): (r: string)
    ensures |r| == if n <= |s| then n else |s|
    ensures r <= s
  {
    if n <= |s| then s[..n] else s
  }

  /** Python `s[n:]`: an index past the end gives the empty string. */
  function Drop(s: string, n: nat): (r: string)
    ensures |r| == if n <= |s| then |s| - n else 0
    ensures Take(s, n) + r == s
  {
    if n <= |s| then s[n..] else ""
  }

  /** Python `s.startswith(p)`. */
  predicate StartsWith(s: string, p: string)
  {
    |p| <= |s| && s[..|p|] == p
  }

  /** Python `s.endswith(p)`. */
  predicate EndsWith(s: string, p: string)
  {
    |p| <= |s| && s[|s| - |p|..] == p
  }

  /** `sub` occurs in `s` at index `k`. */
  predicate OccursAt(s: string, sub: string, k: nat)
  {
    k + |sub| <= |s| && s[k..k + |sub|] == sub
  }

  /** No occurrence of `sub` in `s` starts before index `n`. */
  predicate NoOccurrenceBefore(s: string, sub: string, n: nat)
  {
    forall k: nat :: k < n ==> !OccursAt(s, sub, k)
  }

  /** Python `sub in s`, by scanning `s` from the left. */
  predicate Contains(s: string, sub: string)
    decreases |s|
  {
    if |s| < |sub| then false else StartsWith(s, sub) || Contains(s[1..], sub)
  }

  lemma {:induction false} ContainsIff(s: string, sub: string)
    ensures Contains(s, sub) <==> exists k: nat :: OccursAt(s, sub, k)
    ensures !Contains(s, sub) <==> NoOccurrenceBefore(s, sub, |s| + 1)
    decreases |s|
  {
    if |s| < |sub| {
    } else if StartsWith(s, sub) {
      assert OccursAt(s, sub, 0);
    } else {
      ContainsIff(s[1..], sub);
      {
        forall k: nat | OccursAt(s, sub, k) ensures k >= 1 && OccursAt(s[1..], sub, k - 1) {
          assert s[1..][k - 1..k - 1 + |sub|] == s[k..k + |sub|];
        }
        forall k: nat | OccursAt(s[1..], sub, k) ensures OccursAt(s, sub, k + 1) {
          assert s[1..][k..k + |sub|] == s[k + 1..k + 1 + |sub|];
        }
      }
    }
  }

  /** An occurrence that lies inside a prefix is an occurrence in the prefix. */
  lemma OccursInPrefix(a: string, b: string, sub: string, k: nat)
    requires k + |sub| <= |a|
    ensures OccursAt(a + b, sub, k) <==> OccursAt(a, sub, k)
  {
    assert (a + b)[k..k + |sub|] == a[k..k + |sub|];
  }

  /** A two-character pattern at `k`, character by character. */
  lemma PairAt(s: string, a: char, b: char, k: nat)
    ensures OccursAt(s, [a, b], k) <==> k + 2 <= |s| && s[k] == a && s[k + 1] == b
  {
    if k + 2 <= |s| {
      assert s[k..k + 2] == [s[k], s[k + 1]];
    }
  }

  /** A string misses every pattern whose first character it lacks. */
  lemma FirstCharAbsent(s: string, sub: string)
    requires |sub| > 0 && sub[0] !in s
    ensures !Contains(s, sub)
  {
    forall k: nat ensures !OccursAt(s, sub, k) {
      if k + |sub| <= |s| {
        assert s[k..k + |sub|][0] == s[k] != sub[0];
      }
    }
    ContainsIff(s, sub);
  }

  /** Appending the first character of a longer pattern to a string lacking that
      character creates no occurrence of the pattern. */
  lemma OnlyAtEnd(p: string, sub: string)
    requires |sub| >= 2 && sub[0] !in p
    ensures !Contains(p + [sub[0]], sub)
  {
    var s := p + [sub[0]];
    forall k: nat ensures !OccursAt(s, sub, k) {
      if k + |sub| <= |s| {
        assert s[k..k + |sub|][0] == s[k] == p[k] != sub[0];
      }
    }
    ContainsIff(s, sub);
  }

  // ---------------------------------------------------------------------------
  // split, join, replace
  // ---------------------------------------------------------------------------

  /** Python `s.split(sep)` for a non-empty `sep`: the pieces between the
      non-overlapping occurrences of `sep`, found from the left. */
  function Split(s: string, sep: string): (r: seq<string>)
    requires |sep| > 0
    ensures |r| >= 1
    decreases |s|
  {
    if |s| < |sep| then [s]
    else if StartsWith(s, sep) then [""] + Split(s[|sep|..], sep)
    else
      var rest := Split(s[1..], sep);
      [[s[0]] + rest[0]] + rest[1..]
  }

  /** Python `sep.join(parts)`. */
  function Join(parts: seq<string>, sep: string): string
  {
    if |parts| == 0 then ""
    else if |parts| == 1 then parts[0]
    else parts[0] + sep + Join(parts[1..], sep)
  }

  /** Python `s.replace(pat, rep)` for a non-empty `pat`: every non-overlapping
      occurrence, found from the left, is replaced. */
  function Replace(s: string, pat: string, rep: string): string
    requires |pat| > 0
    decreases |s|
  {
    if |s| < |pat| then s
    else if StartsWith(s, pat) then rep + Replace(s[|pat|..], pat, rep)
    else [s[0]] + Replace(s[1..], pat, rep)
  }

  lemma JoinConsHead(x: string, y: string, t: seq<string>, sep: string)
    ensures Join([x + y] + t, sep) == x + Join([y] + t, sep)
  {
    if |t| > 0 {
      assert ([x + y] + t)[1..] == t == ([y] + t)[1..];
    }
  }

  /** Joining two non-empty lists puts one separator between their joins. */
  lemma {:induction false} JoinAppend(a: seq<string>, b: seq<string>, sep: string)
    requires |a| > 0 && |b| > 0
    ensures Join(a + b, sep) == Join(a, sep) + sep + Join(b, sep)
    decreases |a|
  {
    var ab := a + b;
    assert |ab| > 1 && ab[0] == a[0];
    assert Join(ab, sep) == a[0] + sep + Join(ab[1..], sep);
    if |a| == 1 {
      assert ab[1..] == b;
    } else {
      assert ab[1..] == a[1..] + b;
      JoinAppend(a[1..], b, sep);
      assert Join(a, sep) == a[0] + sep + Join(a[1..], sep);
    }
  }

  /** Joining the pieces of a split with the same separator gives back the string. */
  lemma {:induction false} JoinSplit(s: string, sep: string)
    requires |sep| > 0
    ensures Join(Split(s, sep), sep) == s
    decreases |s|
  {
    if |s| < |sep| {
    } else if StartsWith(s, sep) {
      JoinSplit(s[|sep|..], sep);
      assert ([""] + Split(s[|sep|..], sep))[1..] == Split(s[|sep|..], sep);
    } else {
      var rest := Split(s[1..], sep);
      JoinSplit(s[1..], sep);
      JoinConsHead([s[0]], rest[0], rest[1..], sep);
      assert [rest[0]] + rest[1..] == rest;
      assert [s[0]] + s[1..] == s;
    }
  }

  /** `split` yields a second piece exactly when the separator occurs. */
  lemma {:induction false} SplitMoreThanOne(s: string, sep: string)
    requires |sep| > 0
    ensures |Split(s, sep)| >= 2 <==> Contains(s, sep)
    decreases |s|
  {
    if |s| >= |sep| && !StartsWith(s, sep) {
      SplitMoreThanOne(s[1..], sep);
    }
  }

  /** Without an occurrence of the separator, `split` gives the whole string. */
  lemma {:induction false} SplitAbsent(s: string, sep: string)
    requires |sep| > 0 && !Contains(s, sep)
    ensures Split(s, sep) == [s]
    decreases |s|
  {
    if |s| >= |sep| {
      SplitAbsent(s[1..], sep);
      assert [s[0]] + s[1..] == s;
    }
  }

  /** The first piece of a split ends at the first occurrence of the separator. */
  lemma {:induction false} SplitAt(s: string, sep: string, n: nat)
    requires |sep| > 0 && OccursAt(s, sep, n) && NoOccurrenceBefore(s, sep, n)
    ensures Split(s, sep) == [s[..n]] + Split(s[n + |sep|..], sep)
    decreases n
  {
    if n == 0 {
      SplitAtStart(s, sep);
    } else {
      assert !OccursAt(s, sep, 0);
      OccurrenceShift(s, sep, n);
      var t := s[1..];
      SplitAt(t, sep, n - 1);
      TailSlices(s, n - 1 + |sep|);
      ConsPrefix(s, n);
      NotAtStart(s, sep);
      SplitSkip(s, sep, t[..n - 1], Split(s[n + |sep|..], sep));
    }
  }

  lemma SplitAtStart(s: string, sep: string)
    requires |sep| > 0 && OccursAt(s, sep, 0)
    ensures Split(s, sep) == [s[..0]] + Split(s[0 + |sep|..], sep)
  {
    assert s[..|sep|] == s[0..0 + |sep|];
    assert s[..0] == "";
  }

  lemma NotAtStart(s: string, sep: string)
    requires |sep| <= |s| && !OccursAt(s, sep, 0)
    ensures !StartsWith(s, sep)
  {
    assert s[..|sep|] == s[0..0 + |sep|];
  }

  lemma TailSlices(s: string, k: nat)
    requires k < |s|
    ensures s[1..][k..] == s[k + 1..]
  {
  }

  lemma ConsPrefix(s: string, n: nat)
    requires 0 < n <= |s|
    ensures [s[0]] + s[1..][..n - 1] == s[..n]
  {
  }

  /** `split` past a first character that does not start a separator. */
  lemma SplitSkip(s: string, sep: string, first: string, more: seq<string>)
    requires |sep| > 0 && |s| >= |sep| && !StartsWith(s, sep)
    requires Split(s[1..], sep) == [first] + more
    ensures Split(s, sep) == [[s[0]] + first] + more
  {
    assert Split(s[1..], sep)[1..] == more;
  }

  /** Dropping the first character moves every occurrence one place left. */
  lemma OccurrenceShift(s: string, sep: string, n: nat)
    requires 0 < n && OccursAt(s, sep, n) && NoOccurrenceBefore(s, sep, n)
    ensures OccursAt(s[1..], sep, n - 1) && NoOccurrenceBefore(s[1..], sep, n - 1)
  {
    var t := s[1..];
    assert t[n - 1..n - 1 + |sep|] == s[n..n + |sep|];
    forall k: nat | k < n - 1 ensures !OccursAt(t, sep, k) {
      assert !OccursAt(s, sep, k + 1);
      if k + |sep| <= |t| {
        assert t[k..k + |sep|] == s[k + 1..k + 1 + |sep|];
      }
    }
  }

  /** Piece `i` of a split contains only characters of the string. */
  lemma {:induction false} SplitPieceChars(s: string, sep: string, i: nat, c: char)
    requires |sep| > 0 && i < |Split(s, sep)| && c in Split(s, sep)[i]
    ensures c in s
    decreases |s|
  {
    if |s| < |sep| {
    } else if StartsWith(s, sep) {
      SplitPieceChars(s[|sep|..], sep, i - 1, c);
    } else {
      var rest := Split(s[1..], sep);
      if i == 0 {
        if c != s[0] {
          SplitPieceChars(s[1..], sep, 0, c);
        }
      } else {
        SplitPieceChars(s[1..], sep, i, c);
      }
    }
  }

  /** No piece of a split contains the separator. */
  lemma {:induction false} SplitPieceFree(s: string, sep: string, i: nat)
    requires |sep| > 0 && i < |Split(s, sep)|
    ensures !Contains(Split(s, sep)[i], sep)
    decreases |s|
  {
    var r := Split(s, sep);
    if |s| < |sep| {
      ContainsIff(s, sep);
    } else if StartsWith(s, sep) {
      if i > 0 {
        SplitPieceFree(s[|sep|..], sep, i - 1);
      }
    } else {
      var rest := Split(s[1..], sep);
      if i == 0 {
        SplitPieceFree(s[1..], sep, 0);
        FirstPieceGrows(s, sep);
      } else {
        SplitPieceFree(s[1..], sep, i);
      }
    }
  }

  /** A first character that starts no separator, put before a first piece
      free of the separator, keeps it free. */
  lemma FirstPieceGrows(s: string, sep: string)
    requires |sep| > 0 && |s| >= |sep| && !StartsWith(s, sep)
    requires !Contains(Split(s[1..], sep)[0], sep)
    ensures !Contains([s[0]] + Split(s[1..], sep)[0], sep)
  {
    var piece := Split(s[1..], sep)[0];
    FirstPiecePrefix(s[1..], sep);
    assert [s[0]] + piece <= s by {
      assert s == [s[0]] + s[1..];
    }
    ConsFree(s[0], piece, s, sep);
  }

  /** The first piece of a split is a prefix of the string. */
  lemma FirstPiecePrefix(s: string, sep: string)
    requires |sep| > 0
    ensures Split(s, sep)[0] <= s
  {
    var r := Split(s, sep);
    JoinSplit(s, sep);
    if |r| > 1 {
      assert Join(r, sep) == r[0] + (sep + Join(r[1..], sep));
    }
  }

  /** A character put before a string free of `sep` creates no `sep` when the
      result is a prefix of a string that does not start with `sep`. */
  lemma ConsFree(c: char, piece: string, s: string, sep: string)
    requires |sep| > 0 && !Contains(piece, sep) && [c] + piece <= s && !StartsWith(s, sep)
    ensures !Contains([c] + piece, sep)
  {
    var p := [c] + piece;
    if |p| >= |sep| {
      assert p[..|sep|] == s[..|sep|];
    }
    assert p[1..] == piece;
  }

  /** Splitting a join recovers the parts, for a two-character separator whose
      characters differ and parts that do not contain it. */
  lemma {:induction false} SplitJoin(parts: seq<string>, sep: string)
    requires |sep| == 2 && sep[0] != sep[1] && |parts| >= 1
    requires forall i :: 0 <= i < |parts| ==> !Contains(parts[i], sep)
    ensures Split(Join(parts, sep), sep) == parts
    decreases |parts|
  {
    var x := parts[0];
    if |parts| == 1 {
      SplitAbsent(x, sep);
    } else {
      var tail := Join(parts[1..], sep);
      var s := x + sep + tail;
      assert OccursAt(s, sep, |x|) by {
        assert s[|x|..|x| + 2] == sep;
      }
      forall k: nat | k < |x| ensures !OccursAt(s, sep, k) {
        if k + 2 <= |x| {
          ContainsIff(x, sep);
          OccursInPrefix(x, sep + tail, sep, k);
          assert s == x + (sep + tail);
        } else {
          assert s[k + 1] == sep[0];
        }
      }
      SplitAt(s, sep, |x|);
      assert s[..|x|] == x;
      assert s[|x| + 2..] == tail;
      SplitJoin(parts[1..], sep);
      assert [x] + parts[1..] == parts;
    }
  }

  /** `replace` is `split` followed by `join`, which is how Python's documentation
      describes it. */
  lemma {:induction false} ReplaceIsJoinSplit(s: string, pat: string, rep: string)
    requires |pat| > 0
    ensures Replace(s, pat, rep) == Join(Split(s, pat), rep)
    decreases |s|
  {
    if |s| < |pat| {
    } else if StartsWith(s, pat) {
      var rest := Split(s[|pat|..], pat);
      assert Split(s, pat) == [""] + rest;
      assert Replace(s, pat, rep) == rep + Replace(s[|pat|..], pat, rep);
      ReplaceIsJoinSplit(s[|pat|..], pat, rep);
      assert ([""] + rest)[1..] == rest;
      assert Join([""] + rest, rep) == "" + rep + Join(rest, rep);
    } else {
      var rest := Split(s[1..], pat);
      assert Split(s, pat) == [[s[0]] + rest[0]] + rest[1..];
      assert Replace(s, pat, rep) == [s[0]] + Replace(s[1..], pat, rep);
      ReplaceIsJoinSplit(s[1..], pat, rep);
      JoinConsHead([s[0]], rest[0], rest[1..], rep);
      assert [rest[0]] + rest[1..] == rest;
    }
  }

  /** Without an occurrence of the pattern, `replace` changes nothing. */
  lemma {:induction false} ReplaceAbsent(s: string, pat: string, rep: string)
    requires |pat| > 0 && !Contains(s, pat)
    ensures Replace(s, pat, rep) == s
    decreases |s|
  {
    if |s| >= |pat| {
      ReplaceAbsent(s[1..], pat, rep);
      assert [s[0]] + s[1..] == s;
    }
  }

  /** Replacing a single character distributes over concatenation. */
  lemma {:induction false} ReplaceCharConcat(a: string, b: string, c: char, rep: string)
    ensures Replace(a + b, [c], rep) == Replace(a, [c], rep) + Replace(b, [c], rep)
    decreases |a|
  {
    if |a| > 0 {
      ReplaceCharConcat(a[1..], b, c, rep);
      assert (a + b)[1..] == a[1..] + b;
      assert (a + b)[..1] == a[..1];
    } else {
      assert a + b == b;
    }
  }

  /** Removing a character removes every occurrence of it and keeps the rest. */
  lemma {:induction false} ReplaceCharRemoves(s: string, c: char, d: char)
    ensures c !in Replace(s, [c], "")
    ensures d in Replace(s, [c], "") <==> d in s && d != c
    decreases |s|
  {
    if |s| > 0 {
      ReplaceCharRemoves(s[1..], c, d);
      assert s == [s[0]] + s[1..];
    }
  }

  /** Every character of a replacement comes from the string or from `rep`. */
  lemma {:induction false} ReplaceChars(s: string, pat: string, rep: string, c: char)
    requires |pat| > 0 && c in Replace(s, pat, rep)
    ensures c in s || c in rep
    decreases |s|
  {
    if |s| < |pat| {
    } else if StartsWith(s, pat) {
      if c !in rep {
        ReplaceChars(s[|pat|..], pat, rep, c);
      }
    } else if c != s[0] {
      ReplaceChars(s[1..], pat, rep, c);
    }
  }

  // ---------------------------------------------------------------------------
  // splitlines
  // ---------------------------------------------------------------------------

  /** The characters at which Python's `str.splitlines` ends a line. */
  predicate IsLineBreak(c: char)
  {
    c == '\n' || c == '\r' || c == '\U{B}' || c == '\U{C}' || c == '\U{1C}' || c == '\U{1D}'
    || c == '\U{1E}' || c == '\U{85}' || c == '\U{2028}' || c == '\U{2029}'
  }

  /** The string contains no line-break character. */
  predicate NoBreak(s: string)
  {
    forall i :: 0 <= i < |s| ==> !IsLineBreak(s[i])
  }

  /** Python `s.splitlines()`: `"\r\n"` counts as one break, and a break at the
      very end does not start another (empty) line. */
  function SplitLines(s: string): seq<string>
    decreases |s|
  {
    if s == [] then []
    else if IsLineBreak(s[0]) then
      [""] + SplitLines(s[if s[0] == '\r' && |s| > 1 && s[1] == '\n' then 2 else 1..])
    else
      var rest := SplitLines(s[1..]);
      if rest == [] then [[s[0]]] else [[s[0]] + rest[0]] + rest[1..]
  }

  /** No line produced by `splitlines` contains a line break. */
  lemma {:induction false} SplitLinesNoBreak(s: string, i: nat)
    requires i < |SplitLines(s)|
    ensures NoBreak(SplitLines(s)[i])
    decreases |s|
  {
    if IsLineBreak(s[0]) {
      if i > 0 {
        SplitLinesNoBreak(s[if s[0] == '\r' && |s| > 1 && s[1] == '\n' then 2 else 1..], i - 1);
      }
    } else if SplitLines(s[1..]) != [] {
      SplitLinesNoBreak(s[1..], i);
    }
  }

  /** A break-free line followed by `"\n"` is one line of `splitlines`. */
  lemma {:induction false} SplitLinesCons(a: string, t: string)
    requires NoBreak(a)
    ensures SplitLines(a + "\n" + t) == [a] + SplitLines(t)
    decreases |a|
  {
    var s := a + "\n" + t;
    if a == [] {
      assert s[1..] == t;
    } else {
      assert s[1..] == a[1..] + "\n" + t;
      SplitLinesCons(a[1..], t);
      assert [s[0]] + a[1..] == a;
    }
  }

  /** `"\n".join(lines) + "\n"` splits back into `lines`, or into one empty line
      when there were none, followed by whatever comes next. */
  lemma {:induction false} SplitLinesJoin(lines: seq<string>, t: string)
    requires forall i :: 0 <= i < |lines| ==> NoBreak(lines[i])
    ensures SplitLines(Join(lines, "\n") + "\n" + t)
         == (if lines == [] then [""] else lines) + SplitLines(t)
    decreases |lines|
  {
    if |lines| <= 1 {
      SplitLinesCons(Join(lines, "\n"), t);
    } else {
      var rest := Join(lines[1..], "\n") + "\n" + t;
      assert Join(lines, "\n") + "\n" + t == lines[0] + "\n" + rest;
      SplitLinesCons(lines[0], rest);
      SplitLinesJoin(lines[1..], t);
      assert [lines[0]] + lines[1..] == lines;
    }
  }

  /** A non-empty break-free string is a single line. */
  lemma {:induction false} SplitLinesSingle(a: string)
    requires NoBreak(a) && a != ""
    ensures SplitLines(a) == [a]
    decreases |a|
  {
    if |a| > 1 {
      SplitLinesSingle(a[1..]);
      assert [a[0]] + a[1..] == a;
    } else {
      assert !IsLineBreak(a[0]) && a[1..] == [] && [a[0]] == a;
    }
  }

  /** `"\n".join(lines)`, with no break at the end, splits back into `lines`
      when the last line is not empty. */
  lemma {:induction false} SplitLinesJoinLast(lines: seq<string>)
    requires forall i :: 0 <= i < |lines| ==> NoBreak(lines[i])
    requires lines == [] || lines[|lines| - 1] != ""
    ensures SplitLines(Join(lines, "\n")) == lines
    decreases |lines|
  {
    if |lines| == 1 {
      SplitLinesSingle(lines[0]);
    } else if |lines| > 1 {
      SplitLinesCons(lines[0], Join(lines[1..], "\n"));
      SplitLinesJoinLast(lines[1..]);
      assert [lines[0]] + lines[1..] == lines;
    }
  }
}
