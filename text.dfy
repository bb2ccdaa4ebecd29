/**
 * The JavaScript string built-ins both versions of the quiz app lean on:
 * `trim()`, `split()` on one character and on the blank-line regular
 * expression, `join()`, `padStart(2, "0")`, decimal rendering of a number,
 * ASCII-case-insensitive prefix tests and `parseInt(_, 10)`.
 * Strings are sequences of UTF-16 code units, modelled as `seq<char>`.
 */
module Text {

  datatype Option<T> = None | Some(value: T)

  /** JavaScript's WhiteSpace and LineTerminator code units: what `trim()` removes and `\s` matches. */
  predicate IsSpace(c: char) {
    ('\t' <= c <= '\r') || c == ' ' || c == '\U{A0}' || c == '\U{1680}' || ('\U{2000}' <= c <= '\U{200A}')
    || ('\U{2028}' <= c <= '\U{2029}') || c == '\U{202F}' || c == '\U{205F}' || c == '\U{3000}' || c == '\U{FEFF}'
  }

  /** The code units the regular-expression `.` does not match. */
  predicate IsLineTerminator(c: char) {
    c == '\n' || c == '\r' || c == '\U{2028}' || c == '\U{2029}'
  }

  predicate IsDigit(c: char) {
    '0' <= c <= '9'
  }

  predicate AllSpace(s: string) {
    forall i :: 0 <= i < |s| ==> IsSpace(s[i])
  }

  /** `s.trimStart()` */
  function TrimStart(s: string): (r: string)
    ensures |r| <= |s| && r == s[|s| - |r|..]
    decreases |s|
  {
    if |s| > 0 && IsSpace(s[0]) then TrimStart(s[1..]) else s
  }

  /** `trimStart` removes white space only, and all of it. */
  lemma {:induction false} TrimStartSpace(s: string)
    ensures TrimStart(s) == [] || !IsSpace(TrimStart(s)[0])
    ensures AllSpace(s[..|s| - |TrimStart(s)|])
    decreases |s|
  {
    if |s| > 0 && IsSpace(s[0]) {
      TrimStartSpace(s[1..]);
      var n := |s| - |TrimStart(s)|;
      forall k | 0 <= k < n ensures IsSpace(s[..n][k]) {
        if k > 0 {
          assert s[..n][k] == s[1..][..n - 1][k - 1];
        }
      }
    }
  }

  /** `s.trim()`: white space removed from both ends, one code unit at a time. */
  function Trim(s: string): (r: string)
    ensures |r| <= |s|
    ensures IsTrimmed(r)
    decreases |s|
  {
    if |s| > 0 && IsSpace(s[0]) then Trim(s[1..])
    else if |s| > 0 && IsSpace(s[|s| - 1]) then Trim(s[..|s| - 1])
    else s
  }

  predicate IsTrimmed(s: string) {
    s == [] || (!IsSpace(s[0]) && !IsSpace(s[|s| - 1]))
  }

  /** The trim is a slice of `s` with only white space cut off on either side. */
  lemma {:induction false} TrimSlice(s: string) returns (i: nat)
    ensures i + |Trim(s)| <= |s| && Trim(s) == s[i..i + |Trim(s)|]
    ensures AllSpace(s[..i]) && AllSpace(s[i + |Trim(s)|..])
    decreases |s|, 1
  {
    if |s| > 0 && IsSpace(s[0]) {
      i := TrimSliceFront(s);
    } else if |s| > 0 && IsSpace(s[|s| - 1]) {
      i := TrimSliceBack(s);
    } else {
      i := 0;
    }
  }

  /** `TrimSlice` when the first code unit is white space. */
  lemma {:induction false} TrimSliceFront(s: string) returns (i: nat)
    requires |s| > 0 && IsSpace(s[0])
    ensures i + |Trim(s)| <= |s| && Trim(s) == s[i..i + |Trim(s)|]
    ensures AllSpace(s[..i]) && AllSpace(s[i + |Trim(s)|..])
    decreases |s|, 0
  {
    var t := s[1..];
    var n := |Trim(t)|;
    assert Trim(s) == Trim(t);
    var j := TrimSlice(t);
    i := j + 1;
    assert s[i..i + n] == t[j..j + n];
    assert s[..i] == [s[0]] + t[..j];
    AllSpaceConcat([s[0]], t[..j]);
    assert s[i + n..] == t[j + n..];
  }

  /** `TrimSlice` when the first code unit is not white space and the last one is. */
  lemma {:induction false} TrimSliceBack(s: string) returns (i: nat)
    requires |s| > 0 && !IsSpace(s[0]) && IsSpace(s[|s| - 1])
    ensures i + |Trim(s)| <= |s| && Trim(s) == s[i..i + |Trim(s)|]
    ensures AllSpace(s[..i]) && AllSpace(s[i + |Trim(s)|..])
    decreases |s|, 0
  {
    var p := s[..|s| - 1];
    var n := |Trim(p)|;
    assert Trim(s) == Trim(p);
    i := TrimSlice(p);
    assert s[i..i + n] == p[i..i + n];
    assert s[..i] == p[..i];
    assert s[i + n..] == p[i + n..] + [s[|s| - 1]];
    AllSpaceConcat(p[i + n..], [s[|s| - 1]]);
  }

  lemma AllSpaceConcat(a: string, b: string)
    requires AllSpace(a) && AllSpace(b)
    ensures AllSpace(a + b)
  {
    forall k | 0 <= k < |a + b| ensures IsSpace((a + b)[k]) {
      if k >= |a| {
        assert (a + b)[k] == b[k - |a|];
      }
    }
  }

  /** A string is blank (its trim is empty, so JavaScript treats the trim as false) exactly when it is all white space. */
  lemma TrimEmptyIffAllSpace(s: string)
    ensures Trim(s) == [] <==> AllSpace(s)
  {
    var i := TrimSlice(s);
    if Trim(s) == [] {
      assert s == s[..i] + s[i..];
    }
  }

  /** Every slice of an all-white-space string is all white space. */
  lemma AllSpaceSlice(t: string, a: nat, b: nat)
    requires AllSpace(t) && a <= b <= |t|
    ensures AllSpace(t[a..b])
  {
  }

  /** Trimming is idempotent. */
  lemma TrimTrimmed(s: string)
    requires IsTrimmed(s)
    ensures Trim(s) == s
  {
  }

  /** `parts.join(d)` for a one-character separator. */
  function Join(parts: seq<string>, d: char): string
  {
    if |parts| == 0 then []
    else if |parts| == 1 then parts[0]
    else parts[0] + [d] + Join(parts[1..], d)
  }

  /** `s.split(d)` for a one-character separator; never empty, and no piece contains `d`. */
  function Split(s: string, d: char): (r: seq<string>)
    ensures |r| >= 1
    ensures forall k :: 0 <= k < |r| ==> d !in r[k]
    decreases |s|
  {
    if |s| == 0 then [[]]
    else
      var rest := Split(s[1..], d);
      if s[0] == d then [[]] + rest else [[s[0]] + rest[0]] + rest[1..]
  }

  /** Joining the pieces of a split with the same separator restores the string. */
  lemma {:induction false} JoinSplit(s: string, d: char)
    ensures Join(Split(s, d), d) == s
    decreases |s|
  {
    if |s| > 0 {
      var rest := Split(s[1..], d);
      JoinSplit(s[1..], d);
      if s[0] == d {
        assert Split(s, d) == [[]] + rest;
        assert ([[]] + rest)[1..] == rest;
      } else {
        var r := [[s[0]] + rest[0]] + rest[1..];
        assert Split(s, d) == r;
        if |rest| == 1 {
          assert Join(r, d) == [s[0]] + rest[0];
        } else {
          assert r[1..] == rest[1..];
          assert Join(rest, d) == rest[0] + [d] + Join(rest[1..], d);
        }
      }
    }
  }

  /** Splitting a string that does not contain the separator yields the string alone. */
  lemma {:induction false} SplitNoSeparator(s: string, d: char)
    requires d !in s
    ensures Split(s, d) == [s]
    decreases |s|
  {
    if |s| > 0 {
      SplitNoSeparator(s[1..], d);
      assert [s[0]] + s[1..] == s;
    }
  }

  /** Splitting at the first separator: the text before it is the first piece, the rest splits on. */
  lemma {:induction false} SplitPrefix(a: string, d: char, rest: string)
    requires d !in a
    ensures Split(a + [d] + rest, d) == [a] + Split(rest, d)
    decreases |a|
  {
    var s := a + [d] + rest;
    if |a| == 0 {
      assert s[0] == d && s[1..] == rest;
    } else {
      SplitPrefix(a[1..], d, rest);
      assert s[0] == a[0] && s[1..] == a[1..] + [d] + rest;
      assert [a[0]] + a[1..] == a;
    }
  }

  /** A string holding the separator splits into two pieces at least. */
  lemma {:induction false} SplitHasSecond(s: string, d: char)
    requires d in s
    ensures |Split(s, d)| >= 2
    decreases |s|
  {
    if s[0] != d {
      assert d in s[1..];
      SplitHasSecond(s[1..], d);
    }
  }

  /** The first piece of a split is the text up to the first separator. */
  lemma SplitFirstPiece(b: string, rest: string, d: char)
    requires d !in b && (rest == [] || rest[0] == d)
    ensures Split(b + rest, d)[0] == b
  {
    if rest == [] {
      assert b + rest == b;
      SplitNoSeparator(b, d);
    } else {
      assert b + rest == b + [d] + rest[1..];
      SplitPrefix(b, d, rest[1..]);
    }
  }

  /** Splitting a join of separator-free pieces gives the pieces back. */
  lemma {:induction false} SplitJoin(parts: seq<string>, d: char)
    requires |parts| >= 1 && forall k :: 0 <= k < |parts| ==> d !in parts[k]
    ensures Split(Join(parts, d), d) == parts
    decreases |parts|
  {
    if |parts| == 1 {
      SplitNoSeparator(parts[0], d);
    } else {
      SplitJoin(parts[1..], d);
      SplitPrefix(parts[0], d, Join(parts[1..], d));
      assert [parts[0]] + parts[1..] == parts;
    }
  }

  /** A join starts with the first piece's first code unit and ends with the last piece's last one. */
  lemma {:induction false} JoinEnds(parts: seq<string>, d: char)
    requires |parts| >= 1 && parts[0] != [] && parts[|parts| - 1] != []
    ensures var j := Join(parts, d); |j| > 0 && j[0] == parts[0][0] && j[|j| - 1] == parts[|parts| - 1][|parts[|parts| - 1]| - 1]
    decreases |parts|
  {
    if |parts| > 1 {
      JoinLast(parts[1..], d);
    }
  }

  lemma {:induction false} JoinLast(parts: seq<string>, d: char)
    requires |parts| >= 1 && parts[|parts| - 1] != []
    ensures var j := Join(parts, d); |j| > 0 && j[|j| - 1] == parts[|parts| - 1][|parts[|parts| - 1]| - 1]
    decreases |parts|
  {
    if |parts| > 1 {
      JoinLast(parts[1..], d);
    }
  }

  /** Trimming after `trimStart` is trimming. */
  lemma {:induction false} TrimAfterTrimStart(s: string)
    ensures Trim(TrimStart(s)) == Trim(s)
    decreases |s|
  {
    if |s| > 0 && IsSpace(s[0]) {
      TrimAfterTrimStart(s[1..]);
    }
  }

  /** `"\r\n"` replaced by `"\n"` everywhere (`replace(/\r\n/g, '\n')`). */
  function NormalizeNewlines(s: string): (r: string)
    ensures |r| <= |s|
    ensures '\r' !in s ==> r == s
    ensures '\n' !in s ==> r == s
    decreases |s|
  {
    if |s| >= 2 && s[0] == '\r' && s[1] == '\n' then ['\n'] + NormalizeNewlines(s[2..])
    else if |s| == 0 then []
    else [s[0]] + NormalizeNewlines(s[1..])
  }

  /** Normalising distributes over a cut that does not fall inside a `"\r\n"` pair. */
  lemma {:induction false} NormalizeAppend(a: string, c: string)
    requires a == [] || c == [] || a[|a| - 1] != '\r' || c[0] != '\n'
    ensures NormalizeNewlines(a + c) == NormalizeNewlines(a) + NormalizeNewlines(c)
    decreases |a|
  {
    var x := a + c;
    if a == [] {
      assert x == c;
    } else if |a| >= 2 && a[0] == '\r' && a[1] == '\n' {
      assert x[0] == '\r' && x[1] == '\n';
      assert x[2..] == a[2..] + c;
      NormalizeAppend(a[2..], c);
      AppendAssoc(['\n'], NormalizeNewlines(a[2..]), NormalizeNewlines(c));
    } else {
      assert x[0] == a[0] && x[1..] == a[1..] + c;
      assert !(|x| >= 2 && x[0] == '\r' && x[1] == '\n');
      NormalizeAppend(a[1..], c);
      AppendAssoc([a[0]], NormalizeNewlines(a[1..]), NormalizeNewlines(c));
    }
  }

  lemma AppendAssoc<T>(x: seq<T>, y: seq<T>, z: seq<T>)
    ensures x + (y + z) == (x + y) + z
  {
  }

  /** Each `"\r\n"` becomes one `"\n"`, and the text on either side is normalised on its own. */
  lemma NormalizeCRLF(a: string, b: string)
    ensures NormalizeNewlines(a + "\r\n" + b) == NormalizeNewlines(a) + "\n" + NormalizeNewlines(b)
  {
    var c := "\r\n" + b;
    AppendAssoc(a, "\r\n", b);
    assert c[0] == '\r' && c[1] == '\n' && c[2..] == b;
    assert NormalizeNewlines(c) == "\n" + NormalizeNewlines(b);
    NormalizeAppend(a, c);
    AppendAssoc(NormalizeNewlines(a), "\n", NormalizeNewlines(b));
  }

  // ---------------------------------------------------------------------
  // Splitting at blank lines: `s.split(/\n\s*\n+/)` (and `/\n\s*\n/`, which
  // splits identically: the greedy `\s*` gives back characters only until the
  // last newline of the white-space run that follows the first newline).
  // ---------------------------------------------------------------------

  /** Scanning the white-space run that starts at `i`: the index of its last newline, or `last` if it has none. */
  function RunLastNewline(s: string, i: nat, last: int): (r: int)
    requires i <= |s|
    requires last < i
    ensures r == last || (i <= r < |s| && s[r] == '\n' && AllSpace(s[i..r + 1]))
    decreases |s| - i
  {
    if i < |s| && IsSpace(s[i]) then
      var r := RunLastNewline(s, i + 1, if s[i] == '\n' then i else last);
      assert r != last && r != i ==> s[i..r + 1] == [s[i]] + s[i + 1..r + 1];
      r
    else last
  }

  /** Where a separator match starting at `q` ends, if one starts there. */
  function SeparatorAt(s: string, q: nat): (r: Option<nat>)
    requires q < |s|
    ensures r.Some? ==> q + 2 <= r.value <= |s| && s[q] == '\n' && s[r.value - 1] == '\n'
    ensures r.Some? ==> AllSpace(s[q..r.value])
  {
    if s[q] != '\n' then None
    else
      var l := RunLastNewline(s, q + 1, -1);
      if l < 0 then None
      else
        assert s[q..l + 1] == [s[q]] + s[q + 1..l + 1];
        Some(l + 1)
  }

  /** `String.prototype.split` with the blank-line pattern, pieces from segment start `p`, trying a match at `q`. */
  function SplitBlocksFrom(s: string, p: nat, q: nat): (r: seq<string>)
    requires p <= q <= |s|
    ensures |r| >= 1
    decreases |s| - q
  {
    if q == |s| then [s[p..]]
    else
      match SeparatorAt(s, q)
      case None => SplitBlocksFrom(s, p, q + 1)
      case Some(e) => [s[p..q]] + SplitBlocksFrom(s, e, e)
  }

  function SplitBlocks(s: string): seq<string>
  {
    SplitBlocksFrom(s, 0, 0)
  }

  /** The separator texts the split from `p` (scanning at `q`) removes, in order: the companion of `SplitBlocksFrom`. */
  function SeparatorsFrom(s: string, p: nat, q: nat): seq<string>
    requires p <= q <= |s|
    decreases |s| - q
  {
    if q == |s| then []
    else
      match SeparatorAt(s, q)
      case None => SeparatorsFrom(s, p, q + 1)
      case Some(e) => [s[q..e]] + SeparatorsFrom(s, e, e)
  }

  function Separators(s: string): seq<string>
  {
    SeparatorsFrom(s, 0, 0)
  }

  /** What one separator match is: a newline, white space, and a last newline. */
  predicate IsBlankLineRun(t: string) {
    |t| >= 2 && t[0] == '\n' && t[|t| - 1] == '\n' && AllSpace(t)
  }

  /** `blocks[0] + seps[0] + blocks[1] + … + blocks[n]`: the pieces glued back with the separators between them. */
  function Interleave(blocks: seq<string>, seps: seq<string>): string
    requires |blocks| == |seps| + 1
    decreases |seps|
  {
    if seps == [] then blocks[0] else blocks[0] + seps[0] + Interleave(blocks[1..], seps[1..])
  }

  lemma {:induction false} SplitBlocksFromJoin(s: string, p: nat, q: nat)
    requires p <= q <= |s|
    ensures |SeparatorsFrom(s, p, q)| + 1 == |SplitBlocksFrom(s, p, q)|
    ensures forall t :: t in SeparatorsFrom(s, p, q) ==> IsBlankLineRun(t)
    ensures Interleave(SplitBlocksFrom(s, p, q), SeparatorsFrom(s, p, q)) == s[p..]
    decreases |s| - q
  {
    if q < |s| {
      match SeparatorAt(s, q)
      case None =>
        SplitBlocksFromJoin(s, p, q + 1);
      case Some(e) =>
        SplitBlocksFromJoin(s, e, e);
        var bs := SplitBlocksFrom(s, p, q);
        var seps := SeparatorsFrom(s, p, q);
        assert bs[1..] == SplitBlocksFrom(s, e, e);
        assert seps[1..] == SeparatorsFrom(s, e, e);
        assert s[p..] == s[p..q] + s[q..e] + s[e..];
    }
  }

  /**
   * The blank-line split cuts `s` into its blocks, in order, and the
   * separators between them; gluing them back gives `s`, so nothing but
   * the separators is removed.
   */
  lemma SplitBlocksJoin(s: string)
    ensures |Separators(s)| + 1 == |SplitBlocks(s)|
    ensures forall t :: t in Separators(s) ==> IsBlankLineRun(t)
    ensures Interleave(SplitBlocks(s), Separators(s)) == s
  {
    SplitBlocksFromJoin(s, 0, 0);
    assert s[0..] == s;
  }

  /** The text holds a newline followed by white space and another newline: a blank line. */
  predicate HasBlankLine(t: string) {
    exists i, j :: 0 <= i < j < |t| && t[i] == '\n' && t[j] == '\n' && AllSpace(t[i..j])
  }

  /** A newline followed, through white space only, by another newline is where a separator starts. */
  lemma {:induction false} RunFindsNewline(s: string, i: nat, last: int, j: nat)
    requires last < i <= j < |s|
    requires s[j] == '\n' && AllSpace(s[i..j])
    ensures RunLastNewline(s, i, last) >= j
    decreases |s| - i
  {
    assert IsSpace(s[j]);
    assert IsSpace(s[i]) by {
      if i < j { assert s[i] == s[i..j][0]; }
    }
    if i < j {
      AllSpaceSlice(s[i..j], 1, j - i);
      assert s[i..j][1..j - i] == s[i + 1..j];
      RunFindsNewline(s, i + 1, if s[i] == '\n' then i else last, j);
    } else {
      RunLastNewlineGrows(s, i + 1, i);
    }
  }

  lemma {:induction false} RunLastNewlineGrows(s: string, i: nat, last: int)
    requires last < i <= |s|
    ensures RunLastNewline(s, i, last) >= last
    decreases |s| - i
  {
    if i < |s| && IsSpace(s[i]) {
      RunLastNewlineGrows(s, i + 1, if s[i] == '\n' then i else last);
    }
  }

  /** No piece of a split from `p` (scanning at `q`, with no match in `p..q`) contains a blank line. */
  lemma {:induction false} SplitBlocksFromNoBlankLine(s: string, p: nat, q: nat)
    requires p <= q <= |s|
    requires forall k :: p <= k < q ==> SeparatorAt(s, k).None?
    ensures forall b :: b in SplitBlocksFrom(s, p, q) ==> !HasBlankLine(b)
    decreases |s| - q
  {
    if q == |s| {
      NoMatchNoBlankLine(s, p, q);
      assert s[p..] == s[p..q];
    } else {
      match SeparatorAt(s, q)
      case None =>
        SplitBlocksFromNoBlankLine(s, p, q + 1);
      case Some(e) =>
        NoMatchNoBlankLine(s, p, q);
        SplitBlocksFromNoBlankLine(s, e, e);
    }
  }

  lemma NoMatchNoBlankLine(s: string, p: nat, q: nat)
    requires p <= q <= |s|
    requires forall k :: p <= k < q ==> SeparatorAt(s, k).None?
    ensures !HasBlankLine(s[p..q])
  {
    var t := s[p..q];
    if HasBlankLine(t) {
      var i, j :| 0 <= i < j < |t| && t[i] == '\n' && t[j] == '\n' && AllSpace(t[i..j]);
      assert s[p + i] == '\n' && s[p + j] == '\n';
      var u := t[i..j];
      assert AllSpace(u);
      assert AllSpace(s[p + i + 1..p + j]) by {
        forall k | p + i + 1 <= k < p + j ensures IsSpace(s[k]) {
          assert s[k] == u[k - p - i];
          assert IsSpace(u[k - p - i]);
        }
      }
      SeparatorAtFinds(s, p + i, p + j);
      assert false;
    }
  }

  /** A newline followed, through white space only, by another newline starts a separator match. */
  lemma SeparatorAtFinds(s: string, q: nat, j: nat)
    requires q < j < |s| && s[q] == '\n' && s[j] == '\n' && AllSpace(s[q + 1..j])
    ensures SeparatorAt(s, q).Some?
  {
    RunFindsNewline(s, q + 1, -1, j);
  }

  /** No block produced by the blank-line split contains a blank line: the split happens at every one. */
  lemma SplitBlocksNoBlankLine(s: string)
    ensures forall b :: b in SplitBlocks(s) ==> !HasBlankLine(b)
  {
    SplitBlocksFromNoBlankLine(s, 0, 0);
  }

  // ---------------------------------------------------------------------
  // Case-insensitive prefixes (the `i` flag without `u`: ASCII letters only)
  // ---------------------------------------------------------------------

  function AsciiLower(c: char): char {
    if 'A' <= c <= 'Z' then (c as int + 32) as char else c
  }

  /** `s` with every ASCII capital letter replaced by its small letter. */
  function LowerAscii(s: string): (r: string)
    ensures |r| == |s|
    ensures forall i :: 0 <= i < |s| ==> r[i] == AsciiLower(s[i])
    decreases |s|
  {
    if s == [] then [] else [AsciiLower(s[0])] + LowerAscii(s[1..])
  }

  /**
   * `s` starts with `lower`, a prefix written in small letters, when ASCII
   * capitals in `s` count as small letters: a literal prefix under the `i` flag.
   */
  predicate StartsWithIgnoreCase(s: string, lower: string) {
    |lower| <= |s| && LowerAscii(s[..|lower|]) == lower
  }

  /** The `i` flag: each character of the prefix matches itself or its ASCII capital. */
  lemma StartsWithIgnoreCaseIff(s: string, lower: string)
    ensures StartsWithIgnoreCase(s, lower) <==> |lower| <= |s| && forall i :: 0 <= i < |lower| ==> AsciiLower(s[i]) == lower[i]
  {
    if |lower| <= |s| {
      var l := LowerAscii(s[..|lower|]);
      assert forall i :: 0 <= i < |lower| ==> l[i] == AsciiLower(s[i]);
    }
  }

  /** Capitals do not matter: a text and its lowered form start with the same prefixes. */
  lemma StartsWithIgnoreCaseLowered(s: string, lower: string)
    ensures StartsWithIgnoreCase(s, lower) <==> StartsWithIgnoreCase(LowerAscii(s), lower)
  {
    StartsWithIgnoreCaseIff(s, lower);
    StartsWithIgnoreCaseIff(LowerAscii(s), lower);
    forall i | 0 <= i < |s| ensures AsciiLower(LowerAscii(s)[i]) == AsciiLower(s[i]) {
      AsciiLowerTwice(s[i]);
    }
  }

  lemma AsciiLowerTwice(c: char)
    ensures AsciiLower(AsciiLower(c)) == AsciiLower(c)
  {
  }

  // ---------------------------------------------------------------------
  // Numbers and their decimal text
  // ---------------------------------------------------------------------

  predicate IsDigits(s: string) {
    forall i :: 0 <= i < |s| ==> IsDigit(s[i])
  }

  /** The value of a string of decimal digits (leading zeros allowed). */
  function DecimalValue(s: string): (n: nat)
    requires IsDigits(s)
  {
    if |s| == 0 then 0 else 10 * DecimalValue(s[..|s| - 1]) + (s[|s| - 1] as int - '0' as int)
  }

  /** `String(n)` for a non-negative integer: its decimal digits, no leading zero. */
  function NatToString(n: nat): (s: string)
    ensures |s| >= 1 && IsDigits(s)
    ensures |s| > 1 ==> s[0] != '0'
    decreases n
  {
    var last := ['0' + (n % 10) as char];
    if n < 10 then last else NatToString(n / 10) + last
  }

  /** Rendering a number in decimal and reading it back gives the number. */
  lemma {:induction false} NatToStringValue(n: nat)
    ensures DecimalValue(NatToString(n)) == n
    decreases n
  {
    var s := NatToString(n);
    if n >= 10 {
      NatToStringValue(n / 10);
      assert s[..|s| - 1] == NatToString(n / 10);
    }
  }

  /** `String(n)` for an integer: a minus sign before the digits of a negative one. */
  function IntToString(n: int): (s: string)
    ensures |s| >= 1
    ensures n >= 0 <==> s[0] != '-'
  {
    if n < 0 then ['-'] + NatToString(-n) else NatToString(n)
  }

  /** `parseInt` reads a string of digits as its decimal value. */
  lemma ParseIntDigits(s: string)
    requires |s| >= 1 && IsDigits(s)
    ensures ParseInt(s) == Some(DecimalValue(s) as int)
  {
    TrimStartKeeps(s);
    LeadingDecimalDigits(s);
    assert s[0] != '-' && s[0] != '+';
  }

  /** `trimStart` removes a white-space prefix up to the first other character. */
  lemma {:induction false} TrimStartAfterSpace(w: string, d: string)
    requires AllSpace(w) && (d == [] || !IsSpace(d[0]))
    ensures TrimStart(w + d) == d
    decreases |w|
  {
    if w == [] {
      assert w + d == d;
    } else {
      assert (w + d)[1..] == w[1..] + d;
      AllSpaceSlice(w, 1, |w|);
      TrimStartAfterSpace(w[1..], d);
    }
  }

  /** The digit prefix of digits followed by a non-digit is those digits. */
  lemma {:induction false} DigitPrefixStops(k: string, rest: string)
    requires IsDigits(k) && (rest == [] || !IsDigit(rest[0]))
    ensures DigitPrefix(k + rest) == k
    decreases |k|
  {
    if k == [] {
      assert k + rest == rest;
    } else {
      assert (k + rest)[1..] == k[1..] + rest;
      DigitPrefixStops(k[1..], rest);
      assert [k[0]] + k[1..] == k;
    }
  }

  /** `trimStart` leaves a text that does not start with white space alone. */
  lemma TrimStartKeeps(s: string)
    requires |s| > 0 && !IsSpace(s[0])
    ensures TrimStart(s) == s
  {
  }

  /** A run of digits is read whole. */
  lemma LeadingDecimalDigits(s: string)
    requires |s| >= 1 && IsDigits(s)
    ensures LeadingDecimal(s) == Some(DecimalValue(s) as int)
  {
    DigitPrefixAll(s);
  }

  /** A leading zero does not change a decimal value. */
  lemma {:induction false} DecimalValueLeadingZero(d: string)
    requires IsDigits(d)
    ensures DecimalValue(['0'] + d) == DecimalValue(d)
    decreases |d|
  {
    var z := ['0'] + d;
    if d == [] {
      assert z[..0] == [];
    } else {
      assert z[..|z| - 1] == ['0'] + d[..|d| - 1];
      DecimalValueLeadingZero(d[..|d| - 1]);
    }
  }

  /** `parseInt` reads a number below 100 back from its two-digit zero-padded text. */
  lemma ParseIntPadStart2(n: nat)
    requires n < 100
    ensures ParseInt(PadStart2(NatToString(n))) == Some(n)
  {
    var d := NatToString(n);
    NatToStringValue(n);
    if n < 10 {
      DecimalValueLeadingZero(d);
      assert PadStart2(d) == ['0'] + d;
    }
    ParseIntDigits(PadStart2(d));
  }

  /** What the regular-expression `.*` matches at the start of `s`: everything up to the first line terminator. */
  function TakeLine(s: string): (r: string)
    ensures |r| <= |s| && r == s[..|r|]
    decreases |s|
  {
    if |s| > 0 && !IsLineTerminator(s[0]) then [s[0]] + TakeLine(s[1..]) else []
  }

  /** The line taken holds no line terminator and stops only at one or at the end. */
  lemma {:induction false} TakeLineStops(s: string)
    ensures forall i :: 0 <= i < |TakeLine(s)| ==> !IsLineTerminator(TakeLine(s)[i])
    ensures |TakeLine(s)| < |s| ==> IsLineTerminator(s[|TakeLine(s)|])
    decreases |s|
  {
    if |s| > 0 && !IsLineTerminator(s[0]) {
      TakeLineStops(s[1..]);
      var r := TakeLine(s);
      forall i | 0 <= i < |r| ensures !IsLineTerminator(r[i]) {
        if i > 0 {
          assert r[i] == TakeLine(s[1..])[i - 1];
        }
      }
    }
  }

  /** `s.padStart(2, "0")` */
  function PadStart2(s: string): (r: string)
    ensures |r| == if |s| < 2 then 2 else |s|
    ensures r[|r| - |s|..] == s
    ensures forall i :: 0 <= i < |r| - |s| ==> r[i] == '0'
  {
    if |s| == 0 then "00" else if |s| == 1 then "0" + s else s
  }

  /**
   * `parseInt(s, 10)`: skip leading white space, an optional sign, then the
   * longest run of decimal digits; `None` (NaN) when there is no digit.
   */
  function ParseInt(s: string): Option<int>
  {
    var t := TrimStart(s);
    if |t| > 0 && t[0] == '-' then
      match LeadingDecimal(t[1..])
      case None => None
      case Some(v) => Some(-v)
    else if |t| > 0 && t[0] == '+' then LeadingDecimal(t[1..])
    else LeadingDecimal(t)
  }

  /** The value of the longest run of decimal digits at the start of `u`, when there is one. */
  function LeadingDecimal(u: string): (r: Option<int>)
    ensures r.Some? ==> r.value >= 0
  {
    var d := DigitPrefix(u);
    DigitPrefixLongest(u);
    if |d| == 0 then None else Some(DecimalValue(d) as int)
  }

  /** The longest prefix of `s` made of decimal digits. */
  function DigitPrefix(s: string): (d: string)
    ensures |d| <= |s| && d == s[..|d|]
    decreases |s|
  {
    if |s| > 0 && IsDigit(s[0]) then [s[0]] + DigitPrefix(s[1..]) else []
  }

  /** The prefix taken is all digits and is followed by a non-digit or the end: it is the longest. */
  lemma {:induction false} DigitPrefixLongest(s: string)
    ensures IsDigits(DigitPrefix(s))
    ensures |DigitPrefix(s)| < |s| ==> !IsDigit(s[|DigitPrefix(s)|])
    decreases |s|
  {
    if |s| > 0 && IsDigit(s[0]) {
      DigitPrefixLongest(s[1..]);
      var d := DigitPrefix(s);
      forall i | 0 <= i < |d| ensures IsDigit(d[i]) {
        if i > 0 {
          assert d[i] == DigitPrefix(s[1..])[i - 1];
        }
      }
    }
  }

  /** `parseInt` reads back what `String(n)` wrote. */
  lemma ParseIntNatToString(n: nat)
    ensures ParseInt(NatToString(n)) == Some(n)
  {
    var s := NatToString(n);
    assert TrimStart(s) == s;
    DigitPrefixAll(s);
    NatToStringValue(n);
  }

  lemma {:induction false} DigitPrefixAll(s: string)
    requires IsDigits(s)
    ensures DigitPrefix(s) == s
    decreases |s|
  {
    if |s| > 0 {
      DigitPrefixAll(s[1..]);
      assert [s[0]] + s[1..] == s;
    }
  }
}
