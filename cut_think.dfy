/**
 * The reasoning-trace sanitizer of `cut_think_part.py`: a single
 * `re.sub(r"\s*<think>.*?</think>\s*", "", message, flags=re.DOTALL)`.
 *
 * `re.sub` scans left to right: where the pattern matches at the current
 * position the match is deleted and the scan resumes after it; elsewhere one
 * character is kept and the scan moves on. `CutThink` is that scan written as
 * a recursion over suffixes, and `MatchLen` is the match the backtracking
 * engine picks at the start of a suffix.
 */
module CutThinkPart {
  import opened Types

  const Open: string := "<think>"
  const Close: string := "</think>"

  /**
   * Python's `\s` on a str pattern: exactly the characters for which
   * `str.isspace()` holds in CPython (Unicode categories Zs and the
   * bidirectional classes WS, B and S). This table is an assumption of the
   * model: it is CPython's, not derived here.
   */
  predicate IsSpace(ch: char)
  {
    ch in Whitespace
  }

  const Whitespace: set<char> := {
    '\t', '\n', '\U{0B}', '\U{0C}', '\r', '\U{1C}', '\U{1D}', '\U{1E}', '\U{1F}', ' ',
    '\U{85}', '\U{A0}', '\U{1680}',
    '\U{2000}', '\U{2001}', '\U{2002}', '\U{2003}', '\U{2004}', '\U{2005}',
    '\U{2006}', '\U{2007}', '\U{2008}', '\U{2009}', '\U{200A}',
    '\U{2028}', '\U{2029}', '\U{202F}', '\U{205F}', '\U{3000}'
  }

  /** `pat` occurs in `s` starting at index `i`. */
  predicate OccursAt(s: string, i: int, pat: string)
  {
    0 <= i && i + |pat| <= |s| && s[i..i + |pat|] == pat
  }

  ghost predicate Contains(s: string, pat: string)
  {
    exists k :: OccursAt(s, k, pat)
  }

  /** Every character of `s[i..j]` is whitespace. */
  ghost predicate AllSpace(s: string, i: int, j: int)
    requires 0 <= i <= j <= |s|
  {
    forall k :: i <= k < j ==> IsSpace(s[k])
  }

  /** End of the longest whitespace run starting at `i` (what a greedy `\s*` consumes). */
  function SpaceRun(s: string, i: nat): (j: nat)
    requires i <= |s|
    ensures i <= j <= |s|
    ensures AllSpace(s, i, j)
    ensures j == |s| || !IsSpace(s[j])
    decreases |s| - i
  {
    if i < |s| && IsSpace(s[i]) then SpaceRun(s, i + 1) else i
  }

  /** The first index at or after `i` where `pat` occurs. */
  function FindFrom(s: string, pat: string, i: nat): (r: Option<nat>)
    ensures r.Some? ==> i <= r.value && OccursAt(s, r.value, pat)
    ensures r.Some? ==> forall k :: i <= k < r.value ==> !OccursAt(s, k, pat)
    ensures r.None? ==> forall k :: i <= k ==> !OccursAt(s, k, pat)
    decreases |s| - i
  {
    if i + |pat| > |s| then None
    else if s[i..i + |pat|] == pat then Some(i)
    else FindFrom(s, pat, i + 1)
  }

  /**
   * `s[..n]` is a match of the pattern, read as a language: whitespace up
   * to `q`, `<think>` at `q`, any characters, `</think>` at `c`, whitespace
   * up to `n`.
   */
  ghost predicate MatchAt(s: string, q: int, c: int, n: int)
  {
    && 0 <= q && q + |Open| <= c && c + |Close| <= n <= |s|
    && AllSpace(s, 0, q) && OccursAt(s, q, Open)
    && OccursAt(s, c, Close) && AllSpace(s, c + |Close|, n)
  }

  ghost predicate Matches(s: string, n: int)
  {
    exists q, c :: MatchAt(s, q, c, n)
  }

  /**
   * The match the engine picks among those: the lazy `.*?` stops at the
   * first `</think>` after the `<think>`, the greedy trailing `\s*` takes the
   * whole whitespace run after it.
   */
  ghost predicate PreferredAt(s: string, q: int, c: int, n: int)
  {
    && MatchAt(s, q, c, n)
    && (forall k :: q + |Open| <= k < c ==> !OccursAt(s, k, Close))
    && (n == |s| || !IsSpace(s[n]))
  }

  ghost predicate Preferred(s: string, n: int)
  {
    exists q, c :: PreferredAt(s, q, c, n)
  }

  /** Length of the match the engine finds at the start of `s`, if any. */
  function MatchLen(s: string): (r: Option<nat>)
    ensures r.Some? ==> |Open| + |Close| <= r.value <= |s|
  {
    var q := SpaceRun(s, 0);
    if !OccursAt(s, q, Open) then None
    else
      match FindFrom(s, Close, q + |Open|)
      case None => None
      case Some(c) => Some(SpaceRun(s, c + |Close|))
  }

  /**
   * `MatchLen` finds the match Python's engine picks, and finds nothing
   * exactly when no prefix of `s` matches the pattern.
   */
  lemma MatchLenIsPreferred(s: string)
    ensures MatchLen(s).Some? ==> Preferred(s, MatchLen(s).value)
    ensures MatchLen(s).None? ==> forall n :: !Matches(s, n)
  {
    var q := SpaceRun(s, 0);
    if MatchLen(s).Some? {
      var c := FindFrom(s, Close, q + |Open|).value;
      assert PreferredAt(s, q, c, MatchLen(s).value);
    } else {
      forall n, q', c' | MatchAt(s, q', c', n) ensures false {
        SpaceRunIsForced(s, q');
      }
    }
  }

  /** A whitespace run that stops at a non-space (or the end) is the one `SpaceRun` finds. */
  lemma SpaceRunEnds(s: string, i: nat, n: int)
    requires i <= n <= |s| && AllSpace(s, i, n) && (n == |s| || !IsSpace(s[n]))
    ensures SpaceRun(s, i) == n
  {
  }

  /** Whitespace followed by `<think>` is exactly the run `SpaceRun` finds. */
  lemma SpaceRunIsForced(s: string, q: int)
    requires 0 <= q <= |s| && AllSpace(s, 0, q) && OccursAt(s, q, Open)
    ensures SpaceRun(s, 0) == q
  {
    assert s[q] == s[q..q + |Open|][0] == '<';
    SpaceRunEnds(s, 0, q);
  }

  /** An occurrence with none before it (from `i` on) is the one `FindFrom` finds. */
  lemma FindFromFirst(s: string, pat: string, i: nat, c: int)
    requires i <= c && OccursAt(s, c, pat)
    requires forall k :: i <= k < c ==> !OccursAt(s, k, pat)
    ensures FindFrom(s, pat, i) == Some(c)
  {
  }

  /** The engine's match is the only preferred one. */
  lemma PreferredIsMatchLen(s: string, n: int)
    requires Preferred(s, n)
    ensures MatchLen(s) == Some(n)
  {
    var q, c :| PreferredAt(s, q, c, n);
    PreferredAtIsMatchLen(s, q, c, n);
  }

  lemma PreferredAtIsMatchLen(s: string, q: int, c: int, n: int)
    requires PreferredAt(s, q, c, n)
    ensures MatchLen(s) == Some(n)
  {
    SpaceRunIsForced(s, q);
    FindFromFirst(s, Close, q + |Open|, c);
    SpaceRunEnds(s, c + |Close|, n);
  }

  /** `cut_think(message)`: the input with every matched region deleted. */
  function CutThink(s: string): (r: string)
    ensures |r| <= |s|
    decreases |s|
  {
    if s == [] then []
    else
      match MatchLen(s)
      case Some(n) => CutThink(s[n..])
      case None => [s[0]] + CutThink(s[1..])
  }

  /** `a` is `b` with some characters deleted, order kept. */
  predicate IsSubsequence(a: string, b: string)
    decreases |b|
  {
    if a == [] then true
    else if b == [] then false
    else (a[0] == b[0] && IsSubsequence(a[1..], b[1..])) || IsSubsequence(a, b[1..])
  }

  lemma {:induction false} SubsequenceOfSuffix(a: string, b: string, n: nat)
    requires n <= |b| && IsSubsequence(a, b[n..])
    ensures IsSubsequence(a, b)
    decreases n
  {
    if n > 0 {
      assert b[1..][n - 1..] == b[n..];
      SubsequenceOfSuffix(a, b[1..], n - 1);
      if a != [] {
        assert IsSubsequence(a, b[1..]);
      }
    }
  }

  /** The output is the input with characters deleted: the kept segments, in order. */
  lemma {:induction false} CutThinkIsSubsequence(s: string)
    ensures IsSubsequence(CutThink(s), s)
    decreases |s|
  {
    if s != [] {
      match MatchLen(s)
      case Some(n) =>
        CutThinkIsSubsequence(s[n..]);
        SubsequenceOfSuffix(CutThink(s), s, n);
      case None =>
        CutThinkIsSubsequence(s[1..]);
        var r := CutThink(s);
        assert r[0] == s[0] && r[1..] == CutThink(s[1..]);
    }
  }

  lemma ShiftOccurs(s: string, d: nat, k: int, pat: string)
    requires d <= |s|
    ensures OccursAt(s[d..], k, pat) <==> (0 <= k && OccursAt(s, k + d, pat))
  {
    if 0 <= k && k + |pat| <= |s| - d {
      assert s[d..][k..k + |pat|] == s[k + d..k + d + |pat|];
    }
  }

  /** Without any `<think>` the sanitizer returns its input unchanged. */
  lemma {:induction false} NoThinkUnchanged(s: string)
    requires !Contains(s, Open)
    ensures CutThink(s) == s
    decreases |s|
  {
    if s != [] {
      var q := SpaceRun(s, 0);
      assert !OccursAt(s, q, Open);
      assert MatchLen(s).None?;
      forall k ensures !OccursAt(s[1..], k, Open) {
        ShiftOccurs(s, 1, k, Open);
      }
      NoThinkUnchanged(s[1..]);
    }
  }

  /** Without any `</think>` nothing matches, so nothing is removed. */
  lemma {:induction false} NoCloseUnchanged(s: string)
    requires !Contains(s, Close)
    ensures CutThink(s) == s
    decreases |s|
  {
    if s != [] {
      MatchLenIsPreferred(s);
      assert MatchLen(s).None?;
      forall k ensures !OccursAt(s[1..], k, Close) {
        ShiftOccurs(s, 1, k, Close);
      }
      NoCloseUnchanged(s[1..]);
    }
  }

  /**
   * A `<think>` with no `</think>` at or after it is kept, together with
   * everything that follows it: the output ends with `s[q..]`.
   */
  lemma {:induction false} UnclosedThinkKept(s: string, q: int)
    requires OccursAt(s, q, Open)
    requires forall k :: q <= k ==> !OccursAt(s, k, Close)
    ensures |s| - q <= |CutThink(s)|
    ensures CutThink(s)[|CutThink(s)| - (|s| - q)..] == s[q..]
    decreases q
  {
    if q == 0 {
      NoCloseUnchanged(s);
    } else {
      match MatchLen(s)
      case None =>
        UnclosedShift(s, q, 1);
        UnclosedThinkKept(s[1..], q - 1);
        CutThinkKeeps(s);
        EndKeptPastChar(s[0], CutThink(s[1..]), CutThink(s), s[q..]);
      case Some(n) =>
        MatchEndsBeforeUnclosed(s, q, n);
        UnclosedShift(s, q, n);
        UnclosedThinkKept(s[n..], q - n);
        CutThinkSkipsTo(s, n, s[n..]);
    }
  }

  /** A suffix of `t` is still a suffix of `[ch] + t`. */
  lemma EndKeptPastChar(ch: char, t: string, r: string, x: string)
    requires r == [ch] + t
    requires |x| <= |t| && t[|t| - |x|..] == x
    ensures |x| <= |r| && r[|r| - |x|..] == x
  {
    SuffixOfAppend([ch], t, |x|);
  }

  /** Dropping `d` characters before an unclosed `<think>` keeps it unclosed. */
  lemma UnclosedShift(s: string, q: int, d: nat)
    requires OccursAt(s, q, Open) && d <= q
    requires forall k :: q <= k ==> !OccursAt(s, k, Close)
    ensures OccursAt(s[d..], q - d, Open)
    ensures forall k :: q - d <= k ==> !OccursAt(s[d..], k, Close)
    ensures s[d..][q - d..] == s[q..]
  {
    forall k | q - d <= k ensures !OccursAt(s[d..], k, Close) {
      ShiftOccurs(s, d, k, Close);
    }
    ShiftOccurs(s, d, q - d, Open);
  }

  /** The last `l` characters of `a + t` are the last `l` of `t`. */
  lemma SuffixOfAppend(a: string, t: string, l: nat)
    requires l <= |t|
    ensures (a + t)[|a + t| - l..] == t[|t| - l..]
  {
  }

  /** A match cannot run into a `<think>` that has no `</think>` after it. */
  lemma MatchEndsBeforeUnclosed(s: string, q: int, n: nat)
    requires OccursAt(s, q, Open)
    requires forall k :: q <= k ==> !OccursAt(s, k, Close)
    requires MatchLen(s) == Some(n)
    ensures n <= q
  {
    MatchLenIsPreferred(s);
    var q0, c :| PreferredAt(s, q0, c, n);
    AngleAfterMatch(s, q, c, n);
  }

  /** A `<` from which no `</think>` follows lies past the whitespace after a `</think>`. */
  lemma AngleAfterMatch(s: string, q: int, c: int, n: int)
    requires 0 <= c && c + |Close| <= n <= |s|
    requires OccursAt(s, c, Close) && AllSpace(s, c + |Close|, n)
    requires OccursAt(s, q, Open)
    requires forall k :: q <= k ==> !OccursAt(s, k, Close)
    ensures n <= q
  {
    OccursAtChar(s, q, Open, 0);
    forall d | 0 <= d < |Close| ensures s[c + d] == Close[d] {
      OccursAtChar(s, c, Close, d);
    }
  }

  lemma OccursAtChar(s: string, i: int, pat: string, d: int)
    requires OccursAt(s, i, pat) && 0 <= d < |pat|
    ensures s[i + d] == pat[d]
  {
    assert s[i + d] == s[i..i + |pat|][d];
  }

  /** `pat` occurs at the start of `pat + t`. */
  lemma OccursAtFront(pat: string, t: string)
    ensures OccursAt(pat + t, 0, pat)
  {
    assert (pat + t)[..|pat|] == pat;
  }

  /** No character of `<think>` after its first is `<` or whitespace. */
  lemma OpenTail(d: int)
    requires 1 <= d < |Open|
    ensures Open[d] != '<' && !IsSpace(Open[d])
  {
  }

  /**
   * A complete block, with the whitespace on both sides of it, is removed,
   * the text before it is kept verbatim and the scan goes on after it; so
   * every complete block is removed, not just the first. The block ends at
   * the first `</think>` after its `<think>`, even across lines.
   */
  lemma {:induction false} BlockRemoved(u: string, w1: string, m: string, w2: string, v: string)
    requires !Contains(u, Open) && (u == [] || !IsSpace(u[|u| - 1]))
    requires AllSpace(w1, 0, |w1|) && AllSpace(w2, 0, |w2|) && (v == [] || !IsSpace(v[0]))
    requires forall k :: 0 <= k < |m| ==> !OccursAt(m + Close, k, Close)
    ensures CutThink(u + w1 + Open + m + Close + w2 + v) == u + CutThink(v)
  {
    var r := BlockSkipped(w1, m, w2, v);
    PrependBlock(u, w1, m, w2, v, r);
    PrefixKept(u, r);
  }

  lemma PrependBlock(u: string, w1: string, m: string, w2: string, v: string, r: string)
    requires r == w1 + Open + m + Close + w2 + v
    ensures u + w1 + Open + m + Close + w2 + v == u + r
  {
  }

  /** A block string on its own: it starts with `<` or whitespace, and the scan skips to `v`. */
  lemma BlockSkipped(w1: string, m: string, w2: string, v: string) returns (r: string)
    requires AllSpace(w1, 0, |w1|) && AllSpace(w2, 0, |w2|) && (v == [] || !IsSpace(v[0]))
    requires forall k :: 0 <= k < |m| ==> !OccursAt(m + Close, k, Close)
    ensures r == w1 + Open + m + Close + w2 + v
    ensures r != [] && (r[0] == '<' || IsSpace(r[0]))
    ensures CutThink(r) == CutThink(v)
  {
    var t4 := w2 + v;
    var t3 := Close + t4;
    var t2 := m + t3;
    var t1 := Open + t2;
    r := w1 + t1;
    BlockShape(w1, m, w2, v, t1, t2, t3, t4, r);
    BlockParts(r, w1, m, w2, v, t1, t2, t3, t4);
    BlockAtStart(r, |w1|, |w1| + |Open| + |m|, |w1| + |Open| + |m| + |Close| + |w2|);
  }

  lemma BlockShape(w1: string, m: string, w2: string, v: string,
                   t1: string, t2: string, t3: string, t4: string, r: string)
    requires AllSpace(w1, 0, |w1|)
    requires t4 == w2 + v && t3 == Close + t4 && t2 == m + t3 && t1 == Open + t2 && r == w1 + t1
    ensures r == w1 + Open + m + Close + w2 + v
    ensures r != [] && (r[0] == '<' || IsSpace(r[0]))
  {
    if w1 == [] {
      assert r[0] == Open[0];
    } else {
      assert r[0] == w1[0];
    }
  }

  /**
   * Text with no `<think>` in it, ending in a non-space, is kept verbatim
   * when what follows it starts with `<` or whitespace.
   */
  lemma {:induction false} PrefixKept(u: string, r: string)
    requires !Contains(u, Open) && (u == [] || !IsSpace(u[|u| - 1]))
    requires r != [] && (r[0] == '<' || IsSpace(r[0]))
    ensures CutThink(u + r) == u + CutThink(r)
    decreases |u|
  {
    if u == [] {
      assert u + r == r;
    } else {
      NoMatchBeforeBlock(u, r);
      KeepFirst(u, r);
      PrefixKept(u[1..], r);
      ConsTail(u, CutThink(r));
    }
  }

  lemma ConsTail(u: string, t: string)
    requires u != []
    ensures [u[0]] + (u[1..] + t) == u + t
  {
    assert u == [u[0]] + u[1..];
  }

  /** Text that holds no `<think>` and ends in a non-space cannot start a match. */
  lemma NoMatchBeforeBlock(u: string, r: string)
    requires u != [] && !Contains(u, Open) && !IsSpace(u[|u| - 1])
    requires r != [] && (r[0] == '<' || IsSpace(r[0]))
    ensures MatchLen(u + r).None?
    ensures !Contains(u[1..], Open) && (u[1..] == [] || !IsSpace(u[1..][|u| - 2]))
  {
    var s := u + r;
    var j := SpaceRun(s, 0);
    assert s[|u| - 1] == u[|u| - 1];
    assert j < |u|;
    if OccursAt(s, j, Open) {
      if j + |Open| <= |u| {
        assert u[j..j + |Open|] == s[j..j + |Open|];
        assert OccursAt(u, j, Open);
      } else {
        var d := |u| - j;
        assert s[|u|] == s[j..j + |Open|][d] == Open[d];
        assert s[|u|] == r[0];
        OpenTail(d);
      }
    }
    forall k | OccursAt(u[1..], k, Open) ensures false {
      ShiftOccurs(u, 1, k, Open);
    }
  }

  /** One scan step over the first character of `u + r` when no match starts there. */
  lemma KeepFirst(u: string, r: string)
    requires u != [] && MatchLen(u + r).None?
    ensures CutThink(u + r) == [u[0]] + CutThink(u[1..] + r)
  {
    var s := u + r;
    CutThinkKeeps(s);
    assert s[1..] == u[1..] + r;
  }

  /**
   * A block with its surrounding whitespace at the start of `s`, given by
   * the positions of its parts, is skipped: the scan resumes right after it.
   */
  lemma BlockAtStart(s: string, q: nat, c: nat, n: nat)
    requires q + |Open| <= c && c + |Close| <= n <= |s|
    requires AllSpace(s, 0, q) && OccursAt(s, q, Open)
    requires OccursAt(s, c, Close) && AllSpace(s, c + |Close|, n)
    requires forall k :: q + |Open| <= k < c ==> !OccursAt(s, k, Close)
    requires n == |s| || !IsSpace(s[n])
    ensures CutThink(s) == CutThink(s[n..])
  {
    PreferredAtIsMatchLen(s, q, c, n);
    CutThinkSkipsTo(s, n, s[n..]);
  }

  /** Where a match starts, the scan resumes after it. */
  lemma CutThinkSkipsTo(s: string, n: nat, v: string)
    requires MatchLen(s) == Some(n) && n <= |s| && s[n..] == v
    ensures CutThink(s) == CutThink(v)
  {
  }

  /** Where no match starts, one character is kept and the scan moves on. */
  lemma CutThinkKeeps(s: string)
    requires s != [] && MatchLen(s).None?
    ensures CutThink(s) == [s[0]] + CutThink(s[1..])
  {
  }

  /** Past `a` in a suffix `a + t` of `s` lies `t`. */
  lemma SuffixStep(s: string, i: nat, a: string, t: string)
    requires i <= |s| && s[i..] == a + t
    ensures i + |a| <= |s| && s[i + |a|..] == t
  {
    assert s[i + |a|..] == s[i..][|a|..];
  }

  /** A block string has the parts of the engine's match: the block and its surrounding whitespace. */
  lemma BlockParts(s: string, w1: string, m: string, w2: string, v: string,
                   t1: string, t2: string, t3: string, t4: string)
    requires t4 == w2 + v && t3 == Close + t4 && t2 == m + t3 && t1 == Open + t2 && s == w1 + t1
    requires AllSpace(w1, 0, |w1|) && AllSpace(w2, 0, |w2|) && (v == [] || !IsSpace(v[0]))
    requires forall k :: 0 <= k < |m| ==> !OccursAt(m + Close, k, Close)
    ensures var q, c := |w1|, |w1| + |Open| + |m|;
      var n := c + |Close| + |w2|;
      && q + |Open| <= c && c + |Close| <= n <= |s|
      && AllSpace(s, 0, q) && OccursAt(s, q, Open)
      && OccursAt(s, c, Close) && AllSpace(s, c + |Close|, n)
      && (forall k :: q + |Open| <= k < c ==> !OccursAt(s, k, Close))
      && (n == |s| || !IsSpace(s[n]))
      && s[n..] == v
  {
    OpeningPart(s, w1, t1, t2);
    BodyPart(s, |w1| + |Open|, m, t2, t3, t4);
    ClosingPart(s, |w1| + |Open| + |m| + |Close|, w2, v, t4);
  }

  /** Leading whitespace, then the opening tag, then `t2`. */
  lemma OpeningPart(s: string, w1: string, t1: string, t2: string)
    requires s == w1 + t1 && t1 == Open + t2 && AllSpace(w1, 0, |w1|)
    ensures |w1| + |Open| <= |s| && AllSpace(s, 0, |w1|) && OccursAt(s, |w1|, Open)
    ensures s[|w1| + |Open|..] == t2
  {
    assert s[0..] == w1 + t1;
    SuffixStep(s, 0, w1, t1);
    SuffixStep(s, |w1|, Open, t2);
    BlankAtSuffix(s, 0, w1, t1);
    OccursAtSuffix(s, |w1|, Open, t2);
  }

  /** The block's body without a closing tag, then the closing tag, then `t4`. */
  lemma BodyPart(s: string, i: nat, m: string, t2: string, t3: string, t4: string)
    requires i <= |s| && s[i..] == t2 && t2 == m + t3 && t3 == Close + t4
    requires forall k :: 0 <= k < |m| ==> !OccursAt(m + Close, k, Close)
    ensures i + |m| + |Close| <= |s| && OccursAt(s, i + |m|, Close)
    ensures forall k :: i <= k < i + |m| ==> !OccursAt(s, k, Close)
    ensures s[i + |m| + |Close|..] == t4
  {
    SuffixStep(s, i, m, t3);
    SuffixStep(s, i + |m|, Close, t4);
    BodyNoClose(s, i, m, t4);
    OccursAtSuffix(s, i + |m|, Close, t4);
  }

  /** Trailing whitespace up to a character that is not whitespace, then `v`. */
  lemma ClosingPart(s: string, j: nat, w2: string, v: string, t4: string)
    requires j <= |s| && s[j..] == t4 && t4 == w2 + v
    requires AllSpace(w2, 0, |w2|) && (v == [] || !IsSpace(v[0]))
    ensures j + |w2| <= |s| && AllSpace(s, j, j + |w2|)
    ensures j + |w2| == |s| || !IsSpace(s[j + |w2|])
    ensures s[j + |w2|..] == v
  {
    SuffixStep(s, j, w2, v);
    BlankAtSuffix(s, j, w2, v);
    BoundaryAtSuffix(s, j + |w2|, v);
  }

  lemma OccursAtSuffix(s: string, i: nat, pat: string, t: string)
    requires i <= |s| && s[i..] == pat + t
    ensures OccursAt(s, i, pat)
  {
    OccursAtFront(pat, t);
    ShiftOccurs(s, i, 0, pat);
  }

  lemma BlankAtSuffix(s: string, i: nat, w: string, t: string)
    requires i <= |s| && s[i..] == w + t && AllSpace(w, 0, |w|)
    ensures i + |w| <= |s| && AllSpace(s, i, i + |w|)
  {
    forall k | i <= k < i + |w| ensures IsSpace(s[k]) {
      assert s[k] == s[i..][k - i];
    }
  }

  lemma BoundaryAtSuffix(s: string, n: nat, v: string)
    requires n <= |s| && s[n..] == v && (v == [] || !IsSpace(v[0]))
    ensures n == |s| || !IsSpace(s[n])
  {
    if n < |s| {
      assert s[n] == s[n..][0];
    }
  }

  lemma BodyNoClose(s: string, i: nat, m: string, t: string)
    requires i <= |s| && s[i..] == m + (Close + t)
    requires forall k :: 0 <= k < |m| ==> !OccursAt(m + Close, k, Close)
    ensures forall k :: i <= k < i + |m| ==> !OccursAt(s, k, Close)
  {
    forall k | i <= k < i + |m| ensures !OccursAt(s, k, Close) {
      ShiftOccurs(s, i, k - i, Close);
      NoEarlyClose(m, t, k - i);
    }
  }

  /** Inside the block body no `</think>` starts. */
  lemma NoEarlyClose(m: string, t: string, i: int)
    requires forall k :: 0 <= k < |m| ==> !OccursAt(m + Close, k, Close)
    requires 0 <= i < |m|
    ensures !OccursAt(m + (Close + t), i, Close)
  {
    PrefixOccurs(m + Close, t, i, Close);
    assert m + Close + t == m + (Close + t);
  }

  /** Occurrences that end inside `a` are the same in `a + b`. */
  lemma PrefixOccurs(a: string, b: string, i: int, pat: string)
    requires 0 <= i && i + |pat| <= |a|
    ensures OccursAt(a + b, i, pat) <==> OccursAt(a, i, pat)
  {
    assert (a + b)[i..i + |pat|] == a[i..i + |pat|];
  }

  /** Text without a `<t` pair early enough to start a `<think>` holds none. */
  lemma NoOpenIn(s: string)
    requires forall k :: 0 <= k && k + |Open| <= |s| ==> s[k] != '<' || s[k + 1] != 't'
    ensures !Contains(s, Open)
  {
    forall k | OccursAt(s, k, Open) ensures false {
      OccursAtChar(s, k, Open, 0);
      OccursAtChar(s, k, Open, 1);
    }
  }

  /** A body without a `</` pair holds no early `</think>`. */
  lemma NoCloseInBody(m: string)
    requires forall k :: 0 <= k < |m| - 1 ==> m[k] != '<' || m[k + 1] != '/'
    requires m == [] || m[|m| - 1] != '<'
    ensures forall k :: 0 <= k < |m| ==> !OccursAt(m + Close, k, Close)
  {
    forall k | 0 <= k < |m| && OccursAt(m + Close, k, Close) ensures false {
      OccursAtChar(m + Close, k, Close, 0);
      OccursAtChar(m + Close, k, Close, 1);
    }
  }

  /**
   * Blocks do not nest: the inner `</think>` closes the outer block, and
   * what follows it is kept.
   */
  lemma NestedBlockLeavesTail(s: string, m: string, t: string)
    requires m == "a<think>b" && t == "c</think>"
    requires s == "<think>a<think>b</think>c</think>"
    ensures CutThink(s) == t
  {
    NestedShape(s, m, t);
    BlockRemoved("", "", m, "", t);
    NoThinkUnchanged(t);
  }

  /** Removing a block can join the text around it into a new block, so a second pass may remove more. */
  lemma NotIdempotent(s: string, u: string, v: string, once: string)
    requires s == "<thi<think>x</think>nk>a</think>" && u == "<thi" && v == "nk>a</think>"
    requires once == "<think>a</think>"
    ensures CutThink(s) == once
    ensures CutThink(once) == []
  {
    NotIdempotentShapes(s, u, v, once);
    BlockRemoved(u, "", "x", "", v);
    NoThinkUnchanged(v);
    BlockRemoved("", "", "a", "", "");
  }

  lemma NestedShape(s: string, m: string, t: string)
    requires m == "a<think>b" && t == "c</think>"
    requires s == "<think>a<think>b</think>c</think>"
    ensures s == "" + "" + Open + m + Close + "" + t
    ensures forall k :: 0 <= k < |m| ==> !OccursAt(m + Close, k, Close)
    ensures !Contains(t, Open) && !IsSpace(t[0])
  {
    NoCloseInBody(m);
    NoOpenIn(t);
  }

  lemma NotIdempotentShapes(s: string, u: string, v: string, once: string)
    requires s == "<thi<think>x</think>nk>a</think>" && u == "<thi" && v == "nk>a</think>"
    requires once == "<think>a</think>"
    ensures s == u + "" + Open + "x" + Close + "" + v
    ensures u + v == once
    ensures once == "" + "" + Open + "a" + Close + "" + ""
    ensures !Contains(u, Open) && !IsSpace(u[|u| - 1])
    ensures !Contains(v, Open) && !IsSpace(v[0])
    ensures forall k :: 0 <= k < 1 ==> !OccursAt("x" + Close, k, Close)
    ensures forall k :: 0 <= k < 1 ==> !OccursAt("a" + Close, k, Close)
  {
    NotIdempotentJoins(s, u, v, once);
    NoOpenIn(u);
    NoOpenIn(v);
    NoCloseInBody("x");
    NoCloseInBody("a");
  }

  lemma NotIdempotentJoins(s: string, u: string, v: string, once: string)
    requires s == "<thi<think>x</think>nk>a</think>" && u == "<thi" && v == "nk>a</think>"
    requires once == "<think>a</think>"
    ensures s == u + "" + Open + "x" + Close + "" + v
    ensures u + v == once
    ensures once == "" + "" + Open + "a" + Close + "" + ""
  {
    OuterJoin(s, u, v);
    InnerJoin(u, v, once);
  }

  lemma OuterJoin(s: string, u: string, v: string)
    requires s == "<thi<think>x</think>nk>a</think>" && u == "<thi" && v == "nk>a</think>"
    ensures s == u + "" + Open + "x" + Close + "" + v
  {
  }

  lemma InnerJoin(u: string, v: string, once: string)
    requires u == "<thi" && v == "nk>a</think>" && once == "<think>a</think>"
    ensures u + v == once
    ensures once == "" + "" + Open + "a" + Close + "" + ""
  {
  }
}
