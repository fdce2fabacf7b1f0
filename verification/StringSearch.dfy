/** The skip-table searches of the office benchmark: Boyer-Moore-Horspool under a
    folding of characters, its instance without folding, and the simpler table search. */
module StringSearch {
  type Byte = b: int | 0 <= b < 256

  const LARGE := 32767

  /** A folding table for characters, such as one that maps letters to lower case. */
  type Fold = s: seq<int> | |s| == 256 witness seq(256, i => i)

  predicate Plain(f: Fold) {
    forall i :: 0 <= i < 256 ==> f[i] == i
  }

  /** The pattern is in the text at `k`, up to folding. */
  ghost predicate MatchAt(f: Fold, text: seq<Byte>, pat: seq<Byte>, k: int) {
    0 <= k <= |text| - |pat| && forall j :: 0 <= j < |pat| ==> f[text[k + j]] == f[pat[j]]
  }

  ghost predicate NoMatchBefore(f: Fold, text: seq<Byte>, pat: seq<Byte>, n: int) {
    forall k :: 0 <= k < n ==> !MatchAt(f, text, pat, k)
  }

  /** `r` is the leftmost match, or -1 when there is none. */
  ghost predicate Leftmost(f: Fold, text: seq<Byte>, pat: seq<Byte>, r: int) {
    if r == -1 then NoMatchBefore(f, text, pat, |text| + 1)
    else MatchAt(f, text, pat, r) && NoMatchBefore(f, text, pat, r)
  }

  /** `n` is how far the last occurrence of `c` among the first `m` characters of the
      pattern is from its last character; the pattern's length when there is none. */
  ghost predicate Distance(f: Fold, pat: seq<Byte>, m: int, c: Byte, n: int)
    requires 0 <= m <= |pat|
  {
    && |pat| - m <= n <= |pat|
    && (forall j :: |pat| - 1 - n < j < m ==> f[pat[j]] != f[c])
    && (n < |pat| ==> f[pat[|pat| - 1 - n]] == f[c])
  }

  // Moving the window by less than the distance cannot give a match.
  lemma SkipSafe(f: Fold, text: seq<Byte>, pat: seq<Byte>, e: int, m: int, n: int)
    requires 0 < |pat| && |pat| - 1 <= e < |text| && 0 <= m <= |pat| && Distance(f, pat, m, text[e], n)
    requires NoMatchBefore(f, text, pat, e - (|pat| - 1))
    requires m < |pat| ==> m == |pat| - 1 && !MatchAt(f, text, pat, e - (|pat| - 1))
    ensures NoMatchBefore(f, text, pat, e + n - (|pat| - 1))
  {
    forall k | 0 <= k < e + n - (|pat| - 1) ensures !MatchAt(f, text, pat, k) {
      if e - (|pat| - 1) <= k {
        var j := e - k;
        assert f[text[k + j]] != f[pat[j]] || (m < |pat| && k == e - (|pat| - 1));
      }
    }
  }

  // Windows that reach past the text do not match.
  lemma PastEnd(f: Fold, text: seq<Byte>, pat: seq<Byte>, n: int)
    requires NoMatchBefore(f, text, pat, n) && |text| - |pat| < n
    ensures NoMatchBefore(f, text, pat, |text| + 1)
  {
  }

  // The same distance for a character with the same folding.
  lemma DistanceSame(f: Fold, pat: seq<Byte>, m: int, c: Byte, c': Byte, n: int)
    requires 0 <= m <= |pat| && Distance(f, pat, m, c, n) && f[c] == f[c']
    ensures Distance(f, pat, m, c', n)
  {
  }

  class Horspool {
    const lowervec: Fold
    var pat: seq<Byte>
    var patlen: int
    const skip: array<int>
    var skip2: int

    constructor (lowervec: Fold)
      ensures this.lowervec == lowervec && skip.Length == 256 && fresh(skip)
    {
      this.lowervec := lowervec;
      skip := new int[256];
      pat, patlen, skip2 := [], 0, 0;
    }

    /** The entry for `c`: where the last character of the pattern can be, or there is no
        pattern, the mark for a hit; else the distance of the last occurrence. */
    ghost predicate SkipOk(c: Byte, n: int)
      reads this
    {
      if pat == [] || lowervec[c] == lowervec[pat[|pat| - 1]] then n == LARGE
      else n > 0 && Distance(lowervec, pat, |pat|, c, n)
    }

    ghost predicate Ready()
      reads this, skip
    {
      && |pat| == patlen > 0 && skip.Length == 256
      && (forall c: Byte :: SkipOk(c, skip[c]))
      && skip2 > 0 && Distance(lowervec, pat, patlen - 1, pat[patlen - 1], skip2)
    }

    /** The tables, found by looking for each character in the pattern from its end. The
        empty pattern has only marks for a hit, and no second shift. */
    method InitFolded(pattern: seq<Byte>)
      requires skip.Length == 256
      modifies this, skip
      ensures pat == pattern && (pattern != [] ==> Ready())
      ensures pattern == [] ==> patlen == skip2 == 0 && forall c: Byte :: skip[c] == LARGE
    {
      pat, patlen := pattern, |pattern|;
      for i := 0 to 256
        invariant pat == pattern && patlen == |pattern|
        invariant forall c: Byte :: c < i ==> SkipOk(c, skip[c])
      {
        skip[i] := patlen;
        var j := patlen - 1;
        while j >= 0 && lowervec[i] != lowervec[pat[j]]
          invariant -1 <= j < patlen && skip[i] == patlen
          invariant forall k :: j < k < patlen ==> lowervec[pat[k]] != lowervec[i]
          invariant forall c: Byte :: c < i ==> SkipOk(c, skip[c])
        {
          j := j - 1;
        }
        if j >= 0 { skip[i] := patlen - j - 1; }
        if j == patlen - 1 { skip[i] := LARGE; }
      }
      FindSkip2();
    }

    /** The second shift: the distance of the last character's previous occurrence. */
    method FindSkip2()
      requires |pat| == patlen && skip.Length == 256 && forall c: Byte :: SkipOk(c, skip[c])
      modifies this`skip2
      ensures if patlen > 0 then Ready() else skip2 == 0
    {
      skip2 := patlen;
      var i := 0;
      while i < patlen - 1
        invariant 0 <= i && (i <= patlen - 1 || patlen == i == 0)
        invariant skip2 == patlen || (patlen - i <= skip2 < patlen && lowervec[pat[patlen - 1 - skip2]] == lowervec[pat[patlen - 1]])
        invariant patlen > 0 ==> skip2 > 0
        invariant forall j :: patlen - 1 - skip2 < j < i ==> lowervec[pat[j]] != lowervec[pat[patlen - 1]]
      {
        if lowervec[pat[i]] == lowervec[pat[patlen - 1]] { skip2 := patlen - i - 1; }
        i := i + 1;
      }
    }

    /** The tables without folding, filled in one pass over the pattern. */
    method InitPlain(pattern: seq<Byte>)
      requires |pattern| > 0 && skip.Length == 256 && Plain(lowervec)
      modifies this, skip
      ensures Ready() && pat == pattern
    {
      pat, patlen := pattern, |pattern|;
      for i := 0 to 256
        invariant pat == pattern && patlen == |pattern|
        invariant forall c: Byte :: c < i ==> skip[c] == patlen
      {
        skip[i] := patlen;
      }
      for i := 0 to patlen
        invariant pat == pattern && patlen == |pattern|
        invariant forall c: Byte :: if skip[c] == patlen then forall j :: 0 <= j < i ==> pat[j] != c
                                    else 0 <= patlen - 1 - skip[c] < i && pat[patlen - 1 - skip[c]] == c
                                         && forall j :: patlen - 1 - skip[c] < j < i ==> pat[j] != c
      {
        skip[pat[i]] := patlen - i - 1;
      }
      var lastpatchar := pat[patlen - 1];
      skip[lastpatchar] := LARGE;
      assert forall c: Byte :: SkipOk(c, skip[c]);
      FindSkip2();
    }

    /** The inner loop: jump from character to character until one can be the last of
        the pattern, or the end is passed. */
    method Jump(text: seq<Byte>, i0: int) returns (i: int)
      requires Ready() && patlen + |text| <= LARGE && patlen - 1 - |text| <= i0 < 0
      requires NoMatchBefore(lowervec, text, pat, |text| + i0 - (patlen - 1))
      ensures i >= LARGE - |text| ==>
                && i0 <= i - LARGE < 0 && lowervec[text[|text| + i - LARGE]] == lowervec[pat[patlen - 1]]
                && NoMatchBefore(lowervec, text, pat, |text| + i - LARGE - (patlen - 1))
      ensures i < LARGE - |text| ==> NoMatchBefore(lowervec, text, pat, |text| + 1)
    {
      i := i0;
      ghost var e := i;
      while i < 0
        invariant i0 <= e < 0 && (i < 0 ==> i == e) && patlen - 1 - |text| <= e
        invariant NoMatchBefore(lowervec, text, pat, |text| + e - (patlen - 1))
        invariant i >= 0 ==> (i == e + LARGE && lowervec[text[|text| + e]] == lowervec[pat[patlen - 1]])
                             || (i < patlen && NoMatchBefore(lowervec, text, pat, |text| + 1))
        decreases -i
      {
        var c := text[|text| + i];
        assert SkipOk(c, skip[c]);
        if lowervec[c] != lowervec[pat[patlen - 1]] {
          SkipSafe(lowervec, text, pat, |text| + i, patlen, skip[c]);
          if i + skip[c] >= 0 {
            PastEnd(lowervec, text, pat, |text| + i + skip[c] - (patlen - 1));
          }
        }
        i := i + skip[c];
        if i < 0 { e := i; }
      }
    }

    // Compare a window with the pattern, from the end.
    method Compare(text: seq<Byte>, k: int) returns (same: bool)
      requires Ready() && 0 <= k <= |text| - patlen && lowervec[text[k + patlen - 1]] == lowervec[pat[patlen - 1]]
      ensures same <==> MatchAt(lowervec, text, pat, k)
    {
      var j := patlen - 2;
      while j >= 0 && lowervec[text[k + j]] == lowervec[pat[j]]
        invariant -1 <= j < patlen - 1
        invariant forall l :: j < l < patlen ==> lowervec[text[k + l]] == lowervec[pat[l]]
      {
        j := j - 1;
      }
      same := j < 0;
    }

    /** The search, with indices counted back from the end of the text: the leftmost
        match, or -1. */
    method Search(text: seq<Byte>) returns (r: int)
      requires Ready() && patlen + |text| <= LARGE
      ensures Leftmost(lowervec, text, pat, r)
    {
      var i := patlen - 1 - |text|;
      if i >= 0 { return -1; }
      while true
        invariant patlen - 1 - |text| <= i < 0
        invariant NoMatchBefore(lowervec, text, pat, |text| + i - (patlen - 1))
        decreases -i
      {
        ghost var i0 := i;
        i := Jump(text, i);
        if i < LARGE - |text| { return -1; }
        i := i - LARGE;
        var same := Compare(text, |text| + i - (patlen - 1));
        if same { return |text| + i - (patlen - 1); }
        DistanceSame(lowervec, pat, patlen - 1, pat[patlen - 1], text[|text| + i], skip2);
        SkipSafe(lowervec, text, pat, |text| + i, patlen - 1, skip2);
        i := i + skip2;
        if i >= 0 {
          PastEnd(lowervec, text, pat, |text| + i - (patlen - 1));
          return -1;
        }
      }
    }
  }

  // ---- the table search ----

  const PLAIN: Fold := seq(256, i => i)
  const SIZE_MAX := 0xFFFF_FFFF

  class TableSearch {
    const table: array<int>
    var len: int
    var findme: seq<Byte>

    constructor ()
      ensures table.Length == 256 && fresh(table)
    {
      table := new int[256];
      len, findme := 0, [];
    }

    ghost predicate Ready()
      reads this, table
    {
      && len == |findme| && table.Length == 256
      && forall c: Byte :: Distance(PLAIN, findme, len, c, table[c])
    }

    method Init(pattern: seq<Byte>)
      requires table.Length == 256
      modifies this, table
      ensures Ready() && findme == pattern
    {
      len := |pattern|;
      for i := 0 to 256
        invariant len == |pattern|
        invariant forall c: Byte :: c < i ==> table[c] == len
      {
        table[i] := len;
      }
      for i := 0 to len
        invariant len == |pattern|
        invariant forall c: Byte :: if table[c] == len then forall j :: 0 <= j < i ==> pattern[j] != c
                                    else 0 <= len - 1 - table[c] < i && pattern[len - 1 - table[c]] == c
                                         && forall j :: len - 1 - table[c] < j < i ==> pattern[j] != c
      {
        table[pattern[i]] := len - i - 1;
      }
      findme := pattern;
    }

    /** The leftmost match of a pattern that is not empty.  For the empty pattern the
        first position wraps around and nothing is found. */
    method Search(text: seq<Byte>) returns (r: int)
      requires Ready() && |text| + len <= SIZE_MAX
      ensures Leftmost(PLAIN, text, findme, r) <==> len > 0
      ensures len == 0 ==> r == -1
    {
      var pos := if len == 0 then SIZE_MAX else len - 1;
      var limit := |text|;
      while pos < limit
        invariant len > 0 ==> len - 1 <= pos
        invariant len == 0 ==> pos >= limit
        invariant len > 0 ==> NoMatchBefore(PLAIN, text, findme, pos - (len - 1))
        decreases limit - pos
      {
        ghost var pos0 := pos;
        var shift := table[text[pos]];
        while pos < limit && shift > 0
          invariant pos0 <= pos && (pos < limit ==> shift == table[text[pos]])
          invariant NoMatchBefore(PLAIN, text, findme, pos - (len - 1))
          invariant pos >= limit ==> shift > 0
          decreases limit - pos
        {
          SkipSafe(PLAIN, text, findme, pos, len, shift);
          pos := pos + shift;
          if pos < limit { shift := table[text[pos]]; }
        }
        if shift == 0 {
          var here := pos - len + 1;
          if text[here..here + len] == findme {
            assert MatchAt(PLAIN, text, findme, here);
            return here;
          } else {
            NotHere(text, findme, here);
            pos := pos + 1;
          }
        }
      }
      if len == 0 { assert MatchAt(PLAIN, text, findme, 0); }
      if len > 0 { PastEnd(PLAIN, text, findme, pos - (len - 1)); }
      r := -1;
    }
  }

  lemma NotHere(text: seq<Byte>, pat: seq<Byte>, k: int)
    requires 0 <= k <= |text| - |pat| && text[k..k + |pat|] != pat
    ensures !MatchAt(PLAIN, text, pat, k)
  {
    if MatchAt(PLAIN, text, pat, k) { MatchIsEqual(text, pat, k); }
  }

  lemma MatchIsEqual(text: seq<Byte>, pat: seq<Byte>, k: int)
    requires MatchAt(PLAIN, text, pat, k)
    ensures text[k..k + |pat|] == pat
  {
    assert forall j :: 0 <= j < |pat| ==> PLAIN[text[k + j]] == PLAIN[pat[j]];
  }
}
