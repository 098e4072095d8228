/** The two Python `str` operations the dashboard's query cleaning calls,
    `str.replace` and `str.strip()` without arguments (with `str.isspace`
    for one character), together with `str.count` and the `in` operator,
    which the cleaning does not call but in whose terms the lemmas about
    `replace` are stated. Strings are sequences of Unicode scalar values:
    Dafny's `char` excludes the surrogates, which a Python `str` can hold. */
module PythonStr {

  /** `c.isspace()` in CPython: the code points whose bidirectional class is
      WS, B or S, or whose general category is Zs. */
  predicate IsSpace(c: char) {
    var n := c as int;
    || (0x09 <= n <= 0x0D)
    || (0x1C <= n <= 0x20)
    || n == 0x85 || n == 0xA0 || n == 0x1680
    || (0x2000 <= n <= 0x200A)
    || n == 0x2028 || n == 0x2029 || n == 0x202F || n == 0x205F || n == 0x3000
  }

  /** `s.startswith(p)`. */
  predicate StartsWith(s: string, p: string) {
    |p| <= |s| && s[..|p|] == p
  }

  /** `pat in s`: some position of `s` starts an occurrence of `pat`. */
  predicate Contains(s: string, pat: string) {
    exists i :: 0 <= i <= |s| && StartsWith(s[i..], pat)
  }

  /** `s.replace(pat, rep)`: one left-to-right pass that replaces each
      leftmost, non-overlapping occurrence of `pat`. With an empty `pat`
      Python puts `rep` before every character and once at the end. */
  function Replace(s: string, pat: string, rep: string): string {
    if pat == [] then InsertEverywhere(s, rep) else ReplaceScan(s, pat, rep)
  }

  /** `s.replace("", rep)`. */
  function InsertEverywhere(s: string, rep: string): string
    decreases |s|
  {
    if s == [] then rep else rep + [s[0]] + InsertEverywhere(s[1..], rep)
  }

  /** The scan of `s.replace(pat, rep)` for a non-empty `pat`. */
  function ReplaceScan(s: string, pat: string, rep: string): string
    requires pat != []
    decreases |s|
  {
    if s == [] then []
    else if StartsWith(s, pat) then rep + ReplaceScan(s[|pat|..], pat, rep)
    else [s[0]] + ReplaceScan(s[1..], pat, rep)
  }

  /** `s.count(pat)` for a non-empty `pat`: the number of occurrences that the
      same left-to-right, non-overlapping scan finds. */
  function Count(s: string, pat: string): (n: nat)
    requires pat != []
    ensures n * |pat| <= |s|
    decreases |s|
  {
    if s == [] then 0
    else if StartsWith(s, pat) then 1 + Count(s[|pat|..], pat)
    else Count(s[1..], pat)
  }

  /** Each replacement swaps |pat| characters for |rep| characters, so the
      length changes by exactly that difference per occurrence counted. */
  lemma {:induction false} ReplaceLength(s: string, pat: string, rep: string)
    requires pat != []
    ensures |Replace(s, pat, rep)| == |s| + Count(s, pat) * (|rep| - |pat|)
    decreases |s|
  {
    if s == [] {
    } else if StartsWith(s, pat) {
      var t := s[|pat|..];
      ReplaceLength(t, pat, rep);
      assert Replace(s, pat, rep) == rep + Replace(t, pat, rep);
      assert Count(s, pat) == 1 + Count(t, pat);
      MultiplySucc(Count(t, pat), |rep| - |pat|);
    } else {
      ReplaceLength(s[1..], pat, rep);
      assert Replace(s, pat, rep) == [s[0]] + Replace(s[1..], pat, rep);
    }
  }

  lemma MultiplySucc(c: int, d: int)
    ensures (1 + c) * d == d + c * d
  {
  }

  /** Removing a non-empty substring shortens the string by the length of
      every occurrence removed, so it never makes it longer. */
  lemma {:induction false} RemoveShrinks(s: string, pat: string)
    requires pat != []
    ensures |Replace(s, pat, "")| + Count(s, pat) * |pat| == |s|
    ensures |Replace(s, pat, "")| <= |s|
    decreases |s|
  {
    if s == [] {
    } else if StartsWith(s, pat) {
      var t := s[|pat|..];
      RemoveShrinks(t, pat);
      assert Replace(s, pat, "") == Replace(t, pat, "");
      MultiplySucc(Count(t, pat), |pat|);
    } else {
      RemoveShrinks(s[1..], pat);
      assert Replace(s, pat, "") == [s[0]] + Replace(s[1..], pat, "");
    }
  }

  /** A first character that cannot start the pattern is kept as it is. */
  lemma ReplaceKeepsFirst(c: char, t: string, pat: string, rep: string)
    requires pat != [] && c != pat[0]
    ensures Replace([c] + t, pat, rep) == [c] + Replace(t, pat, rep)
  {
    assert ([c] + t)[1..] == t;
    assert !StartsWith([c] + t, pat) by {
      if |pat| <= |[c] + t| { assert ([c] + t)[..|pat|][0] == c; }
    }
  }

  /** A character that does not occur in the pattern splits `replace`: no
      occurrence can straddle it. */
  lemma {:induction false} ReplaceSplit(a: string, c: char, b: string, pat: string, rep: string)
    requires pat != [] && c !in pat
    ensures Replace(a + [c] + b, pat, rep) == Replace(a, pat, rep) + [c] + Replace(b, pat, rep)
    decreases |a|, 1
  {
    if a == [] {
      assert a + [c] + b == [c] + b;
      ReplaceKeepsFirst(c, b, pat, rep);
    } else if StartsWith(a + [c] + b, pat) {
      ReplaceSplitAtMatch(a, c, b, pat, rep);
    } else {
      ReplaceSplitAtMiss(a, c, b, pat, rep);
    }
  }

  lemma {:induction false} ReplaceSplitAtMatch(a: string, c: char, b: string, pat: string, rep: string)
    requires pat != [] && c !in pat && a != [] && StartsWith(a + [c] + b, pat)
    ensures Replace(a + [c] + b, pat, rep) == Replace(a, pat, rep) + [c] + Replace(b, pat, rep)
    decreases |a|, 0
  {
    var s := a + [c] + b;
    MatchInsideLeft(a, c, b, pat);
    ReplaceAtMatch(s, pat, rep);
    ReplaceAtMatch(a, pat, rep);
    var a' := a[|pat|..];
    DropPrefix(a, c, b, |pat|);
    ReplaceSplit(a', c, b, pat, rep);
    var ra, rb := Replace(a', pat, rep), Replace(b, pat, rep);
    Assoc(rep, ra + [c], rb);
    Assoc(rep, ra, [c]);
  }

  lemma {:induction false} ReplaceSplitAtMiss(a: string, c: char, b: string, pat: string, rep: string)
    requires pat != [] && c !in pat && a != [] && !StartsWith(a + [c] + b, pat)
    ensures Replace(a + [c] + b, pat, rep) == Replace(a, pat, rep) + [c] + Replace(b, pat, rep)
    decreases |a|, 0
  {
    var s := a + [c] + b;
    MissInsideLeft(a, c, b, pat);
    ReplaceAtMiss(s, pat, rep);
    ReplaceAtMiss(a, pat, rep);
    var a' := a[1..];
    DropFirst(a, c, b);
    ReplaceSplit(a', c, b, pat, rep);
    var ra, rb := Replace(a', pat, rep), Replace(b, pat, rep);
    Assoc([a[0]], ra + [c], rb);
    Assoc([a[0]], ra, [c]);
  }

  lemma DropPrefix(a: string, c: char, b: string, n: nat)
    requires n <= |a|
    ensures (a + [c] + b)[n..] == a[n..] + [c] + b
  {
  }

  lemma DropFirst(a: string, c: char, b: string)
    requires a != []
    ensures (a + [c] + b)[0] == a[0] && (a + [c] + b)[1..] == a[1..] + [c] + b
  {
  }

  lemma Assoc(x: string, y: string, z: string)
    ensures x + (y + z) == (x + y) + z
  {
  }

  /** An occurrence at the start of `a + [c] + b` with `c` not in the
      pattern lies wholly inside `a`. */
  lemma MatchInsideLeft(a: string, c: char, b: string, pat: string)
    requires c !in pat && StartsWith(a + [c] + b, pat)
    ensures StartsWith(a, pat)
  {
    var s := a + [c] + b;
    assert s[|a|] == c;
    assert forall i :: 0 <= i < |pat| ==> pat[i] == s[i];
    assert |pat| <= |a|;
    assert a[..|pat|] == s[..|pat|];
  }

  /** No occurrence at the start of `a + [c] + b` means none at the start of `a`. */
  lemma MissInsideLeft(a: string, c: char, b: string, pat: string)
    requires !StartsWith(a + [c] + b, pat)
    ensures !StartsWith(a, pat)
  {
    if |pat| <= |a| {
      assert (a + [c] + b)[..|pat|] == a[..|pat|];
    }
  }

  /** One step of the scan at an occurrence. */
  lemma ReplaceAtMatch(s: string, pat: string, rep: string)
    requires pat != [] && StartsWith(s, pat)
    ensures Replace(s, pat, rep) == rep + Replace(s[|pat|..], pat, rep)
  {
  }

  /** One step of the scan where no occurrence starts. */
  lemma ReplaceAtMiss(s: string, pat: string, rep: string)
    requires pat != [] && s != [] && !StartsWith(s, pat)
    ensures Replace(s, pat, rep) == [s[0]] + Replace(s[1..], pat, rep)
  {
  }

  /** `pat in s` is the same as `s.count(pat) > 0`. */
  lemma {:induction false} ContainsIffCounted(s: string, pat: string)
    requires pat != []
    ensures Contains(s, pat) <==> Count(s, pat) > 0
    decreases |s|
  {
    if s == [] {
      assert !StartsWith(s[0..], pat);
    } else if StartsWith(s, pat) {
      assert StartsWith(s[0..], pat);
    } else {
      ContainsIffCounted(s[1..], pat);
      if Contains(s, pat) {
        var i :| 0 <= i <= |s| && StartsWith(s[i..], pat);
        assert i != 0;
        assert s[1..][i - 1..] == s[i..];
      }
      if Contains(s[1..], pat) {
        ContainsInTail(s, pat);
      }
    }
  }

  /** An occurrence in a suffix of `s` is an occurrence in `s`. */
  lemma ContainsInTail(s: string, pat: string)
    requires s != [] && Contains(s[1..], pat)
    ensures Contains(s, pat)
  {
    var i :| 0 <= i <= |s[1..]| && StartsWith(s[1..][i..], pat);
    assert s[1..][i..] == s[i + 1..];
  }

  /** A string without an occurrence of `pat` comes back from `replace`
      unchanged, whatever the replacement. */
  lemma {:induction false} ReplaceAbsent(s: string, pat: string, rep: string)
    requires pat != []
    requires !Contains(s, pat)
    ensures Replace(s, pat, rep) == s
    decreases |s|
  {
    if s != [] {
      assert StartsWith(s[0..], pat) ==> Contains(s, pat);
      assert !StartsWith(s, pat);
      if Contains(s[1..], pat) {
        ContainsInTail(s, pat);
      }
      ReplaceAbsent(s[1..], pat, rep);
    }
  }

  /** Replacing a substring by itself changes nothing, for every `pat`,
      including the empty one. */
  lemma {:induction false} ReplaceBySelf(s: string, pat: string)
    ensures Replace(s, pat, pat) == s
    decreases |s|
  {
    if pat == [] {
      if s != [] {
        ReplaceBySelf(s[1..], pat);
        assert s == [s[0]] + s[1..];
      }
    } else if s == [] {
    } else if StartsWith(s, pat) {
      ReplaceBySelf(s[|pat|..], pat);
      assert s == s[..|pat|] + s[|pat|..];
    } else {
      ReplaceBySelf(s[1..], pat);
      assert s == [s[0]] + s[1..];
    }
  }

  /** A single pass does not remove occurrences that the removal itself
      creates: "LtLtdd".replace("Ltd", "") is "Ltd". */
  lemma RemovalCanLeaveOccurrence()
    ensures Replace("LtLtdd", "Ltd", "") == "Ltd"
    ensures Contains(Replace("LtLtdd", "Ltd", ""), "Ltd")
  {
    var s := "LtLtdd";
    assert s[..3][2] == 'L';
    assert !StartsWith(s, "Ltd");
    assert !StartsWith(s[1..], "Ltd");
    assert StartsWith(s[2..], "Ltd");
    assert s[2..][3..] == "d";
    assert Replace("d", "Ltd", "") == "d";
    assert Replace(s[2..], "Ltd", "") == "d";
    assert Replace(s[1..], "Ltd", "") == "td";
    assert Replace(s, "Ltd", "") == "Ltd";
    assert StartsWith("Ltd"[0..], "Ltd");
  }

  /** Number of whitespace characters at the start of `s`. */
  function LeadingSpace(s: string): (k: nat)
    ensures k <= |s|
    ensures forall i :: 0 <= i < k ==> IsSpace(s[i])
    ensures k < |s| ==> !IsSpace(s[k])
    decreases |s|
  {
    if s != [] && IsSpace(s[0]) then 1 + LeadingSpace(s[1..]) else 0
  }

  /** Number of whitespace characters at the end of `s`. */
  function TrailingSpace(s: string): (k: nat)
    ensures k <= |s|
    ensures forall i :: |s| - k <= i < |s| ==> IsSpace(s[i])
    ensures k < |s| ==> !IsSpace(s[|s| - 1 - k])
    decreases |s|
  {
    if s != [] && IsSpace(s[|s| - 1]) then 1 + TrailingSpace(s[..|s| - 1]) else 0
  }

  /** `r` is the slice of `s` that starts at `i`, and everything of `s`
      before and after that slice is whitespace. */
  predicate TrimmedAt(s: string, r: string, i: nat) {
    && i + |r| <= |s|
    && r == s[i..i + |r|]
    && (forall k :: 0 <= k < i ==> IsSpace(s[k]))
    && (forall k :: i + |r| <= k < |s| ==> IsSpace(s[k]))
  }

  /** `s.strip()`: the longest slice of `s` that neither starts nor ends with
      whitespace, obtained by dropping only whitespace at both ends. */
  function Strip(s: string): (r: string)
    ensures |r| <= |s|
    ensures r == [] || (!IsSpace(r[0]) && !IsSpace(r[|r| - 1]))
    ensures exists i :: TrimmedAt(s, r, i)
  {
    var lead := LeadingSpace(s);
    var t := s[lead..];
    var trail := TrailingSpace(t);
    var r := t[..|t| - trail];
    assert r == s[lead..lead + |r|];
    assert forall k :: lead + |r| <= k < |s| ==> s[k] == t[k - lead];
    assert TrimmedAt(s, r, lead);
    r
  }

  /** A string with no whitespace at either end is its own `strip()`. */
  lemma StripUntrimmed(s: string)
    requires s == [] || (!IsSpace(s[0]) && !IsSpace(s[|s| - 1]))
    ensures Strip(s) == s
  {
    assert LeadingSpace(s) == 0;
    assert TrailingSpace(s) == 0;
  }

  /** Stripping twice is stripping once. */
  lemma StripIdempotent(s: string)
    ensures Strip(Strip(s)) == Strip(s)
  {
    StripUntrimmed(Strip(s));
  }
}
