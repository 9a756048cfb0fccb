/** The email pattern registration checks,
    `/^\w+([.-]?\w+)*@\w+([.-]?\w+)*(\.\w{2,3})+$/` (no flags, so `\w` is
    `[A-Za-z0-9_]` and `$` only matches at the very end).

    `EmailRegex` states the language of the pattern piece by piece, one
    predicate per sub-pattern. `EmailShape` is the direct check a
    validator can run: a local part and a domain around the `@`, each a
    chain of word-character runs joined by single `.` or `-`, the domain
    ending in a `.` and 2 or 3 word characters. `EmailShapeIsRegex` proves
    the two agree on every string. */
module EmailPattern {

  /** `\w`. */
  predicate IsWordChar(c: char)
  {
    'a' <= c <= 'z' || 'A' <= c <= 'Z' || '0' <= c <= '9' || c == '_'
  }

  /** `[.-]`. */
  predicate IsSep(c: char)
  {
    c == '.' || c == '-'
  }

  // ---------------------------------------------------------------------
  // The pattern, sub-pattern by sub-pattern.
  // ---------------------------------------------------------------------

  /** `\w+`. */
  ghost predicate WordRun(s: string)
  {
    |s| >= 1 && forall i :: 0 <= i < |s| ==> IsWordChar(s[i])
  }

  /** `[.-]?\w+`. */
  ghost predicate Link(s: string)
  {
    WordRun(s) || (|s| >= 1 && IsSep(s[0]) && WordRun(s[1..]))
  }

  /** `([.-]?\w+)*`. */
  ghost predicate Links(s: string)
    decreases |s|
  {
    s == [] || exists k :: 1 <= k <= |s| && Link(s[..k]) && Links(s[k..])
  }

  /** `\w+([.-]?\w+)*`. */
  ghost predicate Chain(s: string)
  {
    exists k :: 1 <= k <= |s| && WordRun(s[..k]) && Links(s[k..])
  }

  /** `\.\w{2,3}`. */
  ghost predicate DotGroup(s: string)
  {
    (|s| == 3 || |s| == 4) && s[0] == '.' && WordRun(s[1..])
  }

  /** `(\.\w{2,3})+`. */
  ghost predicate DotGroups(s: string)
    decreases |s|
  {
    exists k :: 1 <= k <= |s| && DotGroup(s[..k]) && (k == |s| || DotGroups(s[k..]))
  }

  /** The whole pattern, anchored at both ends. */
  ghost predicate EmailRegex(s: string)
  {
    exists i, j :: 0 <= i < j <= |s| && Chain(s[..i]) && s[i] == '@' && Chain(s[i + 1..j]) && DotGroups(s[j..])
  }

  // ---------------------------------------------------------------------
  // The direct check.
  // ---------------------------------------------------------------------

  /** Word characters and separators only, and never two separators in a row. */
  predicate Joined(s: string)
  {
    && (forall i :: 0 <= i < |s| ==> IsWordChar(s[i]) || IsSep(s[i]))
    && (forall i :: 0 <= i < |s| - 1 ==> IsWordChar(s[i]) || IsWordChar(s[i + 1]))
  }

  /** Word-character runs joined by single separators. */
  predicate ChainShape(s: string)
  {
    |s| >= 1 && IsWordChar(s[0]) && IsWordChar(s[|s| - 1]) && Joined(s)
  }

  /** Positions `|s| - n .. |s| - 1` hold word characters, after a `.`. */
  predicate EndsInDotGroupOf(s: string, n: nat)
  {
    |s| >= n + 1 && s[|s| - n - 1] == '.' && forall i :: |s| - n <= i < |s| ==> IsWordChar(s[i])
  }

  /** A chain whose last link is `.` and 2 or 3 word characters. */
  predicate DomainShape(s: string)
  {
    ChainShape(s) && (EndsInDotGroupOf(s, 2) || EndsInDotGroupOf(s, 3))
  }

  predicate EmailShape(s: string)
  {
    exists i :: 0 <= i < |s| && s[i] == '@' && ChainShape(s[..i]) && DomainShape(s[i + 1..])
  }

  // ---------------------------------------------------------------------
  // The two agree.
  // ---------------------------------------------------------------------

  /** `([.-]?\w+)*` matches the empty string and the joined strings ending
      in a word character. */
  predicate LinksShape(s: string)
  {
    s == [] || (IsWordChar(s[|s| - 1]) && Joined(s))
  }

  lemma LinkShape(s: string)
    requires Link(s)
    ensures LinksShape(s) && (IsSep(s[0]) ==> |s| >= 2 && IsWordChar(s[1]))
  {
    if !WordRun(s) {
      assert forall i :: 1 <= i < |s| ==> s[i] == s[1..][i - 1];
    }
  }

  lemma JoinedAppend(a: string, b: string)
    requires Joined(a) && Joined(b)
    requires a == [] || b == [] || IsWordChar(a[|a| - 1]) || IsWordChar(b[0])
    ensures Joined(a + b)
  {
    var s := a + b;
    forall i | 0 <= i < |s| - 1 ensures IsWordChar(s[i]) || IsWordChar(s[i + 1]) {
      if i + 1 < |a| {
        assert s[i] == a[i] && s[i + 1] == a[i + 1];
      } else if i + 1 == |a| {
        assert s[i] == a[|a| - 1] && s[i + 1] == b[0];
      } else {
        assert s[i] == b[i - |a|] && s[i + 1] == b[i + 1 - |a|];
      }
    }
  }

  lemma JoinedSlice(s: string, lo: nat, hi: nat)
    requires Joined(s) && lo <= hi <= |s|
    ensures Joined(s[lo..hi])
  {
    var t := s[lo..hi];
    assert forall i :: 0 <= i < |t| ==> t[i] == s[lo + i];
  }

  lemma LinksIff(s: string)
    ensures Links(s) <==> LinksShape(s)
  {
    if Links(s) {
      LinksToShape(s);
    }
    if LinksShape(s) {
      ShapeToLinks(s);
    }
  }

  /** Every match of `([.-]?\w+)*` is joined and ends in a word character. */
  lemma {:induction false} LinksToShape(s: string)
    requires Links(s)
    ensures LinksShape(s)
    decreases |s|
  {
    if s != [] {
      var k :| 1 <= k <= |s| && Link(s[..k]) && Links(s[k..]);
      LinkShape(s[..k]);
      LinksToShape(s[k..]);
      assert s == s[..k] + s[k..];
      JoinedAppend(s[..k], s[k..]);
      if k < |s| {
        assert s[|s| - 1] == s[k..][|s| - k - 1];
      }
    }
  }

  /** Every joined string ending in a word character matches `([.-]?\w+)*`,
      taking one character, or a separator and the character after it,
      as the first link. */
  lemma {:induction false} ShapeToLinks(s: string)
    requires LinksShape(s)
    ensures Links(s)
    decreases |s|
  {
    if s != [] {
      var k := if IsSep(s[0]) then 2 else 1;
      assert |s| >= k by {
        if |s| < 2 { assert IsWordChar(s[|s| - 1]); }
      }
      if k == 2 {
        assert IsWordChar(s[1]);
        assert s[..k][1..] == [s[1]];
      }
      assert Link(s[..k]);
      JoinedSlice(s, k, |s|);
      if k < |s| {
        assert s[k..][|s| - k - 1] == s[|s| - 1];
      }
      ShapeToLinks(s[k..]);
    }
  }

  lemma ChainIff(s: string)
    ensures Chain(s) <==> ChainShape(s)
  {
    if Chain(s) {
      var k :| 1 <= k <= |s| && WordRun(s[..k]) && Links(s[k..]);
      LinksIff(s[k..]);
      assert s == s[..k] + s[k..];
      assert Joined(s[..k]);
      JoinedAppend(s[..k], s[k..]);
      if k < |s| {
        assert s[|s| - 1] == s[k..][|s| - k - 1];
      }
    }
    if ChainShape(s) {
      JoinedSlice(s, 1, |s|);
      if |s| > 1 {
        assert s[1..][|s| - 2] == s[|s| - 1];
      }
      LinksIff(s[1..]);
      assert WordRun(s[..1]);
    }
  }

  /** What every match of `(\.\w{2,3})+` looks like. */
  lemma {:induction false} DotGroupsShape(s: string)
    requires DotGroups(s)
    ensures |s| >= 3 && s[0] == '.' && IsWordChar(s[1]) && Joined(s)
    ensures EndsInDotGroupOf(s, 2) || EndsInDotGroupOf(s, 3)
    decreases |s|
  {
    var k :| 1 <= k <= |s| && DotGroup(s[..k]) && (k == |s| || DotGroups(s[k..]));
    var g := s[..k];
    DotGroupShape(g);
    if k == |s| {
      assert s == g;
    } else {
      var rest := s[k..];
      DotGroupsShape(rest);
      assert s == g + rest;
      JoinedAppend(g, rest);
      EndsInDotGroupAppend(g, rest, 2);
      EndsInDotGroupAppend(g, rest, 3);
    }
  }

  lemma DotGroupShape(g: string)
    requires DotGroup(g)
    ensures |g| >= 3 && g[0] == '.' && IsWordChar(g[1]) && Joined(g) && IsWordChar(g[|g| - 1])
    ensures EndsInDotGroupOf(g, 2) || EndsInDotGroupOf(g, 3)
  {
    assert forall i :: 1 <= i < |g| ==> g[i] == g[1..][i - 1];
  }

  lemma EndsInDotGroupAppend(g: string, rest: string, n: nat)
    ensures EndsInDotGroupOf(rest, n) ==> EndsInDotGroupOf(g + rest, n)
  {
    var s := g + rest;
    if EndsInDotGroupOf(rest, n) {
      assert forall i :: |s| - n - 1 <= i < |s| ==> s[i] == rest[i - |g|];
    }
  }

  /** A chain followed by dot groups has the domain shape. */
  lemma DomainFromSplit(d: string, j: nat)
    requires j <= |d| && Chain(d[..j]) && DotGroups(d[j..])
    ensures DomainShape(d)
  {
    var c, g := d[..j], d[j..];
    ChainIff(c);
    DotGroupsShape(g);
    assert d == c + g;
    JoinedAppend(c, g);
    assert d[|d| - 1] == g[|g| - 1];
    assert d[0] == c[0];
    if EndsInDotGroupOf(g, 2) {
      assert forall i :: |d| - 3 <= i < |d| ==> d[i] == g[i - j];
      assert EndsInDotGroupOf(d, 2);
    } else {
      assert forall i :: |d| - 4 <= i < |d| ==> d[i] == g[i - j];
      assert EndsInDotGroupOf(d, 3);
    }
  }

  /** A string of the domain shape splits before its last `.`. */
  lemma SplitFromDomain(d: string) returns (j: nat)
    requires DomainShape(d)
    ensures j <= |d| && Chain(d[..j]) && DotGroups(d[j..])
  {
    var n := if EndsInDotGroupOf(d, 2) then 2 else 3;
    j := |d| - n - 1;
    var c, g := d[..j], d[j..];
    assert d[j] == '.' && IsWordChar(d[0]);
    assert j >= 1;
    assert 0 <= j - 1 < |d| - 1;
    assert IsWordChar(d[j - 1]);
    JoinedSlice(d, 0, j);
    assert c[|c| - 1] == d[j - 1] && c[0] == d[0];
    ChainIff(c);
    assert forall i :: 0 <= i < |g| - 1 ==> g[1..][i] == d[j + 1 + i];
    assert g[..|g|] == g;
    assert DotGroup(g[..|g|]);
  }

  /** The direct check accepts exactly the strings the pattern matches. */
  lemma EmailShapeIsRegex(s: string)
    ensures EmailShape(s) <==> EmailRegex(s)
  {
    if EmailShape(s) {
      var i :| 0 <= i < |s| && s[i] == '@' && ChainShape(s[..i]) && DomainShape(s[i + 1..]);
      RegexFromShape(s, i);
    }
    if EmailRegex(s) {
      var i, j :| 0 <= i < j <= |s| && Chain(s[..i]) && s[i] == '@' && Chain(s[i + 1..j]) && DotGroups(s[j..]);
      ShapeFromRegex(s, i, j);
    }
  }

  lemma RegexFromShape(s: string, i: nat)
    requires i < |s| && s[i] == '@' && ChainShape(s[..i]) && DomainShape(s[i + 1..])
    ensures EmailRegex(s)
  {
    var d := s[i + 1..];
    ChainIff(s[..i]);
    var j' := SplitFromDomain(d);
    assert d[..j'] == s[i + 1..i + 1 + j'] && d[j'..] == s[i + 1 + j'..];
    var j := i + 1 + j';
    assert Chain(s[..i]) && Chain(s[i + 1..j]) && DotGroups(s[j..]);
  }

  lemma ShapeFromRegex(s: string, i: nat, j: nat)
    requires i < j <= |s| && Chain(s[..i]) && s[i] == '@' && Chain(s[i + 1..j]) && DotGroups(s[j..])
    ensures EmailShape(s)
  {
    var d := s[i + 1..];
    var j' := j - i - 1;
    assert d[..j'] == s[i + 1..j] && d[j'..] == s[j..];
    DomainFromSplit(d, j');
    ChainIff(s[..i]);
  }

  /** The local part and the domain hold no `@`, so an address has exactly one. */
  lemma EmailShapeOneAt(s: string, i: nat, i': nat)
    requires i < |s| && s[i] == '@' && ChainShape(s[..i]) && DomainShape(s[i + 1..])
    requires i' < |s| && s[i'] == '@'
    ensures i' == i
  {
    forall k | 0 <= k < |s| && k != i ensures s[k] != '@' {
      if k < i {
        assert s[..i][k] == s[k];
      } else {
        assert s[i + 1..][k - i - 1] == s[k];
      }
    }
  }
}
