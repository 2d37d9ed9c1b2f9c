/**
 * `re.findall(r"\{([a-z]+?)\}", text)`: the names of the placeholders of a
 * template, scanned left to right. A match is `{`, one or more lower-case
 * letters, `}`; the lazy `+?` changes nothing, since a letter is never `}`.
 */
module PlaceholderScan {

  predicate IsLower(c: char) { 'a' <= c <= 'z' }

  /** The length of the run of lower-case letters at the start of `t`. */
  function RunLen(t: string): (n: nat)
    ensures n <= |t|
    ensures forall k :: 0 <= k < n ==> IsLower(t[k])
    ensures n < |t| ==> !IsLower(t[n])
  {
    if t != [] && IsLower(t[0]) then 1 + RunLen(t[1..]) else 0
  }

  /** The pattern matches at the start of `t`. */
  predicate OpensAt0(t: string)
  {
    |t| > 0 && t[0] == '{' && RunLen(t[1..]) > 0 && 1 + RunLen(t[1..]) < |t| && t[1 + RunLen(t[1..])] == '}'
  }

  /** The captured names, in order; after a match the scan resumes behind its `}`. */
  function Placeholders(t: string): (r: seq<string>)
    ensures forall i :: 0 <= i < |r| ==> IsName(r[i])
    decreases |t|
  {
    if t == [] then []
    else if OpensAt0(t) then
      var n := RunLen(t[1..]);
      [t[1..1 + n]] + Placeholders(t[2 + n..])
    else Placeholders(t[1..])
  }

  /** A non-empty run of lower-case letters: the only names the pattern captures. */
  predicate IsName(w: string)
  {
    |w| > 0 && forall k :: 0 <= k < |w| ==> IsLower(w[k])
  }

  /** `t` holds `{`, then the name `w`, then `}`, starting at position `i`. */
  predicate MatchAt(t: string, w: string, i: int)
  {
    IsName(w) && 0 <= i && i + |w| + 1 < |t| &&
    t[i] == '{' && t[i + 1..i + 1 + |w|] == w && t[i + 1 + |w|] == '}'
  }

  lemma MatchAtStart(t: string, w: string)
    requires t != []
    ensures MatchAt(t, w, 0) <==> OpensAt0(t) && w == t[1..1 + RunLen(t[1..])]
  {
    var u := t[1..];
    if MatchAt(t, w, 0) {
      assert u[..|w|] == w;
      assert forall k :: 0 <= k < |w| ==> IsLower(u[k]) by {
        forall k | 0 <= k < |w| ensures IsLower(u[k]) { assert u[k] == w[k]; }
      }
      assert u[|w|] == '}';
    }
  }

  lemma MatchAtShift(t: string, d: nat, w: string, i: int)
    requires d <= |t| && 0 <= i
    ensures MatchAt(t[d..], w, i) <==> MatchAt(t, w, i + d)
  {
    if i + |w| + 1 < |t| - d {
      assert t[d..][i + 1..i + 1 + |w|] == t[i + d + 1..i + d + 1 + |w|];
    }
  }

  /** One match seen from the whole string: no other match starts inside it. */
  lemma NoMatchInsideMatch(t: string, w: string, i: int)
    requires OpensAt0(t)
    requires MatchAt(t, w, i)
    ensures i == 0 || i >= 2 + RunLen(t[1..])
  {
    var n := RunLen(t[1..]);
    forall j | 0 < j <= n ensures t[j] != '{' {
      assert t[j] == t[1..][j - 1];
    }
  }

  /**
   * Extraction finds every match and nothing else: a name is extracted iff it
   * occurs somewhere in the text as `{name}`. Matches never overlap, so none is
   * hidden by another; content holding any character other than a lower-case
   * letter is never extracted.
   */
  lemma {:induction false} PlaceholdersAreMatches(t: string, w: string)
    ensures w in Placeholders(t) <==> exists i :: MatchAt(t, w, i)
    decreases |t|
  {
    if t == [] {
    } else if OpensAt0(t) {
      var n := RunLen(t[1..]);
      PlaceholdersAreMatches(t[2 + n..], w);
      MatchedHead(t, w);
    } else {
      PlaceholdersAreMatches(t[1..], w);
      UnmatchedHead(t, w);
    }
  }

  /** The step of `PlaceholdersAreMatches` for a string that starts with a match. */
  lemma MatchedHead(t: string, w: string)
    requires OpensAt0(t)
    requires var rest := t[2 + RunLen(t[1..])..];
      w in Placeholders(rest) <==> exists i :: MatchAt(rest, w, i)
    ensures w in Placeholders(t) <==> exists i :: MatchAt(t, w, i)
  {
    var n := RunLen(t[1..]);
    var rest := t[2 + n..];
    MatchAtStart(t, w);
    assert Placeholders(t) == [t[1..1 + n]] + Placeholders(rest);
    if w in Placeholders(rest) {
      var i :| MatchAt(rest, w, i);
      MatchAtShift(t, 2 + n, w, i);
    }
    if exists i :: MatchAt(t, w, i) {
      var i :| MatchAt(t, w, i);
      MatchedHeadLater(t, w, i);
    }
  }

  /** A match in `t` other than the leading one lies wholly behind it. */
  lemma MatchedHeadLater(t: string, w: string, i: int)
    requires OpensAt0(t) && MatchAt(t, w, i)
    ensures i == 0 || MatchAt(t[2 + RunLen(t[1..])..], w, i - (2 + RunLen(t[1..])))
  {
    NoMatchInsideMatch(t, w, i);
    if i != 0 {
      MatchAtShift(t, 2 + RunLen(t[1..]), w, i - (2 + RunLen(t[1..])));
    }
  }

  /** The step of `PlaceholdersAreMatches` for a string that does not start with a match. */
  lemma UnmatchedHead(t: string, w: string)
    requires t != [] && !OpensAt0(t)
    requires var rest := t[1..];
      w in Placeholders(rest) <==> exists i :: MatchAt(rest, w, i)
    ensures w in Placeholders(t) <==> exists i :: MatchAt(t, w, i)
  {
    var rest := t[1..];
    assert Placeholders(t) == Placeholders(rest);
    MatchAtStart(t, w);
    if w in Placeholders(rest) {
      var i :| MatchAt(rest, w, i);
      MatchAtShift(t, 1, w, i);
    }
    if exists i :: MatchAt(t, w, i) {
      var i :| MatchAt(t, w, i);
      MatchAtShift(t, 1, w, i - 1);
    }
  }

  /** Characters other than `{` are skipped one at a time. */
  lemma {:induction false} PlaceholdersSkip(t: string, k: nat)
    requires k <= |t|
    requires forall i :: 0 <= i < k ==> t[i] != '{'
    ensures Placeholders(t) == Placeholders(t[k..])
    decreases k
  {
    if k > 0 {
      assert t[1..][k - 1..] == t[k..];
      PlaceholdersSkip(t[1..], k - 1);
    }
  }

  /** The run of letters stops inside `u` when `u` has a non-letter. */
  lemma RunLenAppend(u: string, v: string)
    ensures RunLen(u) < |u| ==> RunLen(u + v) == RunLen(u)
    ensures RunLen(u) == |u| ==> RunLen(u + v) >= |u|
  {
    var n := RunLen(u);
    var m := RunLen(u + v);
    if n < |u| {
      assert (u + v)[n] == u[n];
    }
  }

  /**
   * Scanning is left to right: when no match can straddle the boundary (the
   * first part is empty or ends in a character that is neither `{` nor a
   * letter), the names of a concatenation are those of the parts, in order.
   */
  lemma {:induction false} PlaceholdersAppend(a: string, b: string)
    requires a == [] || (a[|a| - 1] != '{' && !IsLower(a[|a| - 1]))
    ensures Placeholders(a + b) == Placeholders(a) + Placeholders(b)
    decreases |a|
  {
    if a == [] {
      assert a + b == b;
    } else if OpensAt0(a) {
      var n := RunLen(a[1..]);
      PlaceholdersAppend(a[2 + n..], b);
      AppendMatchedHead(a, b);
    } else {
      EndsOutsideRun(a);
      PlaceholdersAppend(a[1..], b);
      AppendUnmatchedHead(a, b);
    }
  }

  /** Dropping the first character keeps the boundary condition of `PlaceholdersAppend`. */
  lemma EndsOutsideRun(a: string)
    requires a != [] && a[|a| - 1] != '{' && !IsLower(a[|a| - 1])
    ensures a[1..] == [] || (a[1..][|a| - 2] != '{' && !IsLower(a[1..][|a| - 2]))
  {
    if |a| > 1 {
      assert a[1..][|a| - 2] == a[|a| - 1];
    }
  }

  /** The step of `PlaceholdersAppend` when `a` starts with a match. */
  lemma AppendMatchedHead(a: string, b: string)
    requires OpensAt0(a)
    requires var rest := a[2 + RunLen(a[1..])..];
      Placeholders(rest + b) == Placeholders(rest) + Placeholders(b)
    ensures Placeholders(a + b) == Placeholders(a) + Placeholders(b)
  {
    var ab := a + b;
    var n := RunLen(a[1..]);
    var name, rest := a[1..1 + n], a[2 + n..];
    MatchSurvivesAppend(a, b);
    assert ab[1..1 + n] == name;
    assert ab[2 + n..] == rest + b;
    assert Placeholders(ab) == [name] + Placeholders(rest + b);
    assert Placeholders(a) == [name] + Placeholders(rest);
  }

  /** A match at the start of `a` is still one, of the same length, in `a + b`. */
  lemma MatchSurvivesAppend(a: string, b: string)
    requires OpensAt0(a)
    ensures OpensAt0(a + b) && RunLen((a + b)[1..]) == RunLen(a[1..])
  {
    var ab := a + b;
    var n := RunLen(a[1..]);
    assert ab[1..] == a[1..] + b;
    RunLenAppend(a[1..], b);
    assert ab[1 + n] == a[1 + n];
  }

  /** The step of `PlaceholdersAppend` when `a` does not start with a match. */
  lemma AppendUnmatchedHead(a: string, b: string)
    requires a != [] && !OpensAt0(a) && a[|a| - 1] != '{' && !IsLower(a[|a| - 1])
    requires Placeholders(a[1..] + b) == Placeholders(a[1..]) + Placeholders(b)
    ensures Placeholders(a + b) == Placeholders(a) + Placeholders(b)
  {
    var ab := a + b;
    var n := RunLen(a[1..]);
    assert ab[1..] == a[1..] + b;
    RunLenAppend(a[1..], b);
    if |a| > 1 {
      assert !IsLower(a[1..][|a| - 2]);
      assert ab[1 + n] == a[1 + n];
    }
    assert !OpensAt0(ab);
  }
}
