/**
 * How the placeholder scan and the formatter see the same template. They do
 * not use one grammar: `{{name}}` is a match for the scan but an escaped,
 * literal `{name}` for the formatter, and `{param1}` is a field for the
 * formatter but no match for the scan.
 */
module Template {
  import opened Wrappers
  import opened PlaceholderScan
  import opened StrFormat

  /** The template has no `{{` escape. */
  predicate NoEscapedOpen(t: string)
  {
    forall k :: 0 <= k < |t| - 1 ==> t[k] != '{' || t[k + 1] != '{'
  }

  lemma NoEscapedOpenSuffix(t: string, d: nat)
    requires d <= |t| && NoEscapedOpen(t)
    ensures NoEscapedOpen(t[d..])
  {
    forall k | 0 <= k < |t[d..]| - 1 ensures t[d..][k] != '{' || t[d..][k + 1] != '{' {
      assert t[d..][k] == t[k + d] && t[d..][k + 1] == t[k + d + 1];
    }
  }

  /** A run of letters closed by `}` is a whole field. */
  lemma RunIsField(u: string)
    ensures RunLen(u) <= FieldLen(u)
    ensures RunLen(u) < |u| && u[RunLen(u)] == '}' ==> FieldLen(u) == RunLen(u)
  {
  }

  /** What a clean `{` step of the formatter tells about the scan. */
  lemma OpenBraceStep(t: string, m: map<string, string>)
    requires t != [] && t[0] == '{' && NoEscapedOpen(t) && Format(t, m).Ok?
    ensures var n := FieldLen(t[1..]);
      1 + n < |t| && t[1 + n] == '}' && t[1..1 + n] in m &&
      Format(t[2 + n..], m).Ok? && NoEscapedOpen(t[2 + n..]) &&
      Placeholders(t) == (if OpensAt0(t) then [t[1..1 + n]] else []) + Placeholders(t[2 + n..])
  {
    var n := FieldLen(t[1..]);
    RunIsField(t[1..]);
    NoEscapedOpenSuffix(t, 2 + n);
    if !OpensAt0(t) {
      PlaceholdersSkip(t[1..], n + 1);
      assert t[1..][n + 1..] == t[2 + n..];
    }
  }

  /** What a clean `}}` step of the formatter tells about the scan. */
  lemma CloseBraceStep(t: string, m: map<string, string>)
    requires t != [] && t[0] == '}' && NoEscapedOpen(t) && Format(t, m).Ok?
    ensures |t| > 1 && Format(t[2..], m).Ok? && NoEscapedOpen(t[2..])
    ensures Placeholders(t) == Placeholders(t[2..])
  {
    NoEscapedOpenSuffix(t, 2);
    PlaceholdersSkip(t, 2);
  }

  /**
   * When a template without `{{` formats cleanly, every placeholder the scan
   * finds has a value in the map.
   */
  lemma {:induction false} FormatOkCoversPlaceholders(t: string, m: map<string, string>)
    requires NoEscapedOpen(t)
    requires Format(t, m).Ok?
    ensures forall w :: w in Placeholders(t) ==> w in m
    decreases |t|
  {
    if t == [] {
    } else if t[0] == '{' {
      OpenBraceStep(t, m);
      FormatOkCoversPlaceholders(t[2 + FieldLen(t[1..])..], m);
    } else if t[0] == '}' {
      CloseBraceStep(t, m);
      FormatOkCoversPlaceholders(t[2..], m);
    } else {
      NoEscapedOpenSuffix(t, 1);
      PlaceholdersSkip(t, 1);
      FormatOkCoversPlaceholders(t[1..], m);
    }
  }

  /** A scanned placeholder the map lacks makes formatting fail. */
  lemma MissingPlaceholderFails(t: string, m: map<string, string>, w: string)
    requires NoEscapedOpen(t)
    requires w in Placeholders(t) && w !in m
    ensures Format(t, m).Err?
  {
    if Format(t, m).Ok? {
      FormatOkCoversPlaceholders(t, m);
    }
  }

  /**
   * The two grammars disagree on escapes: in `{{a}}{{b}}` the scan finds the
   * names `a` and `b` (so a template `{{username}}{{password}}` passes the
   * credentials test), yet formatting leaves both literal.
   */
  lemma EscapedNamesStayLiteral(a: string, b: string, m: map<string, string>)
    requires IsName(a) && IsName(b)
    ensures a in Placeholders("{{" + a + "}}{{" + b + "}}")
    ensures b in Placeholders("{{" + a + "}}{{" + b + "}}")
    ensures Format("{{" + a + "}}{{" + b + "}}", m) == Ok("{" + a + "}{" + b + "}")
  {
    EscapedNamesScanned(a, b);
    EscapedNamesFormatted(a, b, m);
  }

  lemma EscapedNamesScanned(a: string, b: string)
    requires IsName(a) && IsName(b)
    ensures a in Placeholders("{{" + a + "}}{{" + b + "}}")
    ensures b in Placeholders("{{" + a + "}}{{" + b + "}}")
  {
    var t := "{{" + a + "}}{{" + b + "}}";
    assert t[2..2 + |a|] == a;
    assert t[2 + |a| + 4..2 + |a| + 4 + |b|] == b;
    assert MatchAt(t, a, 1);
    assert MatchAt(t, b, |a| + 5);
    PlaceholdersAreMatches(t, a);
    PlaceholdersAreMatches(t, b);
  }

  lemma EscapedNamesFormatted(a: string, b: string, m: map<string, string>)
    requires IsName(a) && IsName(b)
    ensures Format("{{" + a + "}}{{" + b + "}}", m) == Ok("{" + a + "}{" + b + "}")
  {
    var second := "{{" + b + "}}";
    EscapedFieldLiteral(b, [], m);
    assert second + [] == second;
    assert Format([], m) == Ok([]);
    assert "{" + b + "}" + [] == "{" + b + "}";
    EscapedFieldLiteral(a, second, m);
    assert "{{" + a + "}}" + second == "{{" + a + "}}{{" + b + "}}";
    assert "{" + a + "}" + ("{" + b + "}") == "{" + a + "}{" + b + "}";
  }

  /**
   * The other way round: a field whose name holds a character other than a
   * lower-case letter (`{param1}`) is never scanned, yet formatting still
   * substitutes it.
   */
  lemma UnscannedFieldSubstituted(name: string, m: map<string, string>)
    requires forall k :: 0 <= k < |name| ==> name[k] != '{' && name[k] != '}'
    requires !IsPositional(name) && !IsName(name) && name in m
    ensures Placeholders("{" + name + "}") == []
    ensures Format("{" + name + "}", m) == Ok(m[name])
  {
    var t := "{" + name + "}";
    var u := t[1..];
    assert u == name + "}";
    var k :| 0 <= k < |name| && !IsLower(name[k]);
    assert !IsLower(u[k]);
    var r := RunLen(u);
    assert r <= k;
    assert u[r] == name[r];
    assert !OpensAt0(t);
    PlaceholdersSkip(u, |u|);
    assert u[|u|..] == [];
    FormatField(name, [], m);
    assert t + [] == t;
    assert m[name] + [] == m[name];
  }
}
