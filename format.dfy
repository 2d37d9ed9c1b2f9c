/**
 * `text.format(**params)` over the part of Python's format-string grammar a
 * template uses: `{{` and `}}` stand for single braces, and `{name}` is
 * replaced by the value of `name` in the keyword map. A field whose name is
 * empty or all digits is positional, and there are no positional arguments.
 */
module StrFormat {
  import opened Wrappers

  datatype FormatError =
    | MissingKey(name: string)        // KeyError: the keyword map has no such name
    | PositionalField(index: string)  // IndexError: `{}` or `{0}` with no positional arguments
    | UnclosedField                   // ValueError: a `{` not closed by `}` before the next brace or the end
    | SingleClose                     // ValueError: a `}` that is not part of `}}` or of a field

  predicate IsDigit(c: char) { '0' <= c <= '9' }

  predicate IsPositional(name: string)
  {
    forall k :: 0 <= k < |name| ==> IsDigit(name[k])
  }

  /** The length of the text before the first brace. */
  function FieldLen(t: string): (n: nat)
    ensures n <= |t|
    ensures forall k :: 0 <= k < n ==> t[k] != '{' && t[k] != '}'
    ensures n < |t| ==> t[n] == '{' || t[n] == '}'
  {
    if t != [] && t[0] != '{' && t[0] != '}' then 1 + FieldLen(t[1..]) else 0
  }

  function Prepend(s: string, r: Result<string, FormatError>): Result<string, FormatError>
  {
    match r
    case Ok(v) => Ok(s + v)
    case Err(e) => Err(e)
  }

  /** The formatted text, or the first error met scanning left to right. */
  function Format(t: string, m: map<string, string>): (r: Result<string, FormatError>)
    ensures r.Err? && r.error.MissingKey? ==> r.error.name !in m
    decreases |t|
  {
    if t == [] then Ok([])
    else if t[0] == '{' then
      if |t| > 1 && t[1] == '{' then Prepend("{", Format(t[2..], m))
      else
        var n := FieldLen(t[1..]);
        if 1 + n < |t| && t[1 + n] == '}' then
          var name := t[1..1 + n];
          if IsPositional(name) then Err(PositionalField(name))
          else if name in m then Prepend(m[name], Format(t[2 + n..], m))
          else Err(MissingKey(name))
        else Err(UnclosedField)
    else if t[0] == '}' then
      if |t| > 1 && t[1] == '}' then Prepend("}", Format(t[2..], m))
      else Err(SingleClose)
    else Prepend([t[0]], Format(t[1..], m))
  }

  /** Text without braces is copied unchanged, whatever the map. */
  lemma {:induction false} FormatPlainText(t: string, m: map<string, string>)
    requires forall k :: 0 <= k < |t| ==> t[k] != '{' && t[k] != '}'
    ensures Format(t, m) == Ok(t)
    decreases |t|
  {
    if t != [] {
      FormatPlainText(t[1..], m);
      assert [t[0]] + t[1..] == t;
    }
  }

  /** A field is replaced by its value; a name the map lacks is an error, never a blank. */
  lemma FormatField(name: string, b: string, m: map<string, string>)
    requires forall k :: 0 <= k < |name| ==> name[k] != '{' && name[k] != '}'
    requires !IsPositional(name)
    ensures Format("{" + name + "}" + b, m) ==
      if name in m then Prepend(m[name], Format(b, m)) else Err(MissingKey(name))
  {
    var t := "{" + name + "}" + b;
    var u := t[1..];
    assert u == name + "}" + b;
    assert u[|name|] == '}';
    assert forall k :: 0 <= k < |name| ==> u[k] == name[k];
    assert FieldLen(u) == |name|;
    assert t[1..1 + |name|] == name;
    assert t[2 + |name|..] == b;
  }

  /** `{{` and `}}` each stand for one brace. */
  lemma FormatEscapes(m: map<string, string>)
    ensures Format("{{", m) == Ok("{")
    ensures Format("}}", m) == Ok("}")
  {
    var open, close := "{{", "}}";
    assert open[0] == '{' && open[1] == '{' && open[2..] == [];
    assert close[0] == '}' && close[1] == '}' && close[2..] == [];
    assert Format([], m) == Ok([]);
    assert "{" + [] == "{" && "}" + [] == "}";
  }

  lemma PrependPrepend(s1: string, s2: string, r: Result<string, FormatError>)
    ensures Prepend(s1, Prepend(s2, r)) == Prepend(s1 + s2, r)
  {
    if r.Ok? { assert s1 + (s2 + r.value) == (s1 + s2) + r.value; }
  }

  lemma FieldLenAppend(u: string, v: string)
    requires FieldLen(u) < |u|
    ensures FieldLen(u + v) == FieldLen(u)
  {
    var n := FieldLen(u);
    assert (u + v)[n] == u[n];
  }

  /**
   * Formatting is compositional: after a prefix that formats cleanly, the rest
   * is formatted on its own and the two outputs are concatenated.
   */
  lemma {:induction false} FormatAppend(a: string, b: string, m: map<string, string>)
    requires Format(a, m).Ok?
    ensures Format(a + b, m) == Prepend(Format(a, m).value, Format(b, m))
    decreases |a|
  {
    if a == [] {
      assert a + b == b;
      if Format(b, m).Ok? { assert [] + Format(b, m).value == Format(b, m).value; }
    } else {
      var ab := a + b;
      if a[0] == '{' && |a| > 1 && a[1] == '{' {
        assert ab[2..] == a[2..] + b;
        FormatAppend(a[2..], b, m);
        PrependPrepend("{", Format(a[2..], m).value, Format(b, m));
      } else if a[0] == '{' {
        var n := FieldLen(a[1..]);
        assert ab[1..] == a[1..] + b;
        FieldLenAppend(a[1..], b);
        assert ab[1 + n] == a[1 + n];
        assert ab[1..1 + n] == a[1..1 + n];
        assert ab[2 + n..] == a[2 + n..] + b;
        FormatAppend(a[2 + n..], b, m);
        PrependPrepend(m[a[1..1 + n]], Format(a[2 + n..], m).value, Format(b, m));
      } else if a[0] == '}' {
        assert ab[2..] == a[2..] + b;
        FormatAppend(a[2..], b, m);
        PrependPrepend("}", Format(a[2..], m).value, Format(b, m));
      } else {
        assert ab[1..] == a[1..] + b;
        FormatAppend(a[1..], b, m);
        PrependPrepend([a[0]], Format(a[1..], m).value, Format(b, m));
      }
    }
  }

  /**
   * A name the map lacks makes the whole call fail with that name, wherever
   * the field stands after a cleanly formatted prefix: it is never replaced by
   * a blank.
   */
  lemma MissingKeyFails(a: string, name: string, b: string, m: map<string, string>)
    requires Format(a, m).Ok?
    requires forall k :: 0 <= k < |name| ==> name[k] != '{' && name[k] != '}'
    requires !IsPositional(name) && name !in m
    ensures Format(a + "{" + name + "}" + b, m) == Err(MissingKey(name))
  {
    FormatField(name, b, m);
    FormatAppend(a, "{" + name + "}" + b, m);
    assert a + "{" + name + "}" + b == a + ("{" + name + "}" + b);
  }

  /** Substituting a present name puts its value between the two formatted halves. */
  lemma PresentKeySubstituted(a: string, name: string, b: string, m: map<string, string>)
    requires Format(a, m).Ok?
    requires forall k :: 0 <= k < |name| ==> name[k] != '{' && name[k] != '}'
    requires !IsPositional(name) && name in m
    ensures Format(a + "{" + name + "}" + b, m) == Prepend(Format(a, m).value + m[name], Format(b, m))
  {
    FormatField(name, b, m);
    FormatAppend(a, "{" + name + "}" + b, m);
    assert a + "{" + name + "}" + b == a + ("{" + name + "}" + b);
    PrependPrepend(Format(a, m).value, m[name], Format(b, m));
  }

  /** An escaped field `{{name}}` is copied as the literal text `{name}`. */
  lemma EscapedFieldLiteral(name: string, b: string, m: map<string, string>)
    requires forall k :: 0 <= k < |name| ==> name[k] != '{' && name[k] != '}'
    ensures Format("{{" + name + "}}" + b, m) == Prepend("{" + name + "}", Format(b, m))
  {
    FormatEscapes(m);
    FormatPlainText(name, m);
    FormatAppend("{{", name, m);
    FormatAppend("{{" + name, "}}", m);
    assert Format("{{" + name + "}}", m) == Ok("{" + name + "}");
    FormatAppend("{{" + name + "}}", b, m);
  }
}
