/** Python's `template.format(**record)` for the templates the description
    rule uses: literal text, `{{` and `}}` for literal braces, and `{name}`
    replaced by `str()` of the record's value for `name`.

    The format string is read left to right and the first problem stops it,
    as CPython's formatter does: a field naming a key the record lacks is a
    KeyError, a stray or unclosed brace, an empty field `{}` or a numeric
    field `{0}` (a positional index, with no positional arguments) is another
    kind of error. Conversions, format specs, attribute and index access
    (`{x!r}`, `{x:>9}`, `{x.y}`, `{x[0]}`) are outside the model. */
module Template {
  import opened Wrappers
  import opened Text
  import opened Values

  datatype FormatOutcome =
    | Formatted(text: string)
    /** KeyError: the one failure the description rule recovers from. */
    | MissingKey(name: string)
    /** ValueError or IndexError: a brace out of place, `{}`, `{0}`. */
    | Malformed
    /** A field using syntax the model does not interpret. */
    | Unsupported

  /** The characters that stop the name of a field: `{` is an error there,
      the others start conversion, spec, attribute or index syntax. */
  predicate IsNameStop(c: char)
  {
    c == '{' || c == '!' || c == ':' || c == '.' || c == '['
  }

  /** A field name that is looked up as a key of the record: any name but
      the empty one and one made of digits, which are positional indices.
      Only the ASCII digits are read as decimal digits here. */
  predicate IsKeyName(name: string)
  {
    name != [] && !IsDigits(name)
  }

  /** The index of the first character of `s` that stops a field name. */
  function FindNameStop(s: string): (r: Option<nat>)
    ensures r.Some? ==> r.value < |s| && IsNameStop(s[r.value])
    ensures r.Some? ==> forall i :: 0 <= i < r.value ==> !IsNameStop(s[i])
    ensures r.None? ==> forall i :: 0 <= i < |s| ==> !IsNameStop(s[i])
  {
    if s == [] then None
    else if IsNameStop(s[0]) then Some(0)
    else match FindNameStop(s[1..])
      case None => None
      case Some(j) => Some(j + 1)
  }

  function Prepend(s: string, o: FormatOutcome): FormatOutcome
  {
    if o.Formatted? then Formatted(s + o.text) else o
  }

  /** `t.format(**rec)`. */
  function Format(t: string, rec: Record): FormatOutcome
    decreases |t|
  {
    if t == [] then Formatted("")
    else if t[0] == '{' then
      if |t| > 1 && t[1] == '{' then Prepend("{", Format(t[2..], rec))
      else match IndexOf(t[1..], '}')
        case None => Malformed
        case Some(j) =>
          var name := t[1..1 + j];
          match FindNameStop(name)
          case Some(k) => if name[k] == '{' then Malformed else Unsupported
          case None =>
            if !IsKeyName(name) then Malformed
            else if name !in rec then MissingKey(name)
            else Prepend(ToStr(rec[name]), Format(t[2 + j..], rec))
    else if t[0] == '}' then
      if |t| > 1 && t[1] == '}' then Prepend("}", Format(t[2..], rec)) else Malformed
    else Prepend([t[0]], Format(t[1..], rec))
  }

  /** Doubles every brace, so that the text formats to itself. */
  function Escape(s: string): string
  {
    if s == [] then []
    else if s[0] == '{' || s[0] == '}' then [s[0], s[0]] + Escape(s[1..])
    else [s[0]] + Escape(s[1..])
  }

  /** Literal text round-trips through escaping and formatting, whatever
      the record holds. */
  lemma {:induction false} EscapeFormatsToItself(s: string, rec: Record)
    ensures Format(Escape(s), rec) == Formatted(s)
  {
    if s != [] {
      EscapeFormatsToItself(s[1..], rec);
      var e := Escape(s);
      if s[0] == '{' || s[0] == '}' {
        assert e[2..] == Escape(s[1..]);
      } else {
        assert e[1..] == Escape(s[1..]);
      }
      assert s == [s[0]] + s[1..];
    }
  }

  /** A plain field name, as the description rule's templates use them. */
  predicate IsPlainName(name: string)
  {
    IsKeyName(name) && forall i :: 0 <= i < |name| ==> !IsNameStop(name[i]) && name[i] != '}'
  }

  /** Formatting a template that starts with the field `{name}` either
      stops with a KeyError for `name` or prints the value's `str()` and
      goes on with the rest. */
  lemma FieldThenRest(name: string, rest: string, rec: Record)
    requires IsPlainName(name)
    ensures Format("{" + name + "}" + rest, rec) ==
      if name in rec then Prepend(ToStr(rec[name]), Format(rest, rec)) else MissingKey(name)
  {
    var t := "{" + name + "}" + rest;
    assert t[1..] == name + "}" + rest;
    assert IndexOf(t[1..], '}') == Some(|name|) by {
      var c := IndexOf(t[1..], '}');
      assert t[1..][|name|] == '}';
      assert c.Some? && c.value <= |name|;
    }
    assert t[1..1 + |name|] == name;
    assert t[2 + |name|..] == rest;
  }

  /** Literal text without braces is copied to the output before the
      template goes on. */
  lemma {:induction false} LiteralThenRest(lit: string, rest: string, rec: Record)
    requires forall i :: 0 <= i < |lit| ==> lit[i] != '{' && lit[i] != '}'
    ensures Format(lit + rest, rec) == Prepend(lit, Format(rest, rec))
  {
    if lit != [] {
      var t := lit + rest;
      assert Format(t, rec) == Prepend([lit[0]], Format(lit[1..] + rest, rec)) by {
        assert t[0] == lit[0] && t[1..] == lit[1..] + rest;
      }
      LiteralThenRest(lit[1..], rest, rec);
      var o := Format(rest, rec);
      if o.Formatted? {
        assert [lit[0]] + (lit[1..] + o.text) == lit + o.text;
      }
    } else {
      assert lit + rest == rest;
      var o := Format(rest, rec);
      if o.Formatted? {
        assert lit + o.text == o.text;
      }
    }
  }

  /** The tail ` - {b}` of the shipped template. */
  lemma DashField(b: string, rec: Record)
    requires IsPlainName(b)
    ensures Format(" - " + ("{" + b + "}" + ""), rec) ==
      if b in rec then Formatted(" - " + ToStr(rec[b])) else MissingKey(b)
  {
    var tail := "{" + b + "}" + "";
    assert Format(tail, rec) == if b in rec then Formatted(ToStr(rec[b])) else MissingKey(b) by {
      FieldThenRest(b, "", rec);
      if b in rec {
        assert ToStr(rec[b]) + "" == ToStr(rec[b]);
      }
    }
    LiteralThenRest(" - ", tail, rec);
  }

  /** `"{a} - {b}".format(**rec)`: the shape of the template shipped with
      the rules file. */
  lemma TwoFieldTemplate(a: string, b: string, rec: Record)
    requires IsPlainName(a) && IsPlainName(b)
    ensures a in rec && b in rec ==>
      Format("{" + a + "} - {" + b + "}", rec) == Formatted(ToStr(rec[a]) + " - " + ToStr(rec[b]))
    ensures a !in rec ==> Format("{" + a + "} - {" + b + "}", rec) == MissingKey(a)
    ensures a in rec && b !in rec ==> Format("{" + a + "} - {" + b + "}", rec) == MissingKey(b)
  {
    var rest := " - " + ("{" + b + "}" + "");
    assert "{" + a + "} - {" + b + "}" == "{" + a + "}" + rest;
    FieldThenRest(a, rest, rec);
    if a in rec {
      DashField(b, rec);
      if b in rec {
        assert ToStr(rec[a]) + (" - " + ToStr(rec[b])) == ToStr(rec[a]) + " - " + ToStr(rec[b]);
      }
    }
  }

  /** Brace errors: a lone `}`, an unclosed `{`, and the empty and numeric
      fields that Python reads as positional arguments. */
  lemma BraceErrors(rec: Record)
    ensures Format("}", rec) == Malformed
    ensures Format("{", rec) == Malformed
    ensures Format("{title", rec) == Malformed
    ensures Format("{}", rec) == Malformed
    ensures Format("{0}", rec) == Malformed
  {
    assert IndexOf("}", '}') == Some(0);
    assert IndexOf("0}", '}') == Some(1);
    assert "{0}"[1..2] == "0";
    assert IndexOf("title", '}') == None;
  }

  /** A name without any ASCII letter is still a key when it is not all
      digits: `{日本}` over a record without that key is a KeyError. */
  lemma NonAsciiFieldName(rec: Record)
    requires "日本" !in rec
    ensures Format("{日本}", rec) == MissingKey("日本")
  {
    assert IsPlainName("日本") by {
      assert !IsDigit("日本"[0]);
    }
    FieldThenRest("日本", "", rec);
    assert "{" + "日本" + "}" + "" == "{日本}";
  }
}
