/** The substitution loop of templater.py (`replace_fillables`): find the
    first opener and the first closer, take the text between them as a
    name, replace every copy of that bracketed token with the mapped value,
    and repeat until neither bracket is left. */
module Substitution {
  import opened Common
  import opened Text

  /** `is_field` selects curly brackets, otherwise square brackets are used. */
  function Opener(isField: bool): char { if isField then '{' else '[' }
  function Closer(isField: bool): char { if isField then '}' else ']' }

  function Token(name: string, isField: bool): string
  {
    [Opener(isField)] + name + [Closer(isField)]
  }

  /** No mapped value brings a new opener into the text, so that every pass
      of the loop removes at least one opener. */
  predicate OpenerFree(m: map<string, string>, isField: bool)
  {
    forall k | k in m :: Opener(isField) !in m[k]
  }

  /** No mapped value contains `x`. */
  predicate ValuesAvoid(m: map<string, string>, x: char)
  {
    forall k | k in m :: x !in m[k]
  }

  /** One pass strictly lowers the number of openers. */
  lemma PassShrinks(text: string, m: map<string, string>, isField: bool)
    requires OpenerFree(m, isField)
    requires Find(text, Opener(isField)) != -1 && Find(text, Closer(isField)) != -1
    requires Find(text, Opener(isField)) < Find(text, Closer(isField))
    requires text[Find(text, Opener(isField)) + 1..Find(text, Closer(isField))] in m
    ensures var name := text[Find(text, Opener(isField)) + 1..Find(text, Closer(isField))];
      Count(ReplaceAll(text, Token(name, isField), m[name]), Opener(isField)) < Count(text, Opener(isField))
  {
    var start, end := Find(text, Opener(isField)), Find(text, Closer(isField));
    var name := text[start + 1..end];
    assert text[start..end + 1] == Token(name, isField);
    ReplaceAllCountLt(text, Token(name, isField), m[name], Opener(isField));
  }

  /** The loop goes round once more: both brackets found, in order, with
      a known name between them. */
  predicate Continues(text: string, m: map<string, string>, isField: bool)
  {
    var start, end := Find(text, Opener(isField)), Find(text, Closer(isField));
    start != -1 && end != -1 && start < end && text[start + 1..end] in m
  }

  /** The text after one round of the loop. */
  function Pass(text: string, m: map<string, string>, isField: bool): string
    requires Continues(text, m, isField)
  {
    var name := text[Find(text, Opener(isField)) + 1..Find(text, Closer(isField))];
    ReplaceAll(text, Token(name, isField), m[name])
  }

  /** What `replace_fillables(text, m, isField)` returns or raises. */
  function Substitute(text: string, m: map<string, string>, isField: bool): Result<string>
    requires OpenerFree(m, isField)
    decreases Count(text, Opener(isField))
  {
    var start, end := Find(text, Opener(isField)), Find(text, Closer(isField));
    if start != -1 && end != -1 then
      if end < start then Err(CloserBeforeOpener)
      else
        var name := text[start + 1..end];
        if name !in m then Err(MissingFillable(name))
        else
          PassShrinks(text, m, isField);
          Substitute(ReplaceAll(text, Token(name, isField), m[name]), m, isField)
    else if start != -1 || end != -1 then Err(UnbalancedBrackets)
    else Ok(text)
  }

  /** `replace_fillables`. */
  method ReplaceFillables(text: string, fillables: map<string, string>, isField: bool) returns (r: Result<string>)
    requires OpenerFree(fillables, isField)
    ensures r == Substitute(text, fillables, isField)
  {
    var current := text;
    var start, end := Find(current, Opener(isField)), Find(current, Closer(isField));
    while start != -1 && end != -1
      invariant start == Find(current, Opener(isField)) && end == Find(current, Closer(isField))
      invariant Substitute(current, fillables, isField) == Substitute(text, fillables, isField)
      decreases Count(current, Opener(isField))
    {
      if end < start {
        return Err(CloserBeforeOpener);
      }
      var fillable := current[start + 1..end];
      if fillable !in fillables {
        return Err(MissingFillable(fillable));
      }
      PassShrinks(current, fillables, isField);
      current := ReplaceAll(current, Token(fillable, isField), fillables[fillable]);
      start, end := Find(current, Opener(isField)), Find(current, Closer(isField));
    }
    if start != -1 || end != -1 {
      return Err(UnbalancedBrackets);
    }
    r := Ok(current);
  }

  // ---------------------------------------------------------------------
  // Properties.

  lemma SubstituteStep(text: string, m: map<string, string>, isField: bool)
    requires OpenerFree(m, isField) && Continues(text, m, isField)
    ensures Count(Pass(text, m, isField), Opener(isField)) < Count(text, Opener(isField))
    ensures Substitute(text, m, isField) == Substitute(Pass(text, m, isField), m, isField)
  {
    PassShrinks(text, m, isField);
  }

  /** When the loop does not go round, the result is an error or the text
      itself, which then holds neither bracket. */
  lemma SubstituteStops(text: string, m: map<string, string>, isField: bool)
    requires OpenerFree(m, isField) && !Continues(text, m, isField)
    ensures Substitute(text, m, isField).Ok? ==>
      Substitute(text, m, isField) == Ok(text) && Opener(isField) !in text && Closer(isField) !in text
  {
  }

  /** A successful substitution leaves neither the opener nor the closer. */
  lemma {:induction false} SubstituteClean(text: string, m: map<string, string>, isField: bool)
    requires OpenerFree(m, isField)
    ensures var r := Substitute(text, m, isField);
      r.Ok? ==> Opener(isField) !in r.value && Closer(isField) !in r.value
    decreases Count(text, Opener(isField))
  {
    if Continues(text, m, isField) {
      var next := Pass(text, m, isField);
      SubstituteStep(text, m, isField);
      SubstituteClean(next, m, isField);
    } else {
      SubstituteStops(text, m, isField);
    }
  }

  /** Text without the selected brackets is returned as it is. */
  lemma SubstituteUntouched(text: string, m: map<string, string>, isField: bool)
    requires OpenerFree(m, isField)
    requires Opener(isField) !in text && Closer(isField) !in text
    ensures Substitute(text, m, isField) == Ok(text)
  {
  }

  /** Substituting again with the same mapping changes nothing. */
  lemma SubstituteIdempotent(text: string, m: map<string, string>, isField: bool)
    requires OpenerFree(m, isField)
    requires Substitute(text, m, isField).Ok?
    ensures Substitute(Substitute(text, m, isField).value, m, isField) == Substitute(text, m, isField)
  {
    SubstituteClean(text, m, isField);
    SubstituteUntouched(Substitute(text, m, isField).value, m, isField);
  }

  /** The three ways the first step can fail. */
  lemma SubstituteErrors(text: string, m: map<string, string>, isField: bool)
    requires OpenerFree(m, isField)
    ensures var start, end := Find(text, Opener(isField)), Find(text, Closer(isField));
      && (start != -1 && end != -1 && end < start ==> Substitute(text, m, isField) == Err(CloserBeforeOpener))
      && ((start == -1) != (end == -1) ==> Substitute(text, m, isField) == Err(UnbalancedBrackets))
      && (start != -1 && start < end && text[start + 1..end] !in m ==>
            Substitute(text, m, isField) == Err(MissingFillable(text[start + 1..end])))
  {
  }

  /** When the loop does not go round, an error it raises is one of its
      three, and a missing name is one the mapping lacks. */
  lemma SubstituteHalts(text: string, m: map<string, string>, isField: bool)
    requires OpenerFree(m, isField) && !Continues(text, m, isField)
    ensures var r := Substitute(text, m, isField);
      r.Err? ==> r.error.CloserBeforeOpener? || r.error.MissingFillable? || r.error.UnbalancedBrackets?
    ensures var r := Substitute(text, m, isField);
      r.Err? && r.error.MissingFillable? ==> r.error.name !in m
  {
    SubstituteErrors(text, m, isField);
  }

  /** The loop raises nothing but its three errors, and a missing name is
      one the mapping lacks. */
  lemma {:induction false} SubstituteErrorKinds(text: string, m: map<string, string>, isField: bool)
    requires OpenerFree(m, isField)
    ensures var r := Substitute(text, m, isField);
      r.Err? ==> r.error.CloserBeforeOpener? || r.error.MissingFillable? || r.error.UnbalancedBrackets?
    ensures var r := Substitute(text, m, isField);
      r.Err? && r.error.MissingFillable? ==> r.error.name !in m
    decreases Count(text, Opener(isField))
  {
    if Continues(text, m, isField) {
      var next := Pass(text, m, isField);
      SubstituteStep(text, m, isField);
      SubstituteErrorKinds(next, m, isField);
    } else {
      SubstituteHalts(text, m, isField);
    }
  }

  /** A token preceded by text without brackets is the one the loop picks. */
  lemma TokenFirst(pre: string, name: string, post: string, m: map<string, string>, isField: bool)
    requires Opener(isField) !in pre && Closer(isField) !in pre
    requires Closer(isField) !in name && name in m
    ensures Continues(pre + Token(name, isField) + post, m, isField)
    ensures Pass(pre + Token(name, isField) + post, m, isField)
         == ReplaceAll(pre + Token(name, isField) + post, Token(name, isField), m[name])
  {
    var o, c := Opener(isField), Closer(isField);
    var text := pre + Token(name, isField) + post;
    var k := |pre| + |name| + 1;
    assert text[|pre|] == o;
    assert text[k] == c;
    assert text[..|pre|] == pre;
    assert text[..k] == pre + [o] + name;
    assert Find(text, o) == |pre|;
    assert Find(text, c) == k;
    assert text[|pre| + 1..k] == name;
  }

  /** A value that itself holds the closer leaves a stray bracket behind. */
  lemma SubstituteStrayCloser(name: string, m: map<string, string>, isField: bool)
    requires OpenerFree(m, isField)
    requires Closer(isField) !in name
    requires name in m && m[name] == [Closer(isField)]
    ensures Substitute(Token(name, isField), m, isField) == Err(UnbalancedBrackets)
  {
    var tok := Token(name, isField);
    assert [] + tok + [] == tok;
    TokenFirst([], name, [], m, isField);
    SubstituteStep(tok, m, isField);
    ReplaceAllSingle([], tok, [], m[name]);
    var text := [Closer(isField)];
    assert [] + text + [] == text;
    assert Find(text, Closer(isField)) == 0;
  }

  /** One placeholder between text without brackets is replaced by its value. */
  lemma SubstituteSingle(pre: string, name: string, post: string, m: map<string, string>, isField: bool)
    requires OpenerFree(m, isField) && ValuesAvoid(m, Closer(isField))
    requires Opener(isField) !in pre && Closer(isField) !in pre
    requires Closer(isField) !in name
    requires Opener(isField) !in post && Closer(isField) !in post
    requires name in m
    ensures Substitute(pre + Token(name, isField) + post, m, isField) == Ok(pre + m[name] + post)
  {
    var text := pre + Token(name, isField) + post;
    TokenFirst(pre, name, post, m, isField);
    SubstituteStep(text, m, isField);
    ReplaceAllSingle(pre, Token(name, isField), post, m[name]);
    SubstituteUntouched(pre + m[name] + post, m, isField);
  }

  /** The same placeholder twice is replaced in one pass: global replace. */
  lemma SubstituteRepeated(name: string, mid: string, m: map<string, string>, isField: bool)
    requires OpenerFree(m, isField) && ValuesAvoid(m, Closer(isField))
    requires Closer(isField) !in name
    requires Opener(isField) !in mid && Closer(isField) !in mid
    requires name in m
    ensures Substitute(Token(name, isField) + mid + Token(name, isField), m, isField) == Ok(m[name] + mid + m[name])
  {
    var tok := Token(name, isField);
    var v := m[name];
    var text := tok + mid + tok;
    assert text == [] + tok + (mid + tok);
    TokenFirst([], name, mid + tok, m, isField);
    SubstituteStep(text, m, isField);
    ReplaceAllTwice(tok, mid, v);
    SubstituteUntouched(v + mid + v, m, isField);
  }

  lemma ExampleGlobalReplace(text: string, m: map<string, string>)
    requires text == "{x} and {x}" && m == map["x" := "A"]
    ensures Substitute(text, m, true) == Ok("A and A")
  {
    var tok, mid := Token("x", true), " and ";
    assert tok == "{x}";
    assert tok + mid + tok == text;
    assert m["x"] + mid + m["x"] == "A and A";
    assert m.Keys == {"x"};
    SubstituteRepeated("x", mid, m, true);
  }

  lemma ExampleCloserFirst()
    ensures Substitute("} {x}", map["x" := "A"], true) == Err(CloserBeforeOpener)
  {
    var text := "} {x}";
    assert Find(text, '}') == 0;
    assert Find(text, '{') == 2;
  }

  /** A character that neither the text nor any value contains cannot appear
      in the result. */
  lemma {:induction false} SubstituteKeepsAbsent(text: string, m: map<string, string>, isField: bool, x: char)
    requires OpenerFree(m, isField) && ValuesAvoid(m, x) && x !in text
    ensures var r := Substitute(text, m, isField); r.Ok? ==> x !in r.value
    decreases Count(text, Opener(isField))
  {
    if Continues(text, m, isField) {
      var name := text[Find(text, Opener(isField)) + 1..Find(text, Closer(isField))];
      SubstituteStep(text, m, isField);
      ReplaceAllKeepsAbsent(text, Token(name, isField), m[name], x);
      SubstituteKeepsAbsent(Pass(text, m, isField), m, isField, x);
    } else {
      SubstituteStops(text, m, isField);
    }
  }
}
