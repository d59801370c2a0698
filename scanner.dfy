/** The placeholder scanner of templater.py (`get_template_fillables`):
    a two-state character machine run over each paragraph, collecting the
    names closed by `}` as fields and those closed by `]` as stories. */
module Scanner {
  import opened Common
  import opened Text

  predicate IsOpener(c: char) { c == '{' || c == '[' }
  predicate IsCloser(c: char) { c == '}' || c == ']' }
  predicate IsBracket(c: char) { IsOpener(c) || IsCloser(c) }

  /** The two lists the scanner returns, in source order with duplicates. */
  datatype Fillables = Fillables(fields: seq<string>, stories: seq<string>)

  /** The closer alone decides where a finished name goes. */
  function Record(acc: Fillables, closer: char, name: string): Fillables
  {
    if closer == '}' then acc.(fields := acc.fields + [name])
    else acc.(stories := acc.stories + [name])
  }

  /** The machine over the rest `text` of one paragraph, in state
      (`tagging`, `name`), having collected `acc` so far. */
  function ScanText(text: string, tagging: bool, name: string, acc: Fillables): (r: Result<Fillables>)
    ensures r.Err? ==> r.error.UnexpectedBracket? && IsBracket(r.error.c) && r.error.c in text
    ensures r.Ok? ==> acc.fields <= r.value.fields && acc.stories <= r.value.stories
    decreases |text|
  {
    if text == [] then Ok(acc)
    else
      var c := text[0];
      if IsOpener(c) then
        if tagging then Err(UnexpectedBracket(c)) else ScanText(text[1..], true, "", acc)
      else if IsCloser(c) then
        if !tagging then Err(UnexpectedBracket(c))
        else ScanText(text[1..], false, name, Record(acc, c, name))
      else if tagging then ScanText(text[1..], true, name + [c], acc)
      else ScanText(text[1..], false, name, acc)
  }

  /** Every paragraph starts with the machine reset. */
  function ScanParagraphs(ps: seq<string>, acc: Fillables): Result<Fillables>
  {
    if ps == [] then Ok(acc)
    else
      match ScanText(ps[0], false, "", acc)
      case Err(e) => Err(e)
      case Ok(acc') => ScanParagraphs(ps[1..], acc')
  }

  function Scan(ps: seq<string>): Result<Fillables>
  {
    ScanParagraphs(ps, Fillables([], []))
  }

  /** `get_template_fillables`, on the paragraphs' texts. */
  method GetTemplateFillables(paragraphs: seq<string>) returns (r: Result<Fillables>)
    ensures r == Scan(paragraphs)
  {
    var fields: seq<string> := [];
    var stories: seq<string> := [];
    var i := 0;
    while i < |paragraphs|
      invariant 0 <= i <= |paragraphs|
      invariant ScanParagraphs(paragraphs[i..], Fillables(fields, stories)) == Scan(paragraphs)
    {
      var text := paragraphs[i];
      ghost var before := Fillables(fields, stories);
      var tagging := false;
      var fillableName := "";
      var j := 0;
      while j < |text|
        invariant 0 <= j <= |text|
        invariant ScanText(text[j..], tagging, fillableName, Fillables(fields, stories))
               == ScanText(text, false, "", before)
      {
        var c := text[j];
        assert text[j..][1..] == text[j + 1..];
        if c == '{' || c == '[' {
          if tagging {
            return Err(UnexpectedBracket(c));
          }
          fillableName := "";
          tagging := true;
        } else if c == '}' || c == ']' {
          if !tagging {
            return Err(UnexpectedBracket(c));
          }
          if c == '}' {
            fields := fields + [fillableName];
          } else {
            stories := stories + [fillableName];
          }
          tagging := false;
        } else if tagging {
          fillableName := fillableName + [c];
        }
        j := j + 1;
      }
      assert paragraphs[i..][1..] == paragraphs[i + 1..];
      i := i + 1;
    }
    r := Ok(Fillables(fields, stories));
  }

  // ---------------------------------------------------------------------
  // When the scanner succeeds.

  /** The bracket characters of `s`, in order. */
  function Brackets(s: string): (b: string)
    ensures forall i | 0 <= i < |b| :: IsBracket(b[i])
  {
    if s == [] then []
    else (if IsBracket(s[0]) then [s[0]] else []) + Brackets(s[1..])
  }

  /** Openers and closers alternate, the first one an opener when the
      machine is not tagging and a closer when it is. */
  predicate AlternatesFrom(b: string, tagging: bool)
  {
    forall k | 0 <= k < |b| :: IsOpener(b[k]) == ((k % 2 == 0) != tagging)
  }

  /** A paragraph's brackets read opener, closer, opener, closer, …
      (possibly ending on an opener). */
  predicate WellTagged(p: string)
  {
    AlternatesFrom(Brackets(p), false)
  }

  lemma Parity(k: nat)
    ensures ((k + 1) % 2 == 0) == (k % 2 != 0)
  {
  }

  lemma AlternatesFromTail(c: char, b: string, tagging: bool)
    requires AlternatesFrom([c] + b, tagging)
    ensures IsOpener(c) == !tagging && AlternatesFrom(b, !tagging)
  {
    var s := [c] + b;
    assert s[0] == c;
    forall k | 0 <= k < |b| ensures IsOpener(b[k]) == ((k % 2 == 0) != !tagging) {
      assert s[k + 1] == b[k];
      Parity(k);
    }
  }

  lemma AlternatesFromPrepend(c: char, b: string, tagging: bool)
    requires IsOpener(c) == !tagging && AlternatesFrom(b, !tagging)
    ensures AlternatesFrom([c] + b, tagging)
  {
    var s := [c] + b;
    forall k | 0 <= k < |s| ensures IsOpener(s[k]) == ((k % 2 == 0) != tagging) {
      if k == 0 {
        assert s[0] == c;
      } else {
        assert s[k] == b[k - 1];
        Parity(k - 1);
      }
    }
  }

  lemma AlternatesFromCons(c: char, b: string, tagging: bool)
    ensures AlternatesFrom([c] + b, tagging) <==> (IsOpener(c) == !tagging && AlternatesFrom(b, !tagging))
  {
    if AlternatesFrom([c] + b, tagging) {
      AlternatesFromTail(c, b, tagging);
    }
    if IsOpener(c) == !tagging && AlternatesFrom(b, !tagging) {
      AlternatesFromPrepend(c, b, tagging);
    }
  }

  /** The machine fails exactly when the brackets do not alternate. */
  lemma {:induction false} ScanTextOkIff(t: string, tagging: bool, name: string, acc: Fillables)
    ensures ScanText(t, tagging, name, acc).Ok? <==> AlternatesFrom(Brackets(t), tagging)
    ensures ScanText(t, tagging, name, acc).Err? ==>
      ScanText(t, tagging, name, acc).error.UnexpectedBracket? && IsBracket(ScanText(t, tagging, name, acc).error.c)
    decreases |t|
  {
    if t != [] {
      var c := t[0];
      if IsBracket(c) {
        AlternatesFromCons(c, Brackets(t[1..]), tagging);
        if IsOpener(c) {
          ScanTextOkIff(t[1..], true, "", acc);
        } else if tagging {
          ScanTextOkIff(t[1..], false, name, Record(acc, c, name));
        }
      } else {
        assert Brackets(t) == Brackets(t[1..]);
        ScanTextOkIff(t[1..], tagging, if tagging then name + [c] else name, acc);
      }
    }
  }

  /** The scan of a template succeeds exactly when every paragraph is
      well tagged; otherwise it reports a bracket. */
  lemma {:induction false} ScanOkIff(ps: seq<string>, acc: Fillables)
    ensures ScanParagraphs(ps, acc).Ok? <==> forall i | 0 <= i < |ps| :: WellTagged(ps[i])
    ensures ScanParagraphs(ps, acc).Err? ==>
      ScanParagraphs(ps, acc).error.UnexpectedBracket? && IsBracket(ScanParagraphs(ps, acc).error.c)
    decreases |ps|
  {
    if ps != [] {
      ScanTextOkIff(ps[0], false, "", acc);
      match ScanText(ps[0], false, "", acc)
      case Err(_) =>
      case Ok(acc') =>
        ScanOkIff(ps[1..], acc');
        assert forall i | 1 <= i < |ps| :: ps[i] == ps[1..][i - 1];
    }
  }

  predicate BracketFree(s: string)
  {
    forall i | 0 <= i < |s| :: !IsBracket(s[i])
  }

  predicate AllBracketFree(names: seq<string>)
  {
    forall i | 0 <= i < |names| :: BracketFree(names[i])
  }

  /** On success, every closer of `t` has added one name, `}` to the fields and
      `]` to the stories, and no recorded name holds a bracket. */
  lemma {:induction false} ScanTextYield(t: string, tagging: bool, name: string, acc: Fillables)
    requires BracketFree(name) && AllBracketFree(acc.fields) && AllBracketFree(acc.stories)
    ensures ScanText(t, tagging, name, acc).Ok? ==>
      var r := ScanText(t, tagging, name, acc).value;
      && AllBracketFree(r.fields) && AllBracketFree(r.stories)
      && |r.fields| == |acc.fields| + Count(t, '}')
      && |r.stories| == |acc.stories| + Count(t, ']')
      && r.fields[..|acc.fields|] == acc.fields
      && r.stories[..|acc.stories|] == acc.stories
    decreases |t|
  {
    if t != [] {
      var c := t[0];
      assert t == [c] + t[1..];
      assert multiset(t) == multiset{c} + multiset(t[1..]);
      if IsOpener(c) {
        ScanTextYield(t[1..], true, "", acc);
      } else if IsCloser(c) {
        if tagging {
          var acc' := Record(acc, c, name);
          ScanTextYield(t[1..], false, name, acc');
          if ScanText(t, tagging, name, acc).Ok? {
            var r := ScanText(t, tagging, name, acc).value;
            if c == '}' {
              assert r.fields[..|acc.fields|] == r.fields[..|acc'.fields|][..|acc.fields|];
            } else {
              assert r.stories[..|acc.stories|] == r.stories[..|acc'.stories|][..|acc.stories|];
            }
          }
        }
      } else if tagging {
        ScanTextYield(t[1..], true, name + [c], acc);
      } else {
        ScanTextYield(t[1..], false, name, acc);
      }
    }
  }

  /** All paragraphs' texts, one after another. */
  function Flatten(ps: seq<string>): string
  {
    if ps == [] then [] else ps[0] + Flatten(ps[1..])
  }

  /** A successful scan returns one field per `}` and one story per `]` in
      the whole template, each free of brackets. */
  lemma {:induction false} ScanYield(ps: seq<string>, acc: Fillables)
    requires AllBracketFree(acc.fields) && AllBracketFree(acc.stories)
    ensures ScanParagraphs(ps, acc).Ok? ==>
      var r := ScanParagraphs(ps, acc).value;
      && AllBracketFree(r.fields) && AllBracketFree(r.stories)
      && |r.fields| == |acc.fields| + Count(Flatten(ps), '}')
      && |r.stories| == |acc.stories| + Count(Flatten(ps), ']')
    decreases |ps|
  {
    if ps != [] {
      ScanTextYield(ps[0], false, "", acc);
      match ScanText(ps[0], false, "", acc)
      case Err(_) =>
      case Ok(acc') =>
        ScanYield(ps[1..], acc');
    }
  }

  // ---------------------------------------------------------------------
  // What the machine does with each piece of text.

  /** Text without brackets is skipped: outside a tag it is ignored, inside a
      tag it joins the name, and a tag still open at the end of the paragraph
      is dropped without an error. */
  lemma {:induction false} ScanPlain(t: string, tagging: bool, name: string, rest: string, acc: Fillables)
    requires BracketFree(t)
    ensures ScanText(t + rest, tagging, name, acc)
         == ScanText(rest, tagging, if tagging then name + t else name, acc)
    decreases |t|
  {
    if t == [] {
      assert t + rest == rest;
      assert name + t == name;
    } else {
      assert (t + rest)[0] == t[0];
      assert (t + rest)[1..] == t[1..] + rest;
      ScanPlain(t[1..], tagging, if tagging then name + [t[0]] else name, rest, acc);
      assert name + [t[0]] + t[1..] == name + t;
    }
  }

  /** A tag opened by either opener and closed by `}` or `]` records its
      name under the closer's kind: `{a]` is a story. */
  lemma ScanTag(o: char, name: string, c: char, rest: string, buffer: string, acc: Fillables)
    requires IsOpener(o) && IsCloser(c) && BracketFree(name)
    ensures ScanText([o] + name + [c] + rest, false, buffer, acc)
         == ScanText(rest, false, name, Record(acc, c, name))
  {
    var t := [o] + name + [c] + rest;
    assert t[1..] == name + ([c] + rest);
    ScanPlain(name, true, "", [c] + rest, acc);
    assert "" + name == name;
    assert ([c] + rest)[1..] == rest;
  }

  /** A closer outside a tag, or an opener inside one, aborts the scan. */
  lemma ScanStray(c: char, rest: string, tagging: bool, name: string, acc: Fillables)
    requires (IsCloser(c) && !tagging) || (IsOpener(c) && tagging)
    ensures ScanText([c] + rest, tagging, name, acc) == Err(UnexpectedBracket(c))
  {
  }

  /** Paragraph by paragraph: the text of one paragraph never influences how
      the next one is read, except through the lists collected so far. */
  lemma {:induction false} ScanAppend(ps: seq<string>, qs: seq<string>, acc: Fillables)
    ensures ScanParagraphs(ps + qs, acc)
         == match ScanParagraphs(ps, acc)
            case Err(e) => Err(e)
            case Ok(acc') => ScanParagraphs(qs, acc')
    decreases |ps|
  {
    if ps == [] {
      assert ps + qs == qs;
    } else {
      assert (ps + qs)[0] == ps[0];
      assert (ps + qs)[1..] == ps[1..] + qs;
      match ScanText(ps[0], false, "", acc)
      case Err(_) =>
      case Ok(acc') => ScanAppend(ps[1..], qs, acc');
    }
  }

  // ---------------------------------------------------------------------
  // Examples.

  /** A successful scan of a one-paragraph template. */
  lemma ScanSingle(p: string, r: Fillables)
    requires ScanText(p, false, "", Fillables([], [])) == Ok(r)
    ensures Scan([p]) == Ok(r)
  {
    assert [p][0] == p && [p][1..] == [];
    assert ScanParagraphs([], r) == Ok(r);
  }

  /** One field tag followed by one story tag, with plain text around them. */
  lemma ScanFieldThenStory(pre: string, n1: string, mid: string, n2: string)
    requires BracketFree(pre) && BracketFree(n1) && BracketFree(mid) && BracketFree(n2)
    ensures Scan([pre + ['{'] + n1 + ['}'] + mid + ['['] + n2 + [']']]) == Ok(Fillables([n1], [n2]))
  {
    var acc0 := Fillables([], []);
    var acc1 := Record(acc0, '}', n1);
    var acc2 := Record(acc1, ']', n2);
    var tail2 := ['['] + n2 + [']'] + "";
    var tail1 := mid + tail2;
    var tail0 := ['{'] + n1 + ['}'] + tail1;
    var t := pre + tail0;
    ScanPlain(pre, false, "", tail0, acc0);
    ScanTag('{', n1, '}', tail1, "", acc0);
    ScanPlain(mid, false, n1, tail2, acc1);
    ScanTag('[', n2, ']', "", n1, acc1);
    assert acc2 == Fillables([n1], [n2]);
    assert ScanText("", false, n2, acc2) == Ok(acc2);
    assert ScanText(t, false, "", acc0) == Ok(acc2);
    assert t == pre + ['{'] + n1 + ['}'] + mid + ['['] + n2 + [']'];
    ScanSingle(t, acc2);
  }
  lemma ExampleCoverLetter()
    ensures Scan(["Dear {Recipient}, re: [intro]"]) == Ok(Fillables(["Recipient"], ["intro"]))
  {
    ScanFieldThenStory("Dear ", "Recipient", ", re: ", "intro");
    assert "Dear " + ['{'] + "Recipient" + ['}'] + ", re: " + ['['] + "intro" + [']'] == "Dear {Recipient}, re: [intro]";
  }

  /** Two paragraphs, the first scanning to `r` and the second failing. */
  lemma ScanPairFails(p: string, q: string, r: Fillables, e: Error)
    requires ScanText(p, false, "", Fillables([], [])) == Ok(r)
    requires ScanText(q, false, "", r) == Err(e)
    ensures Scan([p, q]) == Err(e)
  {
    assert [p, q][0] == p && [p, q][1..] == [q];
    assert [q][0] == q;
    assert ScanParagraphs([q], r) == Err(e);
  }

  lemma DanglingText()
    ensures ScanText("Hello {Name", false, "", Fillables([], [])) == Ok(Fillables([], []))
  {
    var acc0 := Fillables([], []);
    var t := "Hello " + (['{'] + "Name");
    ScanPlain("Hello ", false, "", ['{'] + "Name", acc0);
    assert (['{'] + "Name")[1..] == "Name" + "";
    ScanPlain("Name", true, "", "", acc0);
    assert t == "Hello {Name";
  }

  lemma StrayCloserText(r: Fillables)
    ensures ScanText("x}", false, "", r) == Err(UnexpectedBracket('}'))
  {
    var u := "x" + ['}'];
    ScanPlain("x", false, "", ['}'], r);
    assert u == "x}";
  }

  /** An unterminated tag at the end of a paragraph is dropped, and the
      next paragraph starts outside any tag. */
  lemma ExampleDanglingTag()
    ensures Scan(["Hello {Name"]) == Ok(Fillables([], []))
    ensures Scan(["Hello {Name", "x}"]) == Err(UnexpectedBracket('}'))
  {
    var acc0 := Fillables([], []);
    DanglingText();
    ScanSingle("Hello {Name", acc0);
    StrayCloserText(acc0);
    ScanPairFails("Hello {Name", "x}", acc0, UnexpectedBracket('}'));
  }

  lemma ExampleMixedKinds()
    ensures Scan(["{a]"]) == Ok(Fillables([], ["a"]))
  {
    var t := ['{'] + "a" + [']'] + "";
    ScanTag('{', "a", ']', "", "", Fillables([], []));
    assert Record(Fillables([], []), ']', "a") == Fillables([], ["a"]);
    assert ScanText("", false, "a", Fillables([], ["a"])) == Ok(Fillables([], ["a"]));
    assert t == "{a]";
    ScanSingle(t, Fillables([], ["a"]));
  }
}
