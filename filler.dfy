/** `fill_template` of templater.py: read the form, replace each story
    identifier by the story's text, then fill every paragraph of the
    template, square-bracket placeholders first and curly ones second. */
module Filler {
  import opened Common
  import opened Substitution
  import opened FormCodec

  /** Every story the form names and the repository holds is free of the
      square opener, so the story substitution ends. */
  predicate StoriesOpenerFree(stories: map<string, string>, repository: map<string, string>)
  {
    forall k | k in stories && stories[k] in repository :: '[' !in repository[stories[k]]
  }

  /** Every story identifier that the form names is in the repository. */
  predicate AllStoriesKnown(stories: map<string, string>, repository: map<string, string>)
  {
    forall k | k in stories :: stories[k] in repository
  }

  /** The story dictionary once every identifier has been replaced by the
      text the repository holds for it. */
  function Resolved(stories: map<string, string>, repository: map<string, string>): (r: map<string, string>)
    requires AllStoriesKnown(stories, repository)
    ensures r.Keys == stories.Keys
    ensures StoriesOpenerFree(stories, repository) ==> OpenerFree(r, false)
  {
    map k | k in stories :: repository[stories[k]]
  }

  /** Stories the form does not name play no part: two repositories that
      agree on every identifier the form names resolve alike. */
  lemma ResolvedIgnoresOthers(stories: map<string, string>, repository: map<string, string>, other: map<string, string>)
    requires AllStoriesKnown(stories, repository)
    requires forall k | k in stories :: stories[k] in other && other[stories[k]] == repository[stories[k]]
    ensures AllStoriesKnown(stories, other)
    ensures Resolved(stories, other) == Resolved(stories, repository)
  {
  }

  /** The loop of `fill_template` that reads each story (`retreive_story`),
      with the repository as a map from identifier to text. The keys are
      visited in no fixed order, so when several identifiers are missing
      the one reported is any of them. */
  method ResolveStories(stories: map<string, string>, repository: map<string, string>)
    returns (r: Result<map<string, string>>)
    ensures r.Ok? <==> AllStoriesKnown(stories, repository)
    ensures r.Ok? ==> r.value == Resolved(stories, repository)
    ensures r.Err? ==> r.error.StoryNotFound? && r.error.id in stories.Values && r.error.id !in repository
  {
    var resolved: map<string, string> := map[];
    var remaining := stories.Keys;
    while remaining != {}
      invariant remaining <= stories.Keys
      invariant resolved.Keys == stories.Keys - remaining
      invariant forall k | k in resolved :: stories[k] in repository && resolved[k] == repository[stories[k]]
      decreases remaining
    {
      var k :| k in remaining;
      var id := stories[k];
      if id !in repository {
        assert !AllStoriesKnown(stories, repository);
        return Err(StoryNotFound(id));
      }
      resolved := resolved[k := repository[id]];
      remaining := remaining - {k};
    }
    r := Ok(resolved);
  }

  /** One paragraph: stories first, then fields. */
  function FillParagraph(text: string, stories: map<string, string>, fields: map<string, string>): Result<string>
    requires OpenerFree(stories, false) && OpenerFree(fields, true)
  {
    match Substitute(text, stories, false)
    case Err(e) => Err(e)
    case Ok(t) => Substitute(t, fields, true)
  }

  /** The paragraphs after the fill loop and the error that stopped it, if
      any. The paragraphs before the failing one already hold their new
      text; the failing one and those after it are as they were. */
  datatype Outcome = Outcome(paragraphs: seq<string>, failure: Option<Error>)

  /** The fill of each paragraph on its own. */
  function FillResults(ps: seq<string>, stories: map<string, string>, fields: map<string, string>): (rs: seq<Result<string>>)
    requires OpenerFree(stories, false) && OpenerFree(fields, true)
    ensures |rs| == |ps|
  {
    if ps == [] then [] else [FillParagraph(ps[0], stories, fields)] + FillResults(ps[1..], stories, fields)
  }

  lemma {:induction false} FillResultsAt(ps: seq<string>, i: nat, stories: map<string, string>, fields: map<string, string>)
    requires OpenerFree(stories, false) && OpenerFree(fields, true)
    requires i < |ps|
    ensures FillResults(ps, stories, fields)[i] == FillParagraph(ps[i], stories, fields)
    decreases i
  {
    if i > 0 {
      FillResultsAt(ps[1..], i - 1, stories, fields);
      assert ps[1..][i - 1] == ps[i];
    }
  }

  /** The loop over the paragraphs `ps`, whose fills are `rs`: it stops at
      the first error. */
  function Collect(ps: seq<string>, rs: seq<Result<string>>): Outcome
    requires |rs| == |ps|
    decreases |ps|
  {
    if ps == [] then Outcome([], None)
    else
      match rs[0]
      case Err(e) => Outcome(ps, Some(e))
      case Ok(t) =>
        var rest := Collect(ps[1..], rs[1..]);
        Outcome([t] + rest.paragraphs, rest.failure)
  }

  /** What the paragraph loop of `fill_template` leaves and raises. */
  function FillAll(ps: seq<string>, stories: map<string, string>, fields: map<string, string>): Outcome
    requires OpenerFree(stories, false) && OpenerFree(fields, true)
  {
    Collect(ps, FillResults(ps, stories, fields))
  }

  function Prepend(pre: seq<string>, o: Outcome): Outcome
  {
    Outcome(pre + o.paragraphs, o.failure)
  }

  /** Paragraphs that all fill are replaced by their filled texts, and the
      loop goes on with the rest. */
  lemma {:induction false} CollectFilled(ps: seq<string>, rs: seq<Result<string>>, pre: seq<string>)
    requires |rs| == |ps| && |pre| <= |ps|
    requires forall j | 0 <= j < |pre| :: rs[j] == Ok(pre[j])
    ensures Collect(ps, rs) == Prepend(pre, Collect(ps[|pre|..], rs[|pre|..]))
    decreases |pre|
  {
    if pre == [] {
      assert ps[0..] == ps && rs[0..] == rs;
      assert [] + Collect(ps, rs).paragraphs == Collect(ps, rs).paragraphs;
    } else {
      assert rs[0] == Ok(pre[0]);
      forall j | 0 <= j < |pre[1..]| ensures rs[1..][j] == Ok(pre[1..][j]) {
        assert rs[1..][j] == rs[j + 1] && pre[1..][j] == pre[j + 1];
      }
      CollectFilled(ps[1..], rs[1..], pre[1..]);
      assert ps[1..][|pre| - 1..] == ps[|pre|..] && rs[1..][|pre| - 1..] == rs[|pre|..];
      var rest := Collect(ps[|pre|..], rs[|pre|..]);
      assert [pre[0]] + (pre[1..] + rest.paragraphs) == pre + rest.paragraphs;
    }
  }

  lemma CollectFail(ps: seq<string>, rs: seq<Result<string>>, i: nat, e: Error)
    requires |rs| == |ps| && i < |ps| && rs[i] == Err(e)
    ensures Collect(ps[i..], rs[i..]) == Outcome(ps[i..], Some(e))
  {
    assert rs[i..][0] == rs[i];
  }

  /** The body of the paragraph loop: both substitutions, stopping at the
      first error. */
  method FillOne(text: string, stories: map<string, string>, fields: map<string, string>) returns (r: Result<string>)
    requires OpenerFree(stories, false) && OpenerFree(fields, true)
    ensures r == FillParagraph(text, stories, fields)
  {
    var storied := ReplaceFillables(text, stories, false);
    if storied.Err? {
      return Err(storied.error);
    }
    r := ReplaceFillables(storied.value, fields, true);
  }

  /** Where the paragraph loop ends when every paragraph filled. */
  lemma FillDone(ps: seq<string>, rs: seq<Result<string>>, final: seq<string>,
                 stories: map<string, string>, fields: map<string, string>)
    requires OpenerFree(stories, false) && OpenerFree(fields, true)
    requires rs == FillResults(ps, stories, fields) && |final| == |ps|
    requires forall j | 0 <= j < |ps| :: rs[j] == Ok(final[j])
    ensures FillAll(ps, stories, fields) == Outcome(final, None)
  {
    CollectFilled(ps, rs, final);
    assert ps[|ps|..] == [] && rs[|rs|..] == [];
    assert final + [] == final;
  }

  /** The loop stops at paragraph `i` with its error, the paragraphs before
      it filled and the rest as they were. */
  lemma CollectStopped(ps: seq<string>, rs: seq<Result<string>>, current: seq<string>, i: nat, e: Error)
    requires |rs| == |ps| && |current| == |ps| && i < |ps|
    requires current[i..] == ps[i..] && rs[i] == Err(e)
    requires forall j | 0 <= j < i :: rs[j] == Ok(current[j])
    ensures Collect(ps, rs) == Outcome(current, Some(e))
  {
    var pre := current[..i];
    assert |pre| == i;
    assert forall j | 0 <= j < |pre| :: rs[j] == Ok(pre[j]);
    CollectFilled(ps, rs, pre);
    CollectFail(ps, rs, i, e);
    assert Collect(ps, rs) == Outcome(pre + ps[i..], Some(e));
    assert current == pre + ps[i..];
  }

  /** Where the paragraph loop ends when paragraph `i` fails. */
  lemma FillStopped(ps: seq<string>, rs: seq<Result<string>>, current: seq<string>, i: nat, e: Error,
                    stories: map<string, string>, fields: map<string, string>)
    requires OpenerFree(stories, false) && OpenerFree(fields, true)
    requires rs == FillResults(ps, stories, fields) && |current| == |ps| && i < |ps|
    requires current[i..] == ps[i..] && rs[i] == Err(e)
    requires forall j | 0 <= j < i :: rs[j] == Ok(current[j])
    ensures FillAll(ps, stories, fields) == Outcome(current, Some(e))
  {
    CollectStopped(ps, rs, current, i, e);
  }

  /** One round of the paragraph loop: paragraph `i` is filled and written
      back when its text changed, or the loop stops with the error. */
  method FillAt(paragraphs: array<string>, i: nat, stories: map<string, string>, fields: map<string, string>,
                ghost ps: seq<string>, ghost rs: seq<Result<string>>)
    returns (failure: Option<Error>)
    requires OpenerFree(stories, false) && OpenerFree(fields, true)
    requires rs == FillResults(ps, stories, fields)
    requires i < paragraphs.Length == |ps| && paragraphs[i] == ps[i]
    modifies paragraphs
    ensures failure.Some? ==> rs[i] == Err(failure.value) && paragraphs[..] == old(paragraphs[..])
    ensures failure.None? ==> rs[i] == Ok(paragraphs[i]) && paragraphs[..] == old(paragraphs[..])[i := paragraphs[i]]
  {
    var filled := FillOne(paragraphs[i], stories, fields);
    FillResultsAt(ps, i, stories, fields);
    if filled.Err? {
      return Some(filled.error);
    }
    if paragraphs[i] != filled.value {
      paragraphs[i] := filled.value;
    }
    failure := None;
  }

  /** The loop of `fill_template` over the paragraphs of the template: each
      one is filled and written back when its text changed. */
  method FillParagraphs(paragraphs: array<string>, stories: map<string, string>, fields: map<string, string>)
    returns (r: Result<()>)
    requires OpenerFree(stories, false) && OpenerFree(fields, true)
    modifies paragraphs
    ensures var o := FillAll(old(paragraphs[..]), stories, fields);
      && paragraphs[..] == o.paragraphs
      && (o.failure.None? ==> r == Ok(()))
      && (o.failure.Some? ==> r == Err(o.failure.value))
  {
    ghost var ps := paragraphs[..];
    ghost var rs := FillResults(ps, stories, fields);
    var i := 0;
    while i < paragraphs.Length
      invariant 0 <= i <= paragraphs.Length
      invariant paragraphs[i..] == ps[i..]
      invariant forall j | 0 <= j < i :: rs[j] == Ok(paragraphs[j])
    {
      var failure := FillAt(paragraphs, i, stories, fields, ps, rs);
      if failure.Some? {
        FillStopped(ps, rs, paragraphs[..], i, failure.value, stories, fields);
        return Err(failure.value);
      }
      i := i + 1;
    }
    FillDone(ps, rs, paragraphs[..], stories, fields);
    r := Ok(());
  }

  /** `fill_template`, on the lines of the form, the story repository and the
      paragraphs of the template document, which it updates in place. */
  method FillTemplate(formLines: seq<string>, repository: map<string, string>, paragraphs: array<string>)
    returns (r: Result<()>)
    requires ReadForm(formLines).Ok? ==> StoriesOpenerFree(ReadForm(formLines).value.stories, repository)
    requires ReadForm(formLines).Ok? ==> OpenerFree(ReadForm(formLines).value.fields, true)
    modifies paragraphs
    ensures ReadForm(formLines).Err? ==>
      r == Err(ReadForm(formLines).error) && paragraphs[..] == old(paragraphs[..])
    ensures ReadForm(formLines).Ok? && !AllStoriesKnown(ReadForm(formLines).value.stories, repository) ==>
      && r.Err? && r.error.StoryNotFound?
      && r.error.id in ReadForm(formLines).value.stories.Values && r.error.id !in repository
      && paragraphs[..] == old(paragraphs[..])
    ensures ReadForm(formLines).Ok? && AllStoriesKnown(ReadForm(formLines).value.stories, repository) ==>
      var form := ReadForm(formLines).value;
      var o := FillAll(old(paragraphs[..]), Resolved(form.stories, repository), form.fields);
      && paragraphs[..] == o.paragraphs
      && (o.failure.None? ==> r == Ok(()))
      && (o.failure.Some? ==> r == Err(o.failure.value))
  {
    var form := GetFormInfo(formLines);
    if form.Err? {
      return Err(form.error);
    }
    var resolved := ResolveStories(form.value.stories, repository);
    if resolved.Err? {
      return Err(resolved.error);
    }
    r := FillParagraphs(paragraphs, resolved.value, form.value.fields);
  }

  // ---------------------------------------------------------------------
  // Properties.

  /** A paragraph without any bracket is left as it is. */
  lemma FillParagraphUntouched(text: string, stories: map<string, string>, fields: map<string, string>)
    requires OpenerFree(stories, false) && OpenerFree(fields, true)
    requires '[' !in text && ']' !in text && '{' !in text && '}' !in text
    ensures FillParagraph(text, stories, fields) == Ok(text)
  {
    SubstituteUntouched(text, stories, false);
    SubstituteUntouched(text, fields, true);
  }
  /** Filling a paragraph raises only the substitution loop's three errors,
      and a missing name is one the stories or the fields lack. */
  lemma FillParagraphErrors(text: string, stories: map<string, string>, fields: map<string, string>)
    requires OpenerFree(stories, false) && OpenerFree(fields, true)
    ensures var r := FillParagraph(text, stories, fields);
      r.Err? ==> r.error.CloserBeforeOpener? || r.error.MissingFillable? || r.error.UnbalancedBrackets?
    ensures var r := FillParagraph(text, stories, fields);
      r.Err? && r.error.MissingFillable? ==> r.error.name !in stories || r.error.name !in fields
  {
    SubstituteErrorKinds(text, stories, false);
    var s := Substitute(text, stories, false);
    if s.Ok? {
      SubstituteErrorKinds(s.value, fields, true);
    }
  }

  /** A filled paragraph holds no curly bracket, and no square bracket either
      when no field value brings one in. */
  lemma FillParagraphClean(text: string, stories: map<string, string>, fields: map<string, string>)
    requires OpenerFree(stories, false) && OpenerFree(fields, true)
    ensures FillParagraph(text, stories, fields).Ok? ==>
      '{' !in FillParagraph(text, stories, fields).value && '}' !in FillParagraph(text, stories, fields).value
    ensures FillParagraph(text, stories, fields).Ok? && ValuesAvoid(fields, '[') && ValuesAvoid(fields, ']') ==>
      '[' !in FillParagraph(text, stories, fields).value && ']' !in FillParagraph(text, stories, fields).value
  {
    var s := Substitute(text, stories, false);
    if s.Ok? {
      SubstituteClean(text, stories, false);
      SubstituteClean(s.value, fields, true);
      if ValuesAvoid(fields, '[') && ValuesAvoid(fields, ']') {
        SubstituteKeepsAbsent(s.value, fields, true, '[');
        SubstituteKeepsAbsent(s.value, fields, true, ']');
      }
    }
  }
  /** A paragraph with one field placeholder and no other bracket. */
  lemma FillOneField(pre: string, name: string, post: string, stories: map<string, string>, fields: map<string, string>)
    requires OpenerFree(stories, false) && OpenerFree(fields, true) && ValuesAvoid(fields, '}')
    requires '[' !in pre && ']' !in pre && '{' !in pre && '}' !in pre
    requires '[' !in post && ']' !in post && '{' !in post && '}' !in post
    requires '[' !in name && ']' !in name && '}' !in name && name in fields
    ensures FillParagraph(pre + Token(name, true) + post, stories, fields) == Ok(pre + fields[name] + post)
  {
    var text := pre + Token(name, true) + post;
    assert '[' !in text && ']' !in text;
    SubstituteUntouched(text, stories, false);
    SubstituteSingle(pre, name, post, fields, true);
  }
  /** A paragraph that is one story placeholder whose text has no curly
      bracket becomes that text. */
  lemma FillOneStory(name: string, stories: map<string, string>, fields: map<string, string>)
    requires OpenerFree(stories, false) && OpenerFree(fields, true) && ValuesAvoid(stories, ']')
    requires ']' !in name && name in stories
    requires '{' !in stories[name] && '}' !in stories[name]
    ensures FillParagraph(Token(name, false), stories, fields) == Ok(stories[name])
  {
    assert [] + Token(name, false) + [] == Token(name, false);
    SubstituteSingle([], name, [], stories, false);
    assert [] + stories[name] + [] == stories[name];
    SubstituteUntouched(stories[name], fields, true);
  }

  /** The loop keeps the number of paragraphs, succeeds exactly when every
      paragraph fills, and then holds each paragraph's filled text. */
  lemma {:induction false} CollectSpec(ps: seq<string>, rs: seq<Result<string>>)
    requires |rs| == |ps|
    ensures |Collect(ps, rs).paragraphs| == |ps|
    ensures Collect(ps, rs).failure.None? <==> forall i | 0 <= i < |rs| :: rs[i].Ok?
    ensures Collect(ps, rs).failure.None? ==>
      forall i | 0 <= i < |rs| :: rs[i].Ok? && Collect(ps, rs).paragraphs[i] == rs[i].value
    decreases |ps|
  {
    if ps != [] {
      var o := Collect(ps, rs);
      match rs[0]
      case Err(e) =>
      case Ok(t) =>
        var rest := Collect(ps[1..], rs[1..]);
        CollectSpec(ps[1..], rs[1..]);
        assert o.paragraphs == [t] + rest.paragraphs;
        if rest.failure.None? {
          forall i | 0 <= i < |rs| ensures rs[i].Ok? && o.paragraphs[i] == rs[i].value {
            if i > 0 { assert rs[1..][i - 1] == rs[i]; }
          }
        } else {
          var j :| 0 <= j < |rs[1..]| && !rs[1..][j].Ok?;
          assert rs[1..][j] == rs[j + 1];
        }
    }
  }

  lemma FillAllSpec(ps: seq<string>, stories: map<string, string>, fields: map<string, string>)
    requires OpenerFree(stories, false) && OpenerFree(fields, true)
    ensures |FillAll(ps, stories, fields).paragraphs| == |ps|
    ensures FillAll(ps, stories, fields).failure.None? <==>
      forall i | 0 <= i < |ps| :: FillParagraph(ps[i], stories, fields).Ok?
    ensures FillAll(ps, stories, fields).failure.None? ==>
      forall i | 0 <= i < |ps| :: FillParagraph(ps[i], stories, fields) == Ok(FillAll(ps, stories, fields).paragraphs[i])
  {
    var rs := FillResults(ps, stories, fields);
    CollectSpec(ps, rs);
    forall i | 0 <= i < |ps| ensures rs[i] == FillParagraph(ps[i], stories, fields) {
      FillResultsAt(ps, i, stories, fields);
    }
  }

  /** The loop stopped at paragraph `k` with error `e`: all paragraphs
      before it filled, it and all after it unchanged. */
  predicate StoppedAt(ps: seq<string>, rs: seq<Result<string>>, o: Outcome, k: int, e: Error)
  {
    && |rs| == |ps|
    && 0 <= k < |ps|
    && rs[k] == Err(e)
    && |o.paragraphs| == |ps|
    && o.paragraphs[k..] == ps[k..]
    && forall j | 0 <= j < k :: rs[j] == Ok(o.paragraphs[j])
  }

  lemma StoppedAtCons(ps: seq<string>, rs: seq<Result<string>>, t: string, rest: Outcome, k: int, e: Error)
    requires |rs| == |ps| && ps != [] && rs[0] == Ok(t)
    requires StoppedAt(ps[1..], rs[1..], rest, k, e)
    ensures StoppedAt(ps, rs, Outcome([t] + rest.paragraphs, rest.failure), k + 1, e)
  {
    var o := Outcome([t] + rest.paragraphs, rest.failure);
    assert rs[1..][k] == rs[k + 1];
    assert o.paragraphs[k + 1..] == rest.paragraphs[k..];
    assert ps[k + 1..] == ps[1..][k..];
    forall j | 0 <= j < k + 1 ensures rs[j] == Ok(o.paragraphs[j]) {
      if j > 0 {
        assert rs[1..][j - 1] == rs[j];
        assert o.paragraphs[j] == rest.paragraphs[j - 1];
      }
    }
  }

  lemma {:induction false} CollectFailure(ps: seq<string>, rs: seq<Result<string>>)
    requires |rs| == |ps|
    ensures Collect(ps, rs).failure.Some? ==>
      exists k :: StoppedAt(ps, rs, Collect(ps, rs), k, Collect(ps, rs).failure.value)
    decreases |ps|
  {
    if ps != [] {
      var o := Collect(ps, rs);
      match rs[0]
      case Err(e) =>
        assert StoppedAt(ps, rs, o, 0, e);
      case Ok(t) =>
        var rest := Collect(ps[1..], rs[1..]);
        CollectFailure(ps[1..], rs[1..]);
        if rest.failure.Some? {
          var k :| StoppedAt(ps[1..], rs[1..], rest, k, rest.failure.value);
          StoppedAtCons(ps, rs, t, rest, k, rest.failure.value);
        }
    }
  }

  /** When the loop stops, it stops at a paragraph `k` that does not fill,
      with that paragraph's error: all paragraphs before it hold their
      filled text, it and all after it are unchanged. */
  lemma FillAllFailure(ps: seq<string>, stories: map<string, string>, fields: map<string, string>)
    requires OpenerFree(stories, false) && OpenerFree(fields, true)
    ensures FillAll(ps, stories, fields).failure.Some? ==> exists k | 0 <= k < |ps| ::
      && FillParagraph(ps[k], stories, fields) == Err(FillAll(ps, stories, fields).failure.value)
      && |FillAll(ps, stories, fields).paragraphs| == |ps|
      && FillAll(ps, stories, fields).paragraphs[k..] == ps[k..]
      && forall j | 0 <= j < k :: FillParagraph(ps[j], stories, fields) == Ok(FillAll(ps, stories, fields).paragraphs[j])
  {
    var rs := FillResults(ps, stories, fields);
    var o := FillAll(ps, stories, fields);
    CollectFailure(ps, rs);
    if o.failure.Some? {
      var k :| StoppedAt(ps, rs, o, k, o.failure.value);
      forall j | 0 <= j < |ps| ensures rs[j] == FillParagraph(ps[j], stories, fields) {
        FillResultsAt(ps, j, stories, fields);
      }
      assert FillParagraph(ps[k], stories, fields) == Err(o.failure.value);
    }
  }
}
