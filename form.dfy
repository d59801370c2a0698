/** The form file of templater.py: `generate_form` writes one line per
    distinct placeholder name, fields first, each right-padded with
    `ljust`; `get_form_info` reads such lines back into two dictionaries.
    The file is modelled as its sequence of lines, without line breaks. */
module FormCodec {
  import opened Common
  import opened Text

  // ---------------------------------------------------------------------
  // Writing.

  /** The names of `s` in order of first appearance, each once, leaving out
      those already in `seen` (the `printed_fields` / `printed_stories` sets). */
  function DedupFrom(s: seq<string>, seen: set<string>): seq<string>
  {
    if s == [] then []
    else if s[0] in seen then DedupFrom(s[1..], seen)
    else [s[0]] + DedupFrom(s[1..], seen + {s[0]})
  }

  /** `DedupFrom` keeps exactly the names not yet seen. */
  lemma {:induction false} DedupFromElems(s: seq<string>, seen: set<string>)
    ensures forall x :: x in DedupFrom(s, seen) <==> x in s && x !in seen
  {
    if s != [] {
      var seen' := if s[0] in seen then seen else seen + {s[0]};
      DedupFromElems(s[1..], seen');
      assert forall x :: x in s <==> x == s[0] || x in s[1..];
    }
  }

  /** Each of them once. */
  lemma {:induction false} DedupFromDistinct(s: seq<string>, seen: set<string>)
    ensures forall i, j | 0 <= i < j < |DedupFrom(s, seen)| :: DedupFrom(s, seen)[i] != DedupFrom(s, seen)[j]
  {
    if s != [] && s[0] !in seen {
      var r := DedupFrom(s, seen);
      var t := DedupFrom(s[1..], seen + {s[0]});
      DedupFromElems(s[1..], seen + {s[0]});
      DedupFromDistinct(s[1..], seen + {s[0]});
      assert r == [s[0]] + t;
      forall i, j | 0 <= i < j < |r| ensures r[i] != r[j] {
        assert r[j] == t[j - 1] && t[j - 1] in t;
        if i > 0 {
          assert r[i] == t[i - 1];
        }
      }
    } else if s != [] {
      DedupFromDistinct(s[1..], seen);
    }
  }

  /** In order of first appearance. */
  lemma {:induction false} DedupFromOrder(s: seq<string>, seen: set<string>)
    ensures forall i | 0 <= i < |DedupFrom(s, seen)| :: DedupFrom(s, seen)[i] in s
    ensures forall i, j | 0 <= i < j < |DedupFrom(s, seen)| ::
      FirstIndex(s, DedupFrom(s, seen)[i]) < FirstIndex(s, DedupFrom(s, seen)[j])
  {
    DedupFromElems(s, seen);
    if s != [] {
      var r := DedupFrom(s, seen);
      var seen' := if s[0] in seen then seen else seen + {s[0]};
      var t := DedupFrom(s[1..], seen');
      DedupFromElems(s[1..], seen');
      DedupFromOrder(s[1..], seen');
      forall i | 0 <= i < |t| ensures t[i] in s[1..] && t[i] != s[0] && FirstIndex(s, t[i]) == FirstIndex(s[1..], t[i]) + 1 {
        assert t[i] in t;
      }
      if s[0] in seen {
        assert r == t;
        forall i, j | 0 <= i < j < |r| ensures FirstIndex(s, r[i]) < FirstIndex(s, r[j]) {
          assert FirstIndex(s[1..], t[i]) < FirstIndex(s[1..], t[j]);
        }
      } else {
        assert r == [s[0]] + t;
        forall i, j | 0 <= i < j < |r| ensures FirstIndex(s, r[i]) < FirstIndex(s, r[j]) {
          assert r[j] == t[j - 1];
          if i > 0 {
            assert r[i] == t[i - 1];
            assert FirstIndex(s[1..], t[i - 1]) < FirstIndex(s[1..], t[j - 1]);
          } else {
            assert r[i] == s[0];
          }
        }
      }
    }
  }

  /** The names of `s` in order of first appearance, each once. */
  function Dedup(s: seq<string>): seq<string>
  {
    DedupFrom(s, {})
  }

  /** Index of the first occurrence of `x` in `s`. */
  function FirstIndex(s: seq<string>, x: string): (k: nat)
    requires x in s
    ensures k < |s| && s[k] == x && x !in s[..k]
  {
    if s[0] == x then 0
    else
      var k := FirstIndex(s[1..], x) + 1;
      assert s[..k] == [s[0]] + s[1..][..k - 1];
      k
  }

  /** `Dedup(s)` holds every name of `s` exactly once, in order of first appearance. */
  lemma DedupSpec(s: seq<string>)
    ensures forall x :: x in Dedup(s) <==> x in s
    ensures forall i, j | 0 <= i < j < |Dedup(s)| :: Dedup(s)[i] != Dedup(s)[j]
    ensures forall i, j | 0 <= i < j < |Dedup(s)| :: FirstIndex(s, Dedup(s)[i]) < FirstIndex(s, Dedup(s)[j])
  {
    assert Dedup(s) == DedupFrom(s, {});
    DedupFromElems(s, {});
    DedupFromDistinct(s, {});
    DedupFromOrder(s, {});
  }

  /** Length of the longest name: `len(max(names, key=len))`. */
  function MaxLen(names: seq<string>): (n: nat)
    requires |names| > 0
    ensures forall i | 0 <= i < |names| :: |names[i]| <= n
    ensures exists i | 0 <= i < |names| :: |names[i]| == n
  {
    if |names| == 1 then |names[0]|
    else
      var n := MaxLen(names[1..]);
      assert forall i | 1 <= i < |names| :: names[i] == names[1..][i - 1];
      if |names[0]| >= n then |names[0]| else n
  }

  /** The padding width: two more than the longest field or story name. */
  function Width(fields: seq<string>, stories: seq<string>): (w: nat)
    requires |fields| > 0 && |stories| > 0
    ensures forall i | 0 <= i < |fields| :: |fields[i]| + 2 <= w
    ensures forall i | 0 <= i < |stories| :: |stories[i]| + 2 <= w
    ensures (exists i | 0 <= i < |fields| :: |fields[i]| + 2 == w)
         || (exists i | 0 <= i < |stories| :: |stories[i]| + 2 == w)
  {
    var a, b := MaxLen(fields), MaxLen(stories);
    (if a >= b then a else b) + 2
  }

  /** The text before a story's name on its form line. */
  const StoryPrefix := "Story | "

  /** One form line: `('%s:' % name).ljust(width)` for a field (empty
      `prefix`), `('Story | %s:' % name).ljust(width)` for a story. */
  function Line(prefix: string, name: string, width: int): string
  {
    LJust(prefix + name + ":", width)
  }

  function Lines(prefix: string, names: seq<string>, width: int): (r: seq<string>)
    ensures |r| == |names|
  {
    if names == [] then [] else [Line(prefix, names[0], width)] + Lines(prefix, names[1..], width)
  }

  /** The form `generate_form` writes, or the error `max` raises on an empty list. */
  function FormText(fields: seq<string>, stories: seq<string>): Result<seq<string>>
  {
    if |fields| == 0 || |stories| == 0 then Err(EmptyPlaceholderList)
    else
      var w := Width(fields, stories);
      Ok(Lines("", Dedup(fields), w) + Lines(StoryPrefix, Dedup(stories), w))
  }

  /** One step of the writing loop over `s[i..]`. */
  lemma LinesStep(prefix: string, s: seq<string>, i: nat, seen: set<string>, width: int)
    requires i < |s|
    ensures Lines(prefix, DedupFrom(s[i..], seen), width)
         == if s[i] in seen then Lines(prefix, DedupFrom(s[i + 1..], seen), width)
            else [Line(prefix, s[i], width)] + Lines(prefix, DedupFrom(s[i + 1..], seen + {s[i]}), width)
  {
    assert s[i..][0] == s[i] && s[i..][1..] == s[i + 1..];
  }

  /** One of the two loops of `generate_form`: each name not printed yet is
      written once and added to the printed set. */
  method WriteDistinct(prefix: string, names: seq<string>, width: int) returns (lines: seq<string>)
    ensures lines == Lines(prefix, Dedup(names), width)
  {
    lines := [];
    var printed: set<string> := {};
    assert names[0..] == names;
    for i := 0 to |names|
      invariant lines + Lines(prefix, DedupFrom(names[i..], printed), width) == Lines(prefix, Dedup(names), width)
    {
      LinesStep(prefix, names, i, printed, width);
      if names[i] !in printed {
        lines := lines + [Line(prefix, names[i], width)];
        printed := printed + {names[i]};
      }
    }
    assert DedupFrom(names[|names|..], printed) == [];
  }

  /** `generate_form`, returning the lines it writes: all fields, then all stories. */
  method GenerateForm(fields: seq<string>, stories: seq<string>) returns (r: Result<seq<string>>)
    ensures r == FormText(fields, stories)
  {
    if |fields| == 0 || |stories| == 0 {
      return Err(EmptyPlaceholderList);
    }
    var width := Width(fields, stories);
    var fieldLines := WriteDistinct("", fields, width);
    var storyLines := WriteDistinct(StoryPrefix, stories, width);
    r := Ok(fieldLines + storyLines);
  }

  lemma {:induction false} LinesAt(prefix: string, names: seq<string>, width: int, i: nat)
    requires i < |names|
    ensures Lines(prefix, names, width)[i] == Line(prefix, names[i], width)
    decreases i
  {
    if i > 0 {
      LinesAt(prefix, names[1..], width, i - 1);
    }
  }

  /** The layout of a written form: one line per distinct field, in order of
      first appearance, padded to exactly the width; then one line per
      distinct story, padded the same way but never cut short. */
  lemma FormLayout(fields: seq<string>, stories: seq<string>)
    requires |fields| > 0 && |stories| > 0
    ensures var w := Width(fields, stories);
      var lines := FormText(fields, stories).value;
      var fs, ss := Dedup(fields), Dedup(stories);
      && |lines| == |fs| + |ss|
      && (forall i | 0 <= i < |fs| ::
            && |lines[i]| == w && |fs[i]| + 2 <= w
            && lines[i][..|fs[i]| + 1] == fs[i] + ":"
            && (forall k | |fs[i]| + 1 <= k < w :: lines[i][k] == ' '))
      && (forall j | 0 <= j < |ss| ::
            var line := lines[|fs| + j];
            && |line| == (if w > |ss[j]| + 9 then w else |ss[j]| + 9)
            && line[..|ss[j]| + 9] == StoryPrefix + ss[j] + ":"
            && (forall k | |ss[j]| + 9 <= k < |line| :: line[k] == ' '))
  {
    var w := Width(fields, stories);
    var fs, ss := Dedup(fields), Dedup(stories);
    var lines := FormText(fields, stories).value;
    DedupSpec(fields);
    DedupSpec(stories);
    forall i | 0 <= i < |fs|
      ensures |lines[i]| == w && |fs[i]| + 2 <= w && lines[i][..|fs[i]| + 1] == fs[i] + ":"
      ensures forall k | |fs[i]| + 1 <= k < w :: lines[i][k] == ' '
    {
      LinesAt("", fs, w, i);
      assert fs[i] in fields;
      assert "" + fs[i] + ":" == fs[i] + ":";
    }
    forall j | 0 <= j < |ss|
      ensures var line := lines[|fs| + j];
        && |line| == (if w > |ss[j]| + 9 then w else |ss[j]| + 9)
        && line[..|ss[j]| + 9] == StoryPrefix + ss[j] + ":"
        && (forall k | |ss[j]| + 9 <= k < |line| :: line[k] == ' ')
    {
      LinesAt(StoryPrefix, ss, w, j);
    }
  }

  // ---------------------------------------------------------------------
  // Reading.

  /** The two dictionaries `get_form_info` returns. */
  datatype Form = Form(fields: map<string, string>, stories: map<string, string>)

  /** The marker that makes a line a story line. */
  const StoryMarker := "Story |"

  lemma MarkerHasBar(line: string)
    ensures Contains(line, StoryMarker) ==> '|' in line && Count(line, '|') >= 1
  {
    if Contains(line, StoryMarker) {
      ContainsChar(line, StoryMarker, 6);
      assert StoryMarker[6] == '|';
      assert '|' in multiset(line);
    }
  }

  /** One line of the form: a story line contributes the segment after
      its first `|`, any other line the whole line; either must split on
      `:` into exactly a name and a value, both stripped. */
  function ParseLine(line: string, form: Form): Result<Form>
  {
    if Contains(line, StoryMarker) then
      MarkerHasBar(line);
      var parts := Split(Strip(Split(line, '|')[1]), ':');
      if |parts| != 2 then Err(MalformedFormLine(line))
      else Ok(form.(stories := form.stories[Strip(parts[0]) := Strip(parts[1])]))
    else
      var parts := Split(line, ':');
      if |parts| != 2 then Err(MalformedFormLine(line))
      else Ok(form.(fields := form.fields[Strip(parts[0]) := Strip(parts[1])]))
  }

  function ParseFrom(lines: seq<string>, form: Form): Result<Form>
  {
    if lines == [] then Ok(form)
    else
      match ParseLine(lines[0], form)
      case Err(e) => Err(e)
      case Ok(form') => ParseFrom(lines[1..], form')
  }

  function ReadForm(lines: seq<string>): Result<Form>
  {
    ParseFrom(lines, Form(map[], map[]))
  }

  /** `get_form_info`, on the lines of the file. */
  method GetFormInfo(lines: seq<string>) returns (r: Result<Form>)
    ensures r == ReadForm(lines)
  {
    var fields: map<string, string> := map[];
    var stories: map<string, string> := map[];
    var i := 0;
    while i < |lines|
      invariant 0 <= i <= |lines|
      invariant ParseFrom(lines[i..], Form(fields, stories)) == ReadForm(lines)
    {
      var line := lines[i];
      assert lines[i..][0] == line && lines[i..][1..] == lines[i + 1..];
      if Contains(line, StoryMarker) {
        MarkerHasBar(line);
        var parts := Split(Strip(Split(line, '|')[1]), ':');
        if |parts| != 2 {
          return Err(MalformedFormLine(line));
        }
        stories := stories[Strip(parts[0]) := Strip(parts[1])];
      } else {
        var parts := Split(line, ':');
        if |parts| != 2 {
          return Err(MalformedFormLine(line));
        }
        fields := fields[Strip(parts[0]) := Strip(parts[1])];
      }
      i := i + 1;
    }
    r := Ok(Form(fields, stories));
  }

  /** Reading a line fails only with that line as the malformed one; a
      field line is read exactly when it has one colon; a story line
      touches only the stories and a field line only the fields, and
      neither forgets a name read before. */
  lemma ParseLineSpec(line: string, form: Form)
    ensures var r := ParseLine(line, form);
      && (r.Err? ==> r == Err(MalformedFormLine(line)))
      && (!Contains(line, StoryMarker) ==> (r.Ok? <==> Count(line, ':') == 1))
      && (r.Ok? && Contains(line, StoryMarker) ==>
            r.value.fields == form.fields && form.stories.Keys <= r.value.stories.Keys)
      && (r.Ok? && !Contains(line, StoryMarker) ==>
            r.value.stories == form.stories && form.fields.Keys <= r.value.fields.Keys)
  {
  }

  /** A line without the story marker is read at its one colon; any other
      number of colons is an error. */
  lemma ParseFieldLine(line: string, k: nat, form: Form)
    requires !Contains(line, StoryMarker)
    requires k < |line| && line[k] == ':' && ':' !in line[..k] && ':' !in line[k + 1..]
    ensures ParseLine(line, form)
         == Ok(form.(fields := form.fields[Strip(line[..k]) := Strip(line[k + 1..])]))
  {
    SplitOnce(line, ':', k);
  }

  lemma ParseLineErrors(line: string, form: Form)
    ensures !Contains(line, StoryMarker) && Count(line, ':') != 1 ==>
      ParseLine(line, form) == Err(MalformedFormLine(line))
    ensures Contains(line, StoryMarker) && Count(line, '|') >= 1 && Count(Strip(Split(line, '|')[1]), ':') != 1 ==>
      ParseLine(line, form) == Err(MalformedFormLine(line))
  {
  }

  /** Reading stops at the first bad line; otherwise each line updates the
      dictionaries the earlier ones left. */
  lemma {:induction false} ParseFromAppend(a: seq<string>, b: seq<string>, form: Form)
    ensures ParseFrom(a + b, form)
         == match ParseFrom(a, form)
            case Err(e) => Err(e)
            case Ok(form') => ParseFrom(b, form')
    decreases |a|
  {
    if a == [] {
      assert a + b == b;
    } else {
      assert (a + b)[0] == a[0] && (a + b)[1..] == a[1..] + b;
      match ParseLine(a[0], form)
      case Err(_) =>
      case Ok(form') => ParseFromAppend(a[1..], b, form');
    }
  }

  // ---------------------------------------------------------------------
  // Round trip.

  /** A name the form can carry: no `:` or `|`, no line break (which would
      split its line in the file), no surrounding whitespace. */
  predicate FormSafe(name: string)
  {
    && ':' !in name && '|' !in name && '\n' !in name && '\r' !in name
    && (name == [] || (!IsSpace(name[0]) && !IsSpace(name[|name| - 1])))
  }

  /** Each name mapped to the empty value, as a freshly written form reads. */
  function EmptyValues(names: seq<string>): map<string, string>
  {
    map n | n in names :: ""
  }

  lemma NoBarNoMarker(line: string)
    requires '|' !in line
    ensures !Contains(line, StoryMarker)
  {
    MarkerHasBar(line);
  }

  lemma LJustPads(s: string, width: int)
    ensures LJust(s, width) == s + Spaces(if width > |s| then width - |s| else 0)
  {
    if width <= |s| {
      assert s + Spaces(0) == s;
    }
  }

  lemma SplitPadded(name: string, n: nat)
    requires ':' !in name
    ensures Split(name + [':'] + Spaces(n), ':') == [name, Spaces(n)]
  {
    SpacesAvoid(n, ':');
    SplitPair(name, ':', Spaces(n));
  }

  lemma StripSpaces(n: nat)
    ensures Strip(Spaces(n)) == []
  {
    StripPadded([], n);
    assert [] + Spaces(n) == Spaces(n);
  }

  /** How the built-ins take a written field line apart. */
  lemma FieldLineParts(name: string, n: nat)
    requires FormSafe(name)
    ensures Split(name + [':'] + Spaces(n), ':') == [name, Spaces(n)]
    ensures Strip(name) == name && Strip(Spaces(n)) == []
  {
    SplitPadded(name, n);
    StripClean(name);
    StripSpaces(n);
  }

  lemma StoryPrefixAtBar(name: string, n: nat)
    ensures StoryPrefix + name + ":" + Spaces(n) == "Story " + ['|'] + (" " + name + ":" + Spaces(n))
  {
    assert StoryPrefix == "Story " + ['|'] + " ";
  }

  lemma NoBarInSegment(name: string, n: nat)
    requires '|' !in name
    ensures '|' !in " " + name + ":" + Spaces(n)
  {
  }

  lemma SplitStoryLine(name: string, n: nat)
    requires '|' !in name
    ensures Split(StoryPrefix + name + ":" + Spaces(n), '|') == ["Story ", " " + name + ":" + Spaces(n)]
  {
    var seg := " " + name + ":" + Spaces(n);
    StoryPrefixAtBar(name, n);
    NoBarInSegment(name, n);
    assert '|' !in "Story ";
    SplitPair("Story ", '|', seg);
  }

  lemma StorySegmentShape(name: string, n: nat)
    ensures " " + name + ":" + Spaces(n) == [' '] + ((name + [':']) + Spaces(n))
  {
  }

  lemma TrimStartSpace(x: string)
    ensures TrimStart([' '] + x) == TrimStart(x)
  {
    assert ([' '] + x)[1..] == x;
  }

  lemma StripStorySegment(name: string, n: nat)
    requires name == [] || !IsSpace(name[0])
    ensures Strip(" " + name + ":" + Spaces(n)) == name + ":"
  {
    var core := name + [':'];
    assert !IsSpace(core[0]) && !IsSpace(core[|core| - 1]);
    StorySegmentShape(name, n);
    TrimStartSpace(core + Spaces(n));
    StripPadded(core, n);
    assert core == name + ":";
  }

  lemma SplitNameColon(name: string)
    requires ':' !in name
    ensures Split(name + ":", ':') == [name, []]
  {
    assert name + ":" == name + [':'] + [];
    SplitAt(name, ':', []);
    SplitNone([], ':');
  }

  /** How the built-ins take a written story line apart. */
  lemma StoryLineParts(name: string, n: nat)
    requires FormSafe(name)
    ensures Split(StoryPrefix + name + ":" + Spaces(n), '|') == ["Story ", " " + name + ":" + Spaces(n)]
    ensures Strip(" " + name + ":" + Spaces(n)) == name + ":"
    ensures Split(name + ":", ':') == [name, []]
    ensures Strip(name) == name && Strip([]) == []
  {
    SplitStoryLine(name, n);
    StripStorySegment(name, n);
    SplitNameColon(name);
    StripClean(name);
  }

  /** A line without the marker that splits into a name and a value. */
  lemma ParseFieldParts(line: string, name: string, value: string, form: Form)
    requires !Contains(line, StoryMarker) && Split(line, ':') == [name, value]
    ensures ParseLine(line, form) == Ok(form.(fields := form.fields[Strip(name) := Strip(value)]))
  {
  }

  /** A line with the marker whose segment after the first `|` splits into
      a name and a value. */
  lemma ParseStoryParts(line: string, head: string, seg: string, name: string, value: string, form: Form)
    requires Contains(line, StoryMarker) && Split(line, '|') == [head, seg]
    requires Split(Strip(seg), ':') == [name, value]
    ensures ParseLine(line, form) == Ok(form.(stories := form.stories[Strip(name) := Strip(value)]))
  {
    MarkerHasBar(line);
  }

  lemma FieldLineText(name: string, width: int)
    ensures Line("", name, width) == name + [':'] + Spaces(if width > |name| + 1 then width - |name| - 1 else 0)
  {
    var text := "" + name + ":";
    assert text == name + [':'];
    LJustPads(text, width);
  }

  lemma StoryLineText(name: string, width: int)
    ensures var n := |StoryPrefix + name + ":"|;
      Line(StoryPrefix, name, width) == StoryPrefix + name + ":" + Spaces(if width > n then width - n else 0)
  {
    LJustPads(StoryPrefix + name + ":", width);
  }

  lemma FieldLineNoMarker(name: string, n: nat)
    requires '|' !in name
    ensures !Contains(name + [':'] + Spaces(n), StoryMarker)
  {
    assert '|' !in name + [':'] + Spaces(n);
    NoBarNoMarker(name + [':'] + Spaces(n));
  }

  lemma StoryLineMarker(name: string, n: nat)
    ensures Contains(StoryPrefix + name + ":" + Spaces(n), StoryMarker)
  {
    var line := StoryPrefix + name + ":" + Spaces(n);
    assert line[..|StoryMarker|] == StoryMarker;
  }

  lemma ReadFieldLine(name: string, width: int, form: Form)
    requires FormSafe(name)
    ensures ParseLine(Line("", name, width), form) == Ok(form.(fields := form.fields[name := ""]))
  {
    var n := if width > |name| + 1 then width - |name| - 1 else 0;
    FieldLineText(name, width);
    FieldLineNoMarker(name, n);
    FieldLineParts(name, n);
    ParseFieldParts(name + [':'] + Spaces(n), name, Spaces(n), form);
  }

  lemma ReadStoryLine(name: string, width: int, form: Form)
    requires FormSafe(name)
    ensures ParseLine(Line(StoryPrefix, name, width), form) == Ok(form.(stories := form.stories[name := ""]))
  {
    var k := |StoryPrefix + name + ":"|;
    var n := if width > k then width - k else 0;
    StoryLineText(name, width);
    StoryLineMarker(name, n);
    StoryLineParts(name, n);
    ParseStoryParts(StoryPrefix + name + ":" + Spaces(n), "Story ", " " + name + ":" + Spaces(n), name, [], form);
  }

  lemma EmptyValuesCons(m: map<string, string>, names: seq<string>)
    requires names != []
    ensures m[names[0] := ""] + EmptyValues(names[1..]) == m + EmptyValues(names)
  {
    assert forall x :: x in names <==> x == names[0] || x in names[1..];
  }

  /** Reading a line that parses, followed by more lines. */
  lemma ParseFromCons(lines: seq<string>, form: Form, form': Form)
    requires lines != [] && ParseLine(lines[0], form) == Ok(form')
    ensures ParseFrom(lines, form) == ParseFrom(lines[1..], form')
  {
  }

  lemma ParseFromOne(line: string, form: Form, form': Form)
    requires ParseLine(line, form) == Ok(form')
    ensures ParseFrom([line], form) == Ok(form')
  {
    assert [line][0] == line && [line][1..] == [];
    ParseFromCons([line], form, form');
  }

  lemma ParseFromTwo(l1: string, l2: string, form: Form, form1: Form)
    requires ParseLine(l1, form) == Ok(form1)
    ensures ParseFrom([l1, l2], form) == ParseFrom([l2], form1)
  {
    assert [l1, l2][0] == l1 && [l1, l2][1..] == [l2];
    ParseFromCons([l1, l2], form, form1);
  }

  lemma ParseTwoLines(l1: string, l2: string, form: Form, form1: Form, form2: Form)
    requires ParseLine(l1, form) == Ok(form1) && ParseLine(l2, form1) == Ok(form2)
    ensures ParseFrom([l1, l2], form) == Ok(form2)
  {
    ParseFromTwo(l1, l2, form, form1);
    ParseFromOne(l2, form1, form2);
  }

  lemma Overwrite(m: map<string, string>, k: string, a: string, b: string)
    ensures m[k := a][k := b] == m[k := b]
  {
  }

  /** A later line for the same field overwrites the value of an earlier one. */
  lemma LaterFieldWins(l1: string, l2: string, n1: string, v1: string, n2: string, v2: string, form: Form)
    requires !Contains(l1, StoryMarker) && Split(l1, ':') == [n1, v1]
    requires !Contains(l2, StoryMarker) && Split(l2, ':') == [n2, v2]
    requires Strip(n1) == Strip(n2)
    ensures ParseFrom([l1, l2], form) == Ok(form.(fields := form.fields[Strip(n2) := Strip(v2)]))
  {
    var key := Strip(n2);
    var form1 := form.(fields := form.fields[key := Strip(v1)]);
    var form2 := form.(fields := form.fields[key := Strip(v2)]);
    ParseFieldParts(l1, n1, v1, form);
    ParseFieldParts(l2, n2, v2, form1);
    Overwrite(form.fields, key, Strip(v1), Strip(v2));
    ParseTwoLines(l1, l2, form, form1, form2);
  }

  lemma {:induction false} ReadFieldLines(names: seq<string>, width: int, form: Form)
    requires forall i | 0 <= i < |names| :: FormSafe(names[i])
    ensures ParseFrom(Lines("", names, width), form)
         == Ok(form.(fields := form.fields + EmptyValues(names)))
    decreases |names|
  {
    if names == [] {
      assert form.fields + EmptyValues(names) == form.fields;
    } else {
      var lines := Lines("", names, width);
      ReadFieldLine(names[0], width, form);
      var form' := form.(fields := form.fields[names[0] := ""]);
      ParseFromCons(lines, form, form');
      assert lines[1..] == Lines("", names[1..], width);
      ReadFieldLines(names[1..], width, form');
      EmptyValuesCons(form.fields, names);
    }
  }

  lemma {:induction false} ReadStoryLines(names: seq<string>, width: int, form: Form)
    requires forall i | 0 <= i < |names| :: FormSafe(names[i])
    ensures ParseFrom(Lines(StoryPrefix, names, width), form)
         == Ok(form.(stories := form.stories + EmptyValues(names)))
    decreases |names|
  {
    if names == [] {
      assert form.stories + EmptyValues(names) == form.stories;
    } else {
      var lines := Lines(StoryPrefix, names, width);
      ReadStoryLine(names[0], width, form);
      var form' := form.(stories := form.stories[names[0] := ""]);
      ParseFromCons(lines, form, form');
      assert lines[1..] == Lines(StoryPrefix, names[1..], width);
      ReadStoryLines(names[1..], width, form');
      EmptyValuesCons(form.stories, names);
    }
  }

  /** Dropping repeats keeps the names safe and the set of names the same. */
  lemma DedupSafe(names: seq<string>)
    requires forall i | 0 <= i < |names| :: FormSafe(names[i])
    ensures forall i | 0 <= i < |Dedup(names)| :: FormSafe(Dedup(names)[i])
    ensures EmptyValues(Dedup(names)) == EmptyValues(names)
  {
    var d := Dedup(names);
    DedupSpec(names);
    forall i | 0 <= i < |d| ensures FormSafe(d[i]) {
      assert d[i] in names;
    }
  }

  lemma UnionEmpty(m: map<string, string>)
    ensures map[] + m == m
  {
  }

  lemma FormTextLines(fields: seq<string>, stories: seq<string>)
    requires |fields| > 0 && |stories| > 0
    ensures FormText(fields, stories)
         == Ok(Lines("", Dedup(fields), Width(fields, stories)) + Lines(StoryPrefix, Dedup(stories), Width(fields, stories)))
  {
  }

  /** Reading a freshly written form gives back exactly its field and story
      names, each with an empty value. */
  lemma FormRoundTrip(fields: seq<string>, stories: seq<string>)
    requires |fields| > 0 && |stories| > 0
    requires forall i | 0 <= i < |fields| :: FormSafe(fields[i])
    requires forall i | 0 <= i < |stories| :: FormSafe(stories[i])
    ensures ReadForm(FormText(fields, stories).value) == Ok(Form(EmptyValues(fields), EmptyValues(stories)))
  {
    var w := Width(fields, stories);
    var fs, ss := Dedup(fields), Dedup(stories);
    FormTextLines(fields, stories);
    DedupSafe(fields);
    DedupSafe(stories);
    var empty := Form(map[], map[]);
    ParseFromAppend(Lines("", fs, w), Lines(StoryPrefix, ss, w), empty);
    ReadFieldLines(fs, w, empty);
    UnionEmpty(EmptyValues(fs));
    var mid := Form(EmptyValues(fs), map[]);
    ReadStoryLines(ss, w, mid);
    UnionEmpty(EmptyValues(ss));
  }
}
