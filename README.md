# templater.py in Dafny

This is a model of the cover-letter templater in `templater.py`, with proofs about it.

A template is a sequence of paragraphs. In a paragraph, `{name}` marks a *field* and `[name]` marks a *story*. The program does four things:

- It scans the template for the placeholder names.
- It writes a *form*: one padded line per distinct field, then one line `Story | name:` per distinct story.
- It reads a filled-in form back into two dictionaries.
- It fills the template. Each story identifier is replaced by the story's text from a story repository. Then every paragraph is substituted, stories first and fields second.

The model has one Dafny module per part of the program:

| module | file | models |
|---|---|---|
| `Common` | common.dfy | the `Error` values standing for the exceptions the program raises; `Result`, `Option` |
| `Text` | text.dfy | the Python `str` operations the program relies on: `find`, `in`, `replace`, `split`, `strip`, `ljust` |
| `Scanner` | scanner.dfy | `get_template_fillables` |
| `Substitution` | substitution.dfy | `replace_fillables` |
| `FormCodec` | form.dfy | `generate_form` (writer), `get_form_info` (reader) and the round trip between them |
| `Filler` | filler.dfy | `retreive_story` and `fill_template` |

The program's loops are Dafny methods with loop invariants:

- `GetTemplateFillables`
- `ReplaceFillables`
- `WriteDistinct`, once for the fields and once for the stories
- `GetFormInfo`
- `ResolveStories`
- `FillParagraphs`

`GenerateForm` and `FillTemplate` call those loops: `GenerateForm` calls `WriteDistinct`, and `FillTemplate` calls `GetFormInfo`, `ResolveStories` and `FillParagraphs`. `FillOne` and `FillAt` are the bodies of the paragraph loop.

Each method's `ensures` ties its result, or the new contents of the paragraph array, to a specification function:

- `Scan`
- `Substitute`
- `FormText`
- `ReadForm`
- `Resolved`
- `FillAll`

The lemmas beside those functions state what the program promises.

Some external parts become plain Dafny values:

- **Documents.** A document is the sequence of its paragraphs' texts. The template being filled is an `array<string>`, whose paragraphs are assigned in place.
- **Form files.** A form file is a sequence of lines, each without its line terminator. The program strips every part it keeps, so the terminator never reaches a result.
- **Story files.** The directory of story files is a map from story identifier to story text, so `retreive_story` becomes a map lookup. A missing key stands for a file that cannot be opened.

Two points of the scanner's behaviour are easy to miss:

- **Unterminated tags.** A placeholder opened and never closed in a paragraph is silently dropped. The scanner resets at each paragraph and reports nothing, and the model does the same (`Scanner.ExampleDanglingTag`).
- **Mixed brackets.** Which list a name goes to is decided by its closer alone, so `{a]` yields the story `a` (`Scanner.ExampleMixedKinds`).

## Model

| member | source | states |
|---|---|---|
| Scanner.GetTemplateFillables | templater.py:19-44 | The nested paragraph/character loop returns what the specification `Scan` gives: the fields and the stories in source order with repeats, or the first unexpected bracket as an error. |
| Scanner.ScanText | templater.py:28-43 | The machine over one paragraph fails only with an `UnexpectedBracket` holding a bracket of that paragraph. On success it keeps the names collected before as prefixes of both lists. |
| Scanner.ScanTextOkIff | templater.py:28-43 | The machine over one paragraph succeeds if and only if openers and closers alternate, starting from the current tagging state. A failure always names a bracket character. |
| Scanner.ScanOkIff | templater.py:24-43 | Scanning a whole template succeeds if and only if every paragraph, scanned from a reset state, is well tagged. Otherwise the error is an `UnexpectedBracket` holding a bracket. |
| Scanner.ScanTextYield | templater.py:34-43 | On success, each `}` adds exactly one field and each `]` exactly one story. Earlier names are kept as a prefix. No recorded name contains a bracket. |
| Scanner.ScanYield | templater.py:19-44 | Over a whole template, the number of fields equals the number of `}` and the number of stories equals the number of `]`. All names are bracket-free. |
| Scanner.ScanPlain | templater.py:42-43 | Text without brackets leaves the machine's state unchanged, or extends the pending name while tagging. |
| Scanner.ScanTag | templater.py:29-41 | An opener, a bracket-free name and a closer record exactly that name in the list its closer selects, and leave the machine not tagging. |
| Scanner.ScanStray | templater.py:29-36 | A closer while not tagging, or an opener while tagging, raises `UnexpectedBracket` with that character. |
| Scanner.ScanAppend | templater.py:24-26 | Scanning concatenated paragraph lists is scanning the first and continuing from its result. One failure stops the scan. |
| Scanner.ScanFieldThenStory | templater.py:19-44 | A paragraph with `{n1}` then `[n2]` among plain text yields exactly the field `n1` and the story `n2`. |
| Scanner.ExampleCoverLetter | templater.py:19-44 | "Dear {Recipient}, re: [intro]" yields the field list ["Recipient"] and the story list ["intro"]. |
| Scanner.ExampleDanglingTag | templater.py:24-43 | An unclosed `{Name` at the end of a paragraph is dropped without error. A closer in the next paragraph is then unexpected, because the state resets per paragraph. |
| Scanner.ExampleMixedKinds | templater.py:29-40 | `{a]` records `a` as a story: the closer decides the list. |
| Substitution.ReplaceFillables | templater.py:85-96 | The find/replace loop returns what the specification `Substitute` gives, errors included. |
| Substitution.PassShrinks | templater.py:90-92 | One round of the loop, with opener-free values, strictly lowers the number of openers, so the loop ends. |
| Substitution.SubstituteStep | templater.py:87-92 | When the loop goes round, the result is that of substituting the replaced text, which has fewer openers. |
| Substitution.SubstituteStops | templater.py:94-96 | When the loop does not go round, a successful result is the text itself, and it holds neither bracket. |
| Substitution.SubstituteClean | templater.py:87-96 | A successful substitution leaves neither the selected opener nor the selected closer in the text. |
| Substitution.SubstituteUntouched | templater.py:86-87 | Text without the selected brackets is returned unchanged. |
| Substitution.SubstituteIdempotent | templater.py:85-96 | Substituting the result again with the same mapping gives the same result. |
| Substitution.SubstituteErrors | templater.py:86-95 | A closer before the first opener raises `CloserBeforeOpener`. Exactly one kind of bracket present raises `UnbalancedBrackets`. An unknown name between the first opener and the first closer raises `MissingFillable` with that name. |
| Substitution.SubstituteHalts | templater.py:87-95 | When the loop stops after its last round, what it raises is one of its three errors, and a missing name is one the mapping lacks. |
| Substitution.SubstituteErrorKinds | templater.py:87-95 | The loop raises nothing but its three errors. A missing name is one the mapping lacks (the `KeyError` of line 91). |
| Substitution.TokenFirst | templater.py:86-91 | A token preceded by bracket-free text is the one the loop picks, and the whole round replaces every copy of it. |
| Substitution.SubstituteStrayCloser | templater.py:91-95 | A value that is a lone closer leaves a stray bracket, which is reported as unbalanced. |
| Substitution.SubstituteSingle | templater.py:90-91 | When no mapped value holds the selected opener or closer, one placeholder with a closer-free name, in text free of the selected brackets, becomes its mapped value, with the text around it kept. |
| Substitution.SubstituteRepeated | templater.py:91 | Both copies of a repeated placeholder are replaced in a single round (global replace). |
| Substitution.SubstituteKeepsAbsent | templater.py:91 | A character that neither the text nor any value contains is absent from the result. |
| Substitution.ExampleGlobalReplace | templater.py:85-96 | "{x} and {x}" with x mapped to "A" becomes "A and A". |
| Substitution.ExampleCloserFirst | templater.py:88-89 | "} {x}" raises `CloserBeforeOpener`. |
| FormCodec.DedupSpec | templater.py:55-62 | The names written once each keep exactly the names of the scanned list. They are distinct. They appear in the order of their first occurrence. |
| FormCodec.MaxLen | templater.py:52 | The result is the length of a longest name: no name is longer, and some name has that length. |
| FormCodec.Width | templater.py:52 | The padding width is two more than the longest name across both lists, and is attained by one of them. |
| FormCodec.WriteDistinct | templater.py:55-62 | The loop with its printed set writes one padded line per distinct name, in first-occurrence order. |
| FormCodec.GenerateForm | templater.py:46-62 | The writer produces `FormText`: field lines then story lines, or `EmptyPlaceholderList` when either list is empty (`max` of an empty list raises). |
| FormCodec.FormLayout | templater.py:52-62 | Line count and shape of each line. Each field line has exactly the width, starts with `name:` and is padded with spaces. Each story line starts with `Story | name:`, is padded to the width and is never truncated. |
| FormCodec.ParseLineSpec | templater.py:70-75 | `ParseLine` fails only with `MalformedFormLine` of that line. A line without the marker is read exactly when it has one colon. A story line changes only the stories and a field line only the fields, and neither drops a name read before. |
| FormCodec.GetFormInfo | templater.py:65-76 | The reading loop returns `ReadForm`: both dictionaries, or the first malformed line as an error. |
| FormCodec.MarkerHasBar | templater.py:70-71 | A line holding the story marker has a `|`, so the `[1]` index cannot fail. |
| FormCodec.ParseFieldLine | templater.py:73-75 | A non-story line with exactly one colon sets the stripped name to the stripped value among the fields. |
| FormCodec.ParseLineErrors | templater.py:71-74 | A line whose relevant part does not split on `:` into exactly two pieces raises `MalformedFormLine`. Field lines and story lines are both covered. |
| FormCodec.ParseFieldParts | templater.py:74-75 | A field line splitting into a name and a value updates only the fields, stripped. |
| FormCodec.ParseStoryParts | templater.py:70-72 | A story line whose segment after the bar splits into a name and a value updates only the stories, stripped. |
| FormCodec.ParseFromAppend | templater.py:69-75 | Reading concatenated lines is reading the first part and continuing from its dictionaries. |
| FormCodec.LaterFieldWins | templater.py:74-75 | Two field lines with the same stripped name keep the later value. |
| FormCodec.ReadFieldLine | templater.py:74-75 | For a name free of `:`, `|`, line breaks and outer whitespace, a field line as written reads back as that name with an empty value. |
| FormCodec.ReadStoryLine | templater.py:70-72 | For a name free of `:`, `|`, line breaks and outer whitespace, a story line as written reads back as that name with an empty value. |
| FormCodec.ReadFieldLines | templater.py:69-75 | When every name is free of `:`, `|`, line breaks and outer whitespace, all field lines as written read back as their names, each with an empty value. |
| FormCodec.ReadStoryLines | templater.py:69-72 | When every name is free of `:`, `|`, line breaks and outer whitespace, all story lines as written read back as their names, each with an empty value. |
| FormCodec.FormRoundTrip | templater.py:46-76 | A freshly written form reads back as every field and every story mapped to the empty value. This holds for non-empty lists of names free of `:`, `|`, line breaks and outer whitespace. |
| Filler.Resolved | templater.py:101-102 | Resolving keeps exactly the story names. The resolved values are free of `[` when every story the form names is; only those stories need to be. |
| Filler.ResolvedIgnoresOthers | templater.py:101-102 | Two repositories that agree on the stories the form names resolve to the same dictionary: stories the form does not name play no part. |
| Filler.ResolveStories | templater.py:101-102 | The loop over the story dictionary, each lookup being `retreive_story` (templater.py:78-83), succeeds if and only if every referenced identifier is in the repository, and then yields `Resolved`: every story name mapped to the text of its identifier. Otherwise it stops with `StoryNotFound` for a referenced identifier that the repository lacks. |
| Filler.FillOne | templater.py:107-108 | Stories are substituted first, then fields, into one paragraph. The first error is returned. |
| Filler.FillAt | templater.py:106-110 | One paragraph: the array changes at most at that index, to the filled text, and the failure is reported when filling fails. |
| Filler.FillParagraphs | templater.py:106-110 | The paragraph loop leaves the array as `FillAll` of the old paragraphs, and reports the same failure. |
| Filler.FillTemplate | templater.py:99-110 | A form error, or a story missing from the repository, leaves the template untouched and is returned. Otherwise the paragraphs become `FillAll` with the resolved stories and the form's fields. |
| Filler.FillParagraphUntouched | templater.py:107-110 | A paragraph without brackets is kept as it is. |
| Filler.FillParagraphErrors | templater.py:107-108 | `FillParagraph` raises only the substitution loop's three errors. A missing name is one the stories or the fields lack. |
| Filler.FillParagraphClean | templater.py:107-108 | A filled paragraph holds no `{` or `}`. When no field value has square brackets, it holds no `[` or `]` either. |
| Filler.FillOneField | templater.py:108 | When no field value holds `{` or `}` and no story text holds `[`, one field placeholder with a name free of `[`, `]` and `}`, among bracket-free text, becomes its value. |
| Filler.FillOneStory | templater.py:107 | When no story text holds `[` or `]`, no field value holds `{`, and the named story holds no curly bracket, a lone story placeholder becomes that story's text. A story text with curly brackets is filled further by the field pass of line 108. |
| Filler.CollectSpec | templater.py:106-110 | Keeps the number of paragraphs. Reports no failure if and only if every paragraph fills. Then every paragraph is its filled text. |
| Filler.FillAllSpec | templater.py:106-110 | The same as `CollectSpec`, stated with the per-paragraph fill. |
| Filler.CollectFailure | templater.py:106-110 | A reported failure is the result of the first failing paragraph. |
| Filler.FillAllFailure | templater.py:106-110 | On failure at paragraph k: the paragraphs before k are filled, paragraph k and those after it are unchanged, and the error is k's. |
| Text.Find | templater.py:86 | `str.find` of one character is the index of its first occurrence, or -1 if and only if it is absent. |
| Text.ContainsIff | templater.py:70 | The `in` test on strings holds if and only if the pattern occurs at some index. |
| Text.Split | templater.py:74 | `str.split` gives one more piece than there are separators, and no piece holds the separator. |
| Text.SplitJoin | templater.py:74 | Joining the pieces with the separator gives back the original text. |
| Text.SplitOnce | templater.py:74 | Text with exactly one separator splits into the parts before and after it. |
| Text.SplitPair | templater.py:71 | Two separator-free parts joined by the separator split back into those parts. |
| Text.Strip | templater.py:75 | `strip` returns the part of the text between its leading and trailing whitespace. That part neither starts nor ends with whitespace. |
| Text.TrimStart | templater.py:75 | Stripping on the left removes a whitespace-only prefix, and what remains does not start with whitespace. |
| Text.TrimEnd | templater.py:75 | Stripping on the right removes a whitespace-only suffix, and what remains does not end with whitespace. |
| Text.StripClean | templater.py:75 | `strip` leaves text without outer whitespace unchanged. |
| Text.StripPadded | templater.py:75 | `strip` removes trailing spaces added by padding. |
| Text.LJust | templater.py:57 | `ljust` keeps the text as a prefix and pads with spaces up to the width, never truncating. |
| Text.SpacesAvoid | templater.py:61 | Padding adds no character other than a space. |
| Text.ReplaceAllAbsent | templater.py:91 | `replace` of a pattern that does not occur changes nothing. |
| Text.ReplaceAllCountLt | templater.py:91 | Replacing a token that starts at the first opener, with text free of openers, strictly lowers the number of openers. |
| Text.ReplaceAllKeepsAbsent | templater.py:91 | `replace` introduces no character that neither the text nor the replacement has. |
| Text.ReplaceAllSingle | templater.py:91 | One occurrence is replaced and the rest kept, when the text before and after it lacks the pattern's first character. |
| Text.ReplaceAllTwice | templater.py:91 | Two occurrences of a pattern, around text that lacks the pattern's first character, are both replaced, scanning left to right. |

## Left out

- **Word documents.** Reading them with python-docx (`read_file`, templater.py:6-17), their styling and saving the filled letter (templater.py:112) are file I/O. A document is modelled as its paragraphs' texts.
- **Layout side effects.** Assigning `paragraph.text` also replaces the paragraph's runs and their formatting. Only the text is modelled, and the `paragraph.text != text` guard is kept.
- **File locations.** Opening `forms/<company>.form`, `stories/<name>` and the template file is I/O. The form is a sequence of lines and the story directory is a map.
- **Messages.** The `print('form generated')` at templater.py:63 and the exception messages are left out. An exception is an `Error` value naming its kind (and the offending bracket, name, line or identifier), not its text.
- **Interactive prompts.** The `__main__` block (templater.py:115-130) is left out. It asks with `input()` for a company name and an action. Typing `form` makes a form. Before overwriting an existing form it asks for confirmation. It can also copy an existing company's form line by line. Anything else fills a letter. All of this is console interaction and file copying.
- FormCodec.GenerateForm: a name holding a line break is one line in the model. Python's `print` writes it as two physical lines, and reading them splits it. `FormCodec.FormRoundTrip` therefore excludes such names, and the model does not describe how the program misreads them.
- **Scanner input.** `FormCodec.GenerateForm` takes the two lists the scanner returns rather than a template file name. When the scanner raises, `generate_form` raises the same error before writing anything.
- **Length ties.** `Width` uses the length of a longest name. Python's `max(..., key=len)` picks the first longest name, but only its length is used.
- Substitution.ReplaceFillables: requires that no mapped value contains the opener being substituted. With such a value the source's loop can re-create a token and need not terminate, so the model does not cover those inputs.
- Substitution.Substitute: needs the same opener-free requirement, for the same reason. The number of openers is its termination measure.
- Filler.FillTemplate: requires that every story the form names, when the repository has it, contains no `[`. Also requires that form field values contain no `{`. Both are the opener-free requirement of the two substitutions. Stories the form does not name are not constrained.
- Filler.FillParagraphs: has the same opener-free requirement on both mappings.
- Filler.FillOne: has the same opener-free requirement on both mappings, so mappings that the source fills in several rounds (a field value that is itself a field token) are not covered.
- Filler.FillAt: has the same opener-free requirement on both mappings, for the same reason.
- Filler.ResolveStories: picks the dictionary keys in an unspecified order, where Python uses insertion order. When several identifiers are missing, the model only promises that the reported one is one of them, not that it is the first by insertion.
- **Story files.** Any failure to open a story file is modelled as the key being absent from the repository. That includes the empty identifier of an unfilled form, which opens a directory.
- **Whitespace.** `Text.IsSpace` is the set of characters Python's `str.isspace` accepts. Unicode normalisation and encodings are not modelled: strings are sequences of characters.
