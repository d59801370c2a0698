/** The Python string built-ins the template engine relies on, on `seq<char>`:
    `str.find` for one character, `str.replace`, `str.split`, `str.strip`,
    `str.ljust` and the substring test `in`. */
module Text {

  /** Number of occurrences of `c` in `s`. */
  function Count(s: string, c: char): nat
  {
    multiset(s)[c]
  }

  /** `s.find(c)`: the index of the first `c`, or -1 when there is none. */
  function Find(s: string, c: char): (r: int)
    ensures -1 <= r < |s|
    ensures r == -1 <==> c !in s
    ensures r >= 0 ==> s[r] == c && c !in s[..r]
  {
    if |s| == 0 then -1
    else if s[0] == c then 0
    else
      var k := Find(s[1..], c);
      if k == -1 then -1
      else
        assert s[..k + 1] == [s[0]] + s[1..][..k];
        k + 1
  }

  /** `pat` occurs in `s` at index `i`. */
  predicate OccursAt(s: string, pat: string, i: int)
  {
    0 <= i && i + |pat| <= |s| && s[i..i + |pat|] == pat
  }

  /** `pat in s`. */
  predicate Contains(s: string, pat: string)
    decreases |s|
  {
    |pat| <= |s| && (s[..|pat|] == pat || Contains(s[1..], pat))
  }

  /** An occurrence in `s[1..]` is an occurrence in `s` one index further on. */
  lemma OccursShift(s: string, pat: string, i: nat)
    requires |s| > 0
    ensures OccursAt(s[1..], pat, i) <==> OccursAt(s, pat, i + 1)
  {
    if i + 1 + |pat| <= |s| {
      assert s[1..][i..i + |pat|] == s[i + 1..i + 1 + |pat|];
    }
  }

  /** `Contains` holds exactly when `pat` occurs at some index. */
  lemma {:induction false} ContainsIff(s: string, pat: string)
    ensures Contains(s, pat) <==> exists i | 0 <= i <= |s| - |pat| :: OccursAt(s, pat, i)
    decreases |s|
  {
    if |pat| <= |s| {
      if s[..|pat|] == pat {
        assert OccursAt(s, pat, 0);
      } else {
        ContainsIff(s[1..], pat);
        if Contains(s[1..], pat) {
          var i :| 0 <= i <= |s| - 1 - |pat| && OccursAt(s[1..], pat, i);
          OccursShift(s, pat, i);
        }
        if exists i | 0 <= i <= |s| - |pat| :: OccursAt(s, pat, i) {
          var i :| 0 <= i <= |s| - |pat| && OccursAt(s, pat, i);
          assert s[0..|pat|] == s[..|pat|];
          assert i > 0;
          OccursShift(s, pat, i - 1);
        }
      }
    }
  }

  /** Every character of a contained pattern occurs in the string. */
  lemma {:induction false} ContainsChar(s: string, pat: string, k: nat)
    requires Contains(s, pat) && k < |pat|
    ensures pat[k] in s
    decreases |s|
  {
    if s[..|pat|] == pat {
      assert s[k] == pat[k];
    } else {
      ContainsChar(s[1..], pat, k);
    }
  }

  /** `s.replace(pat, rep)` for a non-empty `pat`: every non-overlapping
      occurrence, scanned from the left, is replaced. */
  function ReplaceAll(s: string, pat: string, rep: string): string
    requires |pat| > 0
    decreases |s|
  {
    if |s| < |pat| then s
    else if s[..|pat|] == pat then rep + ReplaceAll(s[|pat|..], pat, rep)
    else [s[0]] + ReplaceAll(s[1..], pat, rep)
  }

  /** Characters Python's `str.isspace` accepts. */
  predicate IsSpace(c: char)
  {
    || '\t' <= c <= '\r'
    || '\U{1C}' <= c <= '\U{20}'
    || c == '\U{85}' || c == '\U{A0}' || c == '\U{1680}'
    || '\U{2000}' <= c <= '\U{200A}'
    || c == '\U{2028}' || c == '\U{2029}' || c == '\U{202F}' || c == '\U{205F}' || c == '\U{3000}'
  }

  /** `s.lstrip()`: drops the leading whitespace and nothing else. */
  function TrimStart(s: string): (r: string)
    ensures |r| <= |s| && r == s[|s| - |r|..]
    ensures forall i | 0 <= i < |s| - |r| :: IsSpace(s[i])
    ensures r == [] || !IsSpace(r[0])
  {
    if s != [] && IsSpace(s[0]) then TrimStart(s[1..]) else s
  }

  /** `s.rstrip()`: drops the trailing whitespace and nothing else. */
  function TrimEnd(s: string): (r: string)
    ensures |r| <= |s| && r == s[..|r|]
    ensures forall i | |r| <= i < |s| :: IsSpace(s[i])
    ensures r == [] || !IsSpace(r[|r| - 1])
  {
    if s != [] && IsSpace(s[|s| - 1]) then TrimEnd(s[..|s| - 1]) else s
  }

  /** `s.strip()`: the part of `s` between its leading and its trailing
      whitespace, itself neither starting nor ending with whitespace. */
  function Strip(s: string): (r: string)
    ensures r == [] || (!IsSpace(r[0]) && !IsSpace(r[|r| - 1]))
    ensures var i := |s| - |TrimStart(s)|;
      && i + |r| <= |s| && r == s[i..i + |r|]
      && (forall j | 0 <= j < i :: IsSpace(s[j]))
      && (forall j | i + |r| <= j < |s| :: IsSpace(s[j]))
  {
    TrimEnd(TrimStart(s))
  }

  /** `s.split(sep)` for a one-character separator: the pieces between
      consecutive separators, always at least one. */
  function Split(s: string, sep: char): (r: seq<string>)
    ensures |r| == Count(s, sep) + 1
    ensures forall i | 0 <= i < |r| :: sep !in r[i]
    decreases |s|
  {
    var k := Find(s, sep);
    if k == -1 then
      assert Count(s, sep) == 0;
      [s]
    else
      assert s == s[..k] + [sep] + s[k + 1..];
      assert multiset(s) == multiset(s[..k]) + multiset([sep]) + multiset(s[k + 1..]);
      assert Count(s[..k], sep) == 0;
      [s[..k]] + Split(s[k + 1..], sep)
  }

  /** `s.ljust(width)`: `s` padded on the right with spaces up to `width`,
      and never truncated. */
  function LJust(s: string, width: int): (r: string)
    ensures |r| == if width > |s| then width else |s|
    ensures r[..|s|] == s
    ensures forall i | |s| <= i < |r| :: r[i] == ' '
  {
    if width > |s| then s + Spaces(width - |s|) else s
  }

  function Spaces(n: nat): (r: string)
    ensures |r| == n && forall i | 0 <= i < n :: r[i] == ' '
  {
    if n == 0 then [] else [' '] + Spaces(n - 1)
  }

  lemma SpacesAvoid(n: nat, c: char)
    requires c != ' '
    ensures c !in Spaces(n)
  {
  }

  // ---------------------------------------------------------------------
  // Lemmas about the built-ins.

  /** Joining the pieces of `Split` with the separator gives back the string. */
  function Join(parts: seq<string>, sep: char): string
    requires |parts| > 0
  {
    if |parts| == 1 then parts[0] else parts[0] + [sep] + Join(parts[1..], sep)
  }

  lemma {:induction false} SplitJoin(s: string, sep: char)
    ensures Join(Split(s, sep), sep) == s
    decreases |s|
  {
    var k := Find(s, sep);
    if k != -1 {
      SplitJoin(s[k + 1..], sep);
      assert s == s[..k] + [sep] + s[k + 1..];
    }
  }

  /** Splitting at a known first separator. */
  lemma SplitAt(a: string, sep: char, b: string)
    requires sep !in a
    ensures Split(a + [sep] + b, sep) == [a] + Split(b, sep)
  {
    var s := a + [sep] + b;
    assert s[|a|] == sep;
    var k := Find(s, sep);
    assert k == |a|;
    assert s[..k] == a;
    assert s[k + 1..] == b;
  }

  /** A string with exactly one separator splits into the parts around it. */
  lemma SplitOnce(s: string, sep: char, k: nat)
    requires k < |s| && s[k] == sep && sep !in s[..k] && sep !in s[k + 1..]
    ensures Split(s, sep) == [s[..k], s[k + 1..]]
  {
    assert s == s[..k] + [sep] + s[k + 1..];
    SplitAt(s[..k], sep, s[k + 1..]);
    SplitNone(s[k + 1..], sep);
  }

  lemma SplitNone(s: string, sep: char)
    requires sep !in s
    ensures Split(s, sep) == [s]
  {
  }

  /** One separator between two pieces without it: exactly two parts. */
  lemma SplitPair(a: string, sep: char, b: string)
    requires sep !in a && sep !in b
    ensures Split(a + [sep] + b, sep) == [a, b]
  {
    SplitAt(a, sep, b);
    SplitNone(b, sep);
  }

  lemma ReplaceAllHead(s: string, pat: string, rep: string)
    requires 0 < |pat| <= |s| && s[0] != pat[0]
    ensures ReplaceAll(s, pat, rep) == [s[0]] + ReplaceAll(s[1..], pat, rep)
  {
    assert s[..|pat|][0] != pat[0];
  }

  /** Before the first character of `pat`, `ReplaceAll` copies `s` unchanged. */
  lemma {:induction false} ReplaceAllSkip(s: string, pat: string, rep: string, i: nat)
    requires |pat| > 0 && i <= |s|
    requires forall j | 0 <= j < i :: s[j] != pat[0]
    ensures ReplaceAll(s, pat, rep) == s[..i] + ReplaceAll(s[i..], pat, rep)
    decreases i
  {
    if i > 0 {
      assert s[0] != pat[0];
      if |s| >= |pat| {
        ReplaceAllHead(s, pat, rep);
        ReplaceAllSkip(s[1..], pat, rep, i - 1);
        assert s[1..][..i - 1] == s[1..i];
        assert s[1..][i - 1..] == s[i..];
        assert [s[0]] + s[1..i] == s[..i];
      } else {
        assert ReplaceAll(s[i..], pat, rep) == s[i..];
        assert s[..i] + s[i..] == s;
      }
    }
  }

  /** A string in which `pat` does not occur is left as is. */
  lemma {:induction false} ReplaceAllAbsent(s: string, pat: string, rep: string)
    requires |pat| > 0 && !Contains(s, pat)
    ensures ReplaceAll(s, pat, rep) == s
    decreases |s|
  {
    if |s| >= |pat| {
      assert s[..|pat|] != pat;
      ReplaceAllAbsent(s[1..], pat, rep);
      assert s == [s[0]] + s[1..];
    }
  }

  /** Replacing with text free of `c` never adds a `c`. */
  lemma {:induction false} ReplaceAllCountLe(s: string, pat: string, rep: string, c: char)
    requires |pat| > 0 && c !in rep
    ensures Count(ReplaceAll(s, pat, rep), c) <= Count(s, c)
    decreases |s|
  {
    if |s| >= |pat| {
      if s[..|pat|] == pat {
        var rest := s[|pat|..];
        ReplaceAllCountLe(rest, pat, rep, c);
        assert s == pat + rest;
        CountConcat(pat, rest, c);
        CountConcat(rep, ReplaceAll(rest, pat, rep), c);
        assert Count(rep, c) == 0;
      } else {
        ReplaceAllCountLe(s[1..], pat, rep, c);
        assert s == [s[0]] + s[1..];
        CountConcat([s[0]], s[1..], c);
        CountConcat([s[0]], ReplaceAll(s[1..], pat, rep), c);
      }
    }
  }

  lemma CountConcat(a: string, b: string, c: char)
    ensures Count(a + b, c) == Count(a, c) + Count(b, c)
  {
    assert multiset(a + b) == multiset(a) + multiset(b);
  }

  lemma CountStep(pre: string, pat: string, rest: string, rep: string, tail: string, c: char)
    requires c in pat && c !in rep && Count(tail, c) <= Count(rest, c)
    ensures Count(pre + (rep + tail), c) < Count(pre + (pat + rest), c)
  {
    CountConcat(pre, pat + rest, c);
    CountConcat(pat, rest, c);
    CountConcat(pre, rep + tail, c);
    CountConcat(rep, tail, c);
    assert Count(pat, c) >= 1 by { assert c in multiset(pat); }
    assert Count(rep, c) == 0;
  }

  /** With the first occurrence of `pat[0]` starting `pat`, the text
      splits around that occurrence. */
  lemma ReplaceAllAt(s: string, pat: string, rep: string, i: nat)
    requires |pat| > 0 && OccursAt(s, pat, i)
    requires forall j | 0 <= j < i :: s[j] != pat[0]
    ensures s == s[..i] + (pat + s[i + |pat|..])
    ensures ReplaceAll(s, pat, rep) == s[..i] + (rep + ReplaceAll(s[i + |pat|..], pat, rep))
  {
    var rest := s[i + |pat|..];
    ReplaceAllSkip(s, pat, rep, i);
    assert s[i..] == pat + rest;
    ReplaceAllPrefix(pat, rest, rep);
  }

  lemma BeforeFind(s: string, c: char)
    ensures forall j | 0 <= j < Find(s, c) :: s[j] != c
  {
    var i := Find(s, c);
    forall j | 0 <= j < i ensures s[j] != c {
      assert s[j] == s[..i][j];
    }
  }

  /** Replacing a token that starts with `c` and occurs at the first `c`
      by text free of `c` removes at least one `c`. */
  lemma ReplaceAllCountLt(s: string, pat: string, rep: string, c: char)
    requires |pat| > 0 && pat[0] == c && c !in rep
    requires OccursAt(s, pat, Find(s, c))
    ensures Count(ReplaceAll(s, pat, rep), c) < Count(s, c)
  {
    var i := Find(s, c);
    var rest := s[i + |pat|..];
    BeforeFind(s, c);
    ReplaceAllAt(s, pat, rep, i);
    ReplaceAllCountLe(rest, pat, rep, c);
    assert c in pat by { assert pat[0] == c; }
    CountStep(s[..i], pat, rest, rep, ReplaceAll(rest, pat, rep), c);
  }

  /** Replacing with text free of `x` in text free of `x` leaves it free of `x`. */
  lemma {:induction false} ReplaceAllKeepsAbsent(s: string, pat: string, rep: string, x: char)
    requires |pat| > 0 && x !in s && x !in rep
    ensures x !in ReplaceAll(s, pat, rep)
    decreases |s|
  {
    if |s| >= |pat| {
      if s[..|pat|] == pat {
        ReplaceAllKeepsAbsent(s[|pat|..], pat, rep, x);
      } else {
        ReplaceAllKeepsAbsent(s[1..], pat, rep, x);
      }
    }
  }

  /** A match at the very start is replaced and scanning resumes after it. */
  lemma ReplaceAllPrefix(pat: string, rest: string, rep: string)
    requires |pat| > 0
    ensures ReplaceAll(pat + rest, pat, rep) == rep + ReplaceAll(rest, pat, rep)
  {
    var s := pat + rest;
    assert s[..|pat|] == pat;
    assert s[|pat|..] == rest;
  }

  /** `pre + pat + post` with `pat`'s first character absent from `pre` and
      `post` becomes `pre + rep + post`. */
  lemma ReplaceAllSingle(pre: string, pat: string, post: string, rep: string)
    requires |pat| > 0 && pat[0] !in pre && pat[0] !in post
    ensures ReplaceAll(pre + pat + post, pat, rep) == pre + rep + post
  {
    var s := pre + pat + post;
    ReplaceAllSkip(s, pat, rep, |pre|);
    assert s[..|pre|] == pre;
    var t := s[|pre|..];
    assert t == pat + post;
    assert t[..|pat|] == pat;
    assert t[|pat|..] == post;
    if Contains(post, pat) {
      ContainsChar(post, pat, 0);
    }
    ReplaceAllAbsent(post, pat, rep);
  }

  /** Both copies of `pat` around text without its first character are replaced. */
  lemma ReplaceAllTwice(pat: string, mid: string, rep: string)
    requires |pat| > 0 && pat[0] !in mid
    ensures ReplaceAll(pat + mid + pat, pat, rep) == rep + mid + rep
  {
    assert pat + mid + pat == pat + (mid + pat + []);
    ReplaceAllPrefix(pat, mid + pat + [], rep);
    ReplaceAllSingle(mid, pat, [], rep);
    assert rep + (mid + rep + []) == rep + mid + rep;
  }

  /** Stripping text that has no surrounding whitespace changes nothing. */
  lemma StripClean(s: string)
    requires s == [] || (!IsSpace(s[0]) && !IsSpace(s[|s| - 1]))
    ensures Strip(s) == s
  {
  }

  /** Stripping removes trailing spaces after a non-space. */
  lemma StripPadded(a: string, n: nat)
    requires a == [] || (!IsSpace(a[0]) && !IsSpace(a[|a| - 1]))
    ensures Strip(a + Spaces(n)) == a
    decreases n
  {
    var s := a + Spaces(n);
    if a == [] {
      assert s == Spaces(n);
      TrimStartSpaces(n);
    } else {
      assert TrimStart(s) == s;
      TrimEndSpaces(a, n);
    }
  }

  lemma {:induction false} TrimStartSpaces(n: nat)
    ensures TrimStart(Spaces(n)) == []
    decreases n
  {
    if n > 0 {
      assert Spaces(n)[1..] == Spaces(n - 1);
      TrimStartSpaces(n - 1);
    }
  }

  lemma {:induction false} TrimEndSpaces(a: string, n: nat)
    requires a == [] || !IsSpace(a[|a| - 1])
    ensures TrimEnd(a + Spaces(n)) == a
    decreases n
  {
    if n > 0 {
      assert (a + Spaces(n))[..|a| + n - 1] == a + Spaces(n - 1);
      TrimEndSpaces(a, n - 1);
    } else {
      assert a + Spaces(0) == a;
    }
  }
}
