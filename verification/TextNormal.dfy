/**
 The normalisation chain in front of the similarity score: lower-casing and accent stripping
 (an abstract map `fold`), every character outside [a-z0-9] and white space replaced by a space,
 runs of white space collapsed to one space, and trimming.
 */
module TextNormal {
  import opened Basics

  /** White space in the sense of JavaScript's `\s` and `trim`. */
  predicate IsSpace(c: char) {
    c == ' ' || '\t' <= c <= '\r' || (c >= '\U{00A0}' && IsWideSpace(c))
  }

  /** The white space beyond the ASCII range. */
  predicate IsWideSpace(c: char) {
    || c == '\U{00A0}' || c == '\U{1680}' || '\U{2000}' <= c <= '\U{200A}'
    || c == '\U{2028}' || c == '\U{2029}' || c == '\U{202F}' || c == '\U{205F}'
    || c == '\U{3000}' || c == '\U{FEFF}'
  }

  /** The white space characters one by one. */
  lemma SpaceCharacters(c: char)
    ensures IsSpace(c) <==>
              c in {'\t', '\n', '\U{000B}', '\U{000C}', '\r', ' ', '\U{00A0}', '\U{1680}', '\U{2000}', '\U{2001}',
                    '\U{2002}', '\U{2003}', '\U{2004}', '\U{2005}', '\U{2006}', '\U{2007}', '\U{2008}',
                    '\U{2009}', '\U{200A}', '\U{2028}', '\U{2029}', '\U{202F}', '\U{205F}', '\U{3000}', '\U{FEFF}'}
  {
  }

  /** Only lower-case letters, digits and plain spaces. */
  predicate Plain(s: string) {
    forall k :: 0 <= k < |s| ==> IsAlnum(s[k]) || s[k] == ' '
  }

  /** Lower-casing and accent stripping leave plain text alone. */
  ghost predicate FixesPlain(fold: string -> string) {
    forall s :: Plain(s) ==> fold(s) == s
  }

  /** Replaces each character that is neither alphanumeric nor white space by a space. */
  function Clean(s: string): (r: string)
    ensures |r| == |s|
    ensures forall k :: 0 <= k < |s| ==>
              r[k] == if IsAlnum(s[k]) || IsSpace(s[k]) then s[k] else ' '
  {
    seq(|s|, k requires 0 <= k < |s| => if IsAlnum(s[k]) || IsSpace(s[k]) then s[k] else ' ')
  }

  function SkipSpaces(s: string): (r: string)
    ensures |r| <= |s| && r == s[|s| - |r|..]
    ensures r == "" || !IsSpace(r[0])
  {
    if s != "" && IsSpace(s[0]) then SkipSpaces(s[1..]) else s
  }

  /** Replaces each maximal run of white space by one plain space. */
  function Collapse(s: string): string
    decreases |s|
  {
    if s == "" then ""
    else if IsSpace(s[0]) then " " + Collapse(SkipSpaces(s[1..]))
    else [s[0]] + Collapse(s[1..])
  }

  function TrimEnd(s: string): string {
    if s != "" && IsSpace(s[|s| - 1]) then TrimEnd(s[..|s| - 1]) else s
  }

  function Trim(s: string): string { TrimEnd(SkipSpaces(s)) }

  function Normalize(fold: string -> string, s: string): string {
    Trim(Collapse(Clean(fold(s))))
  }

  // ----- What the chain produces -----

  predicate SingleSpaced(s: string) {
    forall k :: 0 < k < |s| ==> !(s[k - 1] == ' ' && s[k] == ' ')
  }

  /** Alphanumeric words separated by single spaces, none at either end. */
  predicate Canonical(s: string) {
    && Plain(s)
    && SingleSpaced(s)
    && (s != "" ==> s[0] != ' ' && s[|s| - 1] != ' ')
  }

  predicate Cleaned(s: string) {
    forall k :: 0 <= k < |s| ==> IsAlnum(s[k]) || IsSpace(s[k])
  }

  lemma {:induction false} CollapseIsSingleSpaced(s: string)
    requires Cleaned(s)
    ensures Plain(Collapse(s)) && SingleSpaced(Collapse(s))
    ensures s != "" && !IsSpace(s[0]) ==> Collapse(s) != "" && Collapse(s)[0] != ' '
    decreases |s|
  {
    if s == "" {
    } else if IsSpace(s[0]) {
      CollapseIsSingleSpaced(SkipSpaces(s[1..]));
    } else {
      CollapseIsSingleSpaced(s[1..]);
    }
  }

  lemma PlainTail(s: string)
    requires s != "" && Plain(s) && SingleSpaced(s)
    ensures Plain(s[1..]) && SingleSpaced(s[1..])
  {
  }

  lemma {:induction false} SkipSpacesKeeps(s: string)
    requires Plain(s) && SingleSpaced(s)
    ensures Plain(SkipSpaces(s)) && SingleSpaced(SkipSpaces(s))
  {
    if s != "" && IsSpace(s[0]) {
      PlainTail(s);
      SkipSpacesKeeps(s[1..]);
    }
  }

  lemma {:induction false} TrimEndKeeps(s: string)
    requires Plain(s) && SingleSpaced(s)
    requires s != "" ==> s[0] != ' '
    ensures Canonical(TrimEnd(s))
  {
    if s != "" && IsSpace(s[|s| - 1]) {
      TrimEndKeeps(s[..|s| - 1]);
    }
  }

  lemma NormalizeIsCanonical(fold: string -> string, s: string)
    ensures Canonical(Normalize(fold, s))
  {
    var cleaned := Clean(fold(s));
    CollapseIsSingleSpaced(cleaned);
    SkipSpacesKeeps(Collapse(cleaned));
    TrimEndKeeps(SkipSpaces(Collapse(cleaned)));
  }

  lemma {:induction false} CollapseFixesCanonical(s: string)
    requires Plain(s) && SingleSpaced(s)
    ensures Collapse(s) == s
    decreases |s|
  {
    if s == "" {
    } else {
      assert s == [s[0]] + s[1..];
      CollapseFixesCanonical(s[1..]);
      if IsSpace(s[0]) {
        assert s[0] == ' ';
        assert SkipSpaces(s[1..]) == s[1..];
      }
    }
  }

  lemma TrimFixes(s: string)
    requires s == "" || (IsAlnum(s[0]) && IsAlnum(s[|s| - 1]))
    ensures Trim(s) == s
  {
    if s != "" {
      assert !IsSpace(s[0]) && !IsSpace(s[|s| - 1]);
    }
  }

  lemma NormalizeFixesCanonical(fold: string -> string, s: string)
    requires FixesPlain(fold) && Canonical(s)
    ensures Normalize(fold, s) == s
  {
    assert fold(s) == s && Clean(s) == s;
    CollapseFixesCanonical(s);
    TrimFixes(s);
  }

  /** The canonical strings are exactly the ones the chain leaves alone. */
  lemma NormalizeFixpoints(fold: string -> string, s: string)
    requires FixesPlain(fold)
    ensures Normalize(fold, s) == s <==> Canonical(s)
  {
    NormalizeIsCanonical(fold, s);
    if Canonical(s) {
      NormalizeFixesCanonical(fold, s);
    }
  }

  lemma NormalizeIdempotent(fold: string -> string, s: string)
    requires FixesPlain(fold)
    ensures Normalize(fold, Normalize(fold, s)) == Normalize(fold, s)
  {
    NormalizeIsCanonical(fold, s);
    NormalizeFixesCanonical(fold, Normalize(fold, s));
  }

  // ----- The chain keeps the words -----

  /** The maximal alphanumeric runs of a string, in order: `word` is the run being read. */
  function Runs(s: string, word: string): seq<string>
    decreases |s|
  {
    if s == "" then if word == "" then [] else [word]
    else if IsAlnum(s[0]) then Runs(s[1..], word + [s[0]])
    else (if word == "" then [] else [word]) + Runs(s[1..], "")
  }

  lemma {:induction false} RunsSkipSpaces(s: string)
    ensures Runs(SkipSpaces(s), "") == Runs(s, "")
  {
    if s != "" && IsSpace(s[0]) {
      RunsSkipSpaces(s[1..]);
    }
  }

  lemma {:induction false} RunsClean(s: string, word: string)
    ensures Runs(Clean(s), word) == Runs(s, word)
    decreases |s|
  {
    if s == "" {
    } else {
      assert Clean(s)[1..] == Clean(s[1..]);
      RunsClean(s[1..], word + [s[0]]);
      RunsClean(s[1..], "");
    }
  }

  lemma {:induction false} RunsCollapse(s: string, word: string)
    requires Cleaned(s)
    ensures Runs(Collapse(s), word) == Runs(s, word)
    decreases |s|
  {
    if s == "" {
    } else if IsSpace(s[0]) {
      var rest := SkipSpaces(s[1..]);
      assert Collapse(s)[1..] == Collapse(rest);
      RunsCollapse(rest, "");
      RunsSkipSpaces(s[1..]);
    } else {
      assert Collapse(s)[1..] == Collapse(s[1..]);
      RunsCollapse(s[1..], word + [s[0]]);
    }
  }

  lemma {:induction false} RunsDropLastSpace(s: string, word: string)
    requires s != "" && !IsAlnum(s[|s| - 1])
    ensures Runs(s[..|s| - 1], word) == Runs(s, word)
    decreases |s|
  {
    if |s| == 1 {
      assert Runs(s[1..], "") == [];
    } else {
      assert s[1..][..|s| - 2] == s[..|s| - 1][1..];
      RunsDropLastSpace(s[1..], word + [s[0]]);
      RunsDropLastSpace(s[1..], "");
    }
  }

  lemma {:induction false} RunsTrimEnd(s: string)
    ensures Runs(TrimEnd(s), "") == Runs(s, "")
  {
    if s != "" && IsSpace(s[|s| - 1]) {
      RunsDropLastSpace(s, "");
      RunsTrimEnd(s[..|s| - 1]);
    }
  }

  /** Normalisation loses no word and invents none: the alphanumeric runs stay, in order. */
  lemma NormalizeKeepsWords(fold: string -> string, s: string)
    ensures Runs(Normalize(fold, s), "") == Runs(fold(s), "")
  {
    var cleaned := Clean(fold(s));
    RunsClean(fold(s), "");
    RunsCollapse(cleaned, "");
    RunsSkipSpaces(Collapse(cleaned));
    RunsTrimEnd(SkipSpaces(Collapse(cleaned)));
  }

  /** `words.join(" ")` */
  function Join(words: seq<string>): string {
    if words == [] then ""
    else if |words| == 1 then words[0]
    else words[0] + " " + Join(words[1..])
  }

  lemma JoinCons(word: string, rest: seq<string>)
    requires rest != []
    ensures Join([word] + rest) == word + " " + Join(rest)
  {
    assert ([word] + rest)[1..] == rest;
  }

  lemma Shift(word: string, s: string)
    requires s != ""
    ensures word + [s[0]] + s[1..] == word + s
  {
  }

  lemma {:induction false} JoinRuns(s: string, word: string)
    requires Plain(s) && SingleSpaced(s)
    requires s != "" ==> s[|s| - 1] != ' '
    requires s != "" && s[0] == ' ' ==> word != ""
    ensures Join(Runs(s, word)) == word + s
    ensures word + s != "" ==> Runs(s, word) != []
    decreases |s|
  {
    if s == "" {
    } else {
      PlainTail(s);
      Shift(word, s);
      if IsAlnum(s[0]) {
        JoinRuns(s[1..], word + [s[0]]);
        assert Runs(s, word) == Runs(s[1..], word + [s[0]]);
      } else {
        JoinRuns(s[1..], "");
        JoinCons(word, Runs(s[1..], ""));
        assert Runs(s, word) == [word] + Runs(s[1..], "");
      }
    }
  }

  /** The whole chain in one line: the alphanumeric words of the folded text, joined by single spaces. */
  lemma NormalizeJoinsWords(fold: string -> string, s: string)
    ensures Normalize(fold, s) == Join(Runs(fold(s), ""))
  {
    NormalizeIsCanonical(fold, s);
    NormalizeKeepsWords(fold, s);
    JoinRuns(Normalize(fold, s), "");
  }
}
