/** Python's `str.strip()`, string order and sorted sets of strings. */
module PyText {

  // ----- Parts of strings -----

  predicate StartsWith(s: string, prefix: string) { prefix <= s }

  predicate EndsWith(s: string, suffix: string) {
    |suffix| <= |s| && s[|s| - |suffix|..] == suffix
  }

  predicate PartAt(s: string, part: string, i: nat) {
    i + |part| <= |s| && s[i..i + |part|] == part
  }

  predicate Contains(s: string, part: string) {
    exists i :: 0 <= i <= |s| && PartAt(s, part, i)
  }

  // ----- Stripping -----

  predicate IsSpace(c: char) {
    c == ' ' || '\t' <= c <= '\r' || '\U{001C}' <= c <= '\U{001F}' || (c >= '\U{0085}' && IsWideSpace(c))
  }

  /** The white space beyond the ASCII range. */
  predicate IsWideSpace(c: char) {
    || c == '\U{0085}' || c == '\U{00A0}' || c == '\U{1680}' || '\U{2000}' <= c <= '\U{200A}'
    || c == '\U{2028}' || c == '\U{2029}' || c == '\U{202F}' || c == '\U{205F}' || c == '\U{3000}'
  }

  /** The white space characters one by one. */
  lemma SpaceCharacters(c: char)
    ensures IsSpace(c) <==>
              c in {'\t', '\n', '\U{000B}', '\U{000C}', '\r', '\U{001C}', '\U{001D}', '\U{001E}', '\U{001F}', ' ',
                    '\U{0085}', '\U{00A0}', '\U{1680}', '\U{2000}', '\U{2001}', '\U{2002}', '\U{2003}',
                    '\U{2004}', '\U{2005}', '\U{2006}', '\U{2007}', '\U{2008}', '\U{2009}', '\U{200A}',
                    '\U{2028}', '\U{2029}', '\U{202F}', '\U{205F}', '\U{3000}'}
  {
  }

  function StripLeft(s: string): string {
    if s != "" && IsSpace(s[0]) then StripLeft(s[1..]) else s
  }

  function StripRight(s: string): string {
    if s != "" && IsSpace(s[|s| - 1]) then StripRight(s[..|s| - 1]) else s
  }

  function Strip(s: string): string { StripRight(StripLeft(s)) }

  /** Only white space, or nothing. */
  predicate Blank(s: string) { forall k :: 0 <= k < |s| ==> IsSpace(s[k]) }

  lemma {:induction false} StripLeftBlank(s: string)
    ensures StripLeft(s) == "" <==> Blank(s)
    ensures StripLeft(s) != "" ==> !IsSpace(StripLeft(s)[0])
  {
    if s != "" && IsSpace(s[0]) {
      StripLeftBlank(s[1..]);
      assert Blank(s) <==> Blank(s[1..]);
    }
  }

  lemma {:induction false} StripRightShape(s: string)
    requires s != "" && !IsSpace(s[0])
    ensures var r := StripRight(s); r != "" && r[0] == s[0] && !IsSpace(r[|r| - 1])
  {
    if IsSpace(s[|s| - 1]) {
      StripRightShape(s[..|s| - 1]);
    }
  }

  /** Stripping leaves nothing exactly of blank text. */
  lemma StripBlank(s: string)
    ensures Strip(s) == "" <==> Blank(s)
  {
    StripLeftBlank(s);
    if StripLeft(s) != "" {
      StripRightShape(StripLeft(s));
    }
  }

  lemma {:induction false} StripLeftCut(s: string) returns (k: nat)
    ensures k <= |s| && StripLeft(s) == s[k..] && Blank(s[..k])
  {
    k := 0;
    if s != "" && IsSpace(s[0]) {
      var j := StripLeftCut(s[1..]);
      k := j + 1;
      assert s[1..][j..] == s[k..] && s[..k] == [s[0]] + s[1..][..j];
    }
  }

  lemma {:induction false} StripRightCut(s: string) returns (k: nat)
    ensures k <= |s| && StripRight(s) == s[..k] && Blank(s[k..])
  {
    k := |s|;
    if s != "" && IsSpace(s[|s| - 1]) {
      var front := s[..|s| - 1];
      k := StripRightCut(front);
      assert front[..k] == s[..k] && s[k..] == front[k..] + [s[|s| - 1]];
    }
  }

  lemma TwoCuts(s: string, k: nat, m: nat)
    requires k <= |s| && m <= |s[k..]|
    ensures s == s[..k] + s[k..][..m] + s[k..][m..]
  {
    assert s[k..] == s[k..][..m] + s[k..][m..];
  }

  /** Stripping cuts white space off both ends, and all of it. */
  lemma StripCuts(s: string) returns (before: string, after: string)
    ensures s == before + Strip(s) + after && Blank(before) && Blank(after)
    ensures Strip(s) != "" ==> !IsSpace(Strip(s)[0]) && !IsSpace(Strip(s)[|Strip(s)| - 1])
  {
    var k := StripLeftCut(s);
    var m := StripRightCut(s[k..]);
    before, after := s[..k], s[k..][m..];
    TwoCuts(s, k, m);
    StripEnds(s);
  }

  lemma StripEnds(s: string)
    ensures Strip(s) != "" ==> !IsSpace(Strip(s)[0]) && !IsSpace(Strip(s)[|Strip(s)| - 1])
  {
    StripLeftBlank(s);
    if StripLeft(s) != "" {
      StripRightShape(StripLeft(s));
    }
  }

  lemma StripTwice(s: string)
    ensures Strip(Strip(s)) == Strip(s)
  {
    StripLeftBlank(s);
    if StripLeft(s) != "" {
      StripRightShape(StripLeft(s));
    }
  }

  // ----- Order -----

  /** Comparison of strings character by character. */
  predicate TextLeq(a: string, b: string) {
    a == "" || (b != "" && (a[0] < b[0] || (a[0] == b[0] && TextLeq(a[1..], b[1..]))))
  }

  lemma {:induction false} TextLeqTotal(a: string, b: string)
    ensures TextLeq(a, b) || TextLeq(b, a)
  {
    if a != "" && b != "" {
      TextLeqTotal(a[1..], b[1..]);
    }
  }

  lemma {:induction false} TextLeqTransitive(a: string, b: string, c: string)
    requires TextLeq(a, b) && TextLeq(b, c)
    ensures TextLeq(a, c)
  {
    if a != "" && b != "" && c != "" && a[0] == b[0] == c[0] {
      TextLeqTransitive(a[1..], b[1..], c[1..]);
    }
  }

  lemma {:induction false} TextLeqAntisymmetric(a: string, b: string)
    requires TextLeq(a, b) && TextLeq(b, a)
    ensures a == b
  {
    if a != "" && b != "" {
      TextLeqAntisymmetric(a[1..], b[1..]);
    }
  }

  /** At the first place where the strings differ, the smaller character comes first; a prefix comes before. */
  lemma {:induction false} TextLeqByFirstDifference(a: string, b: string)
    ensures TextLeq(a, b) <==>
              a <= b || exists k :: 0 <= k < |a| && k < |b| && a[..k] == b[..k] && a[k] < b[k]
  {
    if a != "" && b != "" {
      TextLeqByFirstDifference(a[1..], b[1..]);
      if k :| 0 <= k < |a| && k < |b| && a[..k] == b[..k] && a[k] < b[k] {
        if k > 0 {
          assert a[..k][0] == b[..k][0];
          assert a[1..][..k - 1] == a[..k][1..] == b[..k][1..] == b[1..][..k - 1];
          assert a[1..][k - 1] == a[k] && b[1..][k - 1] == b[k];
        }
      }
      if a[0] == b[0] {
        if k :| 0 <= k < |a[1..]| && k < |b[1..]| && a[1..][..k] == b[1..][..k] && a[1..][k] < b[1..][k] {
          assert a[..k + 1] == [a[0]] + a[1..][..k] && b[..k + 1] == [b[0]] + b[1..][..k];
          assert a[k + 1] < b[k + 1];
        }
        if a[1..] <= b[1..] {
          assert a == [a[0]] + a[1..] && b == [b[0]] + b[1..];
        }
      } else if a[0] < b[0] {
        assert a[..0] == b[..0];
      }
    }
  }

  // ----- Sets in string order -----

  lemma {:induction false} SizeOfDistinct(xs: seq<string>, s: set<string>)
    requires (forall i, j :: 0 <= i < j < |xs| ==> xs[i] != xs[j]) && forall x :: x in xs <==> x in s
    ensures |xs| == |s|
  {
    if xs == [] {
      assert s == {};
    } else {
      assert xs == [xs[0]] + xs[1..];
      SizeOfDistinct(xs[1..], s - {xs[0]});
    }
  }

  /** `sorted(set(paths))` */
  method SortedPaths(paths: set<string>) returns (r: seq<string>)
    ensures forall i, j :: 0 <= i < j < |r| ==> TextLeq(r[i], r[j]) && r[i] != r[j]
    ensures forall p :: p in r <==> p in paths
    ensures |r| == |paths|
  {
    r := [];
    var rest := paths;
    while rest != {}
      invariant rest <= paths
      invariant forall i, j :: 0 <= i < j < |r| ==> TextLeq(r[i], r[j]) && r[i] != r[j]
      invariant forall p :: p in r <==> p in paths && p !in rest
      invariant forall i, p :: 0 <= i < |r| && p in rest ==> TextLeq(r[i], p)
      decreases rest
    {
      var least := Least(rest);
      r := r + [least];
      rest := rest - {least};
    }
    SizeOfDistinct(r, paths);
  }

  method Least(paths: set<string>) returns (least: string)
    requires paths != {}
    ensures least in paths && forall p :: p in paths ==> TextLeq(least, p)
  {
    least :| least in paths;
    TextLeqTotal(least, least);
    var others := paths - {least};
    while others != {}
      invariant others <= paths && least in paths
      invariant forall p :: p in paths && p !in others ==> TextLeq(least, p)
      decreases others
    {
      var p :| p in others;
      others := others - {p};
      TextLeqTotal(least, p);
      TextLeqTotal(p, p);
      if !TextLeq(least, p) {
        forall q | q in paths && q !in others ensures TextLeq(p, q) {
          if q != p { TextLeqTransitive(p, least, q); }
        }
        least := p;
      }
    }
  }
}
