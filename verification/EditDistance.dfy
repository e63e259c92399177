/**
 Edit distance between two strings, independently of any algorithm: the length of a shortest
 script of single-character insertions, deletions and substitutions, applied one after the other
 at arbitrary positions. `Cost` is the recurrence the similarity matrix evaluates; the lemmas
 show that it is that minimum and that it is a metric.
 */
module EditDistance {

  // ----- Edit scripts -----

  datatype Edit =
    | Insert(pos: nat, c: char)
    | Delete(pos: nat)
    | Substitute(pos: nat, c: char)

  predicate Applicable(e: Edit, s: string) {
    match e
    case Insert(pos, _) => pos <= |s|
    case Delete(pos) => pos < |s|
    case Substitute(pos, _) => pos < |s|
  }

  function Apply(e: Edit, s: string): string
    requires Applicable(e, s)
  {
    match e
    case Insert(pos, c) => s[..pos] + [c] + s[pos..]
    case Delete(pos) => s[..pos] + s[pos + 1..]
    case Substitute(pos, c) => s[..pos] + [c] + s[pos + 1..]
  }

  /** Every edit of the script is applicable when its turn comes, and the script ends in `t`. */
  predicate Transforms(script: seq<Edit>, s: string, t: string) {
    if script == [] then s == t
    else Applicable(script[0], s) && Transforms(script[1..], Apply(script[0], s), t)
  }

  /** `d` is the length of a shortest script from `s` to `t`. */
  ghost predicate IsEditDistance(d: int, s: string, t: string) {
    && (exists script :: Transforms(script, s, t) && |script| == d)
    && (forall script :: Transforms(script, s, t) ==> d <= |script|)
  }

  // ----- The recurrence -----

  function Min(a: int, b: int): int { if a <= b then a else b }

  function Max(a: int, b: int): int { if a >= b then a else b }

  function Init(s: string): string
    requires s != ""
  {
    s[..|s| - 1]
  }

  function Mismatch(a: char, b: char): nat { if a == b then 0 else 1 }

  function Cost(s: string, t: string): nat
    decreases |s| + |t|
  {
    if s == "" then |t|
    else if t == "" then |s|
    else
      Min(Min(Cost(Init(s), t) + 1, Cost(s, Init(t)) + 1),
          Cost(Init(s), Init(t)) + Mismatch(s[|s| - 1], t[|t| - 1]))
  }

  // ----- Some script attains the recurrence -----

  lemma ApplyPrefix(e: Edit, s: string, suffix: string)
    requires Applicable(e, s)
    ensures Applicable(e, s + suffix)
    ensures Apply(e, s + suffix) == Apply(e, s) + suffix
  {
    var pos := e.pos;
    assert (s + suffix)[..pos] == s[..pos];
    assert (s + suffix)[pos..] == s[pos..] + suffix;
    if pos < |s| {
      assert (s + suffix)[pos + 1..] == s[pos + 1..] + suffix;
    }
  }

  lemma Prepend(e: Edit, script: seq<Edit>, s: string, t: string)
    requires Applicable(e, s) && Transforms(script, Apply(e, s), t)
    ensures Transforms([e] + script, s, t)
  {
    assert ([e] + script)[1..] == script;
  }

  /** An edit inside a prefix leaves the rest of the string alone. */
  lemma {:induction false} TransformsPrefix(script: seq<Edit>, s: string, t: string, suffix: string)
    requires Transforms(script, s, t)
    ensures Transforms(script, s + suffix, t + suffix)
  {
    if script == [] {
    } else {
      ApplyPrefix(script[0], s, suffix);
      TransformsPrefix(script[1..], Apply(script[0], s), t, suffix);
    }
  }

  /** The last character is deleted first. */
  lemma DeleteLast(script: seq<Edit>, s: string, t: string)
    requires s != "" && Transforms(script, Init(s), t)
    ensures Transforms([Delete(|s| - 1)] + script, s, t)
  {
    assert Apply(Delete(|s| - 1), s) == Init(s);
    Prepend(Delete(|s| - 1), script, s, t);
  }

  /** The last character of the target is inserted first. */
  lemma InsertLast(script: seq<Edit>, s: string, t: string)
    requires t != "" && Transforms(script, s, Init(t))
    ensures Transforms([Insert(|s|, t[|t| - 1])] + script, s, t)
  {
    var y := t[|t| - 1];
    TransformsPrefix(script, s, Init(t), [y]);
    assert Init(t) + [y] == t;
    assert Apply(Insert(|s|, y), s) == s + [y];
    Prepend(Insert(|s|, y), script, s, t);
  }

  /** Two strings that end in the same character need no edit there. */
  lemma MatchLast(script: seq<Edit>, s: string, t: string)
    requires s != "" && t != "" && s[|s| - 1] == t[|t| - 1]
    requires Transforms(script, Init(s), Init(t))
    ensures Transforms(script, s, t)
  {
    assert s == Init(s) + [t[|t| - 1]] && t == Init(t) + [t[|t| - 1]];
    TransformsPrefix(script, Init(s), Init(t), [t[|t| - 1]]);
  }

  /** The last character is replaced first. */
  lemma ReplaceLast(script: seq<Edit>, s: string, t: string)
    requires s != "" && t != "" && Transforms(script, Init(s), Init(t))
    ensures Transforms([Substitute(|s| - 1, t[|t| - 1])] + script, s, t)
  {
    var e := Substitute(|s| - 1, t[|t| - 1]);
    var replaced := Apply(e, s);
    assert replaced == Init(s) + [t[|t| - 1]];
    assert Init(replaced) == Init(s);
    MatchLast(script, replaced, t);
    Prepend(e, script, s, t);
  }

  /** A script as long as the recurrence says, read off the branch the minimum takes. */
  lemma {:induction false} ShortestScript(s: string, t: string) returns (script: seq<Edit>)
    ensures Transforms(script, s, t)
    ensures |script| == Cost(s, t)
    decreases |s| + |t|
  {
    if s == "" && t == "" {
      script := [];
    } else if t == "" || (s != "" && Cost(s, t) == Cost(Init(s), t) + 1) {
      var rest := ShortestScript(Init(s), t);
      DeleteLast(rest, s, t);
      script := [Delete(|s| - 1)] + rest;
    } else if s == "" || Cost(s, t) == Cost(s, Init(t)) + 1 {
      var rest := ShortestScript(s, Init(t));
      InsertLast(rest, s, t);
      script := [Insert(|s|, t[|t| - 1])] + rest;
    } else {
      var rest := ShortestScript(Init(s), Init(t));
      if s[|s| - 1] == t[|t| - 1] {
        MatchLast(rest, s, t);
        script := rest;
      } else {
        ReplaceLast(rest, s, t);
        script := [Substitute(|s| - 1, t[|t| - 1])] + rest;
      }
    }
  }

  // ----- No script is shorter: one edit changes the recurrence by at most one -----

  lemma SnocInit(s: string, x: char)
    ensures Init(s + [x]) == s
  {
  }

  lemma InsertAtEnd(a: string, p: string, y: char)
    ensures Cost(a, p + [y]) <= Cost(a, p) + 1
  {
    SnocInit(p, y);
  }

  lemma {:induction false} DeleteAtEnd(a: string, p: string, y: char)
    ensures Cost(a, p) <= Cost(a, p + [y]) + 1
    decreases |a|
  {
    SnocInit(p, y);
    if a == "" {
    } else {
      DeleteAtEnd(Init(a), p, y);
      DropLast(a, p);
    }
  }

  lemma DropLast(a: string, p: string)
    requires a != ""
    ensures Cost(a, p) <= Cost(Init(a), p) + 1
  {
  }

  lemma {:induction false} SubstituteAtEnd(a: string, p: string, y: char, z: char)
    ensures Cost(a, p + [z]) <= Cost(a, p + [y]) + 1
    decreases |a|
  {
    SnocInit(p, y);
    SnocInit(p, z);
    if a == "" {
    } else {
      SubstituteAtEnd(Init(a), p, y, z);
    }
  }

  /** Appending a common suffix keeps two targets within one of each other. */
  lemma {:induction false} CommonSuffix(a: string, p: string, q: string, suffix: string)
    requires forall b: string :: Cost(b, q) <= Cost(b, p) + 1
    ensures Cost(a, q + suffix) <= Cost(a, p + suffix) + 1
    decreases |suffix|, |a|
  {
    if suffix == "" {
      assert p + suffix == p && q + suffix == q;
    } else {
      var front, y := Init(suffix), suffix[|suffix| - 1];
      assert p + suffix == (p + front) + [y] && q + suffix == (q + front) + [y];
      SnocInit(p + front, y);
      SnocInit(q + front, y);
      if a == "" {
        assert Cost("", q) <= Cost("", p) + 1;
      } else {
        CommonSuffix(a, p, q, front);
        CommonSuffix(Init(a), p, q, suffix);
        CommonSuffix(Init(a), p, q, front);
      }
    }
  }

  lemma OneEdit(a: string, e: Edit, t: string)
    requires Applicable(e, t)
    ensures Cost(a, Apply(e, t)) <= Cost(a, t) + 1
  {
    var before, after := t[..e.pos], t[e.pos..];
    assert t == before + after;
    match e {
      case Insert(pos, c) =>
        forall b: string ensures Cost(b, before + [c]) <= Cost(b, before) + 1 { InsertAtEnd(b, before, c); }
        CommonSuffix(a, before, before + [c], after);
      case Delete(pos) =>
        forall b: string ensures Cost(b, before) <= Cost(b, before + [t[pos]]) + 1 { DeleteAtEnd(b, before, t[pos]); }
        CommonSuffix(a, before + [t[pos]], before, t[pos + 1..]);
        assert t == before + [t[pos]] + t[pos + 1..];
      case Substitute(pos, c) =>
        forall b: string ensures Cost(b, before + [c]) <= Cost(b, before + [t[pos]]) + 1 {
          SubstituteAtEnd(b, before, t[pos], c);
        }
        CommonSuffix(a, before + [t[pos]], before + [c], t[pos + 1..]);
        assert t == before + [t[pos]] + t[pos + 1..];
    }
  }

  /** Seen from any third string, a script of n edits changes the recurrence by at most n. */
  lemma {:induction false} ScriptChangesCost(a: string, script: seq<Edit>, s: string, t: string)
    requires Transforms(script, s, t)
    ensures Cost(a, t) <= Cost(a, s) + |script|
  {
    if script == [] {
    } else {
      OneEdit(a, script[0], s);
      ScriptChangesCost(a, script[1..], Apply(script[0], s), t);
    }
  }

  // ----- The recurrence is the edit distance, and the edit distance is a metric -----

  lemma {:induction false} CostToSelf(s: string)
    ensures Cost(s, s) == 0
  {
    if s == "" {
    } else {
      CostToSelf(Init(s));
    }
  }

  lemma CostIsEditDistance(s: string, t: string)
    ensures IsEditDistance(Cost(s, t), s, t)
  {
    var shortest := ShortestScript(s, t);
    forall script | Transforms(script, s, t) ensures Cost(s, t) <= |script| {
      ScriptChangesCost(s, script, s, t);
      CostToSelf(s);
    }
  }

  /** The minimum is unique, so anything that is the edit distance is the recurrence. */
  lemma EditDistanceUnique(d: int, s: string, t: string)
    requires IsEditDistance(d, s, t)
    ensures d == Cost(s, t)
  {
    CostIsEditDistance(s, t);
    var script :| Transforms(script, s, t) && |script| == d;
    var shortest := ShortestScript(s, t);
  }

  lemma {:induction false} ZeroOnlyWhenEqual(s: string, t: string)
    ensures Cost(s, t) == 0 <==> s == t
    decreases |s| + |t|
  {
    if s == t {
      CostToSelf(s);
    } else if s != "" && t != "" {
      ZeroOnlyWhenEqual(Init(s), Init(t));
      assert s == Init(s) + [s[|s| - 1]] && t == Init(t) + [t[|t| - 1]];
    }
  }

  lemma {:induction false} Symmetric(s: string, t: string)
    ensures Cost(s, t) == Cost(t, s)
    decreases |s| + |t|
  {
    if s != "" && t != "" {
      Symmetric(Init(s), t);
      Symmetric(s, Init(t));
      Symmetric(Init(s), Init(t));
    }
  }

  lemma TriangleInequality(s: string, t: string, u: string)
    ensures Cost(s, u) <= Cost(s, t) + Cost(t, u)
  {
    var script := ShortestScript(t, u);
    ScriptChangesCost(s, script, t, u);
  }

  /** Length difference <= distance <= longer length. */
  lemma {:induction false} LengthBounds(s: string, t: string)
    ensures |s| - |t| <= Cost(s, t) && |t| - |s| <= Cost(s, t)
    ensures Cost(s, t) <= Max(|s|, |t|)
    decreases |s| + |t|
  {
    if s != "" && t != "" {
      LengthBounds(Init(s), t);
      LengthBounds(s, Init(t));
      LengthBounds(Init(s), Init(t));
    }
  }

  /** The metric laws; `CostIsEditDistance` and `EditDistanceUnique` make them laws of the edit distance. */
  lemma EditDistanceIsMetric(s: string, t: string, u: string)
    ensures Cost(s, t) == 0 <==> s == t
    ensures Cost(s, t) == Cost(t, s)
    ensures Cost(s, u) <= Cost(s, t) + Cost(t, u)
  {
    ZeroOnlyWhenEqual(s, t);
    Symmetric(s, t);
    TriangleInequality(s, t, u);
  }

  // ----- The matrix -----

  /** Cell [j][i] of the matrix is the cost between the prefixes of those lengths. */
  function Cell(s1: string, s2: string, j: nat, i: nat): nat
    requires j <= |s2| && i <= |s1|
  {
    Cost(s1[..i], s2[..j])
  }

  lemma CellStep(s1: string, s2: string, j: nat, i: nat)
    requires 0 < j <= |s2| && 0 < i <= |s1|
    ensures Cell(s1, s2, j, i) ==
            Min(Min(Cell(s1, s2, j, i - 1) + 1, Cell(s1, s2, j - 1, i) + 1),
                Cell(s1, s2, j - 1, i - 1) + Mismatch(s1[i - 1], s2[j - 1]))
  {
    assert Init(s1[..i]) == s1[..i - 1];
    assert Init(s2[..j]) == s2[..j - 1];
  }

  /**
   The three matrix loops. The matrix starts with arbitrary contents, so the proof also says that
   no cell is read before it has been written.
   */
  method FillMatrix(s1: string, s2: string) returns (track: array2<int>, distance: int)
    ensures track.Length0 == |s2| + 1 && track.Length1 == |s1| + 1
    ensures forall j, i :: 0 <= j <= |s2| && 0 <= i <= |s1| ==> track[j, i] == Cell(s1, s2, j, i)
    ensures distance == Cost(s1, s2)
    ensures IsEditDistance(distance, s1, s2)
  {
    track := new int[|s2| + 1, |s1| + 1];
    for i := 0 to |s1| + 1
      invariant forall k :: 0 <= k < i ==> track[0, k] == Cell(s1, s2, 0, k)
    {
      track[0, i] := i;
    }
    for j := 0 to |s2| + 1
      invariant forall k :: 0 <= k <= |s1| ==> track[0, k] == Cell(s1, s2, 0, k)
      invariant forall k :: 0 <= k < j ==> track[k, 0] == Cell(s1, s2, k, 0)
    {
      track[j, 0] := j;
    }
    for j := 1 to |s2| + 1
      invariant forall l, k :: 0 <= l < j && 0 <= k <= |s1| ==> track[l, k] == Cell(s1, s2, l, k)
      invariant forall l :: 0 <= l <= |s2| ==> track[l, 0] == Cell(s1, s2, l, 0)
    {
      for i := 1 to |s1| + 1
        invariant forall l, k :: 0 <= l < j && 0 <= k <= |s1| ==> track[l, k] == Cell(s1, s2, l, k)
        invariant forall l :: 0 <= l <= |s2| ==> track[l, 0] == Cell(s1, s2, l, 0)
        invariant forall k :: 0 <= k < i ==> track[j, k] == Cell(s1, s2, j, k)
      {
        var indicator := if s1[i - 1] == s2[j - 1] then 0 else 1;
        CellStep(s1, s2, j, i);
        track[j, i] := Min(Min(track[j, i - 1] + 1, track[j - 1, i] + 1), track[j - 1, i - 1] + indicator);
      }
    }
    distance := track[|s2|, |s1|];
    assert s1[..|s1|] == s1 && s2[..|s2|] == s2;
    CostIsEditDistance(s1, s2);
  }

  /** Every cell, not only the last, is the edit distance of the two prefixes it stands for. */
  lemma CellIsEditDistance(s1: string, s2: string, j: nat, i: nat)
    requires j <= |s2| && i <= |s1|
    ensures IsEditDistance(Cell(s1, s2, j, i), s1[..i], s2[..j])
  {
    CostIsEditDistance(s1[..i], s2[..j]);
  }
}
