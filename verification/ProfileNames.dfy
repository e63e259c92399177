/**
 The normalisers of the Kubernetes benchmark profile: run ids, DNS names and the DNS service
 address. Each returns None where the source raises ValueError.
 */
module ProfileNames {
  import opened Basics
  import opened PyText
  import Decimal

  /** Lower-casing leaves text without capitals alone. */
  predicate LowerText(s: string) {
    forall k :: 0 <= k < |s| ==> IsAlnum(s[k]) || s[k] == '-' || s[k] == '.'
  }

  ghost predicate FixesLower(lower: string -> string) {
    forall s :: LowerText(s) ==> lower(s) == s
  }

  // ----- Run ids -----

  predicate RunChar(c: char) { IsAlnum(c) || c == '-' }

  function SkipBad(s: string): (r: string)
    ensures |r| <= |s|
  {
    if s != "" && !RunChar(s[0]) then SkipBad(s[1..]) else s
  }

  /** `re.sub(r"[^a-z0-9-]+", "-", s)` */
  function ReplaceBad(s: string): string
    decreases |s|
  {
    if s == "" then ""
    else if RunChar(s[0]) then [s[0]] + ReplaceBad(s[1..])
    else "-" + ReplaceBad(SkipBad(s[1..]))
  }

  /** Only characters that a run id may not hold. */
  predicate AllBad(s: string) { forall k :: 0 <= k < |s| ==> !RunChar(s[k]) }

  lemma {:induction false} SkipBadAll(bad: string, b: string)
    requires AllBad(bad) && (b != "" ==> RunChar(b[0]))
    ensures SkipBad(bad + b) == b
  {
    if bad == "" {
      assert bad + b == b;
    } else {
      assert (bad + b)[1..] == bad[1..] + b;
      SkipBadAll(bad[1..], b);
    }
  }

  /** Each maximal run of refused characters becomes one dash. */
  lemma {:induction false} ReplaceBadRun(a: string, bad: string, b: string)
    requires RunText(a) && bad != "" && AllBad(bad) && (b != "" ==> RunChar(b[0]))
    ensures ReplaceBad(a + bad + b) == a + "-" + ReplaceBad(b)
  {
    var s := a + bad + b;
    if a == "" {
      assert s == bad + b && s[1..] == bad[1..] + b;
      SkipBadAll(bad[1..], b);
    } else {
      assert s[1..] == a[1..] + bad + b;
      ReplaceBadRun(a[1..], bad, b);
    }
  }

  function DropDashes(s: string): string {
    if s != "" && s[0] == '-' then DropDashes(s[1..]) else s
  }

  function DropDashesEnd(s: string): string {
    if s != "" && s[|s| - 1] == '-' then DropDashesEnd(s[..|s| - 1]) else s
  }

  /** `.strip("-")` */
  function StripDashes(s: string): string { DropDashesEnd(DropDashes(s)) }

  predicate AllDashes(s: string) { forall k :: 0 <= k < |s| ==> s[k] == '-' }

  lemma {:induction false} DropDashesCut(s: string) returns (k: nat)
    ensures k <= |s| && DropDashes(s) == s[k..] && AllDashes(s[..k])
    ensures k < |s| ==> s[k] != '-'
  {
    k := 0;
    if s != "" && s[0] == '-' {
      var j := DropDashesCut(s[1..]);
      k := j + 1;
      assert s[1..][j..] == s[k..] && s[..k] == [s[0]] + s[1..][..j];
    }
  }

  lemma {:induction false} DropDashesEndCut(s: string) returns (k: nat)
    ensures k <= |s| && DropDashesEnd(s) == s[..k] && AllDashes(s[k..])
    ensures k > 0 ==> s[k - 1] != '-'
  {
    k := |s|;
    if s != "" && s[|s| - 1] == '-' {
      var front := s[..|s| - 1];
      k := DropDashesEndCut(front);
      assert front[..k] == s[..k] && s[k..] == front[k..] + [s[|s| - 1]];
    }
  }

  /** Dashes, and dashes only, are cut off both ends. */
  lemma StripDashesCuts(s: string) returns (before: string, after: string)
    ensures var r := StripDashes(s);
            && s == before + r + after && AllDashes(before) && AllDashes(after)
            && (r != "" ==> r[0] != '-' && r[|r| - 1] != '-')
  {
    var k := DropDashesCut(s);
    var m := DropDashesEndCut(s[k..]);
    before, after := s[..k], s[k..][m..];
    TwoCuts(s, k, m);
  }

  /** `^[a-z0-9](?:[a-z0-9-]{0,38}[a-z0-9])?$` */
  predicate RunIdPattern(s: string) {
    && s != "" && IsAlnum(s[0])
    && (|s| > 1 ==>
          && |s| - 2 <= 38
          && (forall k :: 0 < k < |s| - 1 ==> RunChar(s[k]))
          && IsAlnum(s[|s| - 1]))
  }

  function Candidate(lower: string -> string, value: string): string {
    StripDashes(ReplaceBad(lower(value)))
  }

  function NormalizeRunId(lower: string -> string, value: string): Option<string> {
    var runId := Candidate(lower, value);
    if runId == "" || !RunIdPattern(runId) then None else Some(runId)
  }

  predicate RunText(s: string) { forall k :: 0 <= k < |s| ==> RunChar(s[k]) }

  lemma {:induction false} ReplaceBadIsRunText(s: string)
    ensures RunText(ReplaceBad(s))
    decreases |s|
  {
    if s == "" {
    } else if RunChar(s[0]) {
      ReplaceBadIsRunText(s[1..]);
    } else {
      ReplaceBadIsRunText(SkipBad(s[1..]));
    }
  }

  lemma {:induction false} DropDashesShape(s: string)
    requires RunText(s)
    ensures RunText(DropDashes(s)) && (DropDashes(s) != "" ==> IsAlnum(DropDashes(s)[0]))
  {
    if s != "" && s[0] == '-' {
      DropDashesShape(s[1..]);
    }
  }

  lemma {:induction false} DropDashesEndShape(s: string)
    requires RunText(s) && (s != "" ==> IsAlnum(s[0]))
    ensures var r := DropDashesEnd(s);
            RunText(r) && (r != "" ==> IsAlnum(r[0]) && IsAlnum(r[|r| - 1]))
  {
    if s != "" && s[|s| - 1] == '-' {
      DropDashesEndShape(s[..|s| - 1]);
    }
  }

  /** After collapsing and stripping, only an empty or too long run id is rejected. */
  lemma RunIdRejection(lower: string -> string, value: string)
    ensures NormalizeRunId(lower, value) == None <==>
              Candidate(lower, value) == "" || |Candidate(lower, value)| > 40
  {
    ReplaceBadIsRunText(lower(value));
    DropDashesShape(ReplaceBad(lower(value)));
    DropDashesEndShape(DropDashes(ReplaceBad(lower(value))));
  }

  lemma {:induction false} ReplaceBadFixed(s: string)
    requires RunText(s)
    ensures ReplaceBad(s) == s
  {
    if s != "" {
      ReplaceBadFixed(s[1..]);
    }
  }

  /** The accepted run ids are exactly the values the normaliser returns unchanged. */
  lemma RunIdFixpoints(lower: string -> string, s: string)
    requires FixesLower(lower)
    ensures NormalizeRunId(lower, s) == Some(s) <==> RunIdPattern(s)
  {
    if RunIdPattern(s) {
      assert RunText(s) && LowerText(s);
      ReplaceBadFixed(s);
    }
  }

  /** `validate_profile` re-normalises the run id and compares: it always agrees with `build_profile`. */
  lemma RunIdIdempotent(lower: string -> string, value: string)
    requires FixesLower(lower) && NormalizeRunId(lower, value).Some?
    ensures NormalizeRunId(lower, NormalizeRunId(lower, value).value) == NormalizeRunId(lower, value)
  {
    RunIdFixpoints(lower, NormalizeRunId(lower, value).value);
  }

  // ----- The namespace -----

  const NAMESPACE_PREFIX := "forgeos-benchmark-"

  function NamespaceOf(runId: string): string { NAMESPACE_PREFIX + runId }

  /** The namespace is a DNS label (section 2.3.4 of RFC 1035: 63 octets) with room to spare, one per run id. */
  lemma NamespaceIsLabel(a: string, b: string)
    requires RunIdPattern(a) && RunIdPattern(b)
    ensures |NamespaceOf(a)| <= 58 && DnsPattern(NamespaceOf(a))
    ensures NamespaceOf(a) == NamespaceOf(b) <==> a == b
  {
    var n := NamespaceOf(a);
    assert |NAMESPACE_PREFIX| == 18;
    assert LowerText(NAMESPACE_PREFIX);
    assert forall k :: 18 <= k < |n| ==> n[k] == a[k - 18];
    assert n[18..] == a && NamespaceOf(b)[18..] == b;
  }

  // ----- DNS names -----

  predicate DnsChar(c: char) { IsAlnum(c) || c == '.' || c == '-' }

  /** `^[a-z0-9](?:[a-z0-9.-]{0,61}[a-z0-9])?$` */
  predicate DnsPattern(s: string) {
    && s != "" && IsAlnum(s[0])
    && (|s| > 1 ==>
          && |s| - 2 <= 61
          && (forall k :: 0 < k < |s| - 1 ==> DnsChar(s[k]))
          && IsAlnum(s[|s| - 1]))
  }

  function NormalizeDnsName(lower: string -> string, value: string): Option<string> {
    var normalized := lower(Strip(value));
    if normalized == "" || |normalized| > 63 || !DnsPattern(normalized) then None else Some(normalized)
  }

  /** Accepted are exactly the stripped, lower-cased labels of 1 to 63 characters. */
  lemma DnsNameExact(lower: string -> string, value: string)
    ensures var s := lower(Strip(value));
            NormalizeDnsName(lower, value) ==
            if 1 <= |s| <= 63 && (forall c :: c in s ==> IsAlnum(c) || c == '.' || c == '-') &&
               IsAlnum(s[0]) && IsAlnum(s[|s| - 1])
            then Some(s) else None
  {
    var s := lower(Strip(value));
    if DnsPattern(s) {
      forall c | c in s ensures DnsChar(c) {
        var k :| 0 <= k < |s| && s[k] == c;
      }
    }
  }

  lemma DnsNameIdempotent(lower: string -> string, value: string)
    requires FixesLower(lower) && NormalizeDnsName(lower, value).Some?
    ensures NormalizeDnsName(lower, NormalizeDnsName(lower, value).value) == NormalizeDnsName(lower, value)
  {
    var s := NormalizeDnsName(lower, value).value;
    assert LowerText(s);
    assert !IsSpace(s[0]) && !IsSpace(s[|s| - 1]);
    assert Strip(s) == s;
  }

  // ----- The DNS service address -----

  /** The dot-separated parts; `part` is the part being read. */
  function SplitDots(s: string, part: string): seq<string>
    decreases |s|
  {
    if s == "" then [part]
    else if s[0] == '.' then [part] + SplitDots(s[1..], "")
    else SplitDots(s[1..], part + [s[0]])
  }

  function JoinDots(parts: seq<string>): string {
    if parts == [] then "" else if |parts| == 1 then parts[0] else parts[0] + "." + JoinDots(parts[1..])
  }

  /** One to three digits, no leading zero, at most 255. */
  predicate IsOctet(s: string) {
    |s| <= 3 && Decimal.Canonical(s) && Decimal.FromText(s).Some? && Decimal.FromText(s).value <= 255
  }

  /** The four octets of an IPv4 address in dotted decimal notation. */
  function ParseIpv4(s: string): Option<seq<nat>> {
    var parts := SplitDots(s, "");
    if |parts| == 4 && forall k :: 0 <= k < 4 ==> IsOctet(parts[k])
    then Some(seq(4, k requires 0 <= k < 4 => OctetValue(parts[k]))) else None
  }

  function OctetValue(s: string): nat {
    if Decimal.FromText(s).Some? then Decimal.FromText(s).value else 0
  }

  function FormatIpv4(octets: seq<nat>): string {
    JoinDots(seq(|octets|, k requires 0 <= k < |octets| => Decimal.ToText(octets[k])))
  }

  function NormalizeServiceIp(value: string): Option<string> {
    var address := ParseIpv4(Strip(value));
    if address == None then None else Some(FormatIpv4(address.value))
  }

  lemma {:induction false} JoinSplit(s: string, part: string)
    ensures SplitDots(s, part) != []
    ensures JoinDots(SplitDots(s, part)) == part + s
    decreases |s|
  {
    if s == "" {
    } else if s[0] == '.' {
      JoinSplit(s[1..], "");
      assert ([part] + SplitDots(s[1..], ""))[1..] == SplitDots(s[1..], "");
      assert part + s == part + "." + s[1..];
    } else {
      JoinSplit(s[1..], part + [s[0]]);
      assert part + s == part + [s[0]] + s[1..];
    }
  }

  /** Formatting a parsed address gives back the text that was parsed. */
  lemma ServiceIpKeepsText(value: string)
    ensures NormalizeServiceIp(value).Some? ==> NormalizeServiceIp(value).value == Strip(value)
  {
    var s := Strip(value);
    var parts := SplitDots(s, "");
    JoinSplit(s, "");
    var address := ParseIpv4(s);
    if address.Some? {
      var texts := seq(4, k requires 0 <= k < 4 => Decimal.ToText(address.value[k]));
      forall k | 0 <= k < 4 ensures texts[k] == parts[k] {
        Decimal.CanonicalRoundTrip(parts[k]);
      }
      assert texts == parts;
    }
  }

  predicate Dotless(s: string) { forall k :: 0 <= k < |s| ==> s[k] != '.' }

  lemma {:induction false} SplitDotless(s: string, part: string)
    requires Dotless(s)
    ensures SplitDots(s, part) == [part + s]
    decreases |s|
  {
    if s != "" {
      SplitDotless(s[1..], part + [s[0]]);
      assert part + [s[0]] + s[1..] == part + s;
    } else {
      assert part + s == part;
    }
  }

  lemma {:induction false} SplitAtDot(s: string, part: string, rest: string)
    requires Dotless(s)
    ensures SplitDots(s + "." + rest, part) == [part + s] + SplitDots(rest, "")
    decreases |s|
  {
    var t := s + "." + rest;
    if s == "" {
      assert t[1..] == rest && part + s == part;
    } else {
      assert t[1..] == s[1..] + "." + rest;
      SplitAtDot(s[1..], part + [s[0]], rest);
      assert part + [s[0]] + s[1..] == part + s;
    }
  }

  /** Splitting undoes joining for parts without dots. */
  lemma {:induction false} SplitJoin(parts: seq<string>)
    requires parts != [] && forall k :: 0 <= k < |parts| ==> Dotless(parts[k])
    ensures SplitDots(JoinDots(parts), "") == parts
  {
    if |parts| == 1 {
      SplitDotless(parts[0], "");
      assert "" + parts[0] == parts[0];
    } else {
      SplitJoin(parts[1..]);
      SplitAtDot(parts[0], "", JoinDots(parts[1..]));
      assert JoinDots(parts) == parts[0] + "." + JoinDots(parts[1..]);
      assert "" + parts[0] == parts[0];
    }
  }

  lemma OctetText(n: nat)
    requires n <= 255
    ensures IsOctet(Decimal.ToText(n)) && Dotless(Decimal.ToText(n)) && OctetValue(Decimal.ToText(n)) == n
  {
    Decimal.RoundTrip(n);
    Decimal.TextIsCanonical(n);
    Decimal.TextLength(n);
    assert forall c :: Decimal.IsDigit(c) ==> c != '.';
  }

  lemma FormattedIsParsed(octets: seq<nat>)
    requires |octets| == 4 && forall k :: 0 <= k < 4 ==> octets[k] <= 255
    ensures ParseIpv4(FormatIpv4(octets)) == Some(octets)
  {
    var parts := seq(4, k requires 0 <= k < 4 => Decimal.ToText(octets[k]));
    forall k | 0 <= k < 4 ensures IsOctet(parts[k]) && Dotless(parts[k]) && OctetValue(parts[k]) == octets[k] {
      OctetText(octets[k]);
    }
    SplitJoin(parts);
    assert FormatIpv4(octets) == JoinDots(parts) by {
      assert parts == seq(|octets|, k requires 0 <= k < |octets| => Decimal.ToText(octets[k]));
    }
    assert seq(4, k requires 0 <= k < 4 => OctetValue(parts[k])) == octets;
  }

  /** The stripped text is four numbers up to 255 in decimal notation, joined by dots. */
  ghost predicate IsDottedQuad(s: string) {
    exists a: nat, b: nat, c: nat, d: nat ::
      a <= 255 && b <= 255 && c <= 255 && d <= 255 && s == FormatIpv4([a, b, c, d])
  }

  /** Accepted are exactly the addresses in dotted decimal notation. */
  lemma ServiceIpExact(value: string)
    ensures NormalizeServiceIp(value) == (if IsDottedQuad(Strip(value)) then Some(Strip(value)) else None)
  {
    var s := Strip(value);
    ServiceIpKeepsText(value);
    var address := ParseIpv4(s);
    if address.Some? {
      var o := address.value;
      assert o == [o[0], o[1], o[2], o[3]];
      assert s == FormatIpv4([o[0], o[1], o[2], o[3]]);
    }
    if IsDottedQuad(s) {
      var a: nat, b: nat, c: nat, d: nat :|
        a <= 255 && b <= 255 && c <= 255 && d <= 255 && s == FormatIpv4([a, b, c, d]);
      FormattedIsParsed([a, b, c, d]);
    }
  }

  lemma ServiceIpIdempotent(value: string)
    ensures NormalizeServiceIp(value).Some? ==>
              NormalizeServiceIp(NormalizeServiceIp(value).value) == NormalizeServiceIp(value)
  {
    ServiceIpKeepsText(value);
    StripTwice(value);
  }
}
