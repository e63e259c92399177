/**
 Building and validating the Kubernetes benchmark profile, as far as it depends on the caller's
 arguments: the names, the addresses and every string leaf of the manifests that comes from them.
 */
module ProfileBuild {
  import opened Basics
  import opened ProfileNames
  import opened PyText
  import Decimal

  datatype Args = Args(
    runId: string, context7Secret: string, omnirouteSecret: string, targetNamespace: string,
    services: seq<string>, runnerImage: string, projectId: int, dnsServiceIp: string)

  /** `services` and what is derived from it are in the order backend, redis, postgres, omniroute. */
  datatype Profile = Profile(
    runId: string, namespace: string, targetNamespace: string, services: seq<string>, fqdns: seq<string>,
    config: seq<string>, dnsServiceIp: string, dnsBlock: string, egressNamespace: string, egressBlock: string,
    manifestNamespaces: seq<string>, secretNames: seq<string>, image: string, projectText: string)

  const SERVICES := 4

  /** Namespaced manifests: all nine kinds but the Namespace itself. */
  const MANIFESTS := 8

  function Fqdn(service: string, namespace: string): string { service + "." + namespace + ".svc.cluster.local" }

  function Fqdns(services: seq<string>, namespace: string): (r: seq<string>)
    ensures |r| == |services| && forall k :: 0 <= k < |r| ==> r[k] == Fqdn(services[k], namespace)
  {
    seq(|services|, k requires 0 <= k < |services| => Fqdn(services[k], namespace))
  }

  /** FORGEOS_BACKEND_URL, REDIS_HOST, POSTGRES_HOST and OMNIROUTE_URL. */
  function Config(fqdns: seq<string>): seq<string>
    requires |fqdns| == SERVICES
  {
    ["http://" + fqdns[0] + ":8000", fqdns[1], fqdns[2], "http://" + fqdns[3] + ":20128/v1"]
  }

  predicate SingleLine(s: string) { '\n' !in s && '\r' !in s }

  /** All names normalised, or None as soon as one is refused. */
  function NormalizeAll(lower: string -> string, names: seq<string>): (r: Option<seq<string>>)
    ensures r.Some? ==> |r.value| == |names| &&
                        forall k :: 0 <= k < |names| ==> NormalizeDnsName(lower, names[k]) == Some(r.value[k])
  {
    if names == [] then Some([])
    else
      var first, rest := NormalizeDnsName(lower, names[0]), NormalizeAll(lower, names[1..]);
      if first == None || rest == None then None else Some([first.value] + rest.value)
  }

  function Build(lower: string -> string, a: Args): Option<Profile>
    requires |a.services| == SERVICES
  {
    var runId := NormalizeRunId(lower, a.runId);
    var names := NormalizeAll(lower, [a.context7Secret, a.omnirouteSecret, a.targetNamespace] + a.services);
    var ip := NormalizeServiceIp(a.dnsServiceIp);
    if runId == None || names == None || ip == None then None
    else if Strip(a.runnerImage) == "" || !SingleLine(a.runnerImage) || a.projectId < 1 then None
    else
      var namespace, target, services := NamespaceOf(runId.value), names.value[2], names.value[3..];
      var fqdns, block := Fqdns(services, target), ip.value + "/32";
      Some(Profile(runId.value, namespace, target, services, fqdns, Config(fqdns), ip.value, block, target, block,
                   seq(MANIFESTS, _ => namespace), names.value[..2], a.runnerImage, Decimal.ToText(a.projectId)))
  }

  // ----- The text scan -----

  /** The substrings refused in the serialised manifests; `data:` always occurs there, so "Secret" is one of them. */
  const FORBIDDEN: seq<string> := [
    "hostPath", "hostNetwork: true", "hostPID: true", "hostIPC: true", "privileged: true", "stringData:", "Secret"]

  predicate Tripped(text: string) { exists f :: 0 <= f < |FORBIDDEN| && Contains(text, FORBIDDEN[f]) }

  /** The string leaves of the manifests that depend on the arguments. */
  function Leaves(p: Profile): seq<string> {
    [p.runId, p.namespace, p.egressNamespace, p.egressBlock, p.projectText, p.image] +
    p.manifestNamespaces + p.config + p.secretNames
  }

  predicate ScanPasses(p: Profile) {
    forall k :: 0 <= k < |Leaves(p)| ==> !Tripped(Leaves(p)[k])
  }

  /** The checks of `validate_profile` other than the text scan. */
  predicate Consistent(lower: string -> string, p: Profile) {
    && NormalizeRunId(lower, p.runId) == Some(p.runId)
    && p.namespace == NamespaceOf(p.runId)
    && NormalizeDnsName(lower, p.targetNamespace).Some?
    && |p.services| == SERVICES
    && NormalizeAll(lower, p.services).Some?
    && p.fqdns == Fqdns(p.services, p.targetNamespace)
    && p.config == Config(Fqdns(p.services, p.targetNamespace))
    && NormalizeServiceIp(p.dnsServiceIp).Some?
    && p.dnsBlock == NormalizeServiceIp(p.dnsServiceIp).value + "/32"
    && p.egressNamespace == p.targetNamespace
    && p.egressBlock == p.dnsBlock
    && (forall k :: 0 <= k < |p.manifestNamespaces| ==> p.manifestNamespaces[k] == p.namespace)
  }

  predicate Validate(lower: string -> string, p: Profile) { Consistent(lower, p) && ScanPasses(p) }

  /** Text without capitals and spaces. */
  predicate ScanSafe(s: string) { forall k :: 0 <= k < |s| ==> !('A' <= s[k] <= 'Z') && s[k] != ' ' }

  lemma NotInSafe(text: string, part: string, k: nat)
    requires ScanSafe(text) && k < |part| && ('A' <= part[k] <= 'Z' || part[k] == ' ')
    ensures !Contains(text, part)
  {
    forall i | 0 <= i <= |text| ensures !PartAt(text, part, i) {
      if i + |part| <= |text| {
        assert text[i..i + |part|][k] == text[i + k];
      }
    }
  }

  /** Each forbidden substring has a capital or a space. */
  lemma SafeNotTripped(text: string)
    requires ScanSafe(text)
    ensures !Tripped(text)
  {
    NotInSafe(text, "hostPath", 4);
    NotInSafe(text, "hostNetwork: true", 4);
    NotInSafe(text, "hostPID: true", 4);
    NotInSafe(text, "hostIPC: true", 4);
    NotInSafe(text, "privileged: true", 11);
    NotInSafe(text, "stringData:", 6);
    NotInSafe(text, "Secret", 0);
  }

  lemma {:induction false} NumberIsSafe(n: nat)
    ensures ScanSafe(Decimal.ToText(n))
  {
    if n < 10 {
      Decimal.DigitOf(n);
    } else {
      NumberIsSafe(n / 10);
      Decimal.DigitOf(n % 10);
    }
  }

  lemma NameIsSafe(s: string)
    requires DnsPattern(s)
    ensures ScanSafe(s)
  {
  }

  lemma {:induction false} JoinIsSafe(parts: seq<string>)
    requires forall k :: 0 <= k < |parts| ==> ScanSafe(parts[k])
    ensures ScanSafe(JoinDots(parts))
  {
    if |parts| > 1 {
      JoinIsSafe(parts[1..]);
    }
  }

  lemma AddressIsSafe(value: string)
    requires NormalizeServiceIp(value).Some?
    ensures ScanSafe(NormalizeServiceIp(value).value)
  {
    var octets := ParseIpv4(Strip(value)).value;
    forall n: nat ensures ScanSafe(Decimal.ToText(n)) {
      NumberIsSafe(n);
    }
    JoinIsSafe(seq(|octets|, k requires 0 <= k < |octets| => Decimal.ToText(octets[k])));
  }

  lemma NormalizedAgain(lower: string -> string, names: seq<string>, r: seq<string>)
    requires FixesLower(lower) && |r| == |names|
    requires forall k :: 0 <= k < |names| ==> NormalizeDnsName(lower, names[k]) == Some(r[k])
    ensures NormalizeAll(lower, r) == Some(r)
    decreases |r|
  {
    if r != [] {
      DnsNameIdempotent(lower, names[0]);
      NormalizedAgain(lower, names[1..], r[1..]);
      assert r == [r[0]] + r[1..];
    }
  }

  lemma ConfigIsSafe(services: seq<string>, namespace: string)
    requires |services| == SERVICES && ScanSafe(namespace) && forall k :: 0 <= k < SERVICES ==> ScanSafe(services[k])
    ensures forall k :: 0 <= k < SERVICES ==> ScanSafe(Config(Fqdns(services, namespace))[k])
  {
    forall k | 0 <= k < SERVICES ensures ScanSafe(Fqdn(services[k], namespace)) {
    }
  }

  lemma NamesAreSafe(lower: string -> string, names: seq<string>)
    requires NormalizeAll(lower, names).Some?
    ensures forall k :: 0 <= k < |names| ==> ScanSafe(NormalizeAll(lower, names).value[k])
  {
    var r := NormalizeAll(lower, names).value;
    forall k | 0 <= k < |names| ensures ScanSafe(r[k]) {
      assert DnsPattern(r[k]);
      NameIsSafe(r[k]);
    }
  }

  lemma RunIdIsSafe(runId: string)
    requires RunIdPattern(runId)
    ensures ScanSafe(runId) && ScanSafe(NamespaceOf(runId))
  {
    NamespaceIsLabel(runId, runId);
    NameIsSafe(NamespaceOf(runId));
    NameIsSafe(runId);
  }

  /** Every argument-dependent field but the image is free of capitals and spaces. */
  lemma BuiltFieldsAreSafe(lower: string -> string, a: Args)
    requires |a.services| == SERVICES && Build(lower, a).Some?
    ensures var p := Build(lower, a).value;
            && ScanSafe(p.runId) && ScanSafe(p.namespace) && ScanSafe(p.targetNamespace)
            && ScanSafe(p.dnsBlock) && ScanSafe(p.projectText)
            && (forall k :: 0 <= k < SERVICES ==> ScanSafe(p.config[k]))
            && |p.secretNames| == 2 && ScanSafe(p.secretNames[0]) && ScanSafe(p.secretNames[1])
  {
    var p := Build(lower, a).value;
    var all := [a.context7Secret, a.omnirouteSecret, a.targetNamespace] + a.services;
    var names := NormalizeAll(lower, all).value;
    RunIdIsSafe(p.runId);
    NamesAreSafe(lower, all);
    forall k | 0 <= k < SERVICES ensures ScanSafe(p.services[k]) {
      assert p.services[k] == names[k + 3];
    }
    ConfigIsSafe(p.services, p.targetNamespace);
    AddressIsSafe(a.dnsServiceIp);
    NumberIsSafe(a.projectId);
  }

  /** Every leaf that comes from a normalised name, address or number passes the scan. */
  lemma OnlyTheImageCanTrip(lower: string -> string, a: Args)
    requires |a.services| == SERVICES && Build(lower, a).Some?
    ensures var p := Build(lower, a).value;
            forall k :: 0 <= k < |Leaves(p)| && k != 5 ==> !Tripped(Leaves(p)[k])
  {
    BuiltFieldsAreSafe(lower, a);
    var leaves := Leaves(Build(lower, a).value);
    forall k | 0 <= k < |leaves| && k != 5 ensures !Tripped(leaves[k]) {
      assert ScanSafe(leaves[k]);
      SafeNotTripped(leaves[k]);
    }
  }

  /** Normalising is idempotent, so validation recomputes exactly what building put there. */
  lemma BuiltIsConsistent(lower: string -> string, a: Args)
    requires FixesLower(lower) && |a.services| == SERVICES && Build(lower, a).Some?
    ensures Consistent(lower, Build(lower, a).value)
  {
    var p := Build(lower, a).value;
    var all := [a.context7Secret, a.omnirouteSecret, a.targetNamespace] + a.services;
    var names := NormalizeAll(lower, all).value;
    RunIdIdempotent(lower, a.runId);
    DnsNameIdempotent(lower, all[2]);
    ServiceIpIdempotent(a.dnsServiceIp);
    assert names[3..] == p.services;
    forall k | 0 <= k < SERVICES ensures NormalizeDnsName(lower, a.services[k]) == Some(p.services[k]) {
      assert all[k + 3] == a.services[k];
    }
    NormalizedAgain(lower, a.services, p.services);
  }

  lemma ScanIsAboutTheImage(lower: string -> string, a: Args)
    requires |a.services| == SERVICES && Build(lower, a).Some?
    ensures ScanPasses(Build(lower, a).value) <==> !Tripped(a.runnerImage)
  {
    OnlyTheImageCanTrip(lower, a);
    assert Leaves(Build(lower, a).value)[5] == a.runnerImage;
  }

  /** The refused substrings, one by one. */
  predicate HoldsRefused(text: string) {
    || Contains(text, "hostPath") || Contains(text, "hostNetwork: true") || Contains(text, "hostPID: true")
    || Contains(text, "hostIPC: true") || Contains(text, "privileged: true") || Contains(text, "stringData:")
    || Contains(text, "Secret")
  }

  lemma TrippedMeansRefused(text: string)
    ensures Tripped(text) <==> HoldsRefused(text)
  {
    assert FORBIDDEN[0] == "hostPath" && FORBIDDEN[1] == "hostNetwork: true" && FORBIDDEN[2] == "hostPID: true";
    assert FORBIDDEN[3] == "hostIPC: true" && FORBIDDEN[4] == "privileged: true";
    assert FORBIDDEN[5] == "stringData:" && FORBIDDEN[6] == "Secret";
  }

  /** A profile is built exactly from acceptable arguments. */
  lemma BuiltExactly(lower: string -> string, a: Args)
    requires |a.services| == SERVICES
    ensures Build(lower, a).Some? <==>
              && NormalizeRunId(lower, a.runId).Some?
              && NormalizeDnsName(lower, a.context7Secret).Some? && NormalizeDnsName(lower, a.omnirouteSecret).Some?
              && NormalizeDnsName(lower, a.targetNamespace).Some?
              && (forall k :: 0 <= k < SERVICES ==> NormalizeDnsName(lower, a.services[k]).Some?)
              && NormalizeServiceIp(a.dnsServiceIp).Some?
              && !Blank(a.runnerImage) && (forall c :: c in a.runnerImage ==> c != '\n' && c != '\r')
              && a.projectId > 0
  {
    var all := [a.context7Secret, a.omnirouteSecret, a.targetNamespace] + a.services;
    StripBlank(a.runnerImage);
    NormalizeAllExactly(lower, all);
    assert forall k :: 0 <= k < SERVICES ==> all[k + 3] == a.services[k];
    assert forall k :: 3 <= k < |all| ==> all[k] == a.services[k - 3];
    assert all[0] == a.context7Secret && all[1] == a.omnirouteSecret && all[2] == a.targetNamespace;
  }

  lemma {:induction false} NormalizeAllExactly(lower: string -> string, names: seq<string>)
    ensures NormalizeAll(lower, names).Some? <==>
            forall k :: 0 <= k < |names| ==> NormalizeDnsName(lower, names[k]).Some?
  {
    if names != [] {
      NormalizeAllExactly(lower, names[1..]);
      assert forall k :: 1 <= k < |names| ==> names[k] == names[1..][k - 1];
    }
  }

  /** Where each argument ends up. */
  lemma BuiltFields(lower: string -> string, a: Args)
    requires |a.services| == SERVICES && Build(lower, a).Some?
    ensures var p := Build(lower, a).value;
            && NormalizeRunId(lower, a.runId) == Some(p.runId) && p.namespace == "forgeos-benchmark-" + p.runId
            && NormalizeDnsName(lower, a.targetNamespace) == Some(p.targetNamespace)
            && |p.secretNames| == 2
            && NormalizeDnsName(lower, a.context7Secret) == Some(p.secretNames[0])
            && NormalizeDnsName(lower, a.omnirouteSecret) == Some(p.secretNames[1])
            && |p.services| == SERVICES
            && (forall k :: 0 <= k < SERVICES ==> NormalizeDnsName(lower, a.services[k]) == Some(p.services[k]))
            && |p.manifestNamespaces| == 8 && (forall n :: n in p.manifestNamespaces ==> n == p.namespace)
            && p.image == a.runnerImage && p.projectText == Decimal.ToText(a.projectId)
            && NormalizeServiceIp(a.dnsServiceIp) == Some(p.dnsServiceIp) && p.dnsBlock == p.dnsServiceIp + "/32"
  {
    var all := [a.context7Secret, a.omnirouteSecret, a.targetNamespace] + a.services;
    var p := Build(lower, a).value;
    assert all[0] == a.context7Secret && all[1] == a.omnirouteSecret && all[2] == a.targetNamespace;
    assert forall k :: 0 <= k < SERVICES ==> all[k + 3] == a.services[k];
  }

  /** The addresses in the configuration. */
  predicate Hosts(p: Profile) {
    |p.services| == SERVICES && |p.config| == SERVICES && |p.fqdns| == SERVICES &&
    var domain := "." + p.targetNamespace + ".svc.cluster.local";
    && (forall k :: 0 <= k < SERVICES ==> p.fqdns[k] == p.services[k] + domain)
    && p.config[0] == "http://" + (p.services[0] + domain) + ":8000"
    && p.config[1] == p.services[1] + domain
    && p.config[2] == p.services[2] + domain
    && p.config[3] == "http://" + (p.services[3] + domain) + ":20128/v1"
  }

  lemma FqdnText(service: string, namespace: string)
    ensures Fqdn(service, namespace) == service + ("." + namespace + ".svc.cluster.local")
  {
  }

  lemma LeavesAreClean(p: Profile)
    requires ScanPasses(p)
    ensures forall s :: s in Leaves(p) ==> !HoldsRefused(s)
    ensures [p.runId, p.namespace, p.egressNamespace, p.egressBlock, p.projectText, p.image] <= Leaves(p)
    ensures forall s :: s in p.config || s in p.manifestNamespaces || s in p.secretNames ==> s in Leaves(p)
  {
    forall s | s in Leaves(p) ensures !HoldsRefused(s) {
      TrippedMeansRefused(s);
    }
  }

  /** Whatever passes validation has every derived field as its names and addresses require. */
  lemma ValidatedFields(lower: string -> string, p: Profile)
    requires Validate(lower, p)
    ensures p.namespace == "forgeos-benchmark-" + p.runId && RunIdPattern(p.runId)
    ensures NormalizeDnsName(lower, p.targetNamespace).Some?
    ensures |p.services| == 4 && forall k :: 0 <= k < 4 ==> NormalizeDnsName(lower, p.services[k]).Some?
    ensures Hosts(p)
    ensures NormalizeServiceIp(p.dnsServiceIp).Some? && p.dnsBlock == NormalizeServiceIp(p.dnsServiceIp).value + "/32"
    ensures p.egressNamespace == p.targetNamespace && p.egressBlock == p.dnsBlock
    ensures forall n :: n in p.manifestNamespaces ==> n == p.namespace
    ensures !HoldsRefused(p.image) && !HoldsRefused(p.runId) && !HoldsRefused(p.namespace)
    ensures !HoldsRefused(p.egressNamespace) && !HoldsRefused(p.egressBlock) && !HoldsRefused(p.projectText)
    ensures forall s :: s in p.config || s in p.manifestNamespaces || s in p.secretNames ==> !HoldsRefused(s)
  {
    LeavesAreClean(p);
    forall k | 0 <= k < SERVICES
      ensures p.fqdns[k] == p.services[k] + ("." + p.targetNamespace + ".svc.cluster.local")
    {
      FqdnText(p.services[k], p.targetNamespace);
    }
  }

  /** No derived field of a built profile can be changed without being noticed. */
  lemma TamperingIsNoticed(lower: string -> string, a: Args, p: Profile)
    requires |a.services| == SERVICES && Build(lower, a).Some? && Validate(lower, p)
    requires var b := Build(lower, a).value;
             p.runId == b.runId && p.targetNamespace == b.targetNamespace && p.services == b.services &&
             p.dnsServiceIp == b.dnsServiceIp && |p.manifestNamespaces| == |b.manifestNamespaces|
    ensures var b := Build(lower, a).value;
            p == b.(image := p.image, projectText := p.projectText, secretNames := p.secretNames)
  {
    var b := Build(lower, a).value;
    ServiceIpIdempotent(a.dnsServiceIp);
    assert p.manifestNamespaces == b.manifestNamespaces;
  }

  /** A built profile passes validation exactly when its image string holds no refused substring. */
  lemma BuiltProfilesValidate(lower: string -> string, a: Args)
    requires FixesLower(lower) && |a.services| == SERVICES
    ensures Build(lower, a).Some? ==> (Validate(lower, Build(lower, a).value) <==> !HoldsRefused(a.runnerImage))
  {
    TrippedMeansRefused(a.runnerImage);
    if Build(lower, a).Some? {
      BuiltIsConsistent(lower, a);
      ScanIsAboutTheImage(lower, a);
    }
  }
}
