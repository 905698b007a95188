/** Merging a workspace's provider policy with a request's (internal/server/routing_policy.go)
    and what the router then admits (internal/store/intelligent_router.go). */
module RoutingPolicy {
  import opened Wrappers
  import opened Text
  import Decimals

  // ----- lists of names

  /** The distinct non-blank normal forms, in order of first appearance. */
  function UniqueLowered(values: seq<string>): (r: seq<string>)
    ensures Tidy(r)
    ensures forall name :: name in r <==> Names(values, name)
  {
    if values == [] then []
    else
      var before, last := values[..|values| - 1], Normal(values[|values| - 1]);
      var r := UniqueLowered(before);
      assert values == before + [values[|values| - 1]];
      NormalIdempotent(values[|values| - 1]);
      if last == "" || last in r then r else r + [last]
  }

  // Some entry of the list normalizes to this name.
  ghost predicate Names(values: seq<string>, name: string) {
    name != "" && exists v | v in values :: Normal(v) == name
  }

  // A list as the settings endpoint stores it: normal, non-blank, without repetition.
  ghost predicate Tidy(values: seq<string>) {
    && (forall v | v in values :: v != "" && Normal(v) == v)
    && (forall i, j | 0 <= i < j < |values| :: values[i] != values[j])
  }

  method UniqueLower(values: seq<string>) returns (out: seq<string>)
    ensures out == UniqueLowered(values)
  {
    out := [];
    var seen: set<string> := {};
    for i := 0 to |values|
      invariant out == UniqueLowered(values[..i])
      invariant forall name :: name in seen <==> name in out
    {
      assert values[..i + 1][..i] == values[..i];
      var value := Normal(values[i]);
      if value == "" {
        continue;
      }
      if value in seen {
        continue;
      }
      seen := seen + {value};
      out := out + [value];
    }
    assert values[..|values|] == values;
  }

  // The entries of left that right has too.
  function Common(left: seq<string>, right: seq<string>): (r: seq<string>)
    ensures forall name :: name in r <==> name in left && name in right
    ensures Tidy(left) ==> Tidy(r)
  {
    if left == [] then []
    else
      var before, last := left[..|left| - 1], left[|left| - 1];
      assert left == before + [last];
      Common(before, right) + if last in right then [last] else []
  }

  function Restricted(left: seq<string>, right: seq<string>): (r: seq<string>)
    ensures Tidy(r)
  {
    var l, r := UniqueLowered(left), UniqueLowered(right);
    if l == [] then r else if r == [] then l else Common(l, r)
  }

  method RestrictiveStrings(left: seq<string>, right: seq<string>) returns (out: seq<string>)
    ensures out == Restricted(left, right)
  {
    var l := UniqueLower(left);
    var r := UniqueLower(right);
    if |l| == 0 {
      return r;
    }
    if |r| == 0 {
      return l;
    }
    out := [];
    for i := 0 to |l|
      invariant out == Common(l[..i], r)
    {
      assert l[..i + 1][..i] == l[..i];
      ghost var before := out;
      for j := 0 to |r|
        invariant out == before + if l[i] in r[..j] then [l[i]] else []
      {
        if l[i] == r[j] {
          out := out + [l[i]];
        }
      }
      assert r[..|r|] == r;
    }
    assert l[..|l|] == l;
  }

  function RestrictiveBool(left: Option<bool>, right: Option<bool>, default: bool): Option<bool> {
    var value := if left.Some? then left.value else default;
    Some(if right == Some(false) then false else if left.None? && right.Some? then right.value else value)
  }

  function LowerDecimal(left: Option<string>, right: Option<string>): Option<string> {
    if left.None? then right
    else if right.None? then left
    else
      var c := Decimals.Compare(left.value, right.value);
      if c.Ok? && c.value <= 0 then left else right
  }

  // ----- policies

  datatype Policy = Policy(
    order: seq<string>, only: seq<string>, ignore: seq<string>, allowFallbacks: Option<bool>, requireParameters: bool,
    dataCollection: string, zdr: bool, quantizations: seq<string>, sort: string, minThroughput: Option<string>,
    maxLatency: Option<int>, maxInputPrice: Option<string>, maxOutputPrice: Option<string>, capabilities: seq<string>,
    regions: seq<string>, useSharedCapacity: Option<bool>)

  // What the merge reads of a workspace's privacy settings.
  datatype Privacy = Privacy(zdr: bool, dataCollection: string)

  predicate Fold(a: string, b: string) { Lower(a) == Lower(b) }

  predicate Denies(collection: string) { Fold(collection, "deny") }

  function Collection(workspace: string, request: string, privacy: string): string {
    if Denies(workspace) || Denies(request) || Denies(privacy) then "deny"
    else if request != "" then request
    else workspace
  }

  // Preferences are replaced.
  function MinThroughput(workspace: Option<string>, request: Option<string>): Option<string> {
    if request.Some? then request else workspace
  }

  function MaxLatency(workspace: Option<int>, request: Option<int>): Option<int> {
    if request.Some? then request else workspace
  }

  function Merged(workspace: Policy, request: Policy, allowedRegions: seq<string>, privacy: Privacy): Policy {
    Policy(
      if request.order != [] then request.order else workspace.order,
      Restricted(workspace.only, request.only),
      UniqueLowered(workspace.ignore + request.ignore),
      RestrictiveBool(workspace.allowFallbacks, request.allowFallbacks, true),
      workspace.requireParameters || request.requireParameters,
      Collection(workspace.dataCollection, request.dataCollection, privacy.dataCollection),
      workspace.zdr || request.zdr || privacy.zdr,
      if request.quantizations != [] then Restricted(workspace.quantizations, request.quantizations)
      else workspace.quantizations,
      if request.sort != "" then request.sort else workspace.sort,
      MinThroughput(workspace.minThroughput, request.minThroughput),
      MaxLatency(workspace.maxLatency, request.maxLatency),
      LowerDecimal(workspace.maxInputPrice, request.maxInputPrice),
      LowerDecimal(workspace.maxOutputPrice, request.maxOutputPrice),
      UniqueLowered(workspace.capabilities + request.capabilities),
      Restricted(Restricted(workspace.regions, allowedRegions), request.regions),
      RestrictiveBool(workspace.useSharedCapacity, request.useSharedCapacity, true))
  }

  method MergeProviderPolicies(workspace: Policy, request: Policy, allowedRegions: seq<string>, privacy: Privacy)
    returns (out: Policy)
    ensures out == Merged(workspace, request, allowedRegions, privacy)
  {
    var ignore := UniqueLower(workspace.ignore + request.ignore);
    var capabilities := UniqueLower(workspace.capabilities + request.capabilities);
    var only := RestrictiveStrings(workspace.only, request.only);
    var inherited := RestrictiveStrings(workspace.regions, allowedRegions);
    var regions := RestrictiveStrings(inherited, request.regions);
    var order := workspace.order;
    if |request.order| > 0 {
      order := request.order;
    }
    var quantizations := workspace.quantizations;
    if |request.quantizations| > 0 {
      quantizations := RestrictiveStrings(quantizations, request.quantizations);
    }
    var sort := workspace.sort;
    if request.sort != "" {
      sort := request.sort;
    }
    var collection := workspace.dataCollection;
    if Denies(collection) || Denies(request.dataCollection) || Denies(privacy.dataCollection) {
      collection := "deny";
    } else if request.dataCollection != "" {
      collection := request.dataCollection;
    }
    var throughput, latency := workspace.minThroughput, workspace.maxLatency;
    if request.minThroughput.Some? {
      throughput := request.minThroughput;
    }
    if request.maxLatency.Some? {
      latency := request.maxLatency;
    }
    out := Policy(
      order, only, ignore, RestrictiveBool(workspace.allowFallbacks, request.allowFallbacks, true),
      workspace.requireParameters || request.requireParameters, collection, workspace.zdr || request.zdr || privacy.zdr,
      quantizations, sort, throughput, latency, LowerDecimal(workspace.maxInputPrice, request.maxInputPrice),
      LowerDecimal(workspace.maxOutputPrice, request.maxOutputPrice), capabilities, regions,
      RestrictiveBool(workspace.useSharedCapacity, request.useSharedCapacity, true));
  }

  // ----- admission

  // What the router compares with a policy. Prices and throughput are in units of 10^-12.
  datatype Candidate = Candidate(
    id: string, kind: string, slug: string, capabilities: seq<string>, price: Option<(real, real)>, zdr: bool,
    retains: bool, quantization: string, regions: seq<string>, throughput: real, latency: Option<int>)

  predicate ContainsFold(values: seq<string>, expected: string) { exists v | v in values :: Fold(v, expected) }

  predicate Called(values: seq<string>, c: Candidate) {
    ContainsFold(values, c.slug) || ContainsFold(values, c.id) || ContainsFold(values, c.kind)
  }

  predicate IntersectsFold(left: seq<string>, right: seq<string>) {
    exists a | a in left :: exists b | b in right :: Fold(TrimSpace(a), TrimSpace(b))
  }

  // An empty list restricts nothing.
  predicate ProviderAllowed(only: seq<string>, c: Candidate) { only == [] || Called(only, c) }

  predicate QuantizationAllowed(quantizations: seq<string>, c: Candidate) {
    quantizations == [] || ContainsFold(quantizations, c.quantization)
  }

  predicate RegionAllowed(regions: seq<string>, c: Candidate) { regions == [] || IntersectsFold(regions, c.regions) }

  predicate Capable(required: seq<string>, c: Candidate) { forall r | r in required :: ContainsFold(c.capabilities, r) }

  predicate Affordable(maximum: Option<string>, price: Option<real>) {
    maximum.Some? && Decimals.Rational(maximum.value).Ok? ==>
      price.Some? && price.value <= Decimals.Rational(maximum.value).value
  }

  function InputPrice(c: Candidate): Option<real> { if c.price.Some? then Some(c.price.value.0) else None }

  function OutputPrice(c: Candidate): Option<real> { if c.price.Some? then Some(c.price.value.1) else None }

  predicate Fast(minimum: Option<string>, throughput: real) {
    minimum.Some? && Decimals.Rational(minimum.value).Ok? ==> throughput >= Decimals.Rational(minimum.value).value
  }

  predicate Prompt(maximum: Option<int>, latency: Option<int>) {
    maximum.Some? ==> latency.Some? && latency.value <= maximum.value
  }

  /** The router's test of a candidate against a policy. */
  predicate Admits(p: Policy, c: Candidate) {
    Permits(p, c) && Fast(p.minThroughput, c.throughput) && Prompt(p.maxLatency, c.latency)
  }

  // All of it but the preferred throughput and latency, which a request may replace.
  predicate Permits(p: Policy, c: Candidate) {
    && !Called(p.ignore, c)
    && ProviderAllowed(p.only, c)
    && Capable(p.capabilities, c)
    && Affordable(p.maxInputPrice, InputPrice(c))
    && Affordable(p.maxOutputPrice, OutputPrice(c))
    && (p.zdr ==> c.zdr)
    && (Denies(p.dataCollection) ==> !c.retains)
    && QuantizationAllowed(p.quantizations, c)
    && RegionAllowed(p.regions, c)
  }

  // ----- lists never relax, unless they clash

  // Both lists restrict, and nothing satisfies both.
  ghost predicate Clash(left: seq<string>, right: seq<string>) {
    && UniqueLowered(left) != [] && UniqueLowered(right) != []
    && forall name | name in UniqueLowered(left) :: name !in UniqueLowered(right)
  }

  lemma TidyStays(values: seq<string>)
    requires Tidy(values)
    ensures forall name :: name in UniqueLowered(values) <==> name in values
  {}

  lemma MemberNames(values: seq<string>, v: string)
    requires Tidy(values) && v in values
    ensures v in UniqueLowered(values)
  {}

  /** The names of a merged list: those of the one that restricts, or those of both. */
  lemma RestrictedNames(left: seq<string>, right: seq<string>)
    ensures Restricted(left, right) == [] <==>
            (UniqueLowered(left) == [] && UniqueLowered(right) == []) || Clash(left, right)
    ensures forall name :: name in Restricted(left, right) <==>
              || (name in UniqueLowered(left) && name in UniqueLowered(right))
              || (name in UniqueLowered(left) && UniqueLowered(right) == [])
              || (name in UniqueLowered(right) && UniqueLowered(left) == [])
  {
    var l, r := UniqueLowered(left), UniqueLowered(right);
    if l != [] && r != [] {
      var c := Common(l, r);
      if c != [] { assert c[0] in c; }
    }
  }

  // The inherited list is empty, or the merged one is a non-empty part of it.
  ghost predicate Narrows(merged: seq<string>, left: seq<string>) {
    left == [] || (merged != [] && forall name | name in merged :: name in left)
  }

  lemma RestrictedNarrows(left: seq<string>, right: seq<string>)
    requires Tidy(left)
    ensures Narrows(Restricted(left, right), left) <==> !Clash(left, right)
  {
    RestrictedNames(left, right);
    TidyStays(left);
    if left != [] { MemberNames(left, left[0]); }
  }

  lemma NarrowsProvider(merged: seq<string>, left: seq<string>, c: Candidate)
    requires Narrows(merged, left) && ProviderAllowed(merged, c)
    ensures ProviderAllowed(left, c)
  {}

  lemma NarrowsQuantization(merged: seq<string>, left: seq<string>, c: Candidate)
    requires Narrows(merged, left) && QuantizationAllowed(merged, c)
    ensures QuantizationAllowed(left, c)
  {}

  lemma NarrowsRegion(merged: seq<string>, left: seq<string>, c: Candidate)
    requires Narrows(merged, left) && RegionAllowed(merged, c)
    ensures RegionAllowed(left, c)
  {}

  // Nobody's list names a candidate without names.
  function Nameless(): Candidate { Candidate("", "", "", [], None, false, false, "", [], 0.0, None) }

  lemma NamelessRefused(left: seq<string>)
    requires Tidy(left) && left != []
    ensures !ProviderAllowed(left, Nameless()) && !QuantizationAllowed(left, Nameless())
    ensures !RegionAllowed(left, Nameless())
  {}

  /** Whether the provider and quantization lists of a request can relax those of the
      workspace: never, unless both restrict and have nothing in common. */
  lemma ListsNarrowIffNoClash(left: seq<string>, right: seq<string>)
    requires Tidy(left)
    ensures (forall c :: ProviderAllowed(Restricted(left, right), c) ==> ProviderAllowed(left, c))
       <==> !Clash(left, right)
    ensures (forall c :: QuantizationAllowed(Restricted(left, right), c) ==> QuantizationAllowed(left, c))
       <==> !Clash(left, right)
    ensures (forall c :: RegionAllowed(Restricted(left, right), c) ==> RegionAllowed(left, c)) <==> !Clash(left, right)
  {
    var merged := Restricted(left, right);
    RestrictedNarrows(left, right);
    if Clash(left, right) {
      RestrictedNames(left, right);
      TidyStays(left);
      assert left != [];
      NamelessRefused(left);
      assert ProviderAllowed(merged, Nameless()) && QuantizationAllowed(merged, Nameless());
      assert RegionAllowed(merged, Nameless());
    } else {
      forall c | ProviderAllowed(merged, c) ensures ProviderAllowed(left, c) { NarrowsProvider(merged, left, c); }
      forall c | QuantizationAllowed(merged, c) ensures QuantizationAllowed(left, c) {
        NarrowsQuantization(merged, left, c);
      }
      forall c | RegionAllowed(merged, c) ensures RegionAllowed(left, c) { NarrowsRegion(merged, left, c); }
    }
  }

  // ----- the whole policy

  ghost predicate Readable(price: Option<string>) { price.Some? ==> Decimals.Rational(price.value).Ok? }

  // A policy as the settings endpoint stores it.
  ghost predicate Stored(p: Policy) {
    && Tidy(p.only) && Tidy(p.ignore) && Tidy(p.capabilities) && Tidy(p.quantizations) && Tidy(p.regions)
    && Readable(p.maxInputPrice) && Readable(p.maxOutputPrice)
  }

  lemma IgnoredStays(left: seq<string>, right: seq<string>, c: Candidate)
    requires Tidy(left) && Called(left, c)
    ensures Called(UniqueLowered(left + right), c)
  {}

  lemma CapableStays(left: seq<string>, right: seq<string>, c: Candidate)
    requires Tidy(left) && Capable(UniqueLowered(left + right), c)
    ensures Capable(left, c)
  {}

  lemma PriceStays(left: Option<string>, right: Option<string>, price: Option<real>)
    requires Readable(left) && Readable(right)
    ensures Affordable(LowerDecimal(left, right), price) <==> Affordable(left, price) && Affordable(right, price)
  {}

  // The request's minimum does not hold up the workspace's.
  ghost predicate LowersThroughput(workspace: Option<string>, request: Option<string>) {
    && workspace.Some? && request.Some? && Decimals.Rational(workspace.value).Ok?
    && (Decimals.Rational(request.value).Ok? ==>
          Decimals.Rational(request.value).value < Decimals.Rational(workspace.value).value)
  }

  ghost predicate RaisesLatency(workspace: Option<int>, request: Option<int>) {
    workspace.Some? && request.Some? && request.value > workspace.value
  }

  ghost predicate RelaxesPreferences(workspace: Policy, request: Policy) {
    || LowersThroughput(workspace.minThroughput, request.minThroughput)
    || RaisesLatency(workspace.maxLatency, request.maxLatency)
  }

  /** The preferred throughput and latency are replaced, not intersected: they narrow exactly
      when the request's is at least as strict. */
  lemma ThroughputNarrowsIff(workspace: Option<string>, request: Option<string>)
    ensures (forall throughput :: Fast(MinThroughput(workspace, request), throughput) ==> Fast(workspace, throughput))
       <==> !LowersThroughput(workspace, request)
  {
    if LowersThroughput(workspace, request) {
      var r := Decimals.Rational(request.value);
      var slow := if r.Ok? then r.value else Decimals.Rational(workspace.value).value - 1.0;
      assert Fast(MinThroughput(workspace, request), slow) && !Fast(workspace, slow);
    }
  }

  lemma LatencyNarrowsIff(workspace: Option<int>, request: Option<int>)
    ensures (forall latency :: Prompt(MaxLatency(workspace, request), latency) ==> Prompt(workspace, latency))
       <==> !RaisesLatency(workspace, request)
  {
    if RaisesLatency(workspace, request) {
      assert Prompt(MaxLatency(workspace, request), request) && !Prompt(workspace, request);
    }
  }

  /** Everything permitted by the merged policy is permitted by the workspace's, provided none
      of the intersected lists clash; zero data retention and denied collection stay once set.
      With preferences as strict as the workspace's, so is everything admitted. */
  lemma MergeNeverRelaxes(workspace: Policy, request: Policy, allowedRegions: seq<string>, privacy: Privacy,
                          c: Candidate)
    requires Stored(workspace) && Readable(request.maxInputPrice) && Readable(request.maxOutputPrice)
    requires !Clash(workspace.only, request.only)
    requires request.quantizations != [] ==> !Clash(workspace.quantizations, request.quantizations)
    requires !Clash(workspace.regions, allowedRegions)
    requires !Clash(Restricted(workspace.regions, allowedRegions), request.regions)
    requires Permits(Merged(workspace, request, allowedRegions, privacy), c)
    ensures Permits(workspace, c)
    ensures !RelaxesPreferences(workspace, request) && Admits(Merged(workspace, request, allowedRegions, privacy), c)
            ==> Admits(workspace, c)
    ensures RegionAllowed(Restricted(workspace.regions, allowedRegions), c)
    ensures privacy.zdr ==> c.zdr
    ensures Denies(privacy.dataCollection) || Denies(request.dataCollection) ==> !c.retains
    ensures var m := Merged(workspace, request, allowedRegions, privacy);
            && (workspace.allowFallbacks == Some(false) ==> m.allowFallbacks == Some(false))
            && (workspace.useSharedCapacity == Some(false) ==> m.useSharedCapacity == Some(false))
  {
    var inherited := Restricted(workspace.regions, allowedRegions);
    ListsNarrowIffNoClash(workspace.only, request.only);
    if request.quantizations != [] { ListsNarrowIffNoClash(workspace.quantizations, request.quantizations); }
    ListsNarrowIffNoClash(workspace.regions, allowedRegions);
    ListsNarrowIffNoClash(inherited, request.regions);
    assert RegionAllowed(inherited, c);
    if Called(workspace.ignore, c) { IgnoredStays(workspace.ignore, request.ignore, c); }
    CapableStays(workspace.capabilities, request.capabilities, c);
    PriceStays(workspace.maxInputPrice, request.maxInputPrice, InputPrice(c));
    PriceStays(workspace.maxOutputPrice, request.maxOutputPrice, OutputPrice(c));
    PrivacyNeverRelaxes(workspace, request, allowedRegions, privacy);
    ThroughputNarrowsIff(workspace.minThroughput, request.minThroughput);
    LatencyNarrowsIff(workspace.maxLatency, request.maxLatency);
  }

  // Privacy and the switches, for all policies, clashing lists or not.
  lemma PrivacyNeverRelaxes(workspace: Policy, request: Policy, allowedRegions: seq<string>, privacy: Privacy)
    ensures var m := Merged(workspace, request, allowedRegions, privacy);
            && (m.zdr <==> workspace.zdr || request.zdr || privacy.zdr)
            && (Denies(m.dataCollection) <==>
                  Denies(workspace.dataCollection) || Denies(request.dataCollection) || Denies(privacy.dataCollection))
            && (m.requireParameters <==> workspace.requireParameters || request.requireParameters)
            && m.allowFallbacks.Some? && m.useSharedCapacity.Some?
            && (m.allowFallbacks == Some(false) <==>
                  workspace.allowFallbacks == Some(false) || request.allowFallbacks == Some(false))
            && (m.useSharedCapacity == Some(false) <==>
                  workspace.useSharedCapacity == Some(false) || request.useSharedCapacity == Some(false))
  {}

  /** Preferences that restrict nothing are the request's where it has one, the workspace's
      elsewhere; so is a data collection that nobody denies. */
  lemma RequestReplaces(workspace: Policy, request: Policy, allowedRegions: seq<string>, privacy: Privacy)
    ensures var m := Merged(workspace, request, allowedRegions, privacy);
            && (request.order != [] ==> m.order == request.order)
            && (request.order == [] ==> m.order == workspace.order)
            && (request.sort != "" ==> m.sort == request.sort) && (request.sort == "" ==> m.sort == workspace.sort)
            && (Denies(m.dataCollection) ||
                m.dataCollection == if request.dataCollection == "" then workspace.dataCollection
                                    else request.dataCollection)
  {}

  // ----- what the merged policy permits, exactly

  // A provider goes by its slug, its id and its type, in any case.
  ghost predicate Bears(c: Candidate, name: string) {
    name == Lower(c.slug) || name == Lower(c.id) || name == Lower(c.kind)
  }

  lemma FoldMember(values: seq<string>, x: string)
    requires Tidy(values)
    ensures ContainsFold(values, x) <==> Lower(x) in values
  {
    forall v | v in values ensures Lower(v) == v {
      assert Lower(TrimSpace(v)) == v;
      LowerTwice(TrimSpace(v));
    }
  }

  lemma LowerTwice(s: string)
    ensures Lower(Lower(s)) == Lower(s)
  {}

  lemma CalledMeans(values: seq<string>, c: Candidate)
    requires Tidy(values)
    ensures Called(values, c) <==> exists name | Bears(c, name) :: name in values
  {
    FoldMember(values, c.slug);
    FoldMember(values, c.id);
    FoldMember(values, c.kind);
    assert Bears(c, Lower(c.slug)) && Bears(c, Lower(c.id)) && Bears(c, Lower(c.kind));
  }

  lemma LocatedMeans(values: seq<string>, c: Candidate)
    requires Tidy(values)
    ensures IntersectsFold(values, c.regions) <==> exists b | b in c.regions :: Normal(b) in values
  {
    forall a, b | a in values && b in c.regions
      ensures Fold(TrimSpace(a), TrimSpace(b)) <==> a == Normal(b)
    {
      assert Normal(a) == a;
    }
  }

  // The list restricts, to names other than blanks.
  ghost predicate Restricts(values: seq<string>) { exists name :: Names(values, name) }

  lemma RestrictsIff(values: seq<string>)
    ensures Restricts(values) <==> UniqueLowered(values) != []
  {
    var r := UniqueLowered(values);
    if r != [] { assert r[0] in r; }
  }

  // Each of the lists that restricts names it.
  ghost predicate Chosen(left: seq<string>, right: seq<string>, name: string) {
    && (Restricts(left) || Restricts(right))
    && (Restricts(left) ==> Names(left, name)) && (Restricts(right) ==> Names(right, name))
  }

  // Nothing restricts, or two restrictions cancel each other out.
  ghost predicate Unrestricted(left: seq<string>, right: seq<string>) {
    (!Restricts(left) && !Restricts(right)) || Clash(left, right)
  }

  lemma ChosenIff(left: seq<string>, right: seq<string>)
    ensures Restricted(left, right) == [] <==> Unrestricted(left, right)
    ensures forall name :: name in Restricted(left, right) <==> Chosen(left, right, name)
  {
    RestrictedNames(left, right);
    RestrictsIff(left);
    RestrictsIff(right);
  }

  /** What an intersected list lets through: everything if neither list restricts or both do
      without overlap, otherwise who is named by each that restricts, under one and the same name. */
  lemma MergedListMeans(left: seq<string>, right: seq<string>, c: Candidate)
    ensures ProviderAllowed(Restricted(left, right), c) <==>
            Unrestricted(left, right) || exists name | Bears(c, name) :: Chosen(left, right, name)
    ensures QuantizationAllowed(Restricted(left, right), c) <==>
            Unrestricted(left, right) || Chosen(left, right, Lower(c.quantization))
    ensures RegionAllowed(Restricted(left, right), c) <==>
            Unrestricted(left, right) || exists b | b in c.regions :: Chosen(left, right, Normal(b))
  {
    var merged := Restricted(left, right);
    ChosenIff(left, right);
    CalledMeans(merged, c);
    FoldMember(merged, c.quantization);
    LocatedMeans(merged, c);
  }

  lemma JoinedNames(left: seq<string>, right: seq<string>, name: string)
    requires Tidy(left)
    ensures name in UniqueLowered(left + right) <==> name in left || name in UniqueLowered(right)
  {
    assert Names(left + right, name) <==> Names(left, name) || Names(right, name);
    TidyStays(left);
  }

  // Ignored and required names add up.
  lemma JoinedMeans(left: seq<string>, right: seq<string>, c: Candidate)
    requires Tidy(left)
    ensures Called(UniqueLowered(left + right), c) <==> Called(left, c) || Called(UniqueLowered(right), c)
    ensures Capable(UniqueLowered(left + right), c) <==> Capable(left, c) && Capable(UniqueLowered(right), c)
  {
    forall name ensures name in UniqueLowered(left + right) <==> name in left || name in UniqueLowered(right) {
      JoinedNames(left, right, name);
    }
  }

  // No ceiling, or a known price that does not exceed it.
  ghost predicate Fits(maximum: Option<string>, price: Option<real>)
    requires Readable(maximum)
  {
    maximum.None? || (price.Some? && !(price.value > Decimals.Rational(maximum.value).value))
  }

  // The lists of both, with the regions the workspace's location rules allow.
  ghost predicate ListsLet(workspace: Policy, request: Policy, allowedRegions: seq<string>, c: Candidate) {
    && (|| Unrestricted(workspace.only, request.only)
        || exists name | Bears(c, name) :: Chosen(workspace.only, request.only, name))
    && (if request.quantizations == [] then QuantizationAllowed(workspace.quantizations, c)
        else
          || Unrestricted(workspace.quantizations, request.quantizations)
          || Chosen(workspace.quantizations, request.quantizations, Lower(c.quantization)))
    && var inherited := Restricted(workspace.regions, allowedRegions);
       || Unrestricted(inherited, request.regions)
       || exists b | b in c.regions :: Chosen(inherited, request.regions, Normal(b))
  }

  /** Exactly what the merged policy permits: candidates that neither side ignores, that can do what
      both require, within both price ceilings, private as any of the three settings asks, and let
      through by the intersected lists. */
  lemma MergePermitsIff(workspace: Policy, request: Policy, allowedRegions: seq<string>, privacy: Privacy,
                        c: Candidate)
    requires Stored(workspace) && Readable(request.maxInputPrice) && Readable(request.maxOutputPrice)
    ensures Permits(Merged(workspace, request, allowedRegions, privacy), c) <==>
            && !Called(workspace.ignore, c) && !Called(UniqueLowered(request.ignore), c)
            && Capable(workspace.capabilities, c) && Capable(UniqueLowered(request.capabilities), c)
            && Fits(workspace.maxInputPrice, InputPrice(c)) && Fits(request.maxInputPrice, InputPrice(c))
            && Fits(workspace.maxOutputPrice, OutputPrice(c)) && Fits(request.maxOutputPrice, OutputPrice(c))
            && (workspace.zdr || request.zdr || privacy.zdr ==> c.zdr)
            && (c.retains ==>
                  && !Denies(workspace.dataCollection) && !Denies(request.dataCollection)
                  && !Denies(privacy.dataCollection))
            && ListsLet(workspace, request, allowedRegions, c)
  {
    JoinedMeans(workspace.ignore, request.ignore, c);
    JoinedMeans(workspace.capabilities, request.capabilities, c);
    PriceStays(workspace.maxInputPrice, request.maxInputPrice, InputPrice(c));
    PriceStays(workspace.maxOutputPrice, request.maxOutputPrice, OutputPrice(c));
    PrivacyNeverRelaxes(workspace, request, allowedRegions, privacy);
    MergedListsLet(workspace, request, allowedRegions, privacy, c);
  }

  lemma MergedListsLet(workspace: Policy, request: Policy, allowedRegions: seq<string>, privacy: Privacy, c: Candidate)
    ensures var m := Merged(workspace, request, allowedRegions, privacy);
            ListsLet(workspace, request, allowedRegions, c) <==>
            ProviderAllowed(m.only, c) && QuantizationAllowed(m.quantizations, c) && RegionAllowed(m.regions, c)
  {
    MergedListMeans(workspace.only, request.only, c);
    MergedListMeans(workspace.quantizations, request.quantizations, c);
    MergedListMeans(Restricted(workspace.regions, allowedRegions), request.regions, c);
  }

  // ----- what clashing lists do

  // The exact condition for two successive intersections.
  ghost predicate RegionsKept(workspace: seq<string>, allowed: seq<string>, request: seq<string>) {
    || workspace == []
    || (if Clash(workspace, allowed) then
          UniqueLowered(request) != [] && forall name | name in UniqueLowered(request) :: name in workspace
        else !Clash(Restricted(workspace, allowed), request))
  }

  lemma RegionsNarrowed(workspace: seq<string>, allowed: seq<string>, request: seq<string>)
    requires Tidy(workspace)
    ensures Narrows(Restricted(Restricted(workspace, allowed), request), workspace)
       <==> RegionsKept(workspace, allowed, request)
  {
    if workspace != [] {
      var inherited := Restricted(workspace, allowed);
      RestrictedNames(workspace, allowed);
      RestrictedNames(inherited, request);
      TidyStays(workspace);
      TidyStays(inherited);
      MemberNames(workspace, workspace[0]);
      if !Clash(workspace, allowed) {
        assert inherited != [] && inherited[0] in inherited;
        assert forall name | name in inherited :: name in workspace;
      }
    }
  }

  // A provider in one region only.
  function Located(region: string): Candidate { Nameless().(regions := [region]) }

  lemma LocatedAllowed(regions: seq<string>, region: string)
    requires Tidy(regions) && regions != [] && Normal(region) == region
    ensures RegionAllowed(regions, Located(region)) <==> region in regions
  {
    assert forall v | v in regions :: Fold(TrimSpace(v), TrimSpace(region)) <==> Normal(v) == Normal(region);
    assert Located(region).regions[0] == region;
  }

  lemma NarrowsIffRegions(merged: seq<string>, left: seq<string>)
    requires Tidy(merged) && Tidy(left)
    ensures (forall c :: RegionAllowed(merged, c) ==> RegionAllowed(left, c)) <==> Narrows(merged, left)
  {
    if Narrows(merged, left) {
      forall c | RegionAllowed(merged, c) ensures RegionAllowed(left, c) { NarrowsRegion(merged, left, c); }
    } else if merged == [] {
      NamelessRefused(left);
      assert RegionAllowed(merged, Nameless());
    } else {
      var name :| name in merged && name !in left;
      LocatedAllowed(merged, name);
      LocatedAllowed(left, name);
    }
  }

  /** The workspace's regions against the two later lists: whatever the merged policy allows the
      workspace does if and only if nothing clashes, or a first clash is made good by a request
      that stays within the workspace's regions. */
  lemma RegionsNarrowIff(workspace: seq<string>, allowed: seq<string>, request: seq<string>)
    requires Tidy(workspace)
    ensures (forall c ::
               RegionAllowed(Restricted(Restricted(workspace, allowed), request), c) ==> RegionAllowed(workspace, c))
       <==> RegionsKept(workspace, allowed, request)
  {
    RegionsNarrowed(workspace, allowed, request);
    NarrowsIffRegions(Restricted(Restricted(workspace, allowed), request), workspace);
  }

  /** A workspace confined to "de" and a request for "us": the merged policy has no region
      list at all, and admits a provider in "us" that the workspace refuses. */
  lemma DisjointRegionsRelax(p: Policy)
    requires p.regions == ["de"]
    ensures Tidy(p.regions)
    ensures var m := Merged(p, p.(regions := ["us"]), [], Privacy(false, ""));
            m.regions == [] && RegionAllowed(m.regions, Located("us")) && !RegionAllowed(p.regions, Located("us"))
  {
    GermanyAndAmerica();
    LocatedAllowed(["de"], "us");
  }

  lemma GermanyAndAmerica()
    ensures Normal("us") == "us" && Tidy(["de"]) && "us" !in ["de"] && Restricted(Restricted(["de"], []), ["us"]) == []
  {
    assert Normal("de") == "de" && Normal("us") == "us";
    Single("de");
    Single("us");
    assert "de"[0] != "us"[0];
    RestrictedNames(["de"], ["us"]);
  }

  lemma Single(s: string)
    requires s != "" && Normal(s) == s
    ensures UniqueLowered([s]) == [s]
  {}
}
