/** Which credentials a request may use: the tenant, filter, tag and shared-capacity rules
    of internal/scheduler/scheduler.go. */
module Eligibility {
  import opened Text
  import opened Wrappers

  datatype Credential = Credential(
    id: string, organization: Option<string>, owner: string, ownerOrganization: Option<string>,
    tags: seq<string>, modelFilters: seq<string>, apiKeyFilters: seq<string>, memberFilters: seq<string>,
    sharedCapacityFallback: string, prioritySection: string,
    maxConcurrency: int, weight: int, priority: int, effectiveWeight: int, effectivePriority: int)

  datatype Constraints = Constraints(
    requiredTags: seq<string>, excludedTags: seq<string>, model: string, apiKey: string, member: string,
    useSharedCapacity: Option<bool>)

  const PLATFORM := "PLATFORM"
  const CUSTOMER := "CUSTOMER"

  // ----- filters

  ghost predicate Filter(filters: seq<string>, value: string) {
    filters == [] || exists i | 0 <= i < |filters| :: Normal(filters[i]) == Normal(value)
  }

  method StringFilterMatches(filters: seq<string>, value: string) returns (ok: bool)
    ensures ok <==> Filter(filters, value)
  {
    if |filters| == 0 {
      return true;
    }
    var wanted := Normal(value);
    for i := 0 to |filters|
      invariant forall j | 0 <= j < i :: Normal(filters[j]) != wanted
    {
      if Normal(filters[i]) == wanted {
        return true;
      }
    }
    return false;
  }

  ghost predicate ActorFilters(c: Credential, k: Constraints) {
    Filter(c.apiKeyFilters, k.apiKey) && Filter(c.memberFilters, k.member)
  }

  // ----- tags

  ghost predicate TagsMatch(tags: seq<string>, required: seq<string>, excluded: seq<string>) {
    && (forall i | 0 <= i < |required| :: required[i] in tags)
    && (forall i | 0 <= i < |excluded| :: excluded[i] !in tags)
  }

  method MatchesCredentialTags(tags: seq<string>, k: Constraints) returns (ok: bool)
    ensures ok <==> TagsMatch(tags, k.requiredTags, k.excludedTags)
  {
    var available: set<string> := {};
    for i := 0 to |tags|
      invariant forall t :: t in available <==> t in tags[..i]
    {
      available := available + {tags[i]};
    }
    assert tags[..|tags|] == tags;
    for i := 0 to |k.requiredTags|
      invariant forall j | 0 <= j < i :: k.requiredTags[j] in tags
    {
      if k.requiredTags[i] !in available {
        return false;
      }
    }
    for i := 0 to |k.excludedTags|
      invariant forall j | 0 <= j < i :: k.excludedTags[j] !in tags
    {
      if k.excludedTags[i] in available {
        return false;
      }
    }
    return true;
  }

  // ----- shared capacity

  /** A customer's own credential that forbids falling back to shared capacity for this request. */
  ghost predicate Forbids(c: Credential, k: Constraints, organization: string) {
    && c.owner == CUSTOMER && c.ownerOrganization == Some(organization) && ActorFilters(c, k)
    && (|| c.sharedCapacityFallback == "NEVER"
        || (c.sharedCapacityFallback == "OUTSIDE_FILTERS" && Filter(c.modelFilters, k.model)))
  }

  ghost predicate SharedBlocked(candidates: seq<Credential>, k: Constraints, organization: string) {
    k.useSharedCapacity == Some(false) || exists i | 0 <= i < |candidates| :: Forbids(candidates[i], k, organization)
  }

  method BlockShared(candidates: seq<Credential>, k: Constraints, organization: string) returns (blocked: bool)
    ensures blocked <==> SharedBlocked(candidates, k, organization)
  {
    blocked := k.useSharedCapacity == Some(false);
    for i := 0 to |candidates|
      invariant blocked <==>
                k.useSharedCapacity == Some(false) || exists j | 0 <= j < i :: Forbids(candidates[j], k, organization)
    {
      var c := candidates[i];
      var apiKey := StringFilterMatches(c.apiKeyFilters, k.apiKey);
      var member := StringFilterMatches(c.memberFilters, k.member);
      if c.owner != CUSTOMER || c.ownerOrganization != Some(organization) || !apiKey || !member {
        continue;
      }
      match c.sharedCapacityFallback {
        case "NEVER" => blocked := true;
        case "OUTSIDE_FILTERS" =>
          var model := StringFilterMatches(c.modelFilters, k.model);
          if model {
            blocked := true;
          }
        case _ =>
      }
    }
  }

  /** Every rule but capacity. */
  ghost predicate Eligible(c: Credential, k: Constraints, organization: string, sharedBlocked: bool) {
    && (c.organization.Some? ==> c.organization.value == organization)
    && (c.owner == CUSTOMER ==> c.ownerOrganization == Some(organization))
    && (c.owner == PLATFORM ==> !sharedBlocked)
    && ActorFilters(c, k) && Filter(c.modelFilters, k.model)
    && TagsMatch(c.tags, k.requiredTags, k.excludedTags)
  }

  method IsEligible(c: Credential, k: Constraints, organization: string, sharedBlocked: bool) returns (ok: bool)
    ensures ok <==> Eligible(c, k, organization, sharedBlocked)
  {
    if c.organization.Some? && c.organization.value != organization {
      return false;
    }
    if c.owner == CUSTOMER && c.ownerOrganization != Some(organization) {
      return false;
    }
    if c.owner == PLATFORM && sharedBlocked {
      return false;
    }
    var apiKey := StringFilterMatches(c.apiKeyFilters, k.apiKey);
    var member := StringFilterMatches(c.memberFilters, k.member);
    var model := StringFilterMatches(c.modelFilters, k.model);
    if !apiKey || !member || !model {
      return false;
    }
    ok := MatchesCredentialTags(c.tags, k);
  }
}
