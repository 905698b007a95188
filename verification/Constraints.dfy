/** Merging credential constraints (mergeCredentialConstraints of internal/server/budget.go):
    the union of the tag lists, sorted. */
module Constraints {
  import opened Wrappers
  import opened Text
  import Eligibility

  type Constraint = Eligibility.Constraints

  // The non-blank normal forms of a tag list.
  function TagSet(tags: seq<string>): set<string> { set t | t in tags && Normal(t) != "" :: Normal(t) }

  method AddTags(target: set<string>, tags: seq<string>) returns (out: set<string>)
    ensures out == target + TagSet(tags)
  {
    out := target;
    for i := 0 to |tags|
      invariant out == target + TagSet(tags[..i])
    {
      assert tags[..i + 1] == tags[..i] + [tags[i]];
      TagSetAppend(tags[..i], tags[i]);
      var tag := Normal(tags[i]);
      if tag != "" {
        out := out + {tag};
      }
    }
    assert tags[..|tags|] == tags;
  }

  lemma TagSetAppend(tags: seq<string>, tag: string)
    ensures TagSet(tags + [tag]) == TagSet(tags) + if Normal(tag) == "" then {} else {Normal(tag)}
  {}

  // ----- sorting

  // Strictly ascending in byte order, so without repetition.
  ghost predicate Ascending(s: seq<string>) { forall i, j | 0 <= i < j < |s| :: Less(s[i], s[j]) }

  function Inserted(s: seq<string>, x: string): seq<string> {
    if s != [] && Less(x, s[|s| - 1]) then Inserted(s[..|s| - 1], x) + [s[|s| - 1]] else s + [x]
  }

  // sort.Strings
  function Sorted(s: seq<string>): seq<string> {
    if s == [] then [] else Inserted(Sorted(s[..|s| - 1]), s[|s| - 1])
  }

  lemma {:induction false} InsertedKeeps(s: seq<string>, x: string)
    ensures forall y :: y in Inserted(s, x) <==> y in s || y == x
  {
    if s != [] && Less(x, s[|s| - 1]) {
      InsertedKeeps(s[..|s| - 1], x);
      assert s == s[..|s| - 1] + [s[|s| - 1]];
    }
  }

  lemma {:induction false} InsertedAscends(s: seq<string>, x: string)
    requires Ascending(s) && x !in s
    ensures Ascending(Inserted(s, x))
  {
    if s != [] {
      var before, last := s[..|s| - 1], s[|s| - 1];
      if Less(x, last) {
        InsertedAscends(before, x);
        InsertedKeeps(before, x);
        var r := Inserted(before, x);
        forall i | 0 <= i < |r| ensures Less(r[i], last) { assert r[i] in r; }
      } else {
        LessIsTotal(x, last);
        forall i | 0 <= i < |s| ensures Less(s[i], x) {
          if i < |s| - 1 { LessIsTransitive(s[i], last, x); }
        }
      }
    }
  }

  lemma {:induction false} SortedAscends(s: seq<string>)
    requires forall i, j | 0 <= i < j < |s| :: s[i] != s[j]
    ensures Ascending(Sorted(s)) && forall y :: y in Sorted(s) <==> y in s
  {
    if s != [] {
      var before, last := s[..|s| - 1], s[|s| - 1];
      SortedAscends(before);
      assert s == before + [last];
      InsertedAscends(Sorted(before), last);
      InsertedKeeps(Sorted(before), last);
    }
  }

  /** A set has one ascending listing, so the order in which a map is walked cannot show. */
  lemma {:induction false} AscendingUnique(s: seq<string>, t: seq<string>)
    requires Ascending(s) && Ascending(t) && forall y :: y in s <==> y in t
    ensures s == t
  {
    assert t != [] ==> t[0] in t;
    if s != [] {
      assert s[0] in t && t != [] && t[0] in s;
      LeastFirst(s, t[0]);
      LeastFirst(t, s[0]);
      LessIsStrict(s[0], t[0]);
      var a, b := s[1..], t[1..];
      forall y ensures y in a <==> y in b {
        SplitFirst(s, y);
        SplitFirst(t, y);
      }
      AscendingUnique(a, b);
      assert s == [s[0]] + a && t == [t[0]] + b;
    }
  }

  lemma LeastFirst(s: seq<string>, y: string)
    requires Ascending(s) && y in s
    ensures y == s[0] || Less(s[0], y)
  {}

  lemma SplitFirst(s: seq<string>, y: string)
    requires Ascending(s) && s != []
    ensures y in s[1..] <==> y in s && y != s[0]
  {
    LessIsStrict(y, y);
    assert s == [s[0]] + s[1..];
  }

  /** A set listed in whatever order the map yields, then sorted. */
  method SortedKeys(keys: set<string>) returns (out: seq<string>)
    ensures Ascending(out) && forall y :: y in out <==> y in keys
  {
    var rest, list := keys, [];
    while rest != {}
      invariant rest <= keys
      invariant forall y :: y in list <==> y in keys && y !in rest
      invariant forall i, j | 0 <= i < j < |list| :: list[i] != list[j]
      decreases rest
    {
      var tag :| tag in rest;
      rest, list := rest - {tag}, list + [tag];
    }
    SortedAscends(list);
    out := Sorted(list);
  }

  // ----- the merge

  ghost predicate Required(values: seq<Constraint>, t: string) {
    exists i | 0 <= i < |values| :: t in TagSet(values[i].requiredTags)
  }

  ghost predicate Excluded(values: seq<Constraint>, t: string) {
    exists i | 0 <= i < |values| :: t in TagSet(values[i].excludedTags)
  }

  // The last value that is set.
  function LastText(values: seq<string>): string {
    if values == [] then ""
    else if values[|values| - 1] != "" then values[|values| - 1]
    else LastText(values[..|values| - 1])
  }

  function LastFlag(values: seq<Constraint>): Option<bool> {
    if values == [] then None
    else
      var last := values[|values| - 1].useSharedCapacity;
      if last.Some? then last else LastFlag(values[..|values| - 1])
  }

  function Models(values: seq<Constraint>): seq<string> {
    seq(|values|, i requires 0 <= i < |values| => values[i].model)
  }

  function ApiKeys(values: seq<Constraint>): seq<string> {
    seq(|values|, i requires 0 <= i < |values| => values[i].apiKey)
  }

  function Members(values: seq<Constraint>): seq<string> {
    seq(|values|, i requires 0 <= i < |values| => values[i].member)
  }

  ghost predicate IsMerge(values: seq<Constraint>, out: Constraint) {
    && Ascending(out.requiredTags) && (forall t :: t in out.requiredTags <==> Required(values, t))
    && Ascending(out.excludedTags) && (forall t :: t in out.excludedTags <==> Excluded(values, t))
    && out.model == LastText(Models(values)) && out.apiKey == LastText(ApiKeys(values))
    && out.member == LastText(Members(values))
    && out.useSharedCapacity == LastFlag(values)
  }

  method CollectTags(values: seq<Constraint>) returns (required: set<string>, excluded: set<string>)
    ensures forall t :: t in required <==> Required(values, t)
    ensures forall t :: t in excluded <==> Excluded(values, t)
  {
    required, excluded := {}, {};
    for i := 0 to |values|
      invariant forall t :: t in required <==> exists j | 0 <= j < i :: t in TagSet(values[j].requiredTags)
      invariant forall t :: t in excluded <==> exists j | 0 <= j < i :: t in TagSet(values[j].excludedTags)
    {
      required := AddTags(required, values[i].requiredTags);
      excluded := AddTags(excluded, values[i].excludedTags);
    }
  }

  method LastValues(values: seq<Constraint>)
    returns (model: string, apiKey: string, member: string, shared: Option<bool>)
    ensures model == LastText(Models(values)) && apiKey == LastText(ApiKeys(values))
    ensures member == LastText(Members(values)) && shared == LastFlag(values)
  {
    model, apiKey, member, shared := "", "", "", None;
    for i := 0 to |values|
      invariant model == LastText(Models(values[..i])) && apiKey == LastText(ApiKeys(values[..i]))
      invariant member == LastText(Members(values[..i])) && shared == LastFlag(values[..i])
    {
      var v := values[..i + 1];
      assert v[..i] == values[..i];
      assert Models(v)[..i] == Models(values[..i]) && ApiKeys(v)[..i] == ApiKeys(values[..i]);
      assert Members(v)[..i] == Members(values[..i]);
      if values[i].model != "" {
        model := values[i].model;
      }
      if values[i].apiKey != "" {
        apiKey := values[i].apiKey;
      }
      if values[i].member != "" {
        member := values[i].member;
      }
      if values[i].useSharedCapacity.Some? {
        shared := values[i].useSharedCapacity;
      }
    }
    assert values[..|values|] == values;
  }

  method MergeCredentialConstraints(values: seq<Constraint>) returns (out: Constraint)
    ensures IsMerge(values, out)
  {
    var required, excluded := CollectTags(values);
    var model, apiKey, member, shared := LastValues(values);
    var requiredTags := SortedKeys(required);
    var excludedTags := SortedKeys(excluded);
    out := Eligibility.Constraints(requiredTags, excludedTags, model, apiKey, member, shared);
  }

  /** The merge is a function of its inputs, although it walks maps in no particular order. */
  lemma MergeUnique(values: seq<Constraint>, a: Constraint, b: Constraint)
    requires IsMerge(values, a) && IsMerge(values, b)
    ensures a == b
  {
    AscendingUnique(a.requiredTags, b.requiredTags);
    AscendingUnique(a.excludedTags, b.excludedTags);
  }

  // A credential's tags pass one constraint with normalized tag lists.
  ghost predicate PassesTags(tags: seq<string>, k: Constraint) {
    (forall t | t in TagSet(k.requiredTags) :: t in tags) && (forall t | t in TagSet(k.excludedTags) :: t !in tags)
  }

  /** A credential passes the merged tags exactly when it passes each constraint's; a tag both
      required and excluded, by whichever constraints, leaves none. */
  lemma MergedTagsAreEach(values: seq<Constraint>, out: Constraint, tags: seq<string>)
    requires IsMerge(values, out)
    ensures Eligibility.TagsMatch(tags, out.requiredTags, out.excludedTags) <==>
            forall i | 0 <= i < |values| :: PassesTags(tags, values[i])
    ensures (exists t :: Required(values, t) && Excluded(values, t)) ==>
              !Eligibility.TagsMatch(tags, out.requiredTags, out.excludedTags)
  {
    MembersMatch(tags, out.requiredTags, out.excludedTags);
    if t :| Required(values, t) && Excluded(values, t) {
      assert t in out.requiredTags && t in out.excludedTags;
    }
  }

  // TagsMatch speaks of positions; here of members.
  lemma MembersMatch(tags: seq<string>, required: seq<string>, excluded: seq<string>)
    ensures Eligibility.TagsMatch(tags, required, excluded) <==>
            (forall t | t in required :: t in tags) && (forall t | t in excluded :: t !in tags)
  {}

  /** On normalized lists the scheduler's own test of a single constraint is the same one. */
  lemma NormalTagsPass(tags: seq<string>, k: Constraint)
    requires forall t | t in k.requiredTags || t in k.excludedTags :: t != "" && Normal(t) == t
    ensures PassesTags(tags, k) <==> Eligibility.TagsMatch(tags, k.requiredTags, k.excludedTags)
  {
    MembersMatch(tags, k.requiredTags, k.excludedTags);
    assert forall t | t in k.requiredTags :: t in TagSet(k.requiredTags);
    assert forall t | t in k.excludedTags :: t in TagSet(k.excludedTags);
  }

  // The constraint at i refuses shared capacity and no later one says anything.
  ghost predicate RefusedAt(values: seq<Constraint>, i: int) {
    && 0 <= i < |values| && values[i].useSharedCapacity == Some(false)
    && forall j | i < j < |values| :: values[j].useSharedCapacity.None?
  }

  lemma RefusedBefore(values: seq<Constraint>, i: int)
    requires values != [] && values[|values| - 1].useSharedCapacity.None?
    ensures RefusedAt(values, i) <==> RefusedAt(values[..|values| - 1], i)
  {
    var before := values[..|values| - 1];
    assert forall j | 0 <= j < |before| :: before[j] == values[j];
  }

  /** Unlike the tags, a refusal of shared capacity survives the merge exactly when no later
      constraint sets the flag. */
  lemma {:induction false} RefusalSurvivesIff(values: seq<Constraint>)
    ensures LastFlag(values) == Some(false) <==> exists i :: RefusedAt(values, i)
  {
    if values != [] {
      var before, n := values[..|values| - 1], |values| - 1;
      if values[n].useSharedCapacity.None? {
        RefusalSurvivesIff(before);
        forall i ensures RefusedAt(values, i) <==> RefusedAt(before, i) { RefusedBefore(values, i); }
      } else {
        assert RefusedAt(values, n) <==> values[n].useSharedCapacity == Some(false);
        assert forall i :: RefusedAt(values, i) ==> i == n;
      }
    }
  }

  // The value at i is set and no later one is.
  ghost predicate LastSetAt(values: seq<string>, i: int) {
    0 <= i < |values| && values[i] != "" && forall j | i < j < |values| :: values[j] == ""
  }

  lemma {:induction false} LastTextAt(values: seq<string>, i: int)
    requires LastSetAt(values, i)
    ensures LastText(values) == values[i]
  {
    if i < |values| - 1 { LastTextAt(values[..|values| - 1], i); }
  }

  lemma {:induction false} NoText(values: seq<string>)
    requires forall i | 0 <= i < |values| :: values[i] == ""
    ensures LastText(values) == ""
  {
    if values != [] { NoText(values[..|values| - 1]); }
  }

  /** The merged model, API key and member are each the value of the last constraint that sets
      one, and empty when none does. */
  lemma MergedTextIsLast(values: seq<Constraint>, out: Constraint)
    requires IsMerge(values, out)
    ensures forall i | LastSetAt(Models(values), i) :: out.model == values[i].model
    ensures forall i | LastSetAt(ApiKeys(values), i) :: out.apiKey == values[i].apiKey
    ensures forall i | LastSetAt(Members(values), i) :: out.member == values[i].member
    ensures (forall i | 0 <= i < |values| :: values[i].model == "") ==> out.model == ""
    ensures (forall i | 0 <= i < |values| :: values[i].apiKey == "") ==> out.apiKey == ""
    ensures (forall i | 0 <= i < |values| :: values[i].member == "") ==> out.member == ""
  {
    forall i | LastSetAt(Models(values), i) ensures out.model == values[i].model { LastTextAt(Models(values), i); }
    forall i | LastSetAt(ApiKeys(values), i) ensures out.apiKey == values[i].apiKey { LastTextAt(ApiKeys(values), i); }
    forall i | LastSetAt(Members(values), i) ensures out.member == values[i].member { LastTextAt(Members(values), i); }
    if forall i | 0 <= i < |values| :: values[i].model == "" { NoText(Models(values)); }
    if forall i | 0 <= i < |values| :: values[i].apiKey == "" { NoText(ApiKeys(values)); }
    if forall i | 0 <= i < |values| :: values[i].member == "" { NoText(Members(values)); }
  }
}
