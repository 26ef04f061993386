/**
 * Aggregation of the report: activities of one user, of one type, on one
 * repository are folded into a single entry that carries the first member's
 * fields, the number of members and the earliest and latest timestamps. The
 * entries come in the order in which their keys first appear.
 */
module ReportAggregation {
  import opened Timestamps
  import opened Seqs
  import opened Report

  /** The grouping key `user|type|repo`; distinct triples may share a key when a part holds `|`. */
  function AggregateKey(a: Activity): (k: string)
    ensures |k| == |a.user| + |a.activityType| + |a.repoName| + 2
    ensures k[..|a.user|] == a.user && k[|a.user|] == '|'
  {
    a.user + "|" + a.activityType + "|" + a.repoName
  }

  /** The keys of `acts`, each once, in order of first appearance. */
  function KeysInOrder(acts: seq<Activity>): (ks: seq<string>)
    ensures |ks| <= |acts|
  {
    if acts == [] then []
    else
      var prev := KeysInOrder(acts[..|acts| - 1]);
      var k := AggregateKey(acts[|acts| - 1]);
      if k in prev then prev else prev + [k]
  }

  /** The members of the group of key `k`, in order. */
  function GroupOf(acts: seq<Activity>, k: string): (g: seq<Activity>)
    ensures |g| <= |acts|
  {
    if acts == [] then []
    else
      var last := acts[|acts| - 1];
      GroupOf(acts[..|acts| - 1], k) + (if AggregateKey(last) == k then [last] else [])
  }

  lemma {:induction false} GroupOfMembers(acts: seq<Activity>, k: string)
    ensures forall a :: a in GroupOf(acts, k) <==> a in acts && AggregateKey(a) == k
    decreases |acts|
  {
    if acts != [] {
      var n := |acts| - 1;
      assert acts == acts[..n] + [acts[n]];
      GroupOfMembers(acts[..n], k);
    }
  }

  /** A key is listed exactly when its group is not empty, and no key is listed twice. */
  lemma {:induction false} KeysHaveGroups(acts: seq<Activity>)
    ensures Distinct(KeysInOrder(acts))
    ensures forall k :: k in KeysInOrder(acts) <==> GroupOf(acts, k) != []
    decreases |acts|
  {
    if acts != [] {
      var n := |acts| - 1;
      KeysHaveGroups(acts[..n]);
    }
  }

  /** The keys of a prefix are a prefix of the keys: keys are listed in order of first appearance. */
  lemma {:induction false} KeysInOrderPrefix(acts: seq<Activity>, m: nat)
    requires m <= |acts|
    ensures var ks := KeysInOrder(acts[..m]);
      |ks| <= |KeysInOrder(acts)| && KeysInOrder(acts)[..|ks|] == ks
    decreases |acts| - m
  {
    if m < |acts| {
      var n := |acts| - 1;
      assert acts[..n][..m] == acts[..m];
      KeysInOrderPrefix(acts[..n], m);
    } else {
      assert acts[..m] == acts;
    }
  }

  /** The first member of a group is the first activity of `acts` with that key. */
  lemma {:induction false} GroupOfFirst(acts: seq<Activity>, k: string)
    requires GroupOf(acts, k) != []
    ensures exists p :: (0 <= p < |acts| && GroupOf(acts, k)[0] == acts[p] && AggregateKey(acts[p]) == k &&
      forall q :: 0 <= q < p ==> AggregateKey(acts[q]) != k)
    decreases |acts|
  {
    var n := |acts| - 1;
    var prev := acts[..n];
    if GroupOf(prev, k) != [] {
      GroupOfFirst(prev, k);
      var p :| 0 <= p < |prev| && GroupOf(prev, k)[0] == prev[p] && AggregateKey(prev[p]) == k &&
        forall q :: 0 <= q < p ==> AggregateKey(prev[q]) != k;
      assert GroupOf(acts, k)[0] == acts[p];
      assert forall q :: 0 <= q < p ==> acts[q] == prev[q];
    } else {
      GroupOfMembers(prev, k);
      assert forall q :: 0 <= q < n ==> prev[q] in prev && acts[q] == prev[q];
      assert GroupOf(acts, k)[0] == acts[n];
    }
  }

  /** The earliest timestamp of a group, keeping the earlier one on ties. */
  function MinTime(g: seq<Activity>): Time
    requires g != []
  {
    if |g| == 1 then g[0].timestamp
    else
      var n := |g| - 1;
      var prev := MinTime(g[..n]);
      if g[n].timestamp < prev then g[n].timestamp else prev
  }

  /** The latest timestamp of a group. */
  function MaxTime(g: seq<Activity>): Time
    requires g != []
  {
    if |g| == 1 then g[0].timestamp
    else
      var n := |g| - 1;
      var prev := MaxTime(g[..n]);
      if prev < g[n].timestamp then g[n].timestamp else prev
  }

  /** `MinTime` and `MaxTime` are timestamps of the group, and bound all of them. */
  lemma {:induction false} TimeBounds(g: seq<Activity>)
    requires g != []
    ensures forall i :: 0 <= i < |g| ==> MinTime(g) <= g[i].timestamp <= MaxTime(g)
    ensures exists i :: 0 <= i < |g| && g[i].timestamp == MinTime(g)
    ensures exists i :: 0 <= i < |g| && g[i].timestamp == MaxTime(g)
    decreases |g|
  {
    if |g| == 1 {
      assert g[0].timestamp == MinTime(g);
    } else {
      var n := |g| - 1;
      TimeBounds(g[..n]);
      assert forall i :: 0 <= i < n ==> g[..n][i] == g[i];
      var lo :| 0 <= lo < n && g[..n][lo].timestamp == MinTime(g[..n]);
      var hi :| 0 <= hi < n && g[..n][hi].timestamp == MaxTime(g[..n]);
      if g[n].timestamp < MinTime(g[..n]) {
        assert g[n].timestamp == MinTime(g);
      } else {
        assert g[lo].timestamp == MinTime(g);
      }
      if MaxTime(g[..n]) < g[n].timestamp {
        assert g[n].timestamp == MaxTime(g);
      } else {
        assert g[hi].timestamp == MaxTime(g);
      }
    }
  }

  /** The entry of one group: the first member's fields, the time range and the size. */
  function Aggregate(g: seq<Activity>): AggregatedActivity
    requires g != []
  {
    var first := g[0];
    AggregatedActivity(
      MinTime(g), MaxTime(g), first.user, first.avatarUrl, first.repoName, first.repoUrl,
      first.details, first.activityType, |g|)
  }

  /** The entries of the non-empty groups of `ks`, in that order. */
  function AggregateKeys(acts: seq<Activity>, ks: seq<string>): (r: seq<AggregatedActivity>)
    ensures |r| <= |ks|
  {
    if ks == [] then []
    else
      var g := GroupOf(acts, ks[|ks| - 1]);
      AggregateKeys(acts, ks[..|ks| - 1]) + (if g != [] then [Aggregate(g)] else [])
  }

  /** What `aggregateActivities` computes: one entry per key, in order of first appearance. */
  function Aggregated(acts: seq<Activity>): seq<AggregatedActivity> {
    AggregateKeys(acts, KeysInOrder(acts))
  }

  function SumCounts(r: seq<AggregatedActivity>): int {
    if r == [] then 0 else SumCounts(r[..|r| - 1]) + r[|r| - 1].count
  }

  /** The total size of the groups of `ks`. */
  function SumGroupSizes(acts: seq<Activity>, ks: seq<string>): nat {
    if ks == [] then 0 else SumGroupSizes(acts, ks[..|ks| - 1]) + |GroupOf(acts, ks[|ks| - 1])|
  }

  lemma {:induction false} SumCountsOfKeys(acts: seq<Activity>, ks: seq<string>)
    requires forall k :: k in ks ==> GroupOf(acts, k) != []
    ensures SumCounts(AggregateKeys(acts, ks)) == SumGroupSizes(acts, ks)
    decreases |ks|
  {
    if ks != [] {
      var n := |ks| - 1;
      assert ks[n] in ks;
      SumCountsOfKeys(acts, ks[..n]);
      var prev := AggregateKeys(acts, ks[..n]);
      var e := Aggregate(GroupOf(acts, ks[n]));
      assert (prev + [e])[..|prev|] == prev;
    }
  }

  /** Appending one activity grows the total by one when its key is among distinct `ks`. */
  lemma {:induction false} SumGroupSizesSnoc(acts: seq<Activity>, a: Activity, ks: seq<string>)
    requires Distinct(ks)
    ensures SumGroupSizes(acts + [a], ks) == SumGroupSizes(acts, ks) + (if AggregateKey(a) in ks then 1 else 0)
    decreases |ks|
  {
    if ks != [] {
      var n := |ks| - 1;
      assert (acts + [a])[..|acts|] == acts;
      assert Distinct(ks[..n]);
      SumGroupSizesSnoc(acts, a, ks[..n]);
      assert ks == ks[..n] + [ks[n]];
    }
  }

  lemma {:induction false} SumGroupSizesOfKeys(acts: seq<Activity>)
    ensures SumGroupSizes(acts, KeysInOrder(acts)) == |acts|
    decreases |acts|
  {
    if acts != [] {
      var n := |acts| - 1;
      var prev := acts[..n];
      var a := acts[n];
      assert acts == prev + [a];
      SumGroupSizesOfKeys(prev);
      KeysHaveGroups(prev);
      var ks := KeysInOrder(prev);
      SumGroupSizesSnoc(prev, a, ks);
      if AggregateKey(a) !in ks {
        var k := AggregateKey(a);
        assert KeysInOrder(acts) == ks + [k];
        assert (ks + [k])[..|ks|] == ks;
        assert GroupOf(acts, k) == [a];
      }
    }
  }

  /**
   * The entries of `aggregateActivities`: one per key, keys distinct and in
   * order of first appearance, each entry the aggregate of its key's group;
   * the counts add up to the number of activities, so nothing is lost and
   * nothing is counted twice.
   */
  lemma AggregatedShape(acts: seq<Activity>)
    ensures var r := Aggregated(acts);
      && |r| == |KeysInOrder(acts)|
      && Distinct(KeysInOrder(acts))
      && (forall i :: 0 <= i < |r| ==>
            GroupOf(acts, KeysInOrder(acts)[i]) != [] && r[i] == Aggregate(GroupOf(acts, KeysInOrder(acts)[i])))
      && SumCounts(r) == |acts|
  {
    var ks := KeysInOrder(acts);
    KeysHaveGroups(acts);
    AggregateKeysLength(acts, ks);
    SumCountsOfKeys(acts, ks);
    SumGroupSizesOfKeys(acts);
    var r := Aggregated(acts);
    forall i | 0 <= i < |r|
      ensures ks[i] in ks && r[i] == Aggregate(GroupOf(acts, ks[i]))
    {
      AggregateKeysAt(acts, ks, i);
    }
  }

  lemma {:induction false} AggregateKeysLength(acts: seq<Activity>, ks: seq<string>)
    requires forall k :: k in ks ==> GroupOf(acts, k) != []
    ensures |AggregateKeys(acts, ks)| == |ks|
    decreases |ks|
  {
    if ks != [] {
      assert ks[|ks| - 1] in ks;
      AggregateKeysLength(acts, ks[..|ks| - 1]);
    }
  }

  lemma {:induction false} AggregateKeysAt(acts: seq<Activity>, ks: seq<string>, i: nat)
    requires forall k :: k in ks ==> GroupOf(acts, k) != []
    requires i < |ks|
    ensures |AggregateKeys(acts, ks)| == |ks|
    ensures AggregateKeys(acts, ks)[i] == Aggregate(GroupOf(acts, ks[i]))
    decreases |ks|
  {
    var n := |ks| - 1;
    assert ks[n] in ks;
    AggregateKeysLength(acts, ks[..n]);
    AggregateKeysLength(acts, ks);
    if i < n {
      assert ks[..n][i] == ks[i];
      AggregateKeysAt(acts, ks[..n], i);
    }
  }

  /** An entry copies type, user, avatar, repo and details from the group's first member, and carries the group's size and its earliest and latest times. */
  lemma AggregateFields(g: seq<Activity>)
    requires g != []
    ensures var e := Aggregate(g);
      && AggregateKey(Activity(e.activityType, e.user, e.avatarUrl, e.repoName, e.repoUrl, e.firstTime, e.details))
         == AggregateKey(g[0])
      && e.activityType == g[0].activityType && e.user == g[0].user && e.avatarUrl == g[0].avatarUrl
      && e.repoName == g[0].repoName && e.repoUrl == g[0].repoUrl && e.details == g[0].details
      && e.count == |g| > 0
      && (forall i :: 0 <= i < |g| ==> e.firstTime <= g[i].timestamp <= e.lastTime)
      && (exists i :: 0 <= i < |g| && g[i].timestamp == e.firstTime)
      && (exists i :: 0 <= i < |g| && g[i].timestamp == e.lastTime)
  {
    TimeBounds(g);
  }

  /** Empty input gives no entries, and any activity gives at least one. */
  lemma AggregatedEmptyIff(acts: seq<Activity>)
    ensures Aggregated(acts) == [] <==> acts == []
  {
    AggregatedShape(acts);
  }

  /** The grouping loop of `aggregateActivities`: the keys in first-appearance order and each key's group. */
  method GroupByKey(acts: seq<Activity>) returns (groups: map<string, seq<Activity>>, order: seq<string>)
    ensures order == KeysInOrder(acts)
    ensures forall k :: k in groups <==> k in order
    ensures forall k :: k in groups ==> groups[k] == GroupOf(acts, k)
  {
    groups := map[];
    order := [];
    for i := 0 to |acts|
      invariant order == KeysInOrder(acts[..i])
      invariant forall k :: k in groups <==> k in order
      invariant forall k :: k in groups ==> groups[k] == GroupOf(acts[..i], k)
      invariant forall k :: k !in groups ==> GroupOf(acts[..i], k) == []
    {
      assert acts[..i + 1][..i] == acts[..i];
      var a := acts[i];
      var key := AggregateKey(a);
      if key !in groups {
        order := order + [key];
        groups := groups[key := [a]];
      } else {
        groups := groups[key := groups[key] + [a]];
      }
    }
    assert acts[..|acts|] == acts;
  }

  /** The time-range loop of `aggregateActivities`: strict comparisons starting from the first member. */
  method TimeRange(group: seq<Activity>) returns (firstTime: Time, lastTime: Time)
    requires group != []
    ensures firstTime == MinTime(group) && lastTime == MaxTime(group)
  {
    firstTime := group[0].timestamp;
    lastTime := group[0].timestamp;
    assert group[..1] == [group[0]];
    for j := 0 to |group|
      invariant 0 < j ==> firstTime == MinTime(group[..j]) && lastTime == MaxTime(group[..j])
      invariant j == 0 ==> firstTime == group[0].timestamp == lastTime
    {
      var a := group[j];
      if a.timestamp < firstTime {
        firstTime := a.timestamp;
      }
      if a.timestamp > lastTime {
        lastTime := a.timestamp;
      }
      assert 0 < j ==> group[..j + 1][..j] == group[..j];
    }
    assert group[..|group|] == group;
  }

  /** The body of the conversion loop of `aggregateActivities`: one group to its entry. */
  method AggregateGroup(group: seq<Activity>) returns (entry: AggregatedActivity)
    requires group != []
    ensures entry == Aggregate(group)
  {
    var first := group[0];
    var firstTime, lastTime := TimeRange(group);
    entry := AggregatedActivity(
      firstTime, lastTime, first.user, first.avatarUrl, first.repoName, first.repoUrl,
      first.details, first.activityType, |group|);
  }

  lemma AggregateKeysSnoc(acts: seq<Activity>, ks: seq<string>, k: string)
    requires GroupOf(acts, k) != []
    ensures AggregateKeys(acts, ks + [k]) == AggregateKeys(acts, ks) + [Aggregate(GroupOf(acts, k))]
  {
    assert (ks + [k])[..|ks|] == ks;
  }

  /** The conversion loop of `aggregateActivities`: one entry per key of `order`, from its group. */
  method AggregateInOrder(ghost acts: seq<Activity>, groups: map<string, seq<Activity>>, order: seq<string>)
    returns (result: seq<AggregatedActivity>)
    requires forall k :: k in order ==> k in groups && groups[k] == GroupOf(acts, k) != []
    ensures result == AggregateKeys(acts, order)
  {
    result := [];
    for j := 0 to |order|
      invariant result == AggregateKeys(acts, order[..j])
    {
      var key := order[j];
      assert order[..j + 1] == order[..j] + [key];
      assert key in order;
      AggregateKeysSnoc(acts, order[..j], key);
      var entry := AggregateGroup(groups[key]);
      result := result + [entry];
    }
    assert order[..|order|] == order;
  }

  /** `aggregateActivities`. */
  method AggregateActivities(acts: seq<Activity>) returns (result: seq<AggregatedActivity>)
    ensures result == Aggregated(acts)
  {
    if |acts| == 0 {
      return [];
    }
    var groups, order := GroupByKey(acts);
    KeysHaveGroups(acts);
    result := AggregateInOrder(acts, groups, order);
  }

  // ---------------------------------------------------------------------
  // The aggregated views
  // ---------------------------------------------------------------------

  function AggregateGroups(gs: seq<CategoryGroup>): (r: seq<AggregatedCategoryGroup>)
    ensures |r| == |gs|
  {
    if gs == [] then []
    else
      var g := gs[|gs| - 1];
      AggregateGroups(gs[..|gs| - 1]) + [AggregatedCategoryGroup(g.activityType, Aggregated(g.activities))]
  }

  /** What `AggregatedActivitiesByCategory` computes: the category view, each group aggregated. */
  function AggregatedCategoryGroups(acts: seq<Activity>): seq<AggregatedCategoryGroup> {
    AggregateGroups(CategoryGroups(acts))
  }

  lemma {:induction false} AggregateGroupsAt(gs: seq<CategoryGroup>, i: nat)
    requires i < |gs|
    ensures AggregateGroups(gs)[i] == AggregatedCategoryGroup(gs[i].activityType, Aggregated(gs[i].activities))
    decreases |gs|
  {
    var n := |gs| - 1;
    if i < n {
      assert gs[..n][i] == gs[i];
      AggregateGroupsAt(gs[..n], i);
    }
  }

  /**
   * The aggregated category view has one group per non-empty known type, in
   * category order; each group aggregates exactly that type's activities and
   * its counts add up to their number.
   */
  lemma AggregatedCategoryGroupsShape(acts: seq<Activity>)
    ensures var r := AggregatedCategoryGroups(acts);
      && |r| == |CategoryGroups(acts)|
      && (forall i :: 0 <= i < |r| ==>
            IsKnown(r[i].activityType)
            && r[i].activityType == CategoryGroups(acts)[i].activityType
            && r[i].activities == Aggregated(OfType(acts, r[i].activityType))
            && r[i].activities != []
            && SumCounts(r[i].activities) == |OfType(acts, r[i].activityType)|)
      && (forall i, j :: 0 <= i < j < |r| ==> Rank(r[i].activityType) < Rank(r[j].activityType))
  {
    var gs := CategoryGroups(acts);
    var r := AggregatedCategoryGroups(acts);
    CategoryGroupsShape(acts);
    forall i | 0 <= i < |r|
      ensures r[i] == AggregatedCategoryGroup(gs[i].activityType, Aggregated(gs[i].activities))
      ensures gs[i] in gs
      ensures r[i].activities != [] && SumCounts(r[i].activities) == |gs[i].activities|
    {
      AggregateGroupsAt(gs, i);
      AggregatedShape(gs[i].activities);
      AggregatedEmptyIff(gs[i].activities);
    }
  }

  lemma AggregateGroupsSnoc(gs: seq<CategoryGroup>, g: CategoryGroup)
    ensures AggregateGroups(gs + [g]) == AggregateGroups(gs) + [AggregatedCategoryGroup(g.activityType, Aggregated(g.activities))]
  {
    assert (gs + [g])[..|gs|] == gs;
  }

  lemma GroupsInSnoc(order: seq<ActivityType>, t: ActivityType, acts: seq<Activity>)
    ensures GroupsIn(order + [t], acts) ==
      GroupsIn(order, acts) + (if OfType(acts, t) != [] then [CategoryGroup(t, OfType(acts, t))] else [])
  {
    assert (order + [t])[..|order|] == order;
  }

  /** The aggregated groups for the types of `order` that occur, in that order. */
  function AggregatedGroupsIn(order: seq<ActivityType>, acts: seq<Activity>): seq<AggregatedCategoryGroup> {
    if order == [] then []
    else
      var t := order[|order| - 1];
      AggregatedGroupsIn(order[..|order| - 1], acts) + CategoryEntry(t, acts)
  }

  lemma AggregatedGroupsInSnoc(order: seq<ActivityType>, t: ActivityType, acts: seq<Activity>)
    ensures AggregatedGroupsIn(order + [t], acts) == AggregatedGroupsIn(order, acts) + CategoryEntry(t, acts)
  {
    assert (order + [t])[..|order|] == order;
  }

  lemma {:induction false} AggregatedGroupsInAggregates(order: seq<ActivityType>, acts: seq<Activity>)
    ensures AggregatedGroupsIn(order, acts) == AggregateGroups(GroupsIn(order, acts))
    decreases |order|
  {
    if order != [] {
      var n := |order| - 1;
      var t := order[n];
      AggregatedGroupsInAggregates(order[..n], acts);
      if OfType(acts, t) != [] {
        var g := CategoryGroup(t, OfType(acts, t));
        assert GroupsIn(order, acts) == GroupsIn(order[..n], acts) + [g];
        AggregateGroupsSnoc(GroupsIn(order[..n], acts), g);
      } else {
        assert GroupsIn(order, acts) == GroupsIn(order[..n], acts);
      }
    }
  }

  /** The aggregated group of type `t`, when `t` occurs. */
  function CategoryEntry(t: ActivityType, acts: seq<Activity>): seq<AggregatedCategoryGroup> {
    if OfType(acts, t) != [] then [AggregatedCategoryGroup(t, Aggregated(OfType(acts, t)))] else []
  }

  /** One round of the category loop: aggregates the collected group of `t`, if any. */
  method AggregateCategory(groups: map<ActivityType, seq<Activity>>, t: ActivityType, ghost acts: seq<Activity>)
    returns (entry: seq<AggregatedCategoryGroup>)
    requires Lookup(groups, t) == OfType(acts, t)
    ensures entry == CategoryEntry(t, acts)
  {
    entry := [];
    if t in groups && |groups[t]| > 0 {
      var aggregated := AggregateActivities(groups[t]);
      entry := [AggregatedCategoryGroup(t, aggregated)];
    }
  }

  /** The category loop over the types of `order`. */
  method AggregateInCategoryOrder(groups: map<ActivityType, seq<Activity>>, order: seq<ActivityType>, ghost acts: seq<Activity>)
    returns (result: seq<AggregatedCategoryGroup>)
    requires forall t :: Lookup(groups, t) == OfType(acts, t)
    ensures result == AggregatedGroupsIn(order, acts)
  {
    result := [];
    for k := 0 to |order|
      invariant result == AggregatedGroupsIn(order[..k], acts)
    {
      var t := order[k];
      assert order[..k + 1] == order[..k] + [t];
      AggregatedGroupsInSnoc(order[..k], t, acts);
      var entry := AggregateCategory(groups, t, acts);
      result := result + entry;
    }
    assert order[..|order|] == order;
  }

  /** `AggregatedActivitiesByCategory`: collects by type, then aggregates each group in category order. */
  method AggregatedActivitiesByCategory(r: Report) returns (result: seq<AggregatedCategoryGroup>)
    ensures result == AggregatedCategoryGroups(AllActivities(r.userActivities))
  {
    var groups := CollectByType(r.userActivities);
    result := AggregateInCategoryOrder(groups, CategoryOrder, AllActivities(r.userActivities));
    AggregatedCategoryGroupsInOrder(AllActivities(r.userActivities));
  }

  lemma AggregatedCategoryGroupsInOrder(acts: seq<Activity>)
    ensures AggregatedCategoryGroups(acts) == AggregatedGroupsIn(CategoryOrder, acts)
  {
    AggregatedGroupsInAggregates(CategoryOrder, acts);
  }

  function AggregateUsers(uas: seq<UserActivity>): (r: seq<AggregatedUserActivity>)
    ensures |r| == |uas|
  {
    if uas == [] then []
    else
      var ua := uas[|uas| - 1];
      AggregateUsers(uas[..|uas| - 1]) + [AggregatedUserActivity(ua.user, ua.avatarUrl, Aggregated(ua.activities))]
  }

  /** Each user keeps their name, avatar and position; only their activities are aggregated, losing none. */
  lemma {:induction false} AggregateUsersShape(uas: seq<UserActivity>)
    ensures var r := AggregateUsers(uas);
      forall i :: 0 <= i < |r| ==>
        && r[i].user == uas[i].user && r[i].avatarUrl == uas[i].avatarUrl
        && r[i].activities == Aggregated(uas[i].activities)
        && SumCounts(r[i].activities) == |uas[i].activities|
    decreases |uas|
  {
    if uas != [] {
      var n := |uas| - 1;
      AggregateUsersShape(uas[..n]);
      AggregatedShape(uas[n].activities);
      var r := AggregateUsers(uas);
      forall i | 0 <= i < n
        ensures r[i] == AggregateUsers(uas[..n])[i] && uas[i] == uas[..n][i]
      {
      }
    }
  }

  /** `AggregatedUserActivities`. */
  method AggregatedUserActivities(r: Report) returns (result: seq<AggregatedUserActivity>)
    ensures result == AggregateUsers(r.userActivities)
  {
    var uas := r.userActivities;
    result := [];
    for i := 0 to |uas|
      invariant result == AggregateUsers(uas[..i])
    {
      assert uas[..i + 1][..i] == uas[..i];
      var aggregated := AggregateActivities(uas[i].activities);
      result := result + [AggregatedUserActivity(uas[i].user, uas[i].avatarUrl, aggregated)];
    }
    assert uas[..|uas|] == uas;
  }
}
