/**
 * The logic behind the HTML report: the activities of each followed user,
 * their totals and per-type counts, the category view in a fixed order, the
 * aggregation of repeated activities on one repository, the highlight, the
 * most active user, and the lookup tables that label activity types.
 *
 * The report only reads its data, so it is a value; the loops of the source
 * are methods proved against the functions that specify them.
 */
module Report {
  import opened Wrappers
  import opened Timestamps
  import Text
  import opened Seqs

  type ActivityType = string

  const Starred: ActivityType := "starred"
  const CreatedRepo: ActivityType := "created_repo"
  const Forked: ActivityType := "forked"
  const Pushed: ActivityType := "pushed"
  const PullRequest: ActivityType := "pull_request"
  const Issue: ActivityType := "issue"

  /** The six known types, in the order the category view shows them. */
  const CategoryOrder: seq<ActivityType> := [Starred, CreatedRepo, Forked, Pushed, PullRequest, Issue]

  predicate IsKnown(t: ActivityType) {
    t in CategoryOrder
  }

  /** The position of a known type in the category order. */
  function Rank(t: ActivityType): (i: nat)
    requires IsKnown(t)
    ensures i < |CategoryOrder| && CategoryOrder[i] == t
  {
    if t == Starred then 0
    else if t == CreatedRepo then 1
    else if t == Forked then 2
    else if t == Pushed then 3
    else if t == PullRequest then 4
    else 5
  }

  datatype Activity = Activity(
    activityType: ActivityType, user: string, avatarUrl: string, repoName: string, repoUrl: string,
    timestamp: Time, details: string)

  datatype AggregatedActivity = AggregatedActivity(
    firstTime: Time, lastTime: Time, user: string, avatarUrl: string, repoName: string, repoUrl: string,
    details: string, activityType: ActivityType, count: int)

  datatype UserActivity = UserActivity(user: string, avatarUrl: string, activities: seq<Activity>)

  datatype Report = Report(generatedAt: Time, periodStart: Time, periodEnd: Time, userActivities: seq<UserActivity>)

  datatype CategoryGroup = CategoryGroup(activityType: ActivityType, activities: seq<Activity>)

  datatype AggregatedCategoryGroup = AggregatedCategoryGroup(activityType: ActivityType, activities: seq<AggregatedActivity>)

  datatype AggregatedUserActivity = AggregatedUserActivity(user: string, avatarUrl: string, activities: seq<AggregatedActivity>)

  datatype ActivityStats = ActivityStats(stars: int, repos: int, forks: int, pushes: int, prs: int, issues: int)

  datatype Highlight = Highlight(activity: Activity, user: string, avatarUrl: string, reason: string)

  // ---------------------------------------------------------------------
  // All activities, totals and per-type counts
  // ---------------------------------------------------------------------

  /** Every activity of the report, user by user, each user's in order. */
  function AllActivities(uas: seq<UserActivity>): seq<Activity> {
    if uas == [] then [] else AllActivities(uas[..|uas| - 1]) + uas[|uas| - 1].activities
  }

  /** The activities of type `t`, in order. */
  function OfType(acts: seq<Activity>, t: ActivityType): (r: seq<Activity>)
    ensures |r| <= |acts|
  {
    if acts == [] then []
    else
      var last := acts[|acts| - 1];
      OfType(acts[..|acts| - 1], t) + (if last.activityType == t then [last] else [])
  }

  lemma {:induction false} OfTypeMembers(acts: seq<Activity>, t: ActivityType)
    ensures forall a :: a in OfType(acts, t) <==> a in acts && a.activityType == t
    decreases |acts|
  {
    if acts != [] {
      var n := |acts| - 1;
      assert acts == acts[..n] + [acts[n]];
      OfTypeMembers(acts[..n], t);
    }
  }

  lemma OfTypeSnoc(acts: seq<Activity>, a: Activity)
    ensures forall t :: OfType(acts + [a], t) == OfType(acts, t) + (if a.activityType == t then [a] else [])
  {
    assert (acts + [a])[..|acts|] == acts;
  }

  /** The activities whose type is none of the six known ones. */
  function Unknown(acts: seq<Activity>): (r: seq<Activity>)
    ensures |r| <= |acts|
  {
    if acts == [] then []
    else
      var last := acts[|acts| - 1];
      Unknown(acts[..|acts| - 1]) + (if IsKnown(last.activityType) then [] else [last])
  }

  /** The count of each known type among `acts`. */
  function StatsOf(acts: seq<Activity>): ActivityStats {
    ActivityStats(
      |OfType(acts, Starred)|, |OfType(acts, CreatedRepo)|, |OfType(acts, Forked)|,
      |OfType(acts, Pushed)|, |OfType(acts, PullRequest)|, |OfType(acts, Issue)|)
  }

  function StatsSum(s: ActivityStats): int {
    s.stars + s.repos + s.forks + s.pushes + s.prs + s.issues
  }

  /** The six counts and the unknown activities account for every activity exactly once. */
  lemma {:induction false} StatsPartition(acts: seq<Activity>)
    ensures StatsSum(StatsOf(acts)) + |Unknown(acts)| == |acts|
    decreases |acts|
  {
    if acts != [] {
      var n := |acts| - 1;
      assert acts == acts[..n] + [acts[n]];
      StatsPartition(acts[..n]);
      OfTypeSnoc(acts[..n], acts[n]);
    }
  }

  /** `TotalActivities`: the number of activities of all users. */
  method TotalActivities(r: Report) returns (total: int)
    ensures total == |AllActivities(r.userActivities)|
  {
    var uas := r.userActivities;
    total := 0;
    for i := 0 to |uas|
      invariant total == |AllActivities(uas[..i])|
    {
      assert uas[..i + 1][..i] == uas[..i];
      total := total + |uas[i].activities|;
    }
    assert uas[..|uas|] == uas;
  }

  /** The inner loop of `GetStats`: tallies one user's activities onto `stats`. */
  method Tally(stats: ActivityStats, ghost before: seq<Activity>, acts: seq<Activity>) returns (r: ActivityStats)
    requires stats == StatsOf(before)
    ensures r == StatsOf(before + acts)
  {
    r := stats;
    assert before + acts[..0] == before;
    for j := 0 to |acts|
      invariant r == StatsOf(before + acts[..j])
    {
      assert before + acts[..j + 1] == (before + acts[..j]) + [acts[j]];
      OfTypeSnoc(before + acts[..j], acts[j]);
      var t := acts[j].activityType;
      if t == Starred {
        r := r.(stars := r.stars + 1);
      } else if t == CreatedRepo {
        r := r.(repos := r.repos + 1);
      } else if t == Forked {
        r := r.(forks := r.forks + 1);
      } else if t == Pushed {
        r := r.(pushes := r.pushes + 1);
      } else if t == PullRequest {
        r := r.(prs := r.prs + 1);
      } else if t == Issue {
        r := r.(issues := r.issues + 1);
      }
    }
    assert acts[..|acts|] == acts;
  }

  /** `GetStats`: how many activities of each known type there are; unknown types are not counted. */
  method GetStats(r: Report) returns (stats: ActivityStats)
    ensures stats == StatsOf(AllActivities(r.userActivities))
  {
    var uas := r.userActivities;
    stats := ActivityStats(0, 0, 0, 0, 0, 0);
    for i := 0 to |uas|
      invariant stats == StatsOf(AllActivities(uas[..i]))
    {
      assert uas[..i + 1][..i] == uas[..i];
      stats := Tally(stats, AllActivities(uas[..i]), uas[i].activities);
    }
    assert uas[..|uas|] == uas;
  }

  // ---------------------------------------------------------------------
  // The category view
  // ---------------------------------------------------------------------

  /** The groups for the types of `order` that occur, in that order. */
  function GroupsIn(order: seq<ActivityType>, acts: seq<Activity>): seq<CategoryGroup> {
    if order == [] then []
    else
      var t := order[|order| - 1];
      GroupsIn(order[..|order| - 1], acts) + (if OfType(acts, t) != [] then [CategoryGroup(t, OfType(acts, t))] else [])
  }

  /** The category view of a list of activities. */
  function CategoryGroups(acts: seq<Activity>): seq<CategoryGroup> {
    GroupsIn(CategoryOrder, acts)
  }

  lemma {:induction false} GroupsInShape(order: seq<ActivityType>, acts: seq<Activity>)
    ensures forall g :: g in GroupsIn(order, acts) ==>
      g.activityType in order && g.activities == OfType(acts, g.activityType) && g.activities != []
    ensures forall t :: t in order && OfType(acts, t) != [] ==> CategoryGroup(t, OfType(acts, t)) in GroupsIn(order, acts)
    decreases |order|
  {
    if order != [] {
      var n := |order| - 1;
      assert order == order[..n] + [order[n]];
      GroupsInShape(order[..n], acts);
    }
  }

  lemma RankOfPosition(k: nat)
    requires k < |CategoryOrder|
    ensures Rank(CategoryOrder[k]) == k
  {
  }

  /** Over a prefix of the category order, the groups come in increasing rank, all below the prefix's end. */
  lemma {:induction false} GroupsInPrefixOrdered(k: nat, acts: seq<Activity>)
    requires k <= |CategoryOrder|
    ensures var gs := GroupsIn(CategoryOrder[..k], acts);
      && (forall g :: g in gs ==> IsKnown(g.activityType) && Rank(g.activityType) < k)
      && (forall i, j :: 0 <= i < j < |gs| ==> Rank(gs[i].activityType) < Rank(gs[j].activityType))
    decreases k
  {
    if k > 0 {
      assert CategoryOrder[..k][..k - 1] == CategoryOrder[..k - 1];
      GroupsInPrefixOrdered(k - 1, acts);
      RankOfPosition(k - 1);
      var prev := GroupsIn(CategoryOrder[..k - 1], acts);
      var gs := GroupsIn(CategoryOrder[..k], acts);
      forall i, j | 0 <= i < j < |gs|
        ensures Rank(gs[i].activityType) < Rank(gs[j].activityType)
      {
        assert gs[i] == prev[i] && prev[i] in prev;
        if j < |prev| {
          assert gs[j] == prev[j] && prev[j] in prev;
        }
      }
    }
  }

  /**
   * The category view: one group per known type that occurs, holding exactly
   * the activities of that type in encounter order, the groups in category
   * order; the unknown types appear in no group.
   */
  lemma CategoryGroupsShape(acts: seq<Activity>)
    ensures var gs := CategoryGroups(acts);
      && (forall g :: g in gs ==> IsKnown(g.activityType) && g.activities == OfType(acts, g.activityType) && g.activities != [])
      && (forall t :: IsKnown(t) && OfType(acts, t) != [] ==> CategoryGroup(t, OfType(acts, t)) in gs)
      && (forall i, j :: 0 <= i < j < |gs| ==> Rank(gs[i].activityType) < Rank(gs[j].activityType))
  {
    GroupsInShape(CategoryOrder, acts);
    GroupsInPrefixOrdered(|CategoryOrder|, acts);
    assert CategoryOrder[..|CategoryOrder|] == CategoryOrder;
  }

  /** Each group of the category view holds as many activities as the stats count for its type. */
  lemma CategoryGroupsAgreeWithStats(acts: seq<Activity>, g: CategoryGroup)
    requires g in CategoryGroups(acts)
    ensures var s := StatsOf(acts);
      |g.activities| == (
        if g.activityType == Starred then s.stars
        else if g.activityType == CreatedRepo then s.repos
        else if g.activityType == Forked then s.forks
        else if g.activityType == Pushed then s.pushes
        else if g.activityType == PullRequest then s.prs
        else s.issues)
  {
    CategoryGroupsShape(acts);
  }

  function Lookup(m: map<ActivityType, seq<Activity>>, t: ActivityType): seq<Activity> {
    if t in m then m[t] else []
  }

  /** Filing one more activity under its type keeps each type's group equal to the activities of that type. */
  lemma CollectStep(r: map<ActivityType, seq<Activity>>, prefix: seq<Activity>, a: Activity)
    requires forall t :: Lookup(r, t) == OfType(prefix, t)
    ensures forall t :: Lookup(r[a.activityType := Lookup(r, a.activityType) + [a]], t) == OfType(prefix + [a], t)
  {
    OfTypeSnoc(prefix, a);
  }

  /** The inner collection loop: files one user's activities under their types. */
  method CollectInto(groups: map<ActivityType, seq<Activity>>, ghost before: seq<Activity>, acts: seq<Activity>)
    returns (r: map<ActivityType, seq<Activity>>)
    requires forall t :: Lookup(groups, t) == OfType(before, t)
    ensures forall t :: Lookup(r, t) == OfType(before + acts, t)
  {
    r := groups;
    assert before + acts[..0] == before;
    for j := 0 to |acts|
      invariant forall t :: Lookup(r, t) == OfType(before + acts[..j], t)
    {
      assert before + acts[..j + 1] == (before + acts[..j]) + [acts[j]];
      CollectStep(r, before + acts[..j], acts[j]);
      var a := acts[j];
      r := r[a.activityType := Lookup(r, a.activityType) + [a]];
    }
    assert acts[..|acts|] == acts;
  }

  /** The collection loop shared by both category views: the activities of each type, by type. */
  method CollectByType(uas: seq<UserActivity>) returns (groups: map<ActivityType, seq<Activity>>)
    ensures forall t :: Lookup(groups, t) == OfType(AllActivities(uas), t)
  {
    groups := map[];
    for i := 0 to |uas|
      invariant forall t :: Lookup(groups, t) == OfType(AllActivities(uas[..i]), t)
    {
      assert uas[..i + 1][..i] == uas[..i];
      groups := CollectInto(groups, AllActivities(uas[..i]), uas[i].activities);
    }
    assert uas[..|uas|] == uas;
  }

  /** `ActivitiesByCategory`. */
  method ActivitiesByCategory(r: Report) returns (result: seq<CategoryGroup>)
    ensures result == CategoryGroups(AllActivities(r.userActivities))
  {
    var groups := CollectByType(r.userActivities);
    ghost var acts := AllActivities(r.userActivities);
    result := [];
    for k := 0 to |CategoryOrder|
      invariant result == GroupsIn(CategoryOrder[..k], acts)
    {
      assert CategoryOrder[..k + 1][..k] == CategoryOrder[..k];
      var t := CategoryOrder[k];
      assert Lookup(groups, t) == OfType(acts, t);
      if t in groups && |groups[t]| > 0 {
        result := result + [CategoryGroup(t, groups[t])];
      }
    }
    assert CategoryOrder[..|CategoryOrder|] == CategoryOrder;
  }
}
