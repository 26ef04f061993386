/**
 * The total lookup tables of the report: the heading of each category, the
 * icon and verb of each activity type, the verb of an aggregated entry, the
 * tagline for an activity count, and which types are "hot".
 */
module ReportLabels {
  import Text
  import opened Report

  const OtherActivity := "Other Activity"
  const DefaultIcon := "\U{1F4CB}"
  const DefaultVerb := "acted on"

  /** The heading of a category. */
  function CategoryName(t: ActivityType): string {
    if t == Starred then "New Stars"
    else if t == CreatedRepo then "Repos Created"
    else if t == Forked then "Forks"
    else if t == Pushed then "Recent Pushes"
    else if t == PullRequest then "Pull Requests"
    else if t == Issue then "Issues Opened"
    else OtherActivity
  }

  /** The icon of an activity type. */
  function ActivityIcon(t: ActivityType): string {
    if t == Starred then "\U{2B50}"
    else if t == CreatedRepo then "\U{1F195}"
    else if t == Forked then "\U{1F531}"
    else if t == Pushed then "\U{1F4E4}"
    else if t == PullRequest then "\U{1F500}"
    else if t == Issue then "\U{1F41B}"
    else DefaultIcon
  }

  /** The verb of a single activity. */
  function ActivityVerb(t: ActivityType): string {
    if t == Starred then "starred"
    else if t == CreatedRepo then "created"
    else if t == Forked then "forked"
    else if t == Pushed then "pushed to"
    else if t == PullRequest then "opened PR on"
    else if t == Issue then "opened issue on"
    else DefaultVerb
  }

  /** The text around the count in the verb of an aggregated entry. */
  function CountedVerbParts(t: ActivityType): (string, string) {
    if t == Starred then ("starred ", " repos including")
    else if t == CreatedRepo then ("created ", " repos including")
    else if t == Forked then ("forked ", " repos including")
    else if t == Pushed then ("pushed ", " times to")
    else if t == PullRequest then ("opened ", " PRs on")
    else if t == Issue then ("opened ", " issues on")
    else ("acted ", " times on")
  }

  /** The verb of an aggregated entry: the plain verb for one activity, otherwise one that states the count. */
  function AggregatedVerb(t: ActivityType, count: int): string {
    if count <= 1 then ActivityVerb(t)
    else
      var (before, after) := CountedVerbParts(t);
      before + Text.FormatDecimal(count) + after
  }

  /** Whether an activity type is highlighted as high engagement. */
  function IsHotActivity(t: ActivityType): bool {
    t == CreatedRepo || t == PullRequest
  }

  /** The five taglines, from the calmest to the busiest. */
  const Taglines: seq<string> := [
    "The calm before the storm...",
    "A quiet day in the neighborhood",
    "Your network has been busy!",
    "Lots of action today! \U{1F389}",
    "Your network is ON FIRE! \U{1F525}\U{1F525}\U{1F525}"]

  /** The upper ends of the first four tagline buckets. */
  const Thresholds: seq<int> := [0, 3, 10, 25]

  /** The tagline for an activity count. */
  function Tagline(count: int): string {
    if count == 0 then Taglines[0]
    else if count <= 3 then Taglines[1]
    else if count <= 10 then Taglines[2]
    else if count <= 25 then Taglines[3]
    else Taglines[4]
  }

  /** How many of `bounds` lie below `n`. */
  function CountBelow(bounds: seq<int>, n: int): (c: nat)
    ensures c <= |bounds|
  {
    if bounds == [] then 0
    else CountBelow(bounds[..|bounds| - 1], n) + (if bounds[|bounds| - 1] < n then 1 else 0)
  }

  // ---------------------------------------------------------------------
  // Properties of the tables
  // ---------------------------------------------------------------------

  /** The catch-all heading, icon and verb are used for exactly the unknown types. */
  lemma DefaultsExactlyForUnknown(t: ActivityType)
    ensures CategoryName(t) == OtherActivity <==> !IsKnown(t)
    ensures ActivityIcon(t) == DefaultIcon <==> !IsKnown(t)
    ensures ActivityVerb(t) == DefaultVerb <==> !IsKnown(t)
  {
  }

  /** Distinct known types get distinct headings. */
  lemma CategoryNamesDistinct(t: ActivityType, u: ActivityType)
    requires IsKnown(t) && IsKnown(u) && t != u
    ensures CategoryName(t) != CategoryName(u)
  {
  }

  /** Distinct known types get distinct icons. */
  lemma IconsDistinct(t: ActivityType, u: ActivityType)
    requires IsKnown(t) && IsKnown(u) && t != u
    ensures ActivityIcon(t) != ActivityIcon(u)
  {
  }

  /** Distinct known types get distinct verbs. */
  lemma VerbsDistinct(t: ActivityType, u: ActivityType)
    requires IsKnown(t) && IsKnown(u) && t != u
    ensures ActivityVerb(t) != ActivityVerb(u)
  {
  }

  /** A single (or empty) aggregate reads like a single activity. */
  lemma AggregatedVerbOfOne(t: ActivityType, count: int)
    requires count <= 1
    ensures AggregatedVerb(t, count) == ActivityVerb(t)
  {
  }

  /** Above one, the aggregated verb determines the count and never reads like a single activity. */
  lemma AggregatedVerbStatesCount(t: ActivityType, c: int, d: int)
    requires c > 1 && d > 1
    ensures AggregatedVerb(t, c) == AggregatedVerb(t, d) <==> c == d
    ensures AggregatedVerb(t, c) != ActivityVerb(t)
  {
    var (before, after) := CountedVerbParts(t);
    var fc, fd := Text.FormatDecimal(c), Text.FormatDecimal(d);
    if AggregatedVerb(t, c) == AggregatedVerb(t, d) {
      assert before + fc + after == before + fd + after;
      assert |fc| == |fd|;
      assert fc == (before + fc + after)[|before|..|before| + |fc|];
      assert fd == (before + fd + after)[|before|..|before| + |fd|];
      Text.FormatDecimalInjective(c, d);
    }
    assert |Text.FormatDecimal(c)| > 0;
  }

  /** For counts of zero or more, the tagline is the one indexed by the number of thresholds the count exceeds. */
  lemma TaglineByThresholds(count: int)
    requires count >= 0
    ensures Tagline(count) == Taglines[CountBelow(Thresholds, count)]
  {
    assert [0, 3, 10, 25][..3] == [0, 3, 10];
    assert [0, 3, 10][..2] == [0, 3];
    assert [0, 3][..1] == [0];
    assert [0][..0] == [];
    assert CountBelow([0], count) == (if 0 < count then 1 else 0);
    assert CountBelow([0, 3], count) == CountBelow([0], count) + (if 3 < count then 1 else 0);
    assert CountBelow([0, 3, 10], count) == CountBelow([0, 3], count) + (if 10 < count then 1 else 0);
    assert CountBelow(Thresholds, count) == CountBelow([0, 3, 10], count) + (if 25 < count then 1 else 0);
  }

  /** More activity never gives a calmer tagline. */
  lemma TaglineMonotone(c: int, d: int)
    requires 0 <= c <= d
    ensures Tagline(c) == Taglines[CountBelow(Thresholds, c)]
    ensures Tagline(d) == Taglines[CountBelow(Thresholds, d)]
    ensures CountBelow(Thresholds, c) <= CountBelow(Thresholds, d)
  {
    TaglineByThresholds(c);
    TaglineByThresholds(d);
    CountBelowMonotone(Thresholds, c, d);
  }

  lemma {:induction false} CountBelowMonotone(bounds: seq<int>, c: int, d: int)
    requires c <= d
    ensures CountBelow(bounds, c) <= CountBelow(bounds, d)
    decreases |bounds|
  {
    if bounds != [] {
      CountBelowMonotone(bounds[..|bounds| - 1], c, d);
    }
  }
}
