/**
 * The reading view's logic in components/EntryFeed.tsx: the coarse age label
 * of an entry and the pass that gathers consecutive entries with the same
 * label into groups. Time is in milliseconds; `now` stands for the clock.
 */
module EntryFeed {
  import opened Journal
  import Storage

  const HOUR_MILLIS: int := 1000 * 60 * 60
  const DAY_MILLIS: int := 24 * HOUR_MILLIS

  /** The exclusive upper ends of the first six buckets, as elapsed milliseconds, in checking order. */
  const THRESHOLDS: seq<int> :=
    [HOUR_MILLIS, 24 * HOUR_MILLIS, 48 * HOUR_MILLIS, 7 * DAY_MILLIS, 30 * DAY_MILLIS, 90 * DAY_MILLIS]

  /**
   * `elapsed` lies in the bucket of `l`: no less than the threshold before it
   * (none for "Just now") and below its own (none for "A long time ago").
   */
  predicate InBucket(elapsed: int, l: Label)
  {
    (Rank(l) == 0 || THRESHOLDS[Rank(l) - 1] <= elapsed) &&
    (Rank(l) == 6 || elapsed < THRESHOLDS[Rank(l)])
  }

  /** The label of an entry written at `timestamp`, seen at `now`: the first threshold the age is below. */
  function VagueTime(now: int, timestamp: int): (l: Label)
    ensures InBucket(now - timestamp, l)
  {
    var diff := now - timestamp;
    if diff < HOUR_MILLIS then JustNow
    else if diff < 24 * HOUR_MILLIS then Today
    else if diff < 48 * HOUR_MILLIS then Yesterday
    else if diff < 7 * DAY_MILLIS then ThisWeek
    else if diff < 30 * DAY_MILLIS then Earlier
    else if diff < 90 * DAY_MILLIS then SomeTimeAgo
    else LongTimeAgo
  }

  /** The buckets do not overlap, so the bucket `VagueTime` picks is the only one the age lies in. */
  lemma BucketIsUnique(elapsed: int, a: Label, b: Label)
    requires InBucket(elapsed, a) && InBucket(elapsed, b)
    ensures a == b
  {
  }

  /** More elapsed time never gives a label earlier in the threshold order. */
  lemma VagueTimeIsMonotone(now1: int, t1: int, now2: int, t2: int)
    requires now1 - t1 <= now2 - t2
    ensures Rank(VagueTime(now1, t1)) <= Rank(VagueTime(now2, t2))
  {
  }

  /** A timestamp in the future (negative age) reads as "Just now". */
  lemma FutureIsJustNow(now: int, timestamp: int)
    requires timestamp > now
    ensures VagueTime(now, timestamp) == JustNow
  {
  }

  /** Ages of half an hour, 10 hours, 30 hours, 4, 20, 60 and 200 days get the seven labels in order. */
  lemma SampleAges(now: int)
    ensures VagueTime(now, now - HOUR_MILLIS / 2) == JustNow
    ensures VagueTime(now, now - 10 * HOUR_MILLIS) == Today
    ensures VagueTime(now, now - 30 * HOUR_MILLIS) == Yesterday
    ensures VagueTime(now, now - 4 * DAY_MILLIS) == ThisWeek
    ensures VagueTime(now, now - 20 * DAY_MILLIS) == Earlier
    ensures VagueTime(now, now - 60 * DAY_MILLIS) == SomeTimeAgo
    ensures VagueTime(now, now - 200 * DAY_MILLIS) == LongTimeAgo
  {
  }

  // ---------------------------------------------------------------------------
  // Grouping

  /** A run of consecutive entries shown under one label. */
  datatype Group = Group(heading: Label, items: seq<Entry>)

  function LabelOf(now: int, e: Entry): Label
  {
    VagueTime(now, e.timestamp.millis)
  }

  /** The items of all groups, in order. */
  function Flatten(groups: seq<Group>): seq<Entry>
  {
    if groups == [] then [] else Flatten(groups[..|groups| - 1]) + groups[|groups| - 1].items
  }

  /**
   * `groups` cuts `entries` into runs: read in order they give back the
   * entries, no group is empty, every item carries its group's label, and
   * neighbouring groups have different labels.
   */
  ghost predicate IsRunGrouping(groups: seq<Group>, entries: seq<Entry>, now: int)
  {
    && Flatten(groups) == entries
    && (forall i | 0 <= i < |groups| :: groups[i].items != [])
    && (forall i, e | 0 <= i < |groups| && e in groups[i].items :: LabelOf(now, e) == groups[i].heading)
    && (forall i | 0 < i < |groups| :: groups[i - 1].heading != groups[i].heading)
  }

  lemma ItemLabel(groups: seq<Group>, entries: seq<Entry>, now: int, i: int, e: Entry)
    requires IsRunGrouping(groups, entries, now)
    requires 0 <= i < |groups| && e in groups[i].items
    ensures LabelOf(now, e) == groups[i].heading
  {
  }

  /** Starting a new group for the next entry, whose label differs from the last group's, keeps a grouping. */
  lemma StartGroup(groups: seq<Group>, entries: seq<Entry>, k: nat, now: int)
    requires k < |entries| && IsRunGrouping(groups, entries[..k], now)
    requires groups != [] ==> groups[|groups| - 1].heading != LabelOf(now, entries[k])
    ensures IsRunGrouping(groups + [Group(LabelOf(now, entries[k]), [entries[k]])], entries[..k + 1], now)
  {
    var next := groups + [Group(LabelOf(now, entries[k]), [entries[k]])];
    assert entries[..k + 1] == entries[..k] + [entries[k]];
    assert next[..|groups|] == groups;
  }

  /** Adding the next entry, which has the last group's label, to that group keeps a grouping. */
  lemma ExtendGroup(groups: seq<Group>, entries: seq<Entry>, k: nat, now: int)
    requires k < |entries| && IsRunGrouping(groups, entries[..k], now)
    requires groups != [] && groups[|groups| - 1].heading == LabelOf(now, entries[k])
    ensures var n := |groups|;
      IsRunGrouping(groups[..n - 1] + [Group(groups[n - 1].heading, groups[n - 1].items + [entries[k]])],
                    entries[..k + 1], now)
  {
    var n := |groups|;
    var entry := entries[k];
    var last := groups[n - 1];
    var next := groups[..n - 1] + [Group(last.heading, last.items + [entry])];
    assert entries[..k + 1] == entries[..k] + [entry];
    assert next[..n - 1] == groups[..n - 1];
    assert Flatten(next) == Flatten(groups) + [entry];
    forall i, e | 0 <= i < n && e in next[i].items ensures LabelOf(now, e) == next[i].heading {
      if i < n - 1 {
        assert next[i] == groups[i];
      } else {
        assert e in last.items || e == entry;
      }
    }
    forall i | 0 < i < n ensures next[i - 1].heading != next[i].heading {
      assert next[i - 1].heading == groups[i - 1].heading && next[i].heading == groups[i].heading;
    }
  }

  /** The grouping pass of the feed: one scan, extending the last group or starting a new one. */
  method GroupByVagueTime(entries: seq<Entry>, now: int) returns (groups: seq<Group>)
    ensures IsRunGrouping(groups, entries, now)
    ensures entries == [] <==> groups == []
    ensures |groups| <= |entries|
  {
    groups := [];
    for k := 0 to |entries|
      invariant IsRunGrouping(groups, entries[..k], now)
      invariant |groups| <= k
      invariant k > 0 <==> groups != []
    {
      var entry := entries[k];
      var l := VagueTime(now, entry.timestamp.millis);
      var n := |groups|;
      if n > 0 && groups[n - 1].heading == l {
        ExtendGroup(groups, entries, k, now);
        groups := groups[..n - 1] + [Group(groups[n - 1].heading, groups[n - 1].items + [entry])];
      } else {
        StartGroup(groups, entries, k, now);
        groups := groups + [Group(l, [entry])];
      }
    }
    assert entries[..|entries|] == entries;
  }

  // ---------------------------------------------------------------------------
  // The grouping is unique

  /** How many entries at the end of `s` carry label `l`, counted back until one does not. */
  function TrailingRun(s: seq<Entry>, l: Label, now: int): nat
  {
    if s == [] || LabelOf(now, s[|s| - 1]) != l then 0 else 1 + TrailingRun(s[..|s| - 1], l, now)
  }

  lemma {:induction false} TrailingRunAppend(s: seq<Entry>, t: seq<Entry>, l: Label, now: int)
    requires forall e | e in t :: LabelOf(now, e) == l
    ensures TrailingRun(s + t, l, now) == TrailingRun(s, l, now) + |t|
    decreases |t|
  {
    if t != [] {
      var t' := t[..|t| - 1];
      assert (s + t)[..|s + t| - 1] == s + t';
      TrailingRunAppend(s, t', l, now);
    } else {
      assert s + t == s;
    }
  }

  /** Dropping the last group leaves a grouping of the entries before it. */
  lemma DropLastGroup(groups: seq<Group>, entries: seq<Entry>, now: int)
    requires IsRunGrouping(groups, entries, now) && groups != []
    ensures var last := groups[|groups| - 1];
      && |last.items| <= |entries|
      && entries == entries[..|entries| - |last.items|] + last.items
      && last.items == entries[|entries| - |last.items|..]
      && IsRunGrouping(groups[..|groups| - 1], entries[..|entries| - |last.items|], now)
  {
    var last := groups[|groups| - 1];
    var init := groups[..|groups| - 1];
    assert entries == Flatten(init) + last.items;
    assert entries[..|entries| - |last.items|] == Flatten(init);
  }

  /** The last group holds exactly the trailing run of entries that share the last entry's label. */
  lemma LastGroupIsTrailingRun(groups: seq<Group>, entries: seq<Entry>, now: int)
    requires IsRunGrouping(groups, entries, now) && groups != []
    ensures |groups[|groups| - 1].items| == TrailingRun(entries, groups[|groups| - 1].heading, now)
  {
    var m := |groups|;
    var last := groups[m - 1];
    DropLastGroup(groups, entries, now);
    var prefix := entries[..|entries| - |last.items|];
    TrailingRunAppend(prefix, last.items, last.heading, now);
    if prefix != [] {
      var init := groups[..m - 1];
      assert init != [];
      var before := init[|init| - 1];
      DropLastGroup(init, prefix, now);
      assert prefix[|prefix| - 1] == before.items[|before.items| - 1];
      assert before == groups[m - 2];
      assert LabelOf(now, prefix[|prefix| - 1]) == before.heading;
    }
  }

  /** A grouping is empty exactly when there are no entries. */
  lemma EmptyGrouping(groups: seq<Group>, entries: seq<Entry>, now: int)
    requires IsRunGrouping(groups, entries, now)
    ensures groups == [] <==> entries == []
  {
    if groups != [] {
      DropLastGroup(groups, entries, now);
    }
  }

  /** Two groupings of the same entries end with the same group. */
  lemma LastGroupsAgree(g1: seq<Group>, g2: seq<Group>, entries: seq<Entry>, now: int)
    requires IsRunGrouping(g1, entries, now) && IsRunGrouping(g2, entries, now)
    requires g1 != [] && g2 != []
    ensures g1[|g1| - 1] == g2[|g2| - 1]
  {
    var a := g1[|g1| - 1];
    var b := g2[|g2| - 1];
    DropLastGroup(g1, entries, now);
    DropLastGroup(g2, entries, now);
    var lastEntry := entries[|entries| - 1];
    assert lastEntry == a.items[|a.items| - 1] && lastEntry == b.items[|b.items| - 1];
    ItemLabel(g1, entries, now, |g1| - 1, lastEntry);
    ItemLabel(g2, entries, now, |g2| - 1, lastEntry);
    LastGroupIsTrailingRun(g1, entries, now);
    LastGroupIsTrailingRun(g2, entries, now);
  }

  /** Only one list of groups has the properties `GroupByVagueTime` promises. */
  lemma {:induction false} RunGroupingIsUnique(g1: seq<Group>, g2: seq<Group>, entries: seq<Entry>, now: int)
    requires IsRunGrouping(g1, entries, now) && IsRunGrouping(g2, entries, now)
    ensures g1 == g2
    decreases |entries|
  {
    EmptyGrouping(g1, entries, now);
    EmptyGrouping(g2, entries, now);
    if entries != [] {
      LastGroupsAgree(g1, g2, entries, now);
      var last := g1[|g1| - 1];
      DropLastGroup(g1, entries, now);
      DropLastGroup(g2, entries, now);
      var prefix := entries[..|entries| - |last.items|];
      RunGroupingIsUnique(g1[..|g1| - 1], g2[..|g2| - 1], prefix, now);
      assert g1 == g1[..|g1| - 1] + [last];
      assert g2 == g2[..|g2| - 1] + [last];
    }
  }

  /**
   * Labels that come back after another label form a new group: four entries
   * labelled "Just now", "Just now", "Today", "Just now" give three groups,
   * and these are the only groups `GroupByVagueTime` can return for them.
   */
  lemma ReturningLabelStartsNewGroup(now: int, e1: Entry, e2: Entry, e3: Entry, e4: Entry, groups: seq<Group>)
    requires LabelOf(now, e1) == JustNow && LabelOf(now, e2) == JustNow
    requires LabelOf(now, e3) == Today && LabelOf(now, e4) == JustNow
    requires IsRunGrouping(groups, [e1, e2, e3, e4], now)
    ensures groups == [Group(JustNow, [e1, e2]), Group(Today, [e3]), Group(JustNow, [e4])]
  {
    var expected := [Group(JustNow, [e1, e2]), Group(Today, [e3]), Group(JustNow, [e4])];
    assert expected[..2][..1] == [Group(JustNow, [e1, e2])];
    assert expected[..2][..1][..0] == [];
    assert Flatten(expected[..2][..1]) == [e1, e2];
    assert Flatten(expected[..2]) == [e1, e2, e3];
    assert expected[..3] == expected;
    assert Flatten(expected) == [e1, e2, e3, e4];
    RunGroupingIsUnique(groups, expected, [e1, e2, e3, e4], now);
  }

  /** On a newest-first list the last group's label comes strictly after the one before it. */
  lemma LastStepAdvances(groups: seq<Group>, entries: seq<Entry>, now: int)
    requires Storage.NewestFirst(entries) && IsRunGrouping(groups, entries, now) && |groups| > 1
    ensures Rank(groups[|groups| - 2].heading) < Rank(groups[|groups| - 1].heading)
  {
    var m := |groups|;
    var last := groups[m - 1];
    DropLastGroup(groups, entries, now);
    var prefix := entries[..|entries| - |last.items|];
    var before := groups[m - 2];
    assert before == groups[..m - 1][m - 2];
    DropLastGroup(groups[..m - 1], prefix, now);
    var x := before.items[|before.items| - 1];
    var y := last.items[0];
    assert x == prefix[|prefix| - 1];
    assert entries[|prefix|] == (prefix + last.items)[|prefix|] == y;
    assert x == entries[|prefix| - 1];
    ItemLabel(groups, entries, now, m - 2, x);
    ItemLabel(groups, entries, now, m - 1, y);
    assert x.timestamp.millis >= y.timestamp.millis;
    VagueTimeIsMonotone(now, x.timestamp.millis, now, y.timestamp.millis);
  }

  /** On a newest-first list the labels only move forward, so no label is split over two groups. */
  lemma {:induction false} NewestFirstGivesDistinctLabels(groups: seq<Group>, entries: seq<Entry>, now: int)
    requires Storage.NewestFirst(entries) && IsRunGrouping(groups, entries, now)
    ensures forall i, j | 0 <= i < j < |groups| :: Rank(groups[i].heading) < Rank(groups[j].heading)
    decreases |groups|
  {
    if groups != [] {
      var m := |groups|;
      var last := groups[m - 1];
      DropLastGroup(groups, entries, now);
      var prefix := entries[..|entries| - |last.items|];
      assert Storage.NewestFirst(prefix) by {
        forall i, j | 0 <= i < j < |prefix| ensures prefix[i].timestamp.millis >= prefix[j].timestamp.millis {
          assert prefix[i] == entries[i] && prefix[j] == entries[j];
        }
      }
      var init := groups[..m - 1];
      NewestFirstGivesDistinctLabels(init, prefix, now);
      if m > 1 {
        LastStepAdvances(groups, entries, now);
        forall i, j | 0 <= i < j < m ensures Rank(groups[i].heading) < Rank(groups[j].heading) {
          assert groups[i] == init[i];
          if j < m - 1 {
            assert groups[j] == init[j];
          } else if i < m - 2 {
            assert groups[m - 2] == init[m - 2];
          }
        }
      }
    }
  }
}
