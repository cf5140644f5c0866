/** The activity scorer of controllers/subredditController.go: merges the
    subscribed, upvoted and commented name sets into per-name flags and keeps
    the names whose flag count reaches a threshold. Go map iteration order is
    unspecified, so the loops below pick their next element with `:|`. */
module Activity {

  /** `SubredditStats`: the three independent interaction flags of one name. */
  datatype Stats = Stats(name: string, subscribed: bool, upvoted: bool, commented: bool)

  /** The activity score: how many of the three flags are set. */
  function Score(s: Stats): nat {
    (if s.subscribed then 1 else 0) + (if s.upvoted then 1 else 0) + (if s.commented then 1 else 0)
  }

  /** What the combination should be, stated directly: one entry per name in
      any of the sets, each flag telling membership in its set. */
  ghost function CombinedSpec(subscribed: set<string>, upvoted: set<string>, commented: set<string>): map<string, Stats> {
    map n | n in subscribed + upvoted + commented :: Stats(n, n in subscribed, n in upvoted, n in commented)
  }

  /** The entry for `sub`, created with no flag set when it is missing. */
  function EntryFor(combined: map<string, Stats>, sub: string): Stats {
    if sub in combined then combined[sub] else Stats(sub, false, false, false)
  }

  /** `CombineSubredditStats`: three passes, each creating missing entries and
      setting its own flag. */
  method CombineSubredditStats(subscribed: set<string>, upvoted: set<string>, commented: set<string>)
    returns (combined: map<string, Stats>)
    ensures combined.Keys == subscribed + upvoted + commented
    ensures forall n :: n in combined ==>
      combined[n].name == n
      && (combined[n].subscribed <==> n in subscribed)
      && (combined[n].upvoted <==> n in upvoted)
      && (combined[n].commented <==> n in commented)
    ensures forall n :: n in combined ==> 1 <= Score(combined[n]) <= 3
    ensures combined == CombinedSpec(subscribed, upvoted, commented)
  {
    combined := map[];
    var rest := subscribed;
    while rest != {}
      invariant rest <= subscribed
      invariant combined.Keys == subscribed - rest
      invariant forall n :: n in combined ==> combined[n] == Stats(n, true, false, false)
      decreases rest
    {
      var sub :| sub in rest;
      combined := combined[sub := EntryFor(combined, sub).(subscribed := true)];
      rest := rest - {sub};
    }
    rest := upvoted;
    while rest != {}
      invariant rest <= upvoted
      invariant combined.Keys == subscribed + (upvoted - rest)
      invariant forall n :: n in combined ==> combined[n] == Stats(n, n in subscribed, n in upvoted - rest, false)
      decreases rest
    {
      var sub :| sub in rest;
      combined := combined[sub := EntryFor(combined, sub).(upvoted := true)];
      rest := rest - {sub};
    }
    rest := commented;
    while rest != {}
      invariant rest <= commented
      invariant combined.Keys == subscribed + upvoted + (commented - rest)
      invariant forall n :: n in combined ==>
        combined[n] == Stats(n, n in subscribed, n in upvoted, n in commented - rest)
      decreases rest
    {
      var sub :| sub in rest;
      combined := combined[sub := EntryFor(combined, sub).(commented := true)];
      rest := rest - {sub};
    }
  }

  /** The keys whose score reaches the threshold. */
  ghost function Qualifying(combined: map<string, Stats>, threshold: int): set<string> {
    set n | n in combined && Score(combined[n]) >= threshold
  }

  /** The reference meaning of the active list: `r/` and the entry's name for
      every qualifying key. */
  ghost function ActiveNames(combined: map<string, Stats>, threshold: int): set<string> {
    set n | n in Qualifying(combined, threshold) :: "r/" + combined[n].name
  }

  /** `FilterActiveSubreddits`: one `r/<name>` per qualifying entry, in an
      unspecified order. */
  method FilterActiveSubreddits(combined: map<string, Stats>, threshold: int) returns (active: seq<string>)
    ensures forall x :: x in active <==> x in ActiveNames(combined, threshold)
    ensures |active| == |Qualifying(combined, threshold)|
    ensures (forall n :: n in combined ==> combined[n].name == n) ==>
      forall i, j :: 0 <= i < j < |active| ==> active[i] != active[j]
  {
    active := [];
    ghost var picked: seq<string> := [];
    var rest := combined.Keys;
    while rest != {}
      invariant rest <= combined.Keys
      invariant |active| == |picked|
      invariant forall i :: 0 <= i < |picked| ==> picked[i] in combined && active[i] == "r/" + combined[picked[i]].name
      invariant forall i, j :: 0 <= i < j < |picked| ==> picked[i] != picked[j]
      invariant forall n :: n in picked <==> n in Qualifying(combined, threshold) && n !in rest
      decreases rest
    {
      var sub :| sub in rest;
      if Score(combined[sub]) >= threshold {
        active := active + ["r/" + combined[sub].name];
        picked := picked + [sub];
      }
      rest := rest - {sub};
    }
    DistinctCard(picked);
    assert (set n | n in picked) == Qualifying(combined, threshold);
    forall x | x in ActiveNames(combined, threshold) ensures x in active {
      var n :| n in Qualifying(combined, threshold) && x == "r/" + combined[n].name;
      var i :| 0 <= i < |picked| && picked[i] == n;
      assert active[i] == x;
    }
    if forall n :: n in combined ==> combined[n].name == n {
      forall i, j | 0 <= i < j < |active| ensures active[i] != active[j] {
        assert active[i][2..] == picked[i] && active[j][2..] == picked[j];
      }
    }
  }

  /** A duplicate-free sequence has as many elements as its set. */
  lemma {:induction false} DistinctCard(s: seq<string>)
    requires forall i, j :: 0 <= i < j < |s| ==> s[i] != s[j]
    ensures |set x | x in s| == |s|
    decreases |s|
  {
    if |s| > 0 {
      var t := s[..|s| - 1];
      DistinctCard(t);
      assert (set x | x in s) == (set x | x in t) + {s[|s| - 1]};
      assert s[|s| - 1] !in t;
    }
  }

  /** Raising the threshold can only shrink the active list. */
  lemma ThresholdMonotone(combined: map<string, Stats>, low: int, high: int)
    requires low <= high
    ensures ActiveNames(combined, high) <= ActiveNames(combined, low)
    ensures Qualifying(combined, high) <= Qualifying(combined, low)
  {
  }

  /** Every combined entry has at least one flag, so a threshold of one or
      less keeps every name; no entry scores four, so four or more keeps none. */
  lemma ThresholdExtremes(subscribed: set<string>, upvoted: set<string>, commented: set<string>, threshold: int)
    ensures threshold <= 1 ==>
      ActiveNames(CombinedSpec(subscribed, upvoted, commented), threshold)
      == set n | n in subscribed + upvoted + commented :: "r/" + n
    ensures threshold >= 4 ==> ActiveNames(CombinedSpec(subscribed, upvoted, commented), threshold) == {}
  {
    var c := CombinedSpec(subscribed, upvoted, commented);
    if threshold <= 1 {
      assert Qualifying(c, threshold) == subscribed + upvoted + commented;
    }
    if threshold >= 4 {
      assert Qualifying(c, threshold) == {};
    }
  }
}
