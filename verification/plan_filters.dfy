/** The per-turn plan filters of services/assistantService.go: duplicate
    removal, the relevance test on removals, "keep r/x" requests, the
    already-subscribed filter, "don't add"/"skip"/"no" exclusions and the
    add/remove overlap guard. Subreddits are compared by their normalized
    name: the `r/` prefix dropped and the rest lower-cased. */
module PlanFilters {
  import opened Text
  import opened Seqs
  import opened Models

  /** `strings.HasPrefix(s, "r/")`. */
  predicate StartsRef(s: string) {
    |s| >= 2 && s[0] == 'r' && s[1] == '/'
  }

  /** `strings.TrimPrefix(s, "r/")`. */
  function DropRef(s: string): (r: string)
    ensures r == TrimPrefix(s, "r/")
  {
    if StartsRef(s) then s[2..] else s
  }

  /** The name a subreddit entry is compared by: `ToLower(TrimPrefix(sub, "r/"))`. */
  function Normalize(sub: string): (n: string)
    ensures IsLower(n)
  {
    ToLower(DropRef(sub))
  }

  /** The normalized names of a list. */
  function NameSet(xs: seq<string>): set<string> {
    set x | x in xs :: Normalize(x)
  }

  lemma NameSetAppend(a: seq<string>, b: seq<string>)
    ensures NameSet(a + b) == NameSet(a) + NameSet(b)
  {
    assert forall x :: x in a + b <==> x in a || x in b;
  }

  // ---------------------------------------------------------------------------
  // deduplicatePlan

  /** One pass of `deduplicatePlan` over a list: an entry is kept when its
      normalized name is not yet in `seen`, and its name is then added. */
  function DedupFrom(xs: seq<string>, seen: set<string>): seq<string>
    decreases |xs|
  {
    if |xs| == 0 then []
    else
      var n := Normalize(xs[0]);
      if n in seen then DedupFrom(xs[1..], seen)
      else [xs[0]] + DedupFrom(xs[1..], seen + {n})
  }

  lemma {:induction false} DedupFromFacts(xs: seq<string>, seen: set<string>)
    ensures Subseq(DedupFrom(xs, seen), xs)
    ensures DistinctBy(DedupFrom(xs, seen), Normalize)
    ensures forall i :: 0 <= i < |DedupFrom(xs, seen)| ==> Normalize(DedupFrom(xs, seen)[i]) !in seen
    decreases |xs|
  {
    if |xs| > 0 {
      var n := Normalize(xs[0]);
      if n in seen {
        DedupFromFacts(xs[1..], seen);
        assert DedupFrom(xs, seen) == DedupFrom(xs[1..], seen);
      } else {
        var rest := DedupFrom(xs[1..], seen + {n});
        DedupFromFacts(xs[1..], seen + {n});
        assert DedupFrom(xs, seen) == [xs[0]] + rest;
        ConsDistinct(xs[0], rest, seen + {n});
      }
    }
  }

  /** One pass covers exactly the names of its input not seen before. */
  lemma {:induction false} DedupFromNames(xs: seq<string>, seen: set<string>)
    ensures NameSet(DedupFrom(xs, seen)) == NameSet(xs) - seen
    decreases |xs|
  {
    if |xs| > 0 {
      var n := Normalize(xs[0]);
      assert xs == [xs[0]] + xs[1..];
      NameSetAppend([xs[0]], xs[1..]);
      if n in seen {
        DedupFromNames(xs[1..], seen);
        assert DedupFrom(xs, seen) == DedupFrom(xs[1..], seen);
      } else {
        var rest := DedupFrom(xs[1..], seen + {n});
        DedupFromNames(xs[1..], seen + {n});
        assert DedupFrom(xs, seen) == [xs[0]] + rest;
        NameSetAppend([xs[0]], rest);
      }
    }
  }

  lemma ConsDistinct(y: string, rest: seq<string>, names: set<string>)
    requires Normalize(y) in names
    requires DistinctBy(rest, Normalize)
    requires forall i :: 0 <= i < |rest| ==> Normalize(rest[i]) !in names
    ensures DistinctBy([y] + rest, Normalize)
  {
    var r := [y] + rest;
    forall i, j | 0 <= i < j < |r| ensures Normalize(r[i]) != Normalize(r[j]) {
      assert r[j] == rest[j - 1];
      if i > 0 {
        assert r[i] == rest[i - 1];
      }
    }
  }

  /** `deduplicatePlan` on one list: the entries keep their order, no two
      share a name, and every name of the input is still represented. */
  function Dedup(xs: seq<string>): (r: seq<string>)
    ensures Subseq(r, xs)
    ensures DistinctBy(r, Normalize)
    ensures NameSet(r) == NameSet(xs)
  {
    DedupFromFacts(xs, {});
    DedupFromNames(xs, {});
    DedupFrom(xs, {})
  }

  /** Reference definition, built from the back: the last entry belongs to
      the result exactly when no earlier entry has its name. */
  ghost function FirstOccurrences(xs: seq<string>): seq<string>
    decreases |xs|
  {
    if |xs| == 0 then []
    else
      var init := xs[..|xs| - 1];
      var last := xs[|xs| - 1];
      FirstOccurrences(init) + (if Normalize(last) in NameSet(init) then [] else [last])
  }

  /** What `DedupFrom` does with the first entry. */
  lemma DedupFromCons(y: string, rest: seq<string>, seen: set<string>)
    ensures DedupFrom([y] + rest, seen) ==
      (if Normalize(y) in seen then [] else [y]) + DedupFrom(rest, seen + {Normalize(y)})
  {
    assert ([y] + rest)[0] == y && ([y] + rest)[1..] == rest;
    if Normalize(y) in seen {
      assert seen + {Normalize(y)} == seen;
    }
  }

  lemma {:induction false} DedupFromSnoc(a: seq<string>, x: string, seen: set<string>)
    ensures DedupFrom(a + [x], seen) ==
      DedupFrom(a, seen) + (if Normalize(x) in seen + NameSet(a) then [] else [x])
    decreases |a|
  {
    var tail := if Normalize(x) in seen + NameSet(a) then [] else [x];
    if |a| == 0 {
      assert a + [x] == [x] + [];
      assert NameSet(a) == {};
      DedupFromCons(x, [], seen);
    } else {
      var y := a[0];
      var n := Normalize(y);
      assert a + [x] == [y] + (a[1..] + [x]);
      assert a == [y] + a[1..];
      NameSetAppend([y], a[1..]);
      assert NameSet([y]) == {n};
      var seen' := seen + {n};
      assert seen' + NameSet(a[1..]) == seen + NameSet(a);
      DedupFromSnoc(a[1..], x, seen');
      DedupFromCons(y, a[1..] + [x], seen);
      DedupFromCons(y, a[1..], seen);
      var pre := if n in seen then [] else [y];
      AppendAssoc(pre, DedupFrom(a[1..], seen'), tail);
    }
  }

  lemma AppendAssoc(a: seq<string>, b: seq<string>, c: seq<string>)
    ensures a + (b + c) == (a + b) + c
  {
  }

  /** `deduplicatePlan` keeps the first entry of every name, in order. */
  lemma {:induction false} DedupIsFirstOccurrences(xs: seq<string>)
    ensures Dedup(xs) == FirstOccurrences(xs)
    decreases |xs|
  {
    if |xs| > 0 {
      var init := xs[..|xs| - 1];
      assert xs == init + [xs[|xs| - 1]];
      DedupFromSnoc(init, xs[|xs| - 1], {});
      DedupIsFirstOccurrences(init);
    }
  }

  /** `deduplicatePlan`: both lists deduplicated; the result carries nothing
      else, so explanations and the keep list are dropped. */
  function DeduplicatePlan(p: Plan): (r: Plan)
    ensures r == ActionPlan(Dedup(p.toAdd), Dedup(p.toRemove))
    ensures DistinctBy(r.toAdd, Normalize) && DistinctBy(r.toRemove, Normalize)
    ensures NameSet(r.toAdd) == NameSet(p.toAdd) && NameSet(r.toRemove) == NameSet(p.toRemove)
  {
    ActionPlan(Dedup(p.toAdd), Dedup(p.toRemove))
  }

  // ---------------------------------------------------------------------------
  // Relevance of removals, the filter HandleRequest skips in remove mode

  /** A removal is relevant when the lower-cased prompt mentions its name, bare
      or with `r/` in front. */
  function RelevantRemoves(prompt: string, removes: seq<string>): (r: seq<string>)
    ensures Subseq(r, removes)
    ensures forall x :: x in r <==> x in removes && Occurs(Normalize(x), ToLower(prompt))
  {
    var lp := ToLower(prompt);
    FilterMembers(removes, sub => Mentioned(lp, sub));
    forall x ensures Mentioned(lp, x) <==> Occurs(Normalize(x), lp) {
      MentionedIff(lp, x);
    }
    Filter(removes, sub => Mentioned(lp, sub))
  }

  /** The mention test of that filter: the name occurs bare or with `r/` in front. */
  predicate Mentioned(lp: string, sub: string) {
    var n := Normalize(sub);
    Contains(lp, n) || Contains(lp, "r/" + n)
  }

  /** A name mentioned with `r/` in front is mentioned bare, so the second
      test never decides anything. */
  lemma MentionedIff(lp: string, sub: string)
    ensures Mentioned(lp, sub) <==> Occurs(Normalize(sub), lp)
  {
    var n := Normalize(sub);
    if Occurs("r/" + n, lp) {
      PrefixAtOccurs(n, "r/" + n, 2);
      assert ("r/" + n)[2..] == n;
      OccursTrans(n, "r/" + n, lp);
    }
  }

  // ---------------------------------------------------------------------------
  // handleKeepRequests

  const KeepPunct: set<char> := {'.', ',', '!', '?'}

  /** A word of the prompt with its surrounding punctuation stripped. */
  function KeepWord(w: string): string {
    Trim(ToLower(w), KeepPunct)
  }

  /** The `r/...` words of a "keep" prompt. */
  function KeepTargets(words: seq<string>): (t: set<string>)
    ensures forall x :: x in t ==> StartsRef(x)
    decreases |words|
  {
    if |words| == 0 then {}
    else
      var sub := KeepWord(words[0]);
      (if StartsRef(sub) then {sub} else {}) + KeepTargets(words[1..])
  }

  /** The removals whose lower-cased text is not a target, in order. */
  function DropTargets(removes: seq<string>, targets: set<string>): (r: seq<string>)
    ensures Subseq(r, removes)
    ensures forall x :: x in r <==> x in removes && ToLower(x) !in targets
    decreases |removes|
  {
    if |removes| == 0 then []
    else
      var rest := DropTargets(removes[1..], targets);
      assert forall x :: x in removes <==> x == removes[0] || x in removes[1..];
      if ToLower(removes[0]) in targets then rest else [removes[0]] + rest
  }

  lemma {:induction false} DropTwice(removes: seq<string>, a: set<string>, b: set<string>)
    ensures DropTargets(DropTargets(removes, a), b) == DropTargets(removes, a + b)
    decreases |removes|
  {
    if |removes| > 0 {
      DropTwice(removes[1..], a, b);
    }
  }

  lemma {:induction false} DropNothing(removes: seq<string>)
    ensures DropTargets(removes, {}) == removes
    decreases |removes|
  {
    if |removes| > 0 {
      DropNothing(removes[1..]);
    }
  }

  /** One iteration of the word loop: the removals equal to the word, compared
      lower-cased and including the `r/` prefix, leave the list. When none
      matches the list is unchanged, as the `removed` flag makes the source
      keep it. */
  function KeepStep(w: string, removes: seq<string>): seq<string> {
    var sub := KeepWord(w);
    if StartsRef(sub) then DropTargets(removes, {sub}) else removes
  }

  /** The word loop, one word at a time; it is the same as dropping all the
      targets at once. */
  function KeepLoop(words: seq<string>, removes: seq<string>): (r: seq<string>)
    ensures r == DropTargets(removes, KeepTargets(words))
    decreases |words|
  {
    if |words| == 0 then
      DropNothing(removes);
      removes
    else
      var sub := KeepWord(words[0]);
      var rest := KeepTargets(words[1..]);
      if StartsRef(sub) then
        DropTwice(removes, {sub}, rest);
        KeepLoop(words[1..], KeepStep(words[0], removes))
      else
        assert KeepTargets(words) == rest;
        KeepLoop(words[1..], KeepStep(words[0], removes))
  }

  /** `handleKeepRequests`: when the prompt says "keep", every removal named by
      an `r/...` word of the prompt is dropped; nothing else changes. */
  function HandleKeepRequests(prompt: string, p: Plan): (r: Plan)
    ensures r == p.(toRemove := r.toRemove)
    ensures Subseq(r.toRemove, p.toRemove)
    ensures !Occurs("keep", ToLower(prompt)) ==> r == p
    ensures Occurs("keep", ToLower(prompt)) ==>
      forall x :: x in r.toRemove <==>
        x in p.toRemove && ToLower(x) !in KeepTargets(Fields(ToLower(prompt)))
  {
    var lp := ToLower(prompt);
    if Contains(lp, "keep") then
      p.(toRemove := KeepLoop(Fields(lp), p.toRemove))
    else
      SubseqRefl(p.toRemove);
      p
  }

  // ---------------------------------------------------------------------------
  // filterAlreadySubscribed

  /** Additions whose name, without `r/`, is a subscription are dropped. The
      comparison is exact: subscriptions are keyed by their display name. */
  function FilterAlreadySubscribed(toAdd: seq<string>, subscribed: set<string>): (r: seq<string>)
    ensures Subseq(r, toAdd)
    ensures forall x :: x in r <==> x in toAdd && TrimPrefix(x, "r/") !in subscribed
  {
    var f := Filter(toAdd, sub => TrimPrefix(sub, "r/") !in subscribed);
    assert forall x :: x in f <==> multiset(f)[x] > 0;
    assert forall x :: x in toAdd <==> multiset(toAdd)[x] > 0;
    f
  }

  // ---------------------------------------------------------------------------
  // handleExclusions

  /** The prompt asks to leave something out. */
  predicate ExclusionTriggered(lp: string) {
    Contains(lp, "don't add") || Contains(lp, "dont add") || Contains(lp, "skip") || Contains(lp, "no ")
  }

  /** The prompt with the exclusion phrases deleted, in the source's order.
      The last deletion removes every "no", also inside names. */
  function ExclusionClean(lp: string): string {
    ReplaceAll(ReplaceAll(ReplaceAll(ReplaceAll(lp, "don't add", ""), "dont add", ""), "skip", ""), "no", "")
  }

  const ExclusionSeps: set<char> := {',', ' ', '.', '!', '?'}

  /** The part, trimmed, is not blank and normalizes to `n`. */
  predicate NamesPart(part: string, n: string) {
    TrimSpace(part) != "" && Normalize(TrimSpace(part)) == n
  }

  /** The names the parts of the cleaned prompt stand for: each part trimmed,
      blank parts ignored, the rest normalized. */
  function PartNames(parts: seq<string>): set<string>
    decreases |parts|
  {
    if |parts| == 0 then {}
    else
      var part := TrimSpace(parts[0]);
      var rest := PartNames(parts[1..]);
      if part == "" then rest else {Normalize(part)} + rest
  }

  /** A name is excluded exactly when some non-blank part stands for it. */
  lemma {:induction false} PartNamesMembers(parts: seq<string>, n: string)
    ensures n in PartNames(parts) <==> exists i :: 0 <= i < |parts| && NamesPart(parts[i], n)
    decreases |parts|
  {
    if |parts| > 0 {
      assert n in PartNames(parts) <==> NamesPart(parts[0], n) || n in PartNames(parts[1..]);
      PartNamesMembers(parts[1..], n);
      SomePartSplit(parts, n);
    }
  }

  lemma SomePartSplit(parts: seq<string>, n: string)
    requires |parts| > 0
    ensures (exists i :: 0 <= i < |parts| && NamesPart(parts[i], n)) <==>
      NamesPart(parts[0], n) || exists j :: 0 <= j < |parts[1..]| && NamesPart(parts[1..][j], n)
  {
    if exists j :: 0 <= j < |parts[1..]| && NamesPart(parts[1..][j], n) {
      var j :| 0 <= j < |parts[1..]| && NamesPart(parts[1..][j], n);
      assert parts[j + 1] == parts[1..][j];
    }
    if exists i :: 0 <= i < |parts| && NamesPart(parts[i], n) {
      var i :| 0 <= i < |parts| && NamesPart(parts[i], n);
      if i > 0 {
        assert parts[1..][i - 1] == parts[i];
      }
    }
  }

  /** The names a prompt excludes; none when no exclusion phrase occurs. */
  function ExcludedNames(prompt: string): set<string> {
    var lp := ToLower(prompt);
    if ExclusionTriggered(lp) then PartNames(FieldsFunc(ExclusionClean(lp), ExclusionSeps)) else {}
  }

  /** The entries whose normalized name is not in `names`, in order. */
  function DropNames(xs: seq<string>, names: set<string>): (r: seq<string>)
    ensures Subseq(r, xs)
    ensures forall x :: x in r <==> x in xs && Normalize(x) !in names
    ensures (forall x :: x in xs ==> Normalize(x) !in names) ==> r == xs
    decreases |xs|
  {
    if |xs| == 0 then []
    else
      var rest := DropNames(xs[1..], names);
      assert forall x :: x in xs <==> x == xs[0] || x in xs[1..];
      assert xs == [xs[0]] + xs[1..];
      if Normalize(xs[0]) in names then rest else [xs[0]] + rest
  }

  /** `handleExclusions`: additions with an excluded name are dropped; the other
      fields are kept. */
  function HandleExclusions(prompt: string, p: Plan): (r: Plan)
    ensures r == p.(toAdd := r.toAdd)
    ensures Subseq(r.toAdd, p.toAdd)
    ensures forall x :: x in r.toAdd <==> x in p.toAdd && Normalize(x) !in ExcludedNames(prompt)
    ensures (forall x :: x in p.toAdd ==> Normalize(x) !in ExcludedNames(prompt)) ==> r == p
    ensures !ExclusionTriggered(ToLower(prompt)) ==> r == p
  {
    p.(toAdd := DropNames(p.toAdd, ExcludedNames(prompt)))
  }

  // ---------------------------------------------------------------------------
  // preventOverlap

  /** `preventOverlap`: an addition whose name is also being removed is
      dropped; removals win. */
  function PreventOverlap(p: Plan): (r: Plan)
    ensures r == p.(toAdd := r.toAdd)
    ensures Subseq(r.toAdd, p.toAdd)
    ensures forall x :: x in r.toAdd <==> x in p.toAdd && Normalize(x) !in NameSet(p.toRemove)
    ensures forall i, j :: 0 <= i < |r.toAdd| && 0 <= j < |r.toRemove| ==>
      Normalize(r.toAdd[i]) != Normalize(r.toRemove[j])
  {
    p.(toAdd := DropNames(p.toAdd, NameSet(p.toRemove)))
  }
}
