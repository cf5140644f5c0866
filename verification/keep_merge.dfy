/** The cross-turn merge of main.go: the plan so far and the plan of the
    latest turn are combined list by list, and a kept subreddit overrides a
    removal, which overrides an addition. */
module KeepMerge {
  import opened Seqs
  import opened Models
  import PlanUtils

  /** `union`: every entry of either list once, in map order. */
  method Union(a: seq<string>, b: seq<string>) returns (r: seq<string>)
    ensures forall x :: x in r <==> x in a || x in b
    ensures Distinct(r)
  {
    r := PlanUtils.Keys(set x | x in a + b);
  }

  /** `subtract`: the entries of `a` not in `b`, in their order in `a`. */
  function Subtract(a: seq<string>, b: seq<string>): (r: seq<string>)
    ensures Subseq(r, a)
    ensures forall x :: x in r <==> x in a && x !in b
    ensures forall x :: multiset(r)[x] == if x in b then 0 else multiset(a)[x]
    ensures Distinct(a) ==> Distinct(r)
  {
    FilterMembers(a, x => x !in b);
    var r := Filter(a, x => x !in b);
    DistinctAsDistinctBy(a);
    DistinctAsDistinctBy(r);
    assert Distinct(a) ==> Distinct(r) by {
      if Distinct(a) {
        SubseqDistinctBy(r, a, (x: string) => x);
      }
    }
    r
  }

  /** The three lists of a plan as sets. */
  datatype Lists = Lists(adds: set<string>, removes: set<string>, keeps: set<string>)

  ghost function Contents(p: Plan): Lists {
    Lists(set x | x in p.toAdd, set x | x in p.toRemove, set x | x in p.toKeep)
  }

  /** Keep beats remove, remove beats add. */
  ghost function Resolve(l: Lists): Lists {
    Lists(l.adds - l.keeps - l.removes, l.removes - l.keeps, l.keeps)
  }

  /** List-wise union of two plans' sets. */
  ghost function Join(a: Lists, b: Lists): Lists {
    Lists(a.adds + b.adds, a.removes + b.removes, a.keeps + b.keeps)
  }

  /** `mergePlans` of main.go. */
  method MergeKeeping(prev: Plan, next: Plan) returns (r: Plan)
    ensures Contents(r) == Resolve(Join(Contents(prev), Contents(next)))
    ensures forall x :: x in r.toKeep <==> x in prev.toKeep || x in next.toKeep
    ensures forall x :: x in r.toRemove <==>
      (x in prev.toRemove || x in next.toRemove) && x !in prev.toKeep && x !in next.toKeep
    ensures forall x :: x in r.toAdd <==>
      && (x in prev.toAdd || x in next.toAdd)
      && x !in prev.toKeep && x !in next.toKeep
      && x !in prev.toRemove && x !in next.toRemove
    ensures Distinct(r.toAdd) && Distinct(r.toRemove) && Distinct(r.toKeep)
    ensures r.explanations == map[] && !r.viewOnly && r.reply == ""
  {
    var adds := Union(prev.toAdd, next.toAdd);
    var removes := Union(prev.toRemove, next.toRemove);
    var keeps := Union(prev.toKeep, next.toKeep);
    removes := Subtract(removes, keeps);
    adds := Subtract(adds, keeps);
    adds := Subtract(adds, removes);
    r := ActionPlan(adds, removes).(toKeep := keeps);
    MembersGiveContents(prev, next, r);
  }

  lemma MembersGiveContents(prev: Plan, next: Plan, r: Plan)
    requires forall x :: x in r.toKeep <==> x in prev.toKeep || x in next.toKeep
    requires forall x :: x in r.toRemove <==>
      (x in prev.toRemove || x in next.toRemove) && x !in prev.toKeep && x !in next.toKeep
    requires forall x :: x in r.toAdd <==>
      && (x in prev.toAdd || x in next.toAdd)
      && x !in prev.toKeep && x !in next.toKeep
      && x !in prev.toRemove && x !in next.toRemove
    ensures Contents(r) == Resolve(Join(Contents(prev), Contents(next)))
  {
    var want := Resolve(Join(Contents(prev), Contents(next)));
    assert Contents(r).keeps == want.keeps;
    assert Contents(r).removes == want.removes;
    assert Contents(r).adds == want.adds;
  }

  /** Folding turns in one at a time resolves to the same lists as resolving
      all of them together, so the merged plan depends only on what the turns
      proposed and not on how they were grouped. */
  lemma ResolveJoin(acc: Lists, next: Lists)
    ensures Resolve(Join(Resolve(acc), next)) == Resolve(Join(acc, next))
  {
    var l := Join(acc, next);
    var m := Join(Resolve(acc), next);
    assert m.keeps == l.keeps;
    assert m.removes - m.keeps == l.removes - l.keeps;
    assert Resolve(m).adds == Resolve(l).adds;
  }

  /** The merge treats both plans alike. */
  lemma JoinSymmetric(a: Lists, b: Lists)
    ensures Resolve(Join(a, b)) == Resolve(Join(b, a))
  {
    assert Join(a, b) == Join(b, a);
  }

  /** No entry is in two lists after a merge. */
  lemma ResolveDisjoint(l: Lists)
    ensures Resolve(l).adds * Resolve(l).removes == {}
    ensures Resolve(l).adds * Resolve(l).keeps == {}
    ensures Resolve(l).removes * Resolve(l).keeps == {}
  {
  }
}
