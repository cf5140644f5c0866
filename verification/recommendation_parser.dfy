/** controllers/recommendationParser.go: reads the `+`/`-`/`=` lines of a
    model reply into the add, remove and keep lists. One set of seen names is
    shared by the three lists, so a name lands in the list of its first line
    and nowhere else. */
module RecommendationParser {
  import opened Text
  import opened Seqs
  import opened Models

  datatype Tag = AddTag | RemoveTag | KeepTag

  /** What one line contributes: nothing, or a tagged name. */
  datatype LineEntry = Skip | Entry(tag: Tag, sub: string)

  /** The list a marker character selects. */
  function TagOf(marker: char): Option<Tag> {
    if marker == '+' then Some(AddTag)
    else if marker == '-' then Some(RemoveTag)
    else if marker == '=' then Some(KeepTag)
    else None
  }

  /** The trimmed line starts with a marker, a space and `r/`. */
  predicate IsEntryLine(line: string) {
    |line| >= 4 && TagOf(line[0]).Some? && line[1] == ' ' && StartsRef(line[2..])
  }

  /** The text starts with `r/`. */
  predicate StartsRef(s: string) {
    |s| >= 2 && s[0] == 'r' && s[1] == '/'
  }

  /** Reads one raw line. A line counts when, trimmed, it starts with the
      marker, a space and `r/`; the name is the rest of the trimmed line after
      the marker and the space, trimmed again, so it may carry trailing text. */
  function ReadLine(raw: string): (e: LineEntry)
    ensures e.Entry? ==> StartsRef(e.sub)
  {
    var line := TrimSpace(raw);
    if IsEntryLine(line) then Entry(TagOf(line[0]).value, EntryName(line)) else Skip
  }

  /** The name after the marker: trimming the line again after `<marker> `
      changes nothing, as the line is already trimmed. */
  function EntryName(line: string): (sub: string)
    requires IsEntryLine(line) && line[|line| - 1] !in Whitespace
    ensures sub == line[2..] && StartsRef(sub)
  {
    var rest := TrimPrefix(line, line[..2]);
    assert rest == line[2..];
    TrimSpace(rest)
  }

  /** The three branches of the loop: a trimmed line starting with `+ r/`,
      `- r/` or `= r/` gives its name, the rest of the line, to the add,
      remove or keep list; any other line gives nothing. */
  lemma ReadLineBranches(raw: string)
    ensures var line, e := TrimSpace(raw), ReadLine(raw);
      && (e.Entry? && e.tag == AddTag <==> IsPrefix("+ r/", line))
      && (e.Entry? && e.tag == RemoveTag <==> IsPrefix("- r/", line))
      && (e.Entry? && e.tag == KeepTag <==> IsPrefix("= r/", line))
      && (e.Entry? ==> e.sub == line[2..])
  {
    EntryLineBranches(TrimSpace(raw));
  }

  lemma EntryLineBranches(line: string)
    ensures IsEntryLine(line) && TagOf(line[0]) == Some(AddTag) <==> IsPrefix("+ r/", line)
    ensures IsEntryLine(line) && TagOf(line[0]) == Some(RemoveTag) <==> IsPrefix("- r/", line)
    ensures IsEntryLine(line) && TagOf(line[0]) == Some(KeepTag) <==> IsPrefix("= r/", line)
  {
    if |line| >= 4 {
      var h := line[..4];
      assert h[0] == line[0] && h[1] == line[1] && h[2] == line[2] && h[3] == line[3];
    }
  }

  /** Reads every line. */
  function ReadLines(lines: seq<string>): (es: seq<LineEntry>)
    ensures |es| == |lines|
    ensures forall i :: 0 <= i < |lines| ==> es[i] == ReadLine(lines[i])
  {
    if |lines| == 0 then [] else [ReadLine(lines[0])] + ReadLines(lines[1..])
  }

  /** The tag of the first entry naming `x`, if any. */
  function FirstTag(es: seq<LineEntry>, x: string): Option<Tag> {
    if |es| == 0 then None
    else if es[0].Entry? && es[0].sub == x then Some(es[0].tag)
    else FirstTag(es[1..], x)
  }

  /** Every name in the three lists once, in no two lists. */
  ghost predicate WellFormed(rec: Recommendation) {
    && Distinct(rec.add) && Distinct(rec.remove) && Distinct(rec.keep)
    && (forall x :: x in rec.add ==> x !in rec.remove && x !in rec.keep)
    && (forall x :: x in rec.remove ==> x !in rec.keep)
  }

  ghost function Names(rec: Recommendation): set<string> {
    (set x | x in rec.add) + (set x | x in rec.remove) + (set x | x in rec.keep)
  }

  ghost predicate AllRefs(rec: Recommendation) {
    forall x :: x in Names(rec) ==> StartsRef(x)
  }

  /** Appends a name to the list its tag selects. */
  function Append(rec: Recommendation, t: Tag, sub: string): (r: Recommendation)
    ensures Names(r) == Names(rec) + {sub}
    ensures sub !in Names(rec) && WellFormed(rec) ==> WellFormed(r)
    ensures forall x :: x in r.add <==> x in rec.add || (t == AddTag && x == sub)
    ensures forall x :: x in r.remove <==> x in rec.remove || (t == RemoveTag && x == sub)
    ensures forall x :: x in r.keep <==> x in rec.keep || (t == KeepTag && x == sub)
  {
    match t
    case AddTag => rec.(add := rec.add + [sub])
    case RemoveTag => rec.(remove := rec.remove + [sub])
    case KeepTag => rec.(keep := rec.keep + [sub])
  }

  /** The loop of `ParseRecommendationOutput` from some line on, over the
      entries the lines read as; `rec` and `seen` hold what the earlier lines
      produced. */
  function ParseFrom(es: seq<LineEntry>, rec: Recommendation, seen: set<string>): (r: Recommendation)
    requires seen == Names(rec)
    requires forall i :: 0 <= i < |es| && es[i].Entry? ==> StartsRef(es[i].sub)
    ensures WellFormed(rec) ==> WellFormed(r)
    ensures AllRefs(rec) ==> AllRefs(r)
    decreases |es|
  {
    if |es| == 0 then rec
    else if es[0].Entry? && es[0].sub !in seen then
      ParseFrom(es[1..], Append(rec, es[0].tag, es[0].sub), seen + {es[0].sub})
    else ParseFrom(es[1..], rec, seen)
  }

  /** A name ends up in a list exactly when it was there already or, unseen
      so far, its first line carries that list's marker. */
  lemma {:induction false} ParseFromMembers(es: seq<LineEntry>, rec: Recommendation, seen: set<string>, x: string)
    requires seen == Names(rec)
    requires forall i :: 0 <= i < |es| && es[i].Entry? ==> StartsRef(es[i].sub)
    ensures var r := ParseFrom(es, rec, seen);
      && (x in r.add <==> x in rec.add || (x !in seen && FirstTag(es, x) == Some(AddTag)))
      && (x in r.remove <==> x in rec.remove || (x !in seen && FirstTag(es, x) == Some(RemoveTag)))
      && (x in r.keep <==> x in rec.keep || (x !in seen && FirstTag(es, x) == Some(KeepTag)))
    decreases |es|
  {
    if |es| > 0 {
      if es[0].Entry? && es[0].sub !in seen {
        ParseFromMembers(es[1..], Append(rec, es[0].tag, es[0].sub), seen + {es[0].sub}, x);
      } else {
        ParseFromMembers(es[1..], rec, seen, x);
      }
    }
  }

  /** The list a tag selects. */
  function ListOf(rec: Recommendation, t: Tag): seq<string> {
    match t
    case AddTag => rec.add
    case RemoveTag => rec.remove
    case KeepTag => rec.keep
  }

  /** The names the entries carry under one tag, in line order, repeats
      included. */
  function TagNames(es: seq<LineEntry>, t: Tag): seq<string> {
    if |es| == 0 then []
    else (if es[0].Entry? && es[0].tag == t then [es[0].sub] else []) + TagNames(es[1..], t)
  }

  lemma ListOfAppend(rec: Recommendation, u: Tag, sub: string, t: Tag)
    ensures ListOf(Append(rec, u, sub), t) == if u == t then ListOf(rec, t) + [sub] else ListOf(rec, t)
  {
  }

  /** A list `before + [x]` that grew by a subsequence of `rest` grew from
      `before` by a subsequence of `[x] + rest`. */
  lemma GrewByOne(before: seq<string>, x: string, after: seq<string>, rest: seq<string>)
    requires |before| + 1 <= |after| && after[..|before| + 1] == before + [x]
    requires Subseq(after[|before| + 1..], rest)
    ensures after[..|before|] == before
    ensures Subseq(after[|before|..], [x] + rest)
  {
    assert after[..|before|] == (after[..|before| + 1])[..|before|];
    assert after[|before|..] == [x] + after[|before| + 1..];
    SubseqCons(x, after[|before| + 1..], rest);
  }

  /** What `ParseFromOrder` states of one list: `after` keeps `before` in
      front and adds a subsequence of `lines`. */
  ghost predicate Extends(before: seq<string>, after: seq<string>, lines: seq<string>) {
    && |before| <= |after|
    && after[..|before|] == before
    && Subseq(after[|before|..], lines)
  }

  /** The loop only appends: each list keeps what it held, and what it gains
      is taken from that list's lines in the order of the lines. */
  lemma {:induction false} ParseFromOrder(es: seq<LineEntry>, rec: Recommendation, seen: set<string>, t: Tag)
    requires seen == Names(rec)
    requires forall i :: 0 <= i < |es| && es[i].Entry? ==> StartsRef(es[i].sub)
    ensures Extends(ListOf(rec, t), ListOf(ParseFrom(es, rec, seen), t), TagNames(es, t))
    decreases |es|
  {
    if |es| == 0 {
      assert ParseFrom(es, rec, seen) == rec;
      SubseqRefl(TagNames(es, t));
    } else if es[0].Entry? && es[0].sub !in seen {
      var rec', seen' := Append(rec, es[0].tag, es[0].sub), seen + {es[0].sub};
      ParseFromOrder(es[1..], rec', seen', t);
      OrderTaken(es, rec, seen, t);
    } else {
      ParseFromOrder(es[1..], rec, seen, t);
      OrderSkipped(es, rec, seen, t);
    }
  }

  /** The step of `ParseFromOrder` for a line whose name is new. */
  lemma OrderTaken(es: seq<LineEntry>, rec: Recommendation, seen: set<string>, t: Tag)
    requires seen == Names(rec)
    requires forall i :: 0 <= i < |es| && es[i].Entry? ==> StartsRef(es[i].sub)
    requires |es| > 0 && es[0].Entry? && es[0].sub !in seen
    requires var rec' := Append(rec, es[0].tag, es[0].sub);
      Extends(ListOf(rec', t), ListOf(ParseFrom(es[1..], rec', seen + {es[0].sub}), t), TagNames(es[1..], t))
    ensures Extends(ListOf(rec, t), ListOf(ParseFrom(es, rec, seen), t), TagNames(es, t))
  {
    var rec', seen' := Append(rec, es[0].tag, es[0].sub), seen + {es[0].sub};
    var before, after := ListOf(rec, t), ListOf(ParseFrom(es[1..], rec', seen'), t);
    var rest := TagNames(es[1..], t);
    assert ParseFrom(es, rec, seen) == ParseFrom(es[1..], rec', seen');
    ListOfAppend(rec, es[0].tag, es[0].sub, t);
    if es[0].tag == t {
      assert TagNames(es, t) == [es[0].sub] + rest;
      GrewByOne(before, es[0].sub, after, rest);
    } else {
      assert TagNames(es, t) == rest;
    }
  }

  /** The step of `ParseFromOrder` for a line that adds nothing. */
  lemma OrderSkipped(es: seq<LineEntry>, rec: Recommendation, seen: set<string>, t: Tag)
    requires seen == Names(rec)
    requires forall i :: 0 <= i < |es| && es[i].Entry? ==> StartsRef(es[i].sub)
    requires |es| > 0 && !(es[0].Entry? && es[0].sub !in seen)
    requires Extends(ListOf(rec, t), ListOf(ParseFrom(es[1..], rec, seen), t), TagNames(es[1..], t))
    ensures Extends(ListOf(rec, t), ListOf(ParseFrom(es, rec, seen), t), TagNames(es, t))
  {
    var before, after := ListOf(rec, t), ListOf(ParseFrom(es[1..], rec, seen), t);
    var rest := TagNames(es[1..], t);
    assert ParseFrom(es, rec, seen) == ParseFrom(es[1..], rec, seen);
    if es[0].Entry? && es[0].tag == t {
      assert TagNames(es, t) == [es[0].sub] + rest;
      SubseqCons(es[0].sub, after[|before|..], rest);
    } else {
      assert TagNames(es, t) == rest;
    }
  }

  /** The position of the first entry naming `x`; `|es|` when none does. */
  function FirstIndex(es: seq<LineEntry>, x: string): (k: nat)
    ensures k <= |es|
    ensures k < |es| ==> es[k].Entry? && es[k].sub == x
    ensures forall i :: 0 <= i < k ==> !(es[i].Entry? && es[i].sub == x)
  {
    if |es| == 0 then 0
    else if es[0].Entry? && es[0].sub == x then 0
    else 1 + FirstIndex(es[1..], x)
  }

  /** The names stand in the order of the first lines naming them. */
  ghost predicate SortedByFirst(es: seq<LineEntry>, xs: seq<string>) {
    forall i, j :: 0 <= i < j < |xs| ==> FirstIndex(es, xs[i]) < FirstIndex(es, xs[j])
  }

  /** What `ParseFromFirstOrder` states of one list: `after` keeps `before`
      in front and adds only unseen names, in the order of their first lines. */
  ghost predicate FirstOrdered(es: seq<LineEntry>, before: seq<string>, after: seq<string>, seen: set<string>) {
    && |before| <= |after|
    && after[..|before|] == before
    && (forall i :: |before| <= i < |after| ==> after[i] !in seen)
    && SortedByFirst(es, after[|before|..])
  }

  /** Putting a line in front that does not name any of `xs` keeps their
      relative order. */
  lemma ShiftSorted(es: seq<LineEntry>, xs: seq<string>)
    requires |es| > 0
    requires forall i :: 0 <= i < |xs| ==> !(es[0].Entry? && es[0].sub == xs[i])
    requires SortedByFirst(es[1..], xs)
    ensures SortedByFirst(es, xs)
  {
    forall i | 0 <= i < |xs| ensures FirstIndex(es, xs[i]) == 1 + FirstIndex(es[1..], xs[i]) {
    }
  }

  /** The name of the first line goes in front of names it differs from. */
  lemma ConsSorted(es: seq<LineEntry>, xs: seq<string>)
    requires |es| > 0 && es[0].Entry?
    requires forall i :: 0 <= i < |xs| ==> xs[i] != es[0].sub
    requires SortedByFirst(es, xs)
    ensures SortedByFirst(es, [es[0].sub] + xs)
  {
    var ys := [es[0].sub] + xs;
    assert FirstIndex(es, es[0].sub) == 0;
    forall i, j | 0 <= i < j < |ys| ensures FirstIndex(es, ys[i]) < FirstIndex(es, ys[j]) {
      assert ys[j] == xs[j - 1];
      if i > 0 {
        assert ys[i] == xs[i - 1];
      } else {
        assert FirstIndex(es, ys[j]) != 0;
      }
    }
  }

  /** The loop appends each unseen name at the end of its list, so a list
      holds the new names in the order of the lines that first name them. */
  lemma {:induction false} ParseFromFirstOrder(es: seq<LineEntry>, rec: Recommendation, seen: set<string>, t: Tag)
    requires seen == Names(rec)
    requires forall i :: 0 <= i < |es| && es[i].Entry? ==> StartsRef(es[i].sub)
    ensures FirstOrdered(es, ListOf(rec, t), ListOf(ParseFrom(es, rec, seen), t), seen)
    decreases |es|
  {
    if |es| == 0 {
      assert ParseFrom(es, rec, seen) == rec;
    } else if es[0].Entry? && es[0].sub !in seen {
      var rec', seen' := Append(rec, es[0].tag, es[0].sub), seen + {es[0].sub};
      ParseFromFirstOrder(es[1..], rec', seen', t);
      FirstOrderTaken(es, rec, seen, t);
    } else {
      ParseFromFirstOrder(es[1..], rec, seen, t);
      FirstOrderSkipped(es, rec, seen, t);
    }
  }

  /** The step of `ParseFromFirstOrder` for a line whose name is new. */
  lemma FirstOrderTaken(es: seq<LineEntry>, rec: Recommendation, seen: set<string>, t: Tag)
    requires seen == Names(rec)
    requires forall i :: 0 <= i < |es| && es[i].Entry? ==> StartsRef(es[i].sub)
    requires |es| > 0 && es[0].Entry? && es[0].sub !in seen
    requires var rec' := Append(rec, es[0].tag, es[0].sub);
      FirstOrdered(es[1..], ListOf(rec', t), ListOf(ParseFrom(es[1..], rec', seen + {es[0].sub}), t), seen + {es[0].sub})
    ensures FirstOrdered(es, ListOf(rec, t), ListOf(ParseFrom(es, rec, seen), t), seen)
  {
    var x := es[0].sub;
    var rec', seen' := Append(rec, es[0].tag, x), seen + {x};
    assert ParseFrom(es, rec, seen) == ParseFrom(es[1..], rec', seen');
    ListOfAppend(rec, es[0].tag, x, t);
    NewNameFirst(es, ListOf(rec, t), ListOf(rec', t), ListOf(ParseFrom(es[1..], rec', seen'), t), seen, es[0].tag == t);
  }

  /** The step of `ParseFromFirstOrder` for a line that adds nothing. */
  lemma FirstOrderSkipped(es: seq<LineEntry>, rec: Recommendation, seen: set<string>, t: Tag)
    requires seen == Names(rec)
    requires forall i :: 0 <= i < |es| && es[i].Entry? ==> StartsRef(es[i].sub)
    requires |es| > 0 && !(es[0].Entry? && es[0].sub !in seen)
    requires FirstOrdered(es[1..], ListOf(rec, t), ListOf(ParseFrom(es[1..], rec, seen), t), seen)
    ensures FirstOrdered(es, ListOf(rec, t), ListOf(ParseFrom(es, rec, seen), t), seen)
  {
    assert ParseFrom(es, rec, seen) == ParseFrom(es[1..], rec, seen);
    SeenLineShifts(es, ListOf(rec, t), ListOf(ParseFrom(es[1..], rec, seen), t), seen);
  }

  /** A list that took the new name of the first line, or left it to another
      list, is still in first-line order over the whole of `es`. */
  lemma NewNameFirst(es: seq<LineEntry>, before: seq<string>, mid: seq<string>, after: seq<string>,
                     seen: set<string>, own: bool)
    requires |es| > 0 && es[0].Entry? && es[0].sub !in seen
    requires mid == if own then before + [es[0].sub] else before
    requires FirstOrdered(es[1..], mid, after, seen + {es[0].sub})
    ensures FirstOrdered(es, before, after, seen)
  {
    var added := after[|mid|..];
    assert forall i :: 0 <= i < |added| ==> added[i] == after[|mid| + i];
    ShiftSorted(es, added);
    if own {
      ConsSorted(es, added);
      assert after[..|before|] == (after[..|mid|])[..|before|];
      assert after[|before|..] == [es[0].sub] + added;
    }
  }

  /** A first line that adds nothing to the lists keeps them in first-line
      order over the whole of `es`. */
  lemma SeenLineShifts(es: seq<LineEntry>, before: seq<string>, after: seq<string>, seen: set<string>)
    requires |es| > 0 && !(es[0].Entry? && es[0].sub !in seen)
    requires FirstOrdered(es[1..], before, after, seen)
    ensures FirstOrdered(es, before, after, seen)
  {
    var added := after[|before|..];
    assert forall i :: 0 <= i < |added| ==> added[i] == after[|before| + i];
    ShiftSorted(es, added);
  }

  /** `ParseRecommendationOutput`: every name lands in the list of the first
      line naming it and in no other, once, and each list keeps the order of
      its lines. */
  function ParseRecommendationOutput(output: string): (r: Recommendation)
    ensures WellFormed(r)
    ensures AllRefs(r)
    ensures forall x :: x in r.add <==> FirstTag(ReadLines(Split(output, '\n')), x) == Some(AddTag)
    ensures forall x :: x in r.remove <==> FirstTag(ReadLines(Split(output, '\n')), x) == Some(RemoveTag)
    ensures forall x :: x in r.keep <==> FirstTag(ReadLines(Split(output, '\n')), x) == Some(KeepTag)
    ensures Subseq(r.add, TagNames(ReadLines(Split(output, '\n')), AddTag))
    ensures Subseq(r.remove, TagNames(ReadLines(Split(output, '\n')), RemoveTag))
    ensures Subseq(r.keep, TagNames(ReadLines(Split(output, '\n')), KeepTag))
    ensures SortedByFirst(ReadLines(Split(output, '\n')), r.add)
    ensures SortedByFirst(ReadLines(Split(output, '\n')), r.remove)
    ensures SortedByFirst(ReadLines(Split(output, '\n')), r.keep)
  {
    var es := ReadLines(Split(output, '\n'));
    var r := ParseFrom(es, Recommendation([], [], []), {});
    ParseFromOrder(es, Recommendation([], [], []), {}, AddTag);
    ParseFromOrder(es, Recommendation([], [], []), {}, RemoveTag);
    ParseFromOrder(es, Recommendation([], [], []), {}, KeepTag);
    assert ListOf(r, AddTag)[0..] == r.add && ListOf(r, RemoveTag)[0..] == r.remove;
    assert ListOf(r, KeepTag)[0..] == r.keep;
    ParseFromFirstOrder(es, Recommendation([], [], []), {}, AddTag);
    ParseFromFirstOrder(es, Recommendation([], [], []), {}, RemoveTag);
    ParseFromFirstOrder(es, Recommendation([], [], []), {}, KeepTag);
    forall x ensures
      && (x in r.add <==> FirstTag(es, x) == Some(AddTag))
      && (x in r.remove <==> FirstTag(es, x) == Some(RemoveTag))
      && (x in r.keep <==> FirstTag(es, x) == Some(KeepTag))
    {
      ParseFromMembers(es, Recommendation([], [], []), {}, x);
    }
    r
  }

  /** A name some line carries has a first line. */
  lemma {:induction false} FirstTagIndex(es: seq<LineEntry>, x: string)
    requires FirstTag(es, x).Some?
    ensures FirstIndex(es, x) < |es|
    decreases |es|
  {
    if !(es[0].Entry? && es[0].sub == x) {
      FirstTagIndex(es[1..], x);
    }
  }

  /** Two lists of the same names, each in first-line order, are equal. */
  lemma {:induction false} SortedByFirstUnique(es: seq<LineEntry>, a: seq<string>, b: seq<string>)
    requires SortedByFirst(es, a) && SortedByFirst(es, b)
    requires forall x :: x in a <==> x in b
    requires forall x :: x in a ==> FirstIndex(es, x) < |es|
    ensures a == b
    decreases |a| + |b|
  {
    assert |a| > 0 ==> a[0] in b;
    assert |b| > 0 ==> b[0] in a;
    if |a| > 0 && |b| > 0 {
      HeadFirst(es, a, b[0]);
      HeadFirst(es, b, a[0]);
      var k := FirstIndex(es, a[0]);
      assert es[k].sub == a[0] && es[k].sub == b[0];
      SortedTail(es, a);
      SortedTail(es, b);
      SameTails(es, a, b);
      SortedByFirstUnique(es, a[1..], b[1..]);
      assert a == [a[0]] + a[1..] && b == [b[0]] + b[1..];
    }
  }

  /** The head of a list in first-line order has the earliest first line. */
  lemma HeadFirst(es: seq<LineEntry>, a: seq<string>, x: string)
    requires SortedByFirst(es, a) && x in a
    ensures FirstIndex(es, a[0]) <= FirstIndex(es, x)
  {
    var k :| 0 <= k < |a| && a[k] == x;
    if k > 0 {
      assert FirstIndex(es, a[0]) < FirstIndex(es, a[k]);
    }
  }

  lemma SortedTail(es: seq<LineEntry>, a: seq<string>)
    requires SortedByFirst(es, a) && |a| > 0
    ensures SortedByFirst(es, a[1..])
  {
    forall i, j | 0 <= i < j < |a[1..]| ensures FirstIndex(es, a[1..][i]) < FirstIndex(es, a[1..][j]) {
      assert a[1..][i] == a[i + 1] && a[1..][j] == a[j + 1];
    }
  }

  /** Lists in first-line order with the same names and the same head have
      tails with the same names. */
  lemma SameTails(es: seq<LineEntry>, a: seq<string>, b: seq<string>)
    requires SortedByFirst(es, a) && SortedByFirst(es, b)
    requires forall x :: x in a <==> x in b
    requires |a| > 0 && |b| > 0 && a[0] == b[0]
    ensures forall x :: x in a[1..] <==> x in b[1..]
  {
    forall x | x in a[1..] ensures x in b[1..] {
      TailMember(es, a, b, x);
    }
    forall x | x in b[1..] ensures x in a[1..] {
      TailMember(es, b, a, x);
    }
  }

  lemma TailMember(es: seq<LineEntry>, a: seq<string>, b: seq<string>, x: string)
    requires SortedByFirst(es, a)
    requires forall y :: y in a <==> y in b
    requires |a| > 0 && |b| > 0 && a[0] == b[0]
    requires x in a[1..]
    ensures x in b[1..]
  {
    var j :| 0 <= j < |a[1..]| && a[1..][j] == x;
    assert FirstIndex(es, a[0]) < FirstIndex(es, a[j + 1]);
    assert x in b;
    var l :| 0 <= l < |b| && b[l] == x;
    assert l != 0;
    assert b[1..][l - 1] == x;
  }

  /** The contract of `ParseRecommendationOutput` fixes its result: any
      recommendation whose lists hold the names first named under each
      marker, in first-line order, is the one the parser returns. */
  lemma ParseDeterminedByFirstLines(output: string, r: Recommendation)
    requires var es := ReadLines(Split(output, '\n'));
      && (forall x :: x in r.add <==> FirstTag(es, x) == Some(AddTag))
      && (forall x :: x in r.remove <==> FirstTag(es, x) == Some(RemoveTag))
      && (forall x :: x in r.keep <==> FirstTag(es, x) == Some(KeepTag))
      && SortedByFirst(es, r.add) && SortedByFirst(es, r.remove) && SortedByFirst(es, r.keep)
    ensures r == ParseRecommendationOutput(output)
  {
    var es := ReadLines(Split(output, '\n'));
    var p := ParseRecommendationOutput(output);
    forall x | FirstTag(es, x).Some? ensures FirstIndex(es, x) < |es| {
      FirstTagIndex(es, x);
    }
    SortedByFirstUnique(es, r.add, p.add);
    SortedByFirstUnique(es, r.remove, p.remove);
    SortedByFirstUnique(es, r.keep, p.keep);
  }

  // ---------------------------------------------------------------------------
  // Worked cases

  /** `<marker> <name>` reads as the name, tagged by the marker. */
  lemma ReadBullet(marker: char, name: string)
    requires TagOf(marker).Some? && StartsRef(name) && name[|name| - 1] !in Whitespace
    ensures ReadLine([marker, ' '] + name) == Entry(TagOf(marker).value, name)
  {
    var line := [marker, ' '] + name;
    assert line[0] == marker && line[|line| - 1] == name[|name| - 1];
    assert TrimSpace(line) == line;
    assert line[2..] == name;
  }

  lemma ReadTwo(l1: string, l2: string)
    requires '\n' !in l1 && '\n' !in l2
    ensures ReadLines(Split(Join([l1, l2], '\n'), '\n')) == [ReadLine(l1), ReadLine(l2)]
  {
    SplitJoin([l1, l2], '\n');
  }

  lemma ReadThree(l1: string, l2: string, l3: string)
    requires '\n' !in l1 && '\n' !in l2 && '\n' !in l3
    ensures ReadLines(Split(Join([l1, l2, l3], '\n'), '\n')) == [ReadLine(l1), ReadLine(l2), ReadLine(l3)]
  {
    SplitJoin([l1, l2, l3], '\n');
  }

  /** A name listed twice goes to the list of its first line only. */
  lemma FirstLineWins(l1: string, l2: string, x: string, t1: Tag, t2: Tag)
    requires '\n' !in l1 && '\n' !in l2
    requires ReadLine(l1) == Entry(t1, x) && ReadLine(l2) == Entry(t2, x)
    ensures var r := ParseRecommendationOutput(Join([l1, l2], '\n'));
      && (x in r.add <==> t1 == AddTag)
      && (x in r.remove <==> t1 == RemoveTag)
      && (x in r.keep <==> t1 == KeepTag)
  {
    ReadTwo(l1, l2);
  }

  /** Duplicates are detected by exact string: two addition lines give one
      entry when their names are equal and two, in line order, otherwise. */
  lemma TwoAdditions(l1: string, l2: string, x: string, y: string)
    requires '\n' !in l1 && '\n' !in l2
    requires ReadLine(l1) == Entry(AddTag, x) && ReadLine(l2) == Entry(AddTag, y)
    requires StartsRef(x) && StartsRef(y)
    ensures ParseRecommendationOutput(Join([l1, l2], '\n')).add == if x == y then [x] else [x, y]
  {
    ReadTwo(l1, l2);
    OutputFrom(Join([l1, l2], '\n'), [Entry(AddTag, x), Entry(AddTag, y)]);
    TwoAddEntries(x, y);
  }

  /** What the output parses to is the fold over its lines' entries. */
  lemma OutputFrom(output: string, es: seq<LineEntry>)
    requires ReadLines(Split(output, '\n')) == es
    ensures forall i :: 0 <= i < |es| && es[i].Entry? ==> StartsRef(es[i].sub)
    ensures ParseRecommendationOutput(output) == ParseFrom(es, Recommendation([], [], []), {})
  {
  }

  lemma TwoAddEntries(x: string, y: string)
    requires StartsRef(x) && StartsRef(y)
    ensures ParseFrom([Entry(AddTag, x), Entry(AddTag, y)], Recommendation([], [], []), {}).add
      == if x == y then [x] else [x, y]
  {
    var es := [Entry(AddTag, x), Entry(AddTag, y)];
    var r1 := Recommendation([x], [], []);
    assert es[1..] == [Entry(AddTag, y)] && es[1..][1..] == [];
    assert Append(Recommendation([], [], []), AddTag, x) == r1;
    assert {} + {x} == {x};
    assert ParseFrom(es, Recommendation([], [], []), {}) == ParseFrom(es[1..], r1, {x});
    if x != y {
      assert {x} + {y} == {x, y};
      assert Append(r1, AddTag, y) == Recommendation([x, y], [], []);
      assert ParseFrom(es[1..], r1, {x}) == ParseFrom(es[1..][1..], Recommendation([x, y], [], []), {x, y});
      assert ParseFrom(es[1..][1..], Recommendation([x, y], [], []), {x, y}) == Recommendation([x, y], [], []);
    } else {
      assert ParseFrom(es[1..], r1, {x}) == ParseFrom(es[1..][1..], r1, {x});
      assert ParseFrom(es[1..][1..], r1, {x}) == r1;
    }
  }

  /** Names differing only in case are both kept. */
  lemma CaseVariantsKept(a: string, b: string)
    requires a == "r/Foo" && b == "r/foo"
    ensures ParseRecommendationOutput(Join([['+', ' '] + a, ['+', ' '] + b], '\n')).add == [a, b]
  {
    ReadBullet('+', a);
    ReadBullet('+', b);
    NoNewline(a);
    NoNewline(b);
    TwoAdditions(['+', ' '] + a, ['+', ' '] + b, a, b);
  }

  lemma NoNewline(a: string)
    requires a == "r/Foo" || a == "r/foo"
    ensures '\n' !in ['+', ' '] + a
  {
  }

  /** `+ x`, `- y`, `= z` with three different names: one name per list. */
  lemma OnePerList(l1: string, l2: string, l3: string, x: string, y: string, z: string)
    requires '\n' !in l1 && '\n' !in l2 && '\n' !in l3
    requires ReadLine(l1) == Entry(AddTag, x) && ReadLine(l2) == Entry(RemoveTag, y)
    requires ReadLine(l3) == Entry(KeepTag, z)
    requires StartsRef(x) && StartsRef(y) && StartsRef(z)
    requires x != y && y != z && x != z
    ensures ParseRecommendationOutput(Join([l1, l2, l3], '\n')) == Recommendation([x], [y], [z])
  {
    ReadThree(l1, l2, l3);
    OutputFrom(Join([l1, l2, l3], '\n'), [Entry(AddTag, x), Entry(RemoveTag, y), Entry(KeepTag, z)]);
    ThreeEntries(x, y, z);
  }

  lemma ThreeEntries(x: string, y: string, z: string)
    requires StartsRef(x) && StartsRef(y) && StartsRef(z)
    requires x != y && y != z && x != z
    ensures ParseFrom([Entry(AddTag, x), Entry(RemoveTag, y), Entry(KeepTag, z)], Recommendation([], [], []), {})
      == Recommendation([x], [y], [z])
  {
    var es := [Entry(AddTag, x), Entry(RemoveTag, y), Entry(KeepTag, z)];
    var r0, r1, r2, r3 := Recommendation([], [], []), Recommendation([x], [], []),
                          Recommendation([x], [y], []), Recommendation([x], [y], [z]);
    assert es[1..] == [Entry(RemoveTag, y), Entry(KeepTag, z)];
    assert es[1..][1..] == [Entry(KeepTag, z)] && es[1..][1..][1..] == [];
    assert Names(r0) == {};
    assert Append(r0, AddTag, x) == r1 && Append(r1, RemoveTag, y) == r2 && Append(r2, KeepTag, z) == r3;
    assert Names(r1) == {x} && Names(r2) == {x, y} && Names(r3) == {x, y, z};
    TakeFirst(es, r0, {});
    TakeFirst(es[1..], r1, {x});
    TakeFirst(es[1..][1..], r2, {x, y});
    assert ParseFrom([], r3, {x, y, z}) == r3;
  }

  /** `+ x`, `+ y`, `+ x`: the repeated name keeps the place of its first
      line, so the additions are `[x, y]`. */
  lemma RepeatKeepsFirstPlace(x: string, y: string)
    requires StartsRef(x) && StartsRef(y) && x != y
    ensures ParseFrom([Entry(AddTag, x), Entry(AddTag, y), Entry(AddTag, x)], Recommendation([], [], []), {}).add
      == [x, y]
  {
    var es := [Entry(AddTag, x), Entry(AddTag, y), Entry(AddTag, x)];
    var r0, r1, r2 := Recommendation([], [], []), Recommendation([x], [], []), Recommendation([x, y], [], []);
    assert es[1..] == [Entry(AddTag, y), Entry(AddTag, x)];
    assert es[1..][1..] == [Entry(AddTag, x)] && es[1..][1..][1..] == [];
    assert Names(r0) == {};
    assert Append(r0, AddTag, x) == r1 && Append(r1, AddTag, y) == r2;
    assert Names(r1) == {x} && Names(r2) == {x, y};
    TakeFirst(es, r0, {});
    TakeFirst(es[1..], r1, {x});
    assert ParseFrom(es[1..][1..], r2, {x, y}) == ParseFrom([], r2, {x, y});
  }

  /** One step of the loop over a line whose name is new. */
  lemma TakeFirst(es: seq<LineEntry>, rec: Recommendation, seen: set<string>)
    requires seen == Names(rec)
    requires forall i :: 0 <= i < |es| && es[i].Entry? ==> StartsRef(es[i].sub)
    requires |es| > 0 && es[0].Entry? && es[0].sub !in seen
    ensures ParseFrom(es, rec, seen) == ParseFrom(es[1..], Append(rec, es[0].tag, es[0].sub), seen + {es[0].sub})
  {
  }
}
