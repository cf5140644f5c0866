/** The exclusion-only shortcut of services/assistantService.go: recognising a
    prompt that only asks to leave something out ("no r/x", "skip y"),
    applying it to the previous plan without a model call, and the reply
    that lists what was kept and what was excluded. */
module ExclusionRequests {
  import opened Text
  import opened Seqs
  import opened Models
  import opened PlanFilters

  /** The 48 filler words `isCommonWord` knows, all lower-case. */
  const CommonWords: set<string> := {
    "the", "and", "or", "but", "in", "on", "at", "to", "for", "of",
    "with", "by", "from", "up", "about", "into", "through", "during", "before",
    "after", "above", "below", "between", "among", "is", "are", "was", "were",
    "be", "been", "being", "have", "has", "had", "do", "does", "did", "will",
    "would", "could", "should", "may", "might", "must", "can", "please", "thanks", "thank"}

  /** `isCommonWord`: the word, lower-cased, is a filler word. */
  predicate IsCommonWord(word: string) {
    ToLower(word) in CommonWords
  }

  /** Go's `len` on a string: the number of bytes of its UTF-8 encoding. */
  function Utf8Len(s: string): (n: nat)
    ensures |s| <= n <= 4 * |s|
  {
    if |s| == 0 then 0
    else
      var c := s[0] as int;
      (if c < 0x80 then 1 else if c < 0x800 then 2 else if c < 0x1_0000 then 3 else 4) + Utf8Len(s[1..])
  }

  /** On ASCII text the byte length is the character count. */
  lemma {:induction false} AsciiUtf8Len(s: string)
    requires forall i :: 0 <= i < |s| ==> s[i] as int < 0x80
    ensures Utf8Len(s) == |s|
    decreases |s|
  {
    if |s| > 0 {
      AsciiUtf8Len(s[1..]);
    }
  }

  /** A word that counts as a subject: longer than two bytes and not filler. */
  predicate Meaningful(word: string) {
    Utf8Len(word) > 2 && !IsCommonWord(word)
  }

  function MeaningfulCount(words: seq<string>): nat
    decreases |words|
  {
    if |words| == 0 then 0
    else (if Meaningful(words[0]) then 1 else 0) + MeaningfulCount(words[1..])
  }

  lemma {:induction false} MeaningfulCountAppend(a: seq<string>, b: seq<string>)
    ensures MeaningfulCount(a + b) == MeaningfulCount(a) + MeaningfulCount(b)
    decreases |a|
  {
    if |a| > 0 {
      assert (a + b)[0] == a[0] && (a + b)[1..] == a[1..] + b;
      MeaningfulCountAppend(a[1..], b);
      assert MeaningfulCount(a + b) == (if Meaningful(a[0]) then 1 else 0) + MeaningfulCount(a[1..] + b);
    } else {
      assert a + b == b;
    }
  }

  /** A filler word, in any case, or a word of at most two bytes never adds
      to the count wherever it stands; any other word adds one. */
  lemma StopWordsNotCounted(a: seq<string>, w: string, b: seq<string>)
    ensures IsCommonWord(w) ==> MeaningfulCount(a + [w] + b) == MeaningfulCount(a + b)
    ensures Utf8Len(w) <= 2 ==> MeaningfulCount(a + [w] + b) == MeaningfulCount(a + b)
    ensures Utf8Len(w) > 2 && !IsCommonWord(w) ==> MeaningfulCount(a + [w] + b) == MeaningfulCount(a + b) + 1
  {
    MeaningfulCountAppend(a + [w], b);
    MeaningfulCountAppend(a, [w]);
    MeaningfulCountAppend(a, b);
    assert [w][1..] == [];
  }

  /** No two different positions both hold a meaningful word. */
  ghost predicate AtMostOneMeaningful(words: seq<string>) {
    forall i, j :: 0 <= i < j < |words| && Meaningful(words[i]) ==> !Meaningful(words[j])
  }

  lemma {:induction false} NoMeaningful(words: seq<string>)
    ensures MeaningfulCount(words) == 0 <==> forall i :: 0 <= i < |words| ==> !Meaningful(words[i])
    decreases |words|
  {
    if |words| > 0 {
      NoMeaningful(words[1..]);
      assert forall i :: 1 <= i < |words| ==> words[i] == words[1..][i - 1];
    }
  }

  /** Counting to at most one is the same as no two meaningful words. */
  lemma {:induction false} CountAtMostOne(words: seq<string>)
    ensures MeaningfulCount(words) <= 1 <==> AtMostOneMeaningful(words)
    decreases |words|
  {
    if |words| > 0 {
      var rest := words[1..];
      CountAtMostOne(rest);
      NoMeaningful(rest);
      assert forall i :: 1 <= i < |words| ==> words[i] == rest[i - 1];
      if Meaningful(words[0]) {
        if MeaningfulCount(rest) == 0 {
          forall i, j | 0 <= i < j < |words| && Meaningful(words[i]) ensures !Meaningful(words[j]) {
            assert words[j] == rest[j - 1];
          }
        } else {
          var j :| 0 <= j < |rest| && Meaningful(rest[j]);
          assert words[j + 1] == rest[j];
        }
      } else {
        if AtMostOneMeaningful(rest) {
          forall i, j | 0 <= i < j < |words| && Meaningful(words[i]) ensures !Meaningful(words[j]) {
            assert i > 0;
            assert words[i] == rest[i - 1] && words[j] == rest[j - 1];
          }
        } else {
          var i, j :| 0 <= i < j < |rest| && Meaningful(rest[i]) && Meaningful(rest[j]);
          assert words[i + 1] == rest[i] && words[j + 1] == rest[j];
        }
      }
    }
  }

  /** The words an exclusion-only test looks at: the trimmed, lower-cased
      prompt with the exclusion phrases and every `r/` deleted, trimmed of
      spaces and punctuation, and split at white space. */
  function ExclusionWords(prompt: string): seq<string> {
    var lp := ToLower(TrimSpace(prompt));
    Fields(Trim(ReplaceAll(ExclusionClean(lp), "r/", ""), ExclusionSeps))
  }

  /** `isExclusionOnlyRequest`: an exclusion phrase occurs in the trimmed
      prompt and at most one meaningful word is left once it is removed. */
  function IsExclusionOnlyRequest(prompt: string): (r: bool)
    ensures r <==> ExclusionTriggered(ToLower(TrimSpace(prompt))) && AtMostOneMeaningful(ExclusionWords(prompt))
  {
    var lp := ToLower(TrimSpace(prompt));
    CountAtMostOne(ExclusionWords(prompt));
    ExclusionTriggered(lp) && MeaningfulCount(ExclusionWords(prompt)) <= 1
  }

  /** `TrimSpace` returns a piece of its argument. */
  lemma TrimSpaceOccurs(s: string)
    ensures Occurs(TrimSpace(s), s)
  {
    var l := TrimLeft(s, Whitespace);
    var t := TrimRight(l, Whitespace);
    var i := |s| - |l|;
    assert s[i..] == l;
    assert s[i..][..|t|] == t;
  }

  /** Lower-casing keeps a substring a substring. */
  lemma OccursLowered(k: string, s: string)
    requires Occurs(k, s)
    ensures Occurs(ToLower(k), ToLower(s))
  {
    var i :| 0 <= i <= |s| && IsPrefix(k, s[i..]);
    assert ToLower(s)[i..][..|k|] == ToLower(k);
  }

  /** The exclusion phrases found in a piece of a text are found in the text. */
  lemma TriggerWidens(t: string, lp: string)
    requires Occurs(t, lp)
    ensures ExclusionTriggered(t) ==> ExclusionTriggered(lp)
  {
    if Occurs("don't add", t) {
      OccursTrans("don't add", t, lp);
    } else if Occurs("dont add", t) {
      OccursTrans("dont add", t, lp);
    } else if Occurs("skip", t) {
      OccursTrans("skip", t, lp);
    } else if Occurs("no ", t) {
      OccursTrans("no ", t, lp);
    }
  }

  /** A prompt that passes the exclusion-only test also switches on the
      exclusion filter, which looks at the untrimmed prompt. */
  lemma ExclusionOnlyTriggersFilter(prompt: string)
    requires IsExclusionOnlyRequest(prompt)
    ensures ExclusionTriggered(ToLower(prompt))
  {
    TrimSpaceOccurs(prompt);
    OccursLowered(TrimSpace(prompt), prompt);
    TriggerWidens(ToLower(TrimSpace(prompt)), ToLower(prompt));
  }

  // ---------------------------------------------------------------------------
  // generateExclusionResponse

  const NoChangesReply: string :=
    "\U{1F916} No changes made. The subreddit you mentioned wasn't in the recommendations."
  const UpdatedHeader: string := "\U{2705} Updated recommendations:\n\n"
  const ToAddHeader: string := "\U{1F4DA} To Add:\n"
  const ExcludedHeader: string := "\n\U{274C} Excluded based on your feedback:\n"

  /** One line `<marker>sub` per entry, each ended by a newline. */
  function Lines(marker: string, xs: seq<string>): string
    decreases |xs|
  {
    if |xs| == 0 then "" else marker + xs[0] + "\n" + Lines(marker, xs[1..])
  }

  lemma {:induction false} LineOccurs(marker: string, xs: seq<string>, x: string)
    requires x in xs
    ensures Occurs(marker + x + "\n", Lines(marker, xs))
    decreases |xs|
  {
    var line := marker + x + "\n";
    if xs[0] == x {
      PrefixOccurs(line, Lines(marker, xs));
    } else {
      LineOccurs(marker, xs[1..], x);
      OccursInAppend(line, marker + xs[0] + "\n", Lines(marker, xs[1..]), "");
      assert marker + xs[0] + "\n" + Lines(marker, xs[1..]) + "" == Lines(marker, xs);
    }
  }

  /** The original additions missing from the filtered list, in order. */
  function Excluded(original: seq<string>, filtered: seq<string>): (r: seq<string>)
    ensures Subseq(r, original)
    ensures forall x :: x in r <==> x in original && x !in filtered
  {
    FilterMembers(original, sub => sub !in filtered);
    Filter(original, sub => sub !in filtered)
  }

  /** The body of an update reply: the header, the kept additions under their
      own heading when there are any, then the excluded ones likewise. */
  function Sections(header: string, addHeader: string, exHeader: string,
                    kept: seq<string>, excluded: seq<string>): string
  {
    header
      + (if |kept| > 0 then addHeader + Lines("+ ", kept) else "")
      + (if |excluded| > 0 then exHeader + Lines("- ", excluded) else "")
  }

  lemma SectionsMention(header: string, addHeader: string, exHeader: string,
                        kept: seq<string>, excluded: seq<string>)
    ensures IsPrefix(header, Sections(header, addHeader, exHeader, kept, excluded))
    ensures forall x :: x in kept ==> Occurs("+ " + x + "\n", Sections(header, addHeader, exHeader, kept, excluded))
    ensures forall x :: x in excluded ==> Occurs("- " + x + "\n", Sections(header, addHeader, exHeader, kept, excluded))
  {
    var k := if |kept| > 0 then addHeader + Lines("+ ", kept) else "";
    var d := if |excluded| > 0 then exHeader + Lines("- ", excluded) else "";
    var r := Sections(header, addHeader, exHeader, kept, excluded);
    assert r == header + k + d;
    assert r[..|header|] == header;
    forall x | x in kept ensures Occurs("+ " + x + "\n", r) {
      LineInSection("+ ", kept, x, header, addHeader, d);
    }
    forall x | x in excluded ensures Occurs("- " + x + "\n", r) {
      LineInSection("- ", excluded, x, header + k, exHeader, "");
      assert header + k + (exHeader + Lines("- ", excluded)) + "" == r;
    }
  }

  /** A line of a section is found in any text that contains the section. */
  lemma LineInSection(marker: string, xs: seq<string>, x: string, before: string, header: string, after: string)
    requires x in xs
    ensures Occurs(marker + x + "\n", before + (header + Lines(marker, xs)) + after)
  {
    LineOccurs(marker, xs, x);
    OccursInAppend(marker + x + "\n", before + header, Lines(marker, xs), after);
    assert before + header + Lines(marker, xs) + after == before + (header + Lines(marker, xs)) + after;
  }

  /** `generateExclusionResponse`: the fixed "no changes" text when nothing
      was dropped; otherwise a header, a `+ sub` line per kept addition and a
      `- sub` line per excluded one. */
  function GenerateExclusionResponse(original: seq<string>, filtered: seq<string>): (r: string)
    ensures |original| == |filtered| ==> r == NoChangesReply
    ensures |original| != |filtered| ==> IsPrefix(UpdatedHeader, r)
    ensures |original| != |filtered| ==> forall x :: x in filtered ==> Occurs("+ " + x + "\n", r)
    ensures |original| != |filtered| ==>
      forall x :: x in original && x !in filtered ==> Occurs("- " + x + "\n", r)
    ensures |original| != |filtered| ==>
      r == Sections(UpdatedHeader, ToAddHeader, ExcludedHeader, filtered, Excluded(original, filtered))
  {
    if |original| == |filtered| then NoChangesReply
    else
      var excluded := Excluded(original, filtered);
      SectionsMention(UpdatedHeader, ToAddHeader, ExcludedHeader, filtered, excluded);
      Sections(UpdatedHeader, ToAddHeader, ExcludedHeader, filtered, excluded)
  }

  // ---------------------------------------------------------------------------
  // handleExclusionRequest

  /** `handleExclusionRequest`: the exclusions of the prompt applied to the
      additions of the previous plan; its removals are dropped. */
  function HandleExclusionRequest(prompt: string, last: Plan): (res: AssistantResult)
    ensures !res.viewOnly
    ensures res.plan.toRemove == [] && res.plan == ActionPlan(res.plan.toAdd, [])
    ensures Subseq(res.plan.toAdd, last.toAdd)
    ensures forall x :: x in res.plan.toAdd <==> x in last.toAdd && Normalize(x) !in ExcludedNames(prompt)
    ensures (forall x :: x in last.toAdd ==> Normalize(x) !in ExcludedNames(prompt)) ==>
      res.plan.toAdd == last.toAdd && res.reply == NoChangesReply
    ensures res.reply == GenerateExclusionResponse(last.toAdd, res.plan.toAdd)
    ensures DistinctBy(last.toAdd, Normalize) ==> DistinctBy(res.plan.toAdd, Normalize)
  {
    var newPlan := HandleExclusions(prompt, ActionPlan(last.toAdd, []));
    assert DistinctBy(last.toAdd, Normalize) ==> DistinctBy(newPlan.toAdd, Normalize) by {
      if DistinctBy(last.toAdd, Normalize) {
        SubseqDistinctBy(newPlan.toAdd, last.toAdd, Normalize);
      }
    }
    AssistantResult(false, GenerateExclusionResponse(last.toAdd, newPlan.toAdd), newPlan)
  }
}
