# Reddmeit plan reconciliation engine, in Dafny

Reddmeit is a terminal assistant that reads a Reddit user's subscriptions and
asks a language model which subreddits to add or remove. Between the two
network sides sits a deterministic engine, and this project models it:

- the activity scorer, which merges the subscribed, upvoted and commented
  name sets into per-name flags and keeps the names that reach a score
  threshold (module `Activity`);
- three keyword intent classifiers: the current one (`IntentClassifier`),
  an older variant (`Conversational`) and the fuzzy removal matcher
  (`Fuzzy`);
- two bullet-line parsers for model replies: the `+ r/x - reason` plan
  parser with its `r/[a-zA-Z0-9_]+` token scanner and explanation
  extractor, in `PlanUtils`; and the `+`/`-`/`=` recommendation parser
  with one shared seen-set, in `RecommendationParser`;
- the per-turn reconciliation pipeline of the assistant service:
  - deduplication by normalized name, then a relevance test on removals,
    then keep requests, then the already-subscribed filter, then
    exclusions, then the add/remove overlap guard (modules `PlanFilters`
    and `Assistant`);
  - the exclusion-only shortcut that edits the previous plan and writes
    the "Updated recommendations" reply (`ExclusionRequests`);
  - `HandleRequest` itself, with the process-wide `lastPlan` and
    `lastUserInterest` variables made into an explicit
    `ConversationState` that goes in and comes back out (`Assistant`).
    `HandleRequest` models the code as written; `HandleRequestIntended` is
    the same turn with the regenerate fix described under Findings;
- two cross-turn merges. The "cancel out" merge of `utils/plan.go` is in
  `PlanUtils`. The "keep beats remove beats add" merge of `main.go` is in
  `KeepMerge`.

Shared values:
- `Plan`, `Recommendation` and `AssistantResult` are in `Models`.
- `Plan` carries the `toKeep` list that the `main.go` merge reads.

Helpers:
- Text helpers are in `Text`: ASCII lower-casing, substring occurrence,
  trimming, `Fields`, `Split` and `ReplaceAll`.
- Sequence helpers are in `Seqs`: the subsequence relation, `Filter` and
  duplicate freedom.

Go values are mapped as follows:
- Strings are `seq<char>`.
- A Go `map[string]bool` name set is a `set<string>`, because every
  producer stores only `true`.
- A nil slice or map is the empty one.

Go map iteration order is unspecified. The loops that depend on it
(`keys`, `union`, `FilterActiveSubreddits`, `CombineSubredditStats`,
`MergePlans`) are methods that pick their next element with `:|`. Their
contracts speak about membership, counts and duplicate freedom, never
about order.

The model follows the code in these places:

- `ParseSubredditPlan` does not deduplicate: two identical bullet lines
  give two entries (`PlanUtils.DuplicateLinesKept`). Deduplication happens
  only in `deduplicatePlan`.
- A keep request only removes names from the current turn's removals. It
  is not remembered across turns.
- The older classifier forwards the lower-cased utterance as its raw
  feedback, while the current one forwards the original.
- `HandleRequest` computes the active subscriptions at
  services/assistantService.go lines 45-53 and then never uses them. The
  model leaves that computation out of the turn.
- `main.go` uses a `utils.Plan` type with a `ToKeep` list that
  `utils/plan.go` never defines. `KeepMerge` works on `Plan`, whose
  `toKeep` field stands for it.
- `handleExclusionRequest` ignores its `subscribed` argument, so the model
  drops it.
- `isExclusionOnlyRequest` tests the trimmed prompt for the trigger
  phrases, while `handleExclusions` tests the untrimmed one.
  `ExclusionRequests.ExclusionOnlyTriggersFilter` shows that the first
  test implies the second, so the shortcut always reaches the filter with
  its trigger set.
- Both exclusion routines delete every "no" with a single
  `strings.ReplaceAll`. That pass can create a new "no" out of the
  surrounding letters ("nnoo" becomes "no"). The model uses the same
  single pass, so such a word survives as it does in Go.

## Model

| member | source | states |
|---|---|---|
| Activity.CombineSubredditStats | controllers/subredditController.go:5-30 | The keys are exactly the union of the three name sets. Each entry carries its own key as name, and each flag is true exactly when the key is in that set. The result equals the directly stated map, and every score is between 1 and 3. |
| Activity.FilterActiveSubreddits | controllers/subredditController.go:32-50 | The result holds `r/` plus the name of exactly the entries whose score reaches the threshold. Its length equals the number of qualifying entries. When names equal their keys, no element repeats. |
| Activity.ThresholdMonotone | controllers/subredditController.go:45 | Raising the threshold can only shrink the set of qualifying names and the active list. |
| Activity.ThresholdExtremes | controllers/subredditController.go:35-47 | A threshold of at most 1 keeps `r/` plus every name of the three sets. A threshold of 4 or more keeps nothing. |
| IntentClassifier.ContainsAny | controllers/intent.go:64-71 | True exactly when some keyword of the list occurs in the input. |
| IntentClassifier.ParseConversationIntent | controllers/intent.go:18-62 | The raw feedback is the original input. The add, clear, show-list and remove-mode flags each hold exactly when their phrases occur in the lower-cased input. |
| IntentClassifier.RegenerateRemovesIffRemoveMode | controllers/intent.go:28-30 | Regenerate-removals holds exactly when remove mode holds, because "remove more" and "prune more" contain "remove" and "prune", which already trigger remove mode. |
| IntentClassifier.NewTopicPromptRule | controllers/intent.go:37-40 | The forwarded prompt is the original input in remove mode, or when "suggest more" and "subs" both occur; otherwise it is empty. |
| IntentClassifier.CaseInsensitiveFlags | controllers/intent.go:19 | Lower-casing the input first changes no flag, and does not change whether a prompt is forwarded. |
| IntentClassifier.ShowMySubsExample | controllers/intent.go:43-50 | "show my subs" asks for the subscription listing. |
| IntentClassifier.GiveMeMoreSubsExample | controllers/intent.go:23-25 | "please give me more subs" asks to regenerate additions. |
| IntentClassifier.RemoveGamingSubsExample | controllers/intent.go:53-59 | "remove my gaming subs" switches on remove mode. |
| Conversational.ParseConversationIntent | controllers/conversational.go:16-37 | The raw feedback is the lower-cased input. Each of the four rules holds exactly when its phrases occur. The forwarded prompt is the lower-cased input or empty. |
| Conversational.AgreesWithNewerClassifier | controllers/conversational.go:16-37 | The two classifiers agree on the add and clear flags. The older one sets regenerate-removals, or forwards a prompt, only when the newer one does too. |
| Conversational.BareRemoveDiverges | controllers/conversational.go:24-26 | A bare "remove" sets regenerate-removals in the newer classifier but not in this one. |
| Fuzzy.MatchesFuzzyRemove | controllers/fuzzy.go:6-15 | True exactly when one of the seven removal phrasings occurs in the lower-cased input. |
| Fuzzy.CaseInsensitive | controllers/fuzzy.go:7 | Lower-casing the input first does not change the answer. |
| Fuzzy.UnsubscribeMatches | controllers/fuzzy.go:11 | Any input containing "unsubscribe" matches, through its "unsub" prefix. |
| Fuzzy.EmptyDoesNotMatch | controllers/fuzzy.go:7-14 | The empty input is not a removal request. |
| Fuzzy.DropDiverges | controllers/fuzzy.go:13 | "drop r/x" matches here but does not put the newer classifier into remove mode. |
| PlanUtils.ExtractSubreddit | utils/plan.go:153-156 | Empty exactly when no `r/` followed by a word character occurs in the line. Otherwise the result is an `r/` token of word characters. |
| PlanUtils.ExtractSubredditLeftmostLongest | utils/plan.go:153-156 | A non-empty result starts at the first position where a match can start, and extends over every following word character. |
| PlanUtils.ExtractExplanation | utils/plan.go:159-168 | A line with neither separator has no explanation. |
| PlanUtils.ParseSubredditPlan | utils/plan.go:122-150 | Every parsed plan carries only the two action lists and explanations. Every entry is an `r/` token, and the explanation keys are exactly the entries. |
| PlanUtils.ParseLinesAppend | utils/plan.go:126-143 | Parsing two runs of lines equals concatenating their parses: the lines contribute independently, in order, without deduplication. |
| PlanUtils.IgnoredLine | utils/plan.go:130-142 | A line whose trimmed form is neither an addition nor a removal bullet contributes nothing, wherever it sits. |
| PlanUtils.TokenlessLineIgnored | utils/plan.go:131-139 | A line with no `r/` token gives the empty plan, even if it starts with a bullet marker. |
| PlanUtils.DashBulletRoundTrip | utils/plan.go:130-141 | A line `<marker> r/<name> - <reason>` parses to the single entry `r/<name>` in the list its marker names, explained by the reason. |
| PlanUtils.EnDashBulletRoundTrip | utils/plan.go:159-168 | The same round trip holds with the en-dash separator when the reason contains no hyphen separator. |
| PlanUtils.BareBulletRoundTrip | utils/plan.go:130-141 | A bullet without a reason parses to its entry with an empty explanation. |
| PlanUtils.ThreeBulletExample | utils/plan.go:126-143 | A `+`, a `-` and an `=` bullet give one addition, one removal, and nothing for the keep line. |
| PlanUtils.DuplicateLinesKept | utils/plan.go:130-135 | Two identical addition bullets give the entry twice. |
| PlanUtils.Keys | utils/plan.go:113-119 | The output holds each key of the set exactly once. |
| PlanUtils.MergePlans | utils/plan.go:73-111 | Additions are the union of additions minus the union of removals, and removals symmetrically. Neither list repeats an entry. Explanations are dropped for cancelled entries, and the second plan's explanation wins otherwise. Merging parsed plans gives a parsed plan. |
| PlanUtils.CancelConflicts | utils/plan.go:97-104 | Every entry that is in both sets leaves both sets and the explanations. Nothing else changes. |
| RecommendationParser.ReadLineBranches | controllers/recommendationParser.go:15-35 | A trimmed line starting `+ r/`, `- r/` or `= r/` gives an entry for the add, remove or keep list, named by the rest of the line after the marker. Any other line gives nothing. |
| RecommendationParser.ParseFromMembers | controllers/recommendationParser.go:15-36 | A name ends up in a list exactly when it was already there, or it is new and the first line naming it has that list's marker. |
| RecommendationParser.ParseRecommendationOutput | controllers/recommendationParser.go:9-40 | No name is listed twice across the three lists, and every entry starts with `r/`. A name is in the list of the first line that names it and in no other. Each list is a subsequence of the names on its marker's lines, and holds its names in the order of the lines that first name them. |
| RecommendationParser.ParseFromOrder | controllers/recommendationParser.go:15-36 | The loop only appends: each list keeps what it held, and what it gains is drawn from its marker's lines in the order of the lines. |
| RecommendationParser.ParseFromFirstOrder | controllers/recommendationParser.go:15-36 | Each list gains only names not yet seen, appended in the order of the lines that first name them. |
| RecommendationParser.SortedByFirstUnique | controllers/recommendationParser.go:15-36 | Two lists holding the same names, each in first-line order, are equal. |
| RecommendationParser.ParseDeterminedByFirstLines | controllers/recommendationParser.go:9-40 | Any recommendation whose lists hold exactly the names first named under each marker, in first-line order, is the parser's result, so the contract fixes the result. |
| RecommendationParser.FirstLineWins | controllers/recommendationParser.go:20-35 | A name on two lines goes to the list of the first line only. |
| RecommendationParser.TwoAdditions | controllers/recommendationParser.go:18-23 | Two addition lines give one entry when their names are equal and two, in line order, otherwise. |
| RecommendationParser.CaseVariantsKept | controllers/recommendationParser.go:20 | "r/Foo" and "r/foo" are both kept: the seen-set compares exact strings. |
| RecommendationParser.RepeatKeepsFirstPlace | controllers/recommendationParser.go:18-23 | Lines `+ x`, `+ y`, `+ x` give the additions `[x, y]`: a repeated name keeps the place of its first line. |
| RecommendationParser.OnePerList | controllers/recommendationParser.go:15-36 | One `+`, one `-` and one `=` line with distinct names give one entry per list. |
| PlanFilters.Normalize | services/assistantService.go:268 | The normalized name is lower case. |
| PlanFilters.Dedup | services/assistantService.go:265-273 | The result is a subsequence of the input with no two entries sharing a normalized name, and covers the same normalized names. |
| PlanFilters.DedupIsFirstOccurrences | services/assistantService.go:267-272 | Deduplication keeps exactly the first entry of each normalized name, as the independently defined first-occurrences list does. |
| PlanFilters.DeduplicatePlan | services/assistantService.go:264-287 | Both lists are deduplicated independently. No list repeats a normalized name, and each list covers the same names as before. Explanations and every other field are dropped. |
| PlanFilters.RelevantRemoves | services/assistantService.go:107-117 | The kept removals are an in-order subsequence. An entry is kept exactly when its normalized name occurs in the lower-cased prompt. |
| PlanFilters.MentionedIff | services/assistantService.go:112 | The second disjunct of the test, for `r/<name>`, is implied by the first, so a removal is relevant exactly when its name occurs. |
| PlanFilters.DropTargets | services/assistantService.go:247-254 | An in-order subsequence without the entries whose lower-case form is a target. |
| PlanFilters.DropTwice | services/assistantService.go:241-258 | Dropping one set of targets and then another drops their union. |
| PlanFilters.KeepLoop | services/assistantService.go:240-259 | The word-by-word loop removes exactly the entries that some `r/` word of the prompt names. |
| PlanFilters.HandleKeepRequests | services/assistantService.go:237-262 | Only the removal list changes, and it becomes a subsequence. Without "keep" the plan is unchanged. Otherwise an entry stays exactly when its lower-case form is not a punctuation-trimmed `r/` word of the prompt. |
| PlanFilters.FilterAlreadySubscribed | services/assistantService.go:289-298 | An in-order subsequence keeping exactly the entries whose `r/`-stripped name is not subscribed, compared case-sensitively. |
| PlanFilters.PartNamesMembers | services/assistantService.go:311-322 | A name is excluded exactly when some non-blank part of the cleaned prompt, trimmed and normalized, equals it. |
| PlanFilters.DropNames | services/assistantService.go:324-333 | An in-order subsequence keeping exactly the entries whose normalized name is not listed. When nothing is listed it is the input itself. |
| PlanFilters.HandleExclusions | services/assistantService.go:300-335 | Only the addition list changes, and it becomes a subsequence. An entry stays exactly when its normalized name is not excluded by the prompt. With no trigger phrase, or nothing matching, the plan is unchanged. |
| PlanFilters.PreventOverlap | services/assistantService.go:337-351 | Only the addition list changes. An addition stays exactly when no removal shares its normalized name, so afterwards no addition and removal share one. |
| ExclusionRequests.StopWordsNotCounted | services/assistantService.go:160-165 | Wherever it stands among the words, a filler word (in any case) or a word of at most two bytes adds nothing to the count of meaningful words; any other word adds one. |
| ExclusionRequests.MeaningfulCountAppend | services/assistantService.go:160-165 | The count of meaningful words over two word lists joined is the sum of their counts. |
| ExclusionRequests.Utf8Len | services/assistantService.go:162 | A word's Go byte length is between its character count and four times it. |
| ExclusionRequests.AsciiUtf8Len | services/assistantService.go:162 | An ASCII word's byte length is its character count. |
| ExclusionRequests.CountAtMostOne | services/assistantService.go:160-166 | The counting loop's "at most one meaningful word" equals "no two distinct positions hold meaningful words". |
| ExclusionRequests.NoMeaningful | services/assistantService.go:160-165 | The count is zero exactly when no word is meaningful. |
| ExclusionRequests.IsExclusionOnlyRequest | services/assistantService.go:137-167 | True exactly when a trigger phrase occurs in the trimmed lower-cased prompt and, after the deletions and trimming, at most one word is longer than two bytes and not a stop word. |
| ExclusionRequests.ExclusionOnlyTriggersFilter | services/assistantService.go:137-149 | A prompt that passes the exclusion-only test also triggers the exclusion filter, which tests the untrimmed prompt. |
| ExclusionRequests.Excluded | services/assistantService.go:211-220 | The excluded entries are an in-order subsequence of the originals, namely exactly those missing from the filtered list. |
| ExclusionRequests.SectionsMention | services/assistantService.go:221-233 | The reply starts with its header and contains a `+ x` line for every kept entry and a `- x` line for every excluded one. |
| ExclusionRequests.GenerateExclusionResponse | services/assistantService.go:207-235 | Equal lengths give the fixed no-changes text. Otherwise the reply starts with the updated header and lists every kept entry with `+` and every excluded one with `-`; it is exactly the header, the kept entries in their order, then the excluded entries in their original order. |
| ExclusionRequests.HandleExclusionRequest | services/assistantService.go:191-205 | The new plan has no removals and is not view-only. Its additions are the previous ones, in order, minus exactly the excluded names, and it never adds a normalized duplicate. The reply describes the change, and is the no-changes text when nothing was excluded. |
| Assistant.Reconcile | services/assistantService.go:105-122 | The filtered plan carries only the two action lists, each a subsequence of the parsed one. No list repeats a normalized name, and no addition shares one with a removal. |
| Assistant.PipelineOrder | services/assistantService.go:105-122 | When each stage keeps a subsequence of the previous stage's lists, the final lists are subsequences of the parsed ones and still repeat no normalized name. |
| Assistant.ReconcileRemoves | services/assistantService.go:105-119 | A removal survives exactly when it is a first occurrence, it is mentioned in the prompt (unless in remove mode), and no keep request names it. |
| Assistant.ReconcileAdds | services/assistantService.go:105-122 | An addition survives exactly when it is a first occurrence, is not subscribed, is not excluded, and shares no normalized name with a surviving removal. |
| Assistant.InterestReplacedOnEntry | services/assistantService.go:26-28 | As written, every `HandleRequest` turn with a non-blank prompt that is not a listing request remembers that prompt, in every branch including errors; a listing request or a blank prompt keeps the remembered interest. |
| Assistant.RegenerateNeverReusesInterest | services/assistantService.go:83-86 | As written, with the interest already replaced on entry, a non-blank prompt that is not a listing request is itself the text sent to the model, even for a regenerate request. |
| Assistant.ClassifiedRegenerateIgnoresInterest | services/assistantService.go:83-86 | As written, a classified "give me more subs" prompt never brings back the remembered topic. |
| Assistant.TopicLostOnRegenerate | services/assistantService.go:26-28 | As written, after any turn, a non-blank regenerate request sends its own text and becomes the remembered interest, so the earlier topic is lost. |
| Assistant.Respond | services/assistantService.go:30-134 | Once the interest and the text to send are fixed: a listing request answers with the listing, view-only, and leaves the last plan alone. An exclusion-only prompt with a valid last plan is applied to that plan. A missing key is an error. Otherwise the turn fails exactly when the completion of the text, the remove mode and the subscribed set fails. Errors keep the last plan, a non-view-only answer becomes the last plan, and a tidy last plan stays tidy. |
| Assistant.HandleRequest | services/assistantService.go:25-135 | As written: the interest is updated on entry, and a regenerate request sends the interest read after that update. The listing, exclusion, missing-key and completion-failure cases and the last-plan rules are those of `Respond`. |
| Assistant.RememberInterest | services/assistantService.go:26-28 | Corrected update: listing and regenerate requests keep the remembered topic; on any other request it agrees with the update as written. |
| Assistant.PromptInput | services/assistantService.go:83-86 | Corrected choice: a regenerate request asks about the remembered topic when there is one; any other request sends the prompt, as the code does. |
| Assistant.HandleRequestIntended | services/assistantService.go:25-135 | The corrected turn: it remembers `RememberInterest` and sends `PromptInput`. On a request that is not a regenerate request it is the turn as written. |
| Assistant.TopicThenRegenerate | services/assistantService.go:83-86 | In the corrected turn, after a turn about a topic, a regenerate request asks the model about that topic and keeps it remembered. |
| Assistant.ModelTurn | services/assistantService.go:83-134 | A turn of `HandleRequest` that reaches the model, sending the text chosen as written, answers with the reconciled parse of the reply, stores it as the last plan, and replies with the model's text, or with the no-matches text when nothing survived. |
| Assistant.InitialStateTidy | services/assistantService.go:16-17 | The initial state holds a tidy plan that is not a valid last plan. |
| KeepMerge.Union | main.go:116-129 | Every element of either list exactly once, and nothing else. |
| KeepMerge.Subtract | main.go:132-144 | An in-order subsequence of the first list without the elements of the second, keeping the first list's duplicates. |
| KeepMerge.MergeKeeping | main.go:95-113 | Keeps are the union of keeps. Removes are the union of removes minus keeps. Adds are the union of adds minus keeps and removes. No list repeats an entry. |
| KeepMerge.ResolveJoin | main.go:95-113 | Merging turn by turn resolves to the same lists as merging every turn's proposals at once. |
| KeepMerge.JoinSymmetric | main.go:97-106 | The merge treats the two plans alike. |
| KeepMerge.ResolveDisjoint | main.go:101-106 | After a merge no entry is in two lists. |

## Left out

- Network and terminal I/O are not modelled. This covers the Reddit fetchers and subscribe calls, the OpenAI client, the environment lookup, the interactive loops, and `PrintPlan` and `SavePlanToFile`. Outside this core: services/redditService.go, services/applyPlan.go, get_subs.go, services/aiService.go, services/intentService.go, services/interactiveService.go and the loop in main.go.
- The model call is a parameter. `HandleRequest` takes `apiKey` and a `completion` function instead of reading the environment and calling the OpenAI client.
- The template text of `BuildPrompt` (services/aiService.go:50-88) is not modelled. The `completion` parameter receives a `ModelRequest` holding everything `BuildPrompt` reads: the text to send, the remove-mode flag that picks the template, and the subscribed set it lists.
- A reply without choices makes `resp.Choices[0]` panic. That panic is not modelled.
- `buildSubsListing` is not modelled. Its text is the `listing` parameter, because it only formats the three name sets, each sorted, and reads no plan state.
- The `fmt.Printf` logging inside the helpers is not modelled.
- Assistant.HandleRequest: the `lastPlan = plan` assignment at line 104 is not modelled. Lines 123 and 133 overwrite it before any reader can see it.
- Unicode case folding and Unicode whitespace are not modelled. Lower-casing and trimming are ASCII only.
- ExclusionRequests.Utf8Len: Go's `len(word)` is modelled as the UTF-8 length of the word's Unicode scalar values. Invalid UTF-8 in the prompt is not modelled.
- Output order of the map-driven loops is not modelled, because Go leaves it unspecified. PlanUtils.Keys, KeepMerge.Union, Activity.FilterActiveSubreddits and PlanUtils.MergePlans state no order.
- PlanUtils.ExtractExplanation: its own contract states only the separator-free case. The separator cases are proved for bullet lines by PlanUtils.DashBulletRoundTrip, PlanUtils.EnDashBulletRoundTrip and PlanUtils.BareBulletRoundTrip, not for arbitrary lines.
- `strings.ReplaceAll` with an empty pattern is not modelled. The engine only calls it with non-empty literals.
- No concrete example shows the re-formed "no" in the exclusion cleaning. Such an example is too costly to unfold, so only the general single-pass definition is given.

## Findings

| source | as written | input that shows it | evidently intended | confidence | as-written member | corrected member |
|---|---|---|---|---|---|---|
| services/assistantService.go:26-28, 83-86 | The remembered interest is overwritten with every non-blank, non-listing prompt before it is read. A regenerate request therefore always sends its own text, never the earlier topic. | Remembered topic "books"; next prompt "give me more subs". The model is asked about "give me more subs". | A regenerate request asks again about the remembered topic and does not replace it. | not executed | Assistant.TopicLostOnRegenerate | Assistant.TopicThenRegenerate |
