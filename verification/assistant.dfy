/** One conversational turn of services/assistantService.go. The process-wide
    `lastPlan` and `lastUserInterest` variables are an explicit
    `ConversationState` handed in and returned; the model call is the
    `completion` parameter, applied to what the prompt is built from, and
    the subscription listing is passed in as text. */
module Assistant {
  import opened Text
  import opened Seqs
  import opened Models
  import opened IntentClassifier
  import opened PlanUtils
  import opened PlanFilters
  import opened ExclusionRequests

  /** No list names a subreddit twice and nothing is both added and removed. */
  ghost predicate Tidy(p: Plan) {
    && DistinctBy(p.toAdd, Normalize)
    && DistinctBy(p.toRemove, Normalize)
    && (forall i, j :: 0 <= i < |p.toAdd| && 0 <= j < |p.toRemove| ==>
          Normalize(p.toAdd[i]) != Normalize(p.toRemove[j]))
  }

  // ---------------------------------------------------------------------------
  // The filter pipeline of HandleRequest, after the model's reply is parsed

  /** The parsed plan after deduplication, the relevance test on removals
      (skipped in remove mode), keep requests, the already-subscribed filter,
      exclusions and the overlap guard, in that order. */
  function Reconcile(parsed: Plan, prompt: string, removeMode: bool, subscribed: set<string>): (r: Plan)
    ensures r == ActionPlan(r.toAdd, r.toRemove)
    ensures Subseq(r.toAdd, parsed.toAdd) && Subseq(r.toRemove, parsed.toRemove)
    ensures Tidy(r)
  {
    var st := RunStages(parsed, prompt, removeMode, subscribed);
    PipelineOrder(parsed, st);
    st.overlapFree
  }

  /** The plan after each stage of the pipeline. */
  datatype Stages = Stages(deduped: Plan, relevant: Plan, kept: Plan,
                           unsubscribed: Plan, allowed: Plan, overlapFree: Plan)

  function RunStages(parsed: Plan, prompt: string, removeMode: bool, subscribed: set<string>): (st: Stages)
    ensures st.deduped == DeduplicatePlan(parsed)
    ensures Subseq(st.relevant.toRemove, st.deduped.toRemove) && st.relevant.toAdd == st.deduped.toAdd
    ensures Subseq(st.kept.toRemove, st.relevant.toRemove) && st.kept.toAdd == st.relevant.toAdd
    ensures Subseq(st.unsubscribed.toAdd, st.kept.toAdd) && st.unsubscribed.toRemove == st.kept.toRemove
    ensures Subseq(st.allowed.toAdd, st.unsubscribed.toAdd) && st.allowed.toRemove == st.unsubscribed.toRemove
    ensures Subseq(st.overlapFree.toAdd, st.allowed.toAdd) && st.overlapFree.toRemove == st.allowed.toRemove
  {
    var deduped := DeduplicatePlan(parsed);
    var relevant := if removeMode then deduped else deduped.(toRemove := RelevantRemoves(prompt, deduped.toRemove));
    SubseqRefl(deduped.toRemove);
    var kept := HandleKeepRequests(prompt, relevant);
    var unsubscribed := kept.(toAdd := FilterAlreadySubscribed(kept.toAdd, subscribed));
    var allowed := HandleExclusions(prompt, unsubscribed);
    Stages(deduped, relevant, kept, unsubscribed, allowed, PreventOverlap(allowed))
  }

  /** Every stage keeps a subsequence of what the previous one had, so the
      deduplicated lists stay free of repeated names. */
  lemma PipelineOrder(parsed: Plan, st: Stages)
    requires st.deduped == DeduplicatePlan(parsed)
    requires Subseq(st.relevant.toRemove, st.deduped.toRemove) && st.relevant.toAdd == st.deduped.toAdd
    requires Subseq(st.kept.toRemove, st.relevant.toRemove) && st.kept.toAdd == st.relevant.toAdd
    requires Subseq(st.unsubscribed.toAdd, st.kept.toAdd) && st.unsubscribed.toRemove == st.kept.toRemove
    requires Subseq(st.allowed.toAdd, st.unsubscribed.toAdd) && st.allowed.toRemove == st.unsubscribed.toRemove
    requires Subseq(st.overlapFree.toAdd, st.allowed.toAdd) && st.overlapFree.toRemove == st.allowed.toRemove
    ensures Subseq(st.overlapFree.toAdd, parsed.toAdd) && Subseq(st.overlapFree.toRemove, parsed.toRemove)
    ensures DistinctBy(st.overlapFree.toAdd, Normalize) && DistinctBy(st.overlapFree.toRemove, Normalize)
  {
    var r := st.overlapFree;
    SubseqTrans(r.toRemove, st.relevant.toRemove, st.deduped.toRemove);
    SubseqTrans(r.toRemove, st.deduped.toRemove, parsed.toRemove);
    SubseqTrans(r.toAdd, st.allowed.toAdd, st.unsubscribed.toAdd);
    SubseqTrans(r.toAdd, st.unsubscribed.toAdd, st.kept.toAdd);
    SubseqTrans(r.toAdd, st.deduped.toAdd, parsed.toAdd);
    SubseqDistinctBy(r.toAdd, st.deduped.toAdd, Normalize);
    SubseqDistinctBy(r.toRemove, st.deduped.toRemove, Normalize);
  }

  /** A removal survives exactly when it is the first of its name, the
      prompt mentions it (unless in remove mode), and no "keep" word names it. */
  lemma ReconcileRemoves(parsed: Plan, prompt: string, removeMode: bool, subscribed: set<string>, x: string)
    ensures x in Reconcile(parsed, prompt, removeMode, subscribed).toRemove <==>
      && x in Dedup(parsed.toRemove)
      && (removeMode || Occurs(Normalize(x), ToLower(prompt)))
      && (Occurs("keep", ToLower(prompt)) ==> ToLower(x) !in KeepTargets(Fields(ToLower(prompt))))
  {
    var st := RunStages(parsed, prompt, removeMode, subscribed);
    assert Reconcile(parsed, prompt, removeMode, subscribed) == st.overlapFree;
  }

  /** An addition survives exactly when it is the first of its name, is not
      subscribed, is not excluded by the prompt, and is not also removed. */
  lemma ReconcileAdds(parsed: Plan, prompt: string, removeMode: bool, subscribed: set<string>, x: string)
    ensures var r := Reconcile(parsed, prompt, removeMode, subscribed);
      x in r.toAdd <==>
        && x in Dedup(parsed.toAdd)
        && TrimPrefix(x, "r/") !in subscribed
        && Normalize(x) !in ExcludedNames(prompt)
        && Normalize(x) !in NameSet(r.toRemove)
  {
    var st := RunStages(parsed, prompt, removeMode, subscribed);
    assert Reconcile(parsed, prompt, removeMode, subscribed) == st.overlapFree;
  }

  // ---------------------------------------------------------------------------
  // Conversation state

  datatype ConversationState = ConversationState(lastPlan: Plan, lastUserInterest: string)

  const InitialState: ConversationState := ConversationState(EmptyPlan, "")

  /** The answer of one turn and the state the next turn starts from. */
  datatype Turn = Turn(result: Result<AssistantResult>, state: ConversationState)

  const NoMatchesReply: string :=
    "\U{1F916} No strong subreddit matches. Try rephrasing or being more specific?"

  const MissingKeyError: string := "OPENAI_API_KEY unset"

  /** `hasValidLastPlan`: the previous plan proposes some change. */
  predicate HasValidLastPlan(p: Plan) {
    |p.toAdd| > 0 || |p.toRemove| > 0
  }

  // ---------------------------------------------------------------------------
  // Which prompt a regenerate request sends

  /** The remembered interest as `HandleRequest` updates it on entry: any
      non-blank prompt that is not a listing request replaces it. */
  function InterestAsWritten(state: ConversationState, prompt: string, intent: Intent): string {
    if !intent.showSubList && TrimSpace(prompt) != "" then prompt else state.lastUserInterest
  }

  /** The text `HandleRequest` sends: for a regenerate request, the interest
      it reads, which its entry update has already replaced. */
  function PromptInputAsWritten(state: ConversationState, prompt: string, intent: Intent): string {
    var interest := InterestAsWritten(state, prompt, intent);
    if intent.regenerateAdds && interest != "" then interest else prompt
  }

  /** As written, the remembered interest is never reused on a turn that
      reaches the model: any non-blank prompt has just replaced it. */
  lemma RegenerateNeverReusesInterest(state: ConversationState, prompt: string, intent: Intent)
    requires !intent.showSubList && TrimSpace(prompt) != ""
    ensures PromptInputAsWritten(state, prompt, intent) == prompt
  {
  }

  /** A prompt whose lower-cased text contains a word that starts with a
      letter is not blank. */
  lemma MentionNotBlank(k: string, prompt: string)
    requires |k| > 0 && 'a' <= k[0] <= 'z'
    requires Occurs(k, ToLower(prompt))
    ensures TrimSpace(prompt) != ""
  {
    var lp := ToLower(prompt);
    var i :| 0 <= i <= |lp| && IsPrefix(k, lp[i..]);
    assert lp[i] == k[0];
    assert prompt[i] !in Whitespace;
    var l := TrimLeft(prompt, Whitespace);
    assert |l| > 0;
  }

  /** A "give me more subs" prompt is never blank, so as written the
      classifier's regenerate flag never brings the old interest back. */
  lemma ClassifiedRegenerateIgnoresInterest(state: ConversationState, prompt: string)
    requires ParseConversationIntent(prompt).regenerateAdds
    requires !ParseConversationIntent(prompt).showSubList
    ensures PromptInputAsWritten(state, prompt, ParseConversationIntent(prompt)) == prompt
  {
    MentionNotBlank("more", prompt);
  }

  /** The intended remembered topic: a non-blank prompt that is neither a
      listing request nor itself a regenerate request replaces it. */
  function RememberInterest(state: ConversationState, prompt: string, intent: Intent): (t: string)
    ensures intent.regenerateAdds || intent.showSubList ==> t == state.lastUserInterest
    ensures !intent.regenerateAdds ==> t == InterestAsWritten(state, prompt, intent)
  {
    if !intent.showSubList && !intent.regenerateAdds && TrimSpace(prompt) != "" then prompt
    else state.lastUserInterest
  }

  /** The intended text to send: the remembered topic for a regenerate
      request when there is one, the prompt otherwise. */
  function PromptInput(state: ConversationState, prompt: string, intent: Intent): (t: string)
    ensures intent.regenerateAdds && state.lastUserInterest != "" ==> t == state.lastUserInterest
    ensures !intent.regenerateAdds ==> t == prompt && t == PromptInputAsWritten(state, prompt, intent)
  {
    if intent.regenerateAdds && state.lastUserInterest != "" then state.lastUserInterest else prompt
  }

  // ---------------------------------------------------------------------------
  // HandleRequest

  /** What the prompt sent to the model is built from: `BuildPrompt` reads the
      text to send, the remove-mode flag (which picks its template) and the
      subscribed names, and nothing else. */
  datatype ModelRequest = ModelRequest(text: string, removeMode: bool, subscribed: set<string>)

  /** One turn once the interest to remember and the text to send are fixed.
      A listing request answers with the listing; an exclusion-only prompt
      with a plan to edit is applied to that plan; otherwise the model's
      reply is parsed and filtered, and an empty result answers with the
      fixed no-matches text. */
  function Respond(state: ConversationState, interest: string, text: string, prompt: string, intent: Intent,
                   subscribed: set<string>, listing: string, apiKey: string,
                   completion: ModelRequest -> Result<string>): (t: Turn)
    ensures t.state.lastUserInterest == interest
    ensures intent.showSubList ==>
      t.result == Ok(AssistantResult(true, listing, EmptyPlan)) && t.state.lastPlan == state.lastPlan
    ensures t.result.Err? ==> t.state.lastPlan == state.lastPlan
    ensures t.result.Ok? && !t.result.value.viewOnly ==> t.state.lastPlan == t.result.value.plan
    ensures Tidy(state.lastPlan) ==> Tidy(t.state.lastPlan)
    ensures !intent.showSubList && IsExclusionOnlyRequest(prompt) && HasValidLastPlan(state.lastPlan) ==>
      t.result == Ok(HandleExclusionRequest(prompt, state.lastPlan))
    ensures !intent.showSubList && !(IsExclusionOnlyRequest(prompt) && HasValidLastPlan(state.lastPlan)) ==>
      && (apiKey == "" ==> t.result == Err(MissingKeyError))
      && (apiKey != "" ==>
            (t.result.Err? <==> completion(ModelRequest(text, intent.removeMode, subscribed)).Err?))
  {
    var remembered := state.(lastUserInterest := interest);
    if intent.showSubList then
      Turn(Ok(AssistantResult(true, listing, EmptyPlan)), remembered)
    else if IsExclusionOnlyRequest(prompt) && HasValidLastPlan(state.lastPlan) then
      var res := HandleExclusionRequest(prompt, state.lastPlan);
      Turn(Ok(res), remembered.(lastPlan := res.plan))
    else if apiKey == "" then
      Turn(Err(MissingKeyError), remembered)
    else
      match completion(ModelRequest(text, intent.removeMode, subscribed))
      case Err(e) => Turn(Err(e), remembered)
      case Ok(raw) =>
        var plan := Reconcile(ParseSubredditPlan(raw), prompt, intent.removeMode, subscribed);
        var reply := if |plan.toAdd| == 0 && |plan.toRemove| == 0 then NoMatchesReply else raw;
        Turn(Ok(AssistantResult(false, reply, plan)), remembered.(lastPlan := plan))
  }

  /** `HandleRequest` as written: the interest is replaced on entry, and a
      regenerate request sends the interest read after that. */
  function HandleRequest(state: ConversationState, prompt: string, intent: Intent,
                         subscribed: set<string>, listing: string, apiKey: string,
                         completion: ModelRequest -> Result<string>): (t: Turn)
    ensures t.state.lastUserInterest == InterestAsWritten(state, prompt, intent)
    ensures intent.showSubList ==>
      t.result == Ok(AssistantResult(true, listing, EmptyPlan)) && t.state.lastPlan == state.lastPlan
    ensures t.result.Err? ==> t.state.lastPlan == state.lastPlan
    ensures t.result.Ok? && !t.result.value.viewOnly ==> t.state.lastPlan == t.result.value.plan
    ensures Tidy(state.lastPlan) ==> Tidy(t.state.lastPlan)
    ensures !intent.showSubList && IsExclusionOnlyRequest(prompt) && HasValidLastPlan(state.lastPlan) ==>
      t.result == Ok(HandleExclusionRequest(prompt, state.lastPlan))
    ensures !intent.showSubList && !(IsExclusionOnlyRequest(prompt) && HasValidLastPlan(state.lastPlan)) ==>
      && (apiKey == "" ==> t.result == Err(MissingKeyError))
      && (apiKey != "" ==>
            (t.result.Err? <==>
             completion(ModelRequest(PromptInputAsWritten(state, prompt, intent), intent.removeMode, subscribed)).Err?))
  {
    Respond(state, InterestAsWritten(state, prompt, intent), PromptInputAsWritten(state, prompt, intent),
            prompt, intent, subscribed, listing, apiKey, completion)
  }

  /** As written, every turn with a non-blank prompt that is not a listing
      request remembers that prompt, whatever branch answers it and whether
      or not it fails; any other turn keeps the remembered interest. */
  lemma InterestReplacedOnEntry(state: ConversationState, prompt: string, intent: Intent,
                                subscribed: set<string>, listing: string, apiKey: string,
                                completion: ModelRequest -> Result<string>)
    ensures var t := HandleRequest(state, prompt, intent, subscribed, listing, apiKey, completion);
      && (!intent.showSubList && TrimSpace(prompt) != "" ==> t.state.lastUserInterest == prompt)
      && (intent.showSubList || TrimSpace(prompt) == "" ==> t.state.lastUserInterest == state.lastUserInterest)
  {
  }

  /** A turn that reaches the model: the plan is the model's reply parsed and
      filtered, it becomes the last plan, and the reply is the model's text
      unless nothing survived. */
  lemma ModelTurn(state: ConversationState, prompt: string, intent: Intent,
                  subscribed: set<string>, listing: string, apiKey: string,
                  completion: ModelRequest -> Result<string>, raw: string)
    requires !intent.showSubList && apiKey != ""
    requires !(IsExclusionOnlyRequest(prompt) && HasValidLastPlan(state.lastPlan))
    requires completion(ModelRequest(PromptInputAsWritten(state, prompt, intent), intent.removeMode, subscribed)) == Ok(raw)
    ensures var t := HandleRequest(state, prompt, intent, subscribed, listing, apiKey, completion);
      && t.result.Ok?
      && t.result.value.plan == Reconcile(ParseSubredditPlan(raw), prompt, intent.removeMode, subscribed)
      && !t.result.value.viewOnly
      && t.state.lastPlan == t.result.value.plan
      && (|t.result.value.plan.toAdd| == 0 && |t.result.value.plan.toRemove| == 0 ==>
            t.result.value.reply == NoMatchesReply)
      && (|t.result.value.plan.toAdd| > 0 || |t.result.value.plan.toRemove| > 0 ==>
            t.result.value.reply == raw)
  {
  }

  lemma InitialStateTidy()
    ensures Tidy(InitialState.lastPlan) && !HasValidLastPlan(InitialState.lastPlan)
  {
  }

  /** As written, a topic is lost on the next regenerate request: after any
      turn, a non-blank regenerate prompt is remembered and sent itself. */
  lemma TopicLostOnRegenerate(state: ConversationState, topic: string, topicIntent: Intent,
                              again: string, againIntent: Intent,
                              subscribed: set<string>, listing: string, apiKey: string,
                              completion: ModelRequest -> Result<string>)
    requires againIntent.regenerateAdds && !againIntent.showSubList && TrimSpace(again) != ""
    ensures var next := HandleRequest(state, topic, topicIntent, subscribed, listing, apiKey, completion).state;
      && PromptInputAsWritten(next, again, againIntent) == again
      && HandleRequest(next, again, againIntent, subscribed, listing, apiKey, completion).state.lastUserInterest == again
  {
    var next := HandleRequest(state, topic, topicIntent, subscribed, listing, apiKey, completion).state;
    RegenerateNeverReusesInterest(next, again, againIntent);
  }

  /** `HandleRequest` with the interest kept across regenerate requests: the
      same turn, remembering `RememberInterest` and sending `PromptInput`. */
  function HandleRequestIntended(state: ConversationState, prompt: string, intent: Intent,
                                 subscribed: set<string>, listing: string, apiKey: string,
                                 completion: ModelRequest -> Result<string>): (t: Turn)
    ensures t.state.lastUserInterest == RememberInterest(state, prompt, intent)
    ensures intent.regenerateAdds ==> t.state.lastUserInterest == state.lastUserInterest
    ensures !intent.regenerateAdds ==>
      t == HandleRequest(state, prompt, intent, subscribed, listing, apiKey, completion)
    ensures !intent.showSubList && !(IsExclusionOnlyRequest(prompt) && HasValidLastPlan(state.lastPlan))
            && apiKey != "" ==>
      (t.result.Err? <==>
       completion(ModelRequest(PromptInput(state, prompt, intent), intent.removeMode, subscribed)).Err?)
  {
    Respond(state, RememberInterest(state, prompt, intent), PromptInput(state, prompt, intent),
            prompt, intent, subscribed, listing, apiKey, completion)
  }

  /** With the interest kept across a regenerate request, "give me more subs"
      after a topic asks the model about that topic. */
  lemma TopicThenRegenerate(state: ConversationState, topic: string, topicIntent: Intent,
                            again: string, againIntent: Intent,
                            subscribed: set<string>, listing: string, apiKey: string,
                            completion: ModelRequest -> Result<string>)
    requires !topicIntent.showSubList && !topicIntent.regenerateAdds && TrimSpace(topic) != ""
    requires againIntent.regenerateAdds
    ensures var next := HandleRequestIntended(state, topic, topicIntent, subscribed, listing, apiKey, completion).state;
      && PromptInput(next, again, againIntent) == topic
      && HandleRequestIntended(next, again, againIntent, subscribed, listing, apiKey, completion).state.lastUserInterest == topic
  {
  }
}
