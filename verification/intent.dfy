/** The keyword intent classifier of controllers/intent.go. Matching runs on
    the lower-cased utterance; the flags are independent of one another. */
module IntentClassifier {
  import opened Text

  datatype Intent = Intent(
    regenerateAdds: bool,
    regenerateRemoves: bool,
    clearRemoves: bool,
    newTopicPrompt: string,
    showSubList: bool,
    removeMode: bool,
    rawFeedback: string)

  /** The thirteen phrasings that ask for the subscription listing. */
  const ShowPhrases: seq<string> := [
    "show subs", "show my subs", "show me my subs", "show subreddits",
    "show my subreddits", "show me my subreddits", "list my subs",
    "list my subreddits", "what am i subscribed to", "what communities",
    "what subreddits", "which ones do i follow", "subs i use"]

  /** The phrasings of a general removal request. */
  const RemovePhrases: seq<string> := ["remove", "unsubscribe", "prune", "get rid", "delete", "i don't want"]

  /** `containsAny`: some keyword is a substring of the input. */
  function ContainsAny(input: string, keywords: seq<string>): (r: bool)
    ensures r <==> exists k :: k in keywords && Occurs(k, input)
  {
    if |keywords| == 0 then false
    else
      assert forall k :: k in keywords ==> k == keywords[0] || k in keywords[1..];
      Contains(input, keywords[0]) || ContainsAny(input, keywords[1..])
  }

  /** `ParseConversationIntent`. The removal rule runs last and overrides the
      forwarded prompt and the regenerate-removals flag. */
  function ParseConversationIntent(input: string): (r: Intent)
    ensures r.rawFeedback == input
    ensures r.regenerateAdds <==>
      Occurs("give me", ToLower(input)) && Occurs("more", ToLower(input)) && Occurs("subs", ToLower(input))
    ensures r.clearRemoves <==> Occurs("keep all", ToLower(input)) || Occurs("clear removes", ToLower(input))
    ensures r.showSubList <==> exists k :: k in ShowPhrases && Occurs(k, ToLower(input))
    ensures r.removeMode <==> exists k :: k in RemovePhrases && Occurs(k, ToLower(input))
  {
    var lc := ToLower(input);
    var regenerateAdds := Contains(lc, "give me") && Contains(lc, "more") && Contains(lc, "subs");
    var regenerateRemoves := Contains(lc, "remove more") || Contains(lc, "prune more");
    var clearRemoves := Contains(lc, "keep all") || Contains(lc, "clear removes");
    var topic := if Contains(lc, "suggest more") && Contains(lc, "subs") then input else "";
    var showSubList := ContainsAny(lc, ShowPhrases);
    var removeMode := ContainsAny(lc, RemovePhrases);
    Intent(
      regenerateAdds,
      if removeMode then true else regenerateRemoves,
      clearRemoves,
      if removeMode then input else topic,
      showSubList,
      removeMode,
      input)
  }

  /** The narrower "remove more"/"prune more" rule is subsumed by the general
      removal rule, so regenerate-removals is exactly remove mode. */
  lemma RegenerateRemovesIffRemoveMode(input: string)
    ensures ParseConversationIntent(input).regenerateRemoves <==> ParseConversationIntent(input).removeMode
  {
    var lc := ToLower(input);
    if Occurs("remove more", lc) {
      PrefixOccurs("remove", "remove more");
      OccursTrans("remove", "remove more", lc);
      assert "remove" in RemovePhrases;
    }
    if Occurs("prune more", lc) {
      PrefixOccurs("prune", "prune more");
      OccursTrans("prune", "prune more", lc);
      assert "prune" in RemovePhrases;
    }
  }

  /** The utterance is forwarded verbatim in remove mode or when it asks to
      suggest more subs; otherwise no prompt is forwarded. */
  lemma NewTopicPromptRule(input: string)
    ensures var r := ParseConversationIntent(input);
      r.newTopicPrompt == (if r.removeMode || (Occurs("suggest more", ToLower(input)) && Occurs("subs", ToLower(input)))
                           then input else "")
  {
  }

  /** Lower-casing the utterance first changes no flag: only the forwarded
      texts keep the original casing. */
  lemma CaseInsensitiveFlags(input: string)
    ensures var a := ParseConversationIntent(input);
      var b := ParseConversationIntent(ToLower(input));
      a.regenerateAdds == b.regenerateAdds && a.regenerateRemoves == b.regenerateRemoves
      && a.clearRemoves == b.clearRemoves && a.showSubList == b.showSubList && a.removeMode == b.removeMode
      && (a.newTopicPrompt == "" <==> b.newTopicPrompt == "")
  {
    ToLowerIdempotent(input);
  }

  // Worked examples.

  lemma ShowMySubsExample(s: string)
    requires s == "show my subs"
    ensures ParseConversationIntent(s).showSubList
  {
    OccursInLower("show my subs", s, 0);
    assert ShowPhrases[1] == "show my subs";
  }

  lemma GiveMeMoreSubsExample(s: string)
    requires s == "please give me more subs"
    ensures ParseConversationIntent(s).regenerateAdds
  {
    OccursInLower("give me", s, 7);
    OccursInLower("more", s, 15);
    OccursInLower("subs", s, 20);
  }

  lemma RemoveGamingSubsExample(s: string)
    requires s == "remove my gaming subs"
    ensures ParseConversationIntent(s).removeMode
  {
    OccursInLower("remove", s, 0);
    assert RemovePhrases[0] == "remove";
  }
}
