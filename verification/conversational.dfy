/** The older intent classifier of controllers/conversational.go: four
    rules, and both forwarded texts are the lower-cased utterance. */
module Conversational {
  import opened Text
  import IntentClassifier

  datatype Intent = Intent(
    regenerateAdds: bool,
    regenerateRemoves: bool,
    clearRemoves: bool,
    newTopicPrompt: string,
    rawFeedback: string)

  /** `ParseConversationIntent` (older variant). */
  function ParseConversationIntent(input: string): (r: Intent)
    ensures r.rawFeedback == ToLower(input)
    ensures r.regenerateAdds <==>
      Occurs("give me", ToLower(input)) && Occurs("more", ToLower(input)) && Occurs("subs", ToLower(input))
    ensures r.regenerateRemoves <==> Occurs("remove more", ToLower(input)) || Occurs("prune more", ToLower(input))
    ensures r.clearRemoves <==> Occurs("keep all", ToLower(input)) || Occurs("clear removes", ToLower(input))
    ensures r.newTopicPrompt == (if Occurs("suggest more", ToLower(input)) && Occurs("subs", ToLower(input))
                                 then ToLower(input) else "")
  {
    var lc := ToLower(input);
    Intent(
      Contains(lc, "give me") && Contains(lc, "more") && Contains(lc, "subs"),
      Contains(lc, "remove more") || Contains(lc, "prune more"),
      Contains(lc, "keep all") || Contains(lc, "clear removes"),
      if Contains(lc, "suggest more") && Contains(lc, "subs") then lc else "",
      lc)
  }

  /** Both variants agree on the add and clear flags; this variant sets
      regenerate-removals only when the newer one does too. */
  lemma AgreesWithNewerClassifier(input: string)
    ensures var older := ParseConversationIntent(input);
      var cur := IntentClassifier.ParseConversationIntent(input);
      older.regenerateAdds == cur.regenerateAdds
      && older.clearRemoves == cur.clearRemoves
      && (older.regenerateRemoves ==> cur.regenerateRemoves)
      && (older.newTopicPrompt != "" ==> cur.newTopicPrompt != "")
  {
    IntentClassifier.RegenerateRemovesIffRemoveMode(input);
  }

  /** A bare "remove" sets regenerate-removals in the newer classifier but
      not in this one. */
  lemma BareRemoveDiverges(s: string)
    requires s == "remove"
    ensures !ParseConversationIntent(s).regenerateRemoves
    ensures IntentClassifier.ParseConversationIntent(s).regenerateRemoves
  {
    OccursInLower("remove", s, 0);
    assert IntentClassifier.RemovePhrases[0] == "remove";
    TooLongNotOccurs("remove more", ToLower(s));
    TooLongNotOccurs("prune more", ToLower(s));
  }
}
