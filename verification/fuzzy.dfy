/** The fuzzy removal matcher of controllers/fuzzy.go. */
module Fuzzy {
  import opened Text
  import IntentClassifier

  /** The seven removal phrasings, in the order the source tests them. */
  const FuzzyRemovePhrases: seq<string> := ["remove", "delete", "get rid of", "unsub", "leave", "drop", "no more"]

  /** `MatchesFuzzyRemove`: some removal phrasing occurs in the lower-cased input. */
  function MatchesFuzzyRemove(input: string): (r: bool)
    ensures r <==> exists k :: k in FuzzyRemovePhrases && Occurs(k, ToLower(input))
  {
    IntentClassifier.ContainsAny(ToLower(input), FuzzyRemovePhrases)
  }

  /** Matching ignores ASCII case. */
  lemma CaseInsensitive(input: string)
    ensures MatchesFuzzyRemove(ToLower(input)) == MatchesFuzzyRemove(input)
  {
    ToLowerIdempotent(input);
  }

  /** Every "unsubscribe" request matches, through its "unsub" prefix. */
  lemma UnsubscribeMatches(input: string)
    requires Occurs("unsubscribe", ToLower(input))
    ensures MatchesFuzzyRemove(input)
  {
    PrefixOccurs("unsub", "unsubscribe");
    OccursTrans("unsub", "unsubscribe", ToLower(input));
    assert FuzzyRemovePhrases[3] == "unsub";
  }

  /** The empty utterance expresses no removal. */
  lemma EmptyDoesNotMatch()
    ensures !MatchesFuzzyRemove("")
  {
    forall k | k in FuzzyRemovePhrases ensures !Occurs(k, ToLower("")) {
      TooLongNotOccurs(k, ToLower(""));
    }
  }

  /** "drop" counts as a removal here but does not put the newer intent
      classifier into remove mode. */
  lemma DropDiverges(s: string)
    requires s == "drop r/x"
    ensures MatchesFuzzyRemove(s)
    ensures !IntentClassifier.ParseConversationIntent(s).removeMode
  {
    OccursInLower("drop", s, 0);
    assert FuzzyRemovePhrases[5] == "drop";
    LowerOfLower(s);
    NoRemovePhraseInDrop(s);
  }

  lemma NoRemovePhraseInDrop(s: string)
    requires s == "drop r/x"
    ensures forall k :: k in IntentClassifier.RemovePhrases ==> !Occurs(k, s)
  {
    assert 'm' !in s && 'u' !in s && 'g' !in s && 'e' !in s && 'i' !in s;
    MissingCharNotOccurs("remove", s, 2);
    MissingCharNotOccurs("unsubscribe", s, 0);
    MissingCharNotOccurs("prune", s, 2);
    MissingCharNotOccurs("get rid", s, 0);
    MissingCharNotOccurs("delete", s, 1);
    MissingCharNotOccurs("i don't want", s, 0);
  }
}
