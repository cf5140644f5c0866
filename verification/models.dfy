/** The values the reconciliation engine passes around (models/recommendation.go). */
module Models {

  /** `models.RecommendationPlan`, plus the `ToKeep` list that the cross-turn
      merge of main.go reads and writes. A nil Go slice or map is the empty one. */
  datatype Plan = Plan(
    toAdd: seq<string>,
    toRemove: seq<string>,
    toKeep: seq<string>,
    viewOnly: bool,
    reply: string,
    explanations: map<string, string>)

  const EmptyPlan: Plan := Plan([], [], [], false, "", map[])

  /** A plan carrying only the two action lists, as most helpers build it. */
  function ActionPlan(toAdd: seq<string>, toRemove: seq<string>): (p: Plan)
    ensures p.toAdd == toAdd && p.toRemove == toRemove
    ensures p.toKeep == [] && !p.viewOnly && p.reply == "" && p.explanations == map[]
  {
    EmptyPlan.(toAdd := toAdd, toRemove := toRemove)
  }

  /** `models.Recommendation`: the three lists of a `+`/`-`/`=` reply. */
  datatype Recommendation = Recommendation(add: seq<string>, remove: seq<string>, keep: seq<string>)

  datatype Option<T> = None | Some(value: T)

  /** A value or the error a collaborator reported. */
  datatype Result<T> = Ok(value: T) | Err(error: string)

  /** `services.AssistantResult`: what one conversational turn answers. */
  datatype AssistantResult = AssistantResult(viewOnly: bool, reply: string, plan: Plan)
}
