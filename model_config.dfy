/**
 * The model configuration shared by the routes (`modelConfig.ts`): the model names, the model for each
 * task in each user tier, the token estimate, the price table and the usage counter. Prices are kept
 * exact, in units of 1/10000 of a dollar per 1000 tokens, so a cost is a whole number of 1/10000000
 * of a dollar.
 */
module ModelConfig {
  import opened Options
  import opened JsObjects

  const Gpt4: string := "gpt-4"
  const Gpt35Turbo: string := "gpt-3.5-turbo"

  /** The four tasks the routes name (`keyof typeof MODEL_MAPPING.standard`). */
  datatype Task = ChunkProcessing | FinalSynthesis | EntityExtraction | Tagging

  datatype Tier = Standard | Premium

  /** `userTier`: the tier the app runs in. */
  const UserTier: Tier := Standard

  /** The task assignments of `MODELS`: the cheap model everywhere but in the final synthesis. */
  function TaskModel(task: Task): string {
    match task
    case ChunkProcessing => Gpt35Turbo
    case FinalSynthesis => Gpt4
    case EntityExtraction => Gpt35Turbo
    case Tagging => Gpt35Turbo
  }

  /** `MODEL_MAPPING[tier][task]`. */
  function Mapping(tier: Tier, task: Task): string {
    match tier
    case Standard => TaskModel(task)
    case Premium => Gpt4
  }

  /** `MODEL_MAPPING[tier][task] || MODEL_MAPPING.standard[task]`: an empty entry falls back to the
      standard tier. */
  function ModelFor(tier: Tier, task: Task): (m: string)
    ensures m != ""
    ensures tier == Standard ==> m == TaskModel(task)
    ensures tier == Premium ==> m == Gpt4
  {
    var entry := Mapping(tier, task);
    if entry != "" then entry else Mapping(Standard, task)
  }

  /** `getModelForTask`: the entry of the user's tier. */
  function GetModelForTask(task: Task): (m: string)
    ensures m == (if task == FinalSynthesis then Gpt4 else Gpt35Turbo)
  {
    ModelFor(UserTier, task)
  }

  /** `Math.ceil(text.length / 4)`: about four characters per token. */
  function EstimateTokens(text: string): (n: nat)
    ensures 4 * n >= |text|
    ensures n > 0 ==> 4 * (n - 1) < |text|
    ensures n == 0 <==> text == []
  {
    (|text| + 3) / 4
  }

  /** One row of the price table, per 1000 tokens, in units of 1/10000 of a dollar. */
  datatype Rates = Rates(input: nat, output: nat)

  /** A cost as the code computes it: an exact amount, or `NaN` once a price read is `undefined`. */
  datatype Cost = Amount(value: int) | NaN {

    /** JavaScript `+` on numbers: `NaN` absorbs everything it is added to. */
    function Plus(other: Cost): (r: Cost)
      ensures r.NaN? <==> this.NaN? || other.NaN?
      ensures r.Amount? ==> r.value == this.value + other.value
    {
      match (this, other)
      case (Amount(a), Amount(b)) => Amount(a + b)
      case _ => NaN
    }
  }

  /** `rates[model] || rates["gpt-3.5-turbo"]`: GPT-4 costs $0.03 / $0.06 per 1000 tokens, and every
      other model is priced as GPT-3.5 Turbo at $0.0015 / $0.002. A model named after a property the
      table inherits from `Object.prototype` finds that truthy value instead, which has no `input` or
      `output` price: `None`. */
  function RatesFor(model: string): Option<Rates> {
    if model == Gpt4 then Some(Rates(300, 600))
    else if model == Gpt35Turbo then Some(Rates(15, 20))
    else if IsInheritedKey(model) then None
    else Some(Rates(15, 20))
  }

  /** `estimateCost`, in units of 1/10000000 of a dollar; `NaN` when the prices read are `undefined`. */
  function EstimateCost(inputTokens: int, outputTokens: int, model: string): (cost: Cost)
    ensures cost.NaN? <==> IsInheritedKey(model)
    ensures cost.Amount? && inputTokens >= 0 && outputTokens >= 0 ==> cost.value >= 0
    ensures model != Gpt4 && !IsInheritedKey(model) ==> cost == Amount(15 * inputTokens + 20 * outputTokens)
  {
    match RatesFor(model)
    case Some(rates) => Amount(inputTokens * rates.input + outputTokens * rates.output)
    case None => NaN
  }

  /** A model missing from the price table costs what GPT-3.5 Turbo costs, unless its name is one the
      table inherits, which makes the cost `NaN`. */
  lemma CostFallback(inputTokens: int, outputTokens: int, model: string)
    requires model != Gpt4 && model != Gpt35Turbo
    ensures EstimateCost(inputTokens, outputTokens, model)
         == if IsInheritedKey(model) then NaN else EstimateCost(inputTokens, outputTokens, Gpt35Turbo)
  {
  }

  /** The cheap model costs at most a twentieth of GPT-4 for the same tokens (95% cheaper, or more
      for output tokens). */
  lemma CheapModelSaves(inputTokens: nat, outputTokens: nat)
    ensures EstimateCost(inputTokens, outputTokens, Gpt35Turbo).Amount?
    ensures EstimateCost(inputTokens, outputTokens, Gpt4).Amount?
    ensures 20 * EstimateCost(inputTokens, outputTokens, Gpt35Turbo).value
         <= EstimateCost(inputTokens, outputTokens, Gpt4).value
  {
  }

  /** Every model a task is given, in either tier, has its own row in the price table. */
  lemma ModelsArePriced(tier: Tier, task: Task)
    ensures ModelFor(tier, task) == Gpt4 || ModelFor(tier, task) == Gpt35Turbo
    ensures EstimateCost(0, 0, ModelFor(tier, task)).Amount?
  {
  }

  /** `usageStats`: running totals of the tokens and of the estimated cost. */
  class UsageStats {
    var totalTokensProcessed: int
    var totalCost: Cost

    constructor ()
      ensures totalTokensProcessed == 0 && totalCost == Amount(0)
    {
      totalTokensProcessed := 0;
      totalCost := Amount(0);
    }

    /** `trackUsage`: adds the input and output tokens to the token total and their estimated cost to
        the cost total. Once a cost is `NaN` the cost total stays `NaN`. */
    method TrackUsage(inputTokens: int, outputTokens: int, model: string)
      modifies this
      ensures totalTokensProcessed == old(totalTokensProcessed) + inputTokens + outputTokens
      ensures totalCost == old(totalCost).Plus(EstimateCost(inputTokens, outputTokens, model))
      ensures totalCost.NaN? <==> old(totalCost).NaN? || IsInheritedKey(model)
    {
      totalTokensProcessed := totalTokensProcessed + (inputTokens + outputTokens);
      totalCost := totalCost.Plus(EstimateCost(inputTokens, outputTokens, model));
    }
  }
}
