/** JSON values and what one of them says about usage: the `merge_*` functions and
    number conversion of `src/proxy/sse.rs`. */
module UsageJson {
  import opened Options

  /** Numbers as the parser keeps them: unsigned, negative or floating. */
  datatype Number = Unsigned(n: nat) | Negative(magnitude: nat) | Floating(value: real)

  /** Fields stand in the order in which the parsed map gives them. */
  datatype Json =
    | Null
    | Bool(b: bool)
    | Num(number: Number)
    | Str(text: string)
    | Arr(items: seq<Json>)
    | Obj(fields: seq<Field>)

  datatype Field = Field(name: string, value: Json)

  datatype Usage = Usage(tokensIn: Option<nat>, tokensOut: Option<nat>, reasoning: Option<nat>,
                         cacheCreation: Option<nat>, cacheRead: Option<nat>, stopReason: Option<string>)

  const NO_USAGE := Usage(None, None, None, None, None, None)

  const U32: nat := 0x1_0000_0000

  function Lookup(fields: seq<Field>, name: string): Option<Json> {
    if fields == [] then None
    else if fields[0].name == name then Some(fields[0].value)
    else Lookup(fields[1..], name)
  }

  function At(v: Json, name: string): Option<Json> {
    if v.Obj? then Lookup(v.fields, name) else None
  }

  function Text(v: Option<Json>): Option<string> {
    if v.Some? && v.value.Str? then Some(v.value.text) else None
  }

  function In(v: Option<Json>, name: string): Option<Json> {
    if v.Some? then At(v.value, name) else None
  }

  /** Unsigned numbers wrap, all others saturate. */
  function ToU32(v: Json): Option<nat> {
    if !v.Num? then None
    else match v.number
      case Unsigned(n) => Some(n % U32)
      case Negative(_) => Some(0)
      case Floating(x) => Some(if x <= 0.0 then 0 else if x >= U32 as real then U32 - 1 else x.Floor)
  }

  function Count(v: Option<Json>, name: string): Option<nat> {
    match In(v, name)
    case Some(n) => ToU32(n)
    case None => None
  }

  /** For counts that fit, it is not. */
  lemma CountsThatFit(n: nat)
    ensures ToU32(Num(Unsigned(n))) == ToU32(Num(Floating(n as real))) <==> n < U32 || n % U32 == U32 - 1
  {
  }

  // ---- What one node says ----

  function FirstFinish(choices: seq<Json>): Option<string> {
    if choices == [] then None
    else Text(At(choices[0], "finish_reason")).Or(FirstFinish(choices[1..]))
  }

  function FinishReason(v: Json): Option<string> {
    match At(v, "choices")
    case Some(Arr(items)) => FirstFinish(items)
    case _ => None
  }

  function StopReason(v: Json): Option<string> {
    Text(In(At(v, "delta"), "stop_reason"))
      .Or(Text(At(v, "stop_reason")))
      .Or(FinishReason(v))
      .Or(if Text(At(v, "status")) == Some("incomplete") then Text(In(At(v, "incomplete_details"), "reason")) else None)
  }

  /** OpenAI's key wins over Anthropic's for the two main counts; details win for
      the cache. Details stand under one key or, without it, under the other. */
  function Says(v: Json): Usage {
    var u := At(v, "usage");
    Usage(Count(u, "prompt_tokens").Or(Count(u, "input_tokens")),
          Count(u, "completion_tokens").Or(Count(u, "output_tokens")),
          Count(In(u, "output_tokens_details").Or(In(u, "completion_tokens_details")), "reasoning_tokens"),
          Count(u, "cache_creation_input_tokens"),
          Count(In(u, "input_tokens_details").Or(In(u, "prompt_tokens_details")), "cached_tokens")
            .Or(Count(u, "cache_read_input_tokens")),
          StopReason(v))
  }

  /** What is known, and then a node: counts are replaced, a stop reason stays. */
  function Then(known: Usage, said: Usage): Usage {
    Usage(said.tokensIn.Or(known.tokensIn), said.tokensOut.Or(known.tokensOut), said.reasoning.Or(known.reasoning),
          said.cacheCreation.Or(known.cacheCreation), said.cacheRead.Or(known.cacheRead),
          known.stopReason.Or(said.stopReason))
  }

}
