/** The in-place scan of `src/proxy/sse.rs`: one record of usage that every
    `merge_*` function and every level of the recursion updates. */
module UsageMerge {
  import opened Options
  import opened UsageJson
  import opened UsageScan
  import opened UsageStream

  class UsageData {
    var tokensIn: Option<nat>
    var tokensOut: Option<nat>
    var reasoning: Option<nat>
    var cacheCreation: Option<nat>
    var cacheRead: Option<nat>
    var stopReason: Option<string>

    ghost function Contents(): Usage
      reads this
    {
      Usage(tokensIn, tokensOut, reasoning, cacheCreation, cacheRead, stopReason)
    }

    constructor ()
      ensures Contents() == NO_USAGE
    {
      tokensIn, tokensOut, reasoning, cacheCreation, cacheRead, stopReason := None, None, None, None, None, None;
    }

    method MergeUsageObject(v: Json)
      requires v.Obj?
      modifies this
      ensures Contents() == Then(old(Contents()), Says(v).(stopReason := None))
    {
      hide Count, In, At, StopReason;
      var u := At(v, "usage");
      if u.None? {
        NoUsageObject(old(Contents()), v);
        return;
      }
      tokensIn := Count(u, "input_tokens").Or(tokensIn);
      tokensIn := Count(u, "prompt_tokens").Or(tokensIn);
      tokensOut := Count(u, "output_tokens").Or(tokensOut);
      tokensOut := Count(u, "completion_tokens").Or(tokensOut);
      cacheCreation := Count(u, "cache_creation_input_tokens").Or(cacheCreation);
      cacheRead := Count(u, "cache_read_input_tokens").Or(cacheRead);
      MergeOpenAiDetails(u);
    }

    method MergeOpenAiDetails(u: Option<Json>)
      modifies this
      ensures var cached := Count(In(u, "input_tokens_details").Or(In(u, "prompt_tokens_details")), "cached_tokens");
              var thought := Count(In(u, "output_tokens_details").Or(In(u, "completion_tokens_details")), "reasoning_tokens");
              Contents() == old(Contents()).(cacheRead := cached.Or(old(cacheRead)), reasoning := thought.Or(old(reasoning)))
    {
      var n := Count(In(u, "input_tokens_details").Or(In(u, "prompt_tokens_details")), "cached_tokens");
      if n.Some? { cacheRead := n; }
      n := Count(In(u, "output_tokens_details").Or(In(u, "completion_tokens_details")), "reasoning_tokens");
      if n.Some? { reasoning := n; }
    }

    method MergeStopReason(v: Json)
      modifies this`stopReason
      ensures stopReason == old(stopReason).Or(StopReason(v))
    {
      if stopReason.Some? {
        return;
      }
      var reason := Text(In(At(v, "delta"), "stop_reason"));
      if reason.Some? {
        stopReason := reason;
        return;
      }
      reason := Text(At(v, "stop_reason"));
      if reason.Some? {
        stopReason := reason;
        return;
      }
      reason := FirstFinishReason(v);
      if reason.Some? {
        stopReason := reason;
        return;
      }
      if Text(At(v, "status")) == Some("incomplete") {
        stopReason := Text(In(At(v, "incomplete_details"), "reason"));
      }
    }

    method WalkMerge(v: Json, d: nat)
      modifies this
      ensures Contents() == Walk(old(Contents()), v, d)
      decreases Left(d), 0
    {
      if d > MAX_WALK {
        return;
      }
      if v.Obj? {
        MergeUsageObject(v);
        MergeStopReason(v);
      }
      WalkItems(Children(v), d + 1);
    }

    /** The loop over the children of one node. */
    method WalkItems(items: seq<Json>, d: nat)
      modifies this
      ensures Contents() == WalkAll(old(Contents()), items, d)
      decreases Left(d), |items| + 1
    {
      assert items[..0] == [];
      for i := 0 to |items|
        invariant Contents() == WalkAll(old(Contents()), items[..i], d)
      {
        assert items[..i + 1][..i] == items[..i];
        WalkMerge(items[i], d);
      }
      assert items[..|items|] == items;
    }

    method ParseSseLines(decode: Decoder, body: seq<byte>)
      modifies this
      ensures Contents() == ScanSse(old(Contents()), decode, body)
    {
      var pieces := Pieces(body);
      assert pieces[..0] == [];
      for i := 0 to |pieces|
        invariant Contents() == ScanPieces(old(Contents()), decode, pieces[..i])
      {
        assert pieces[..i + 1][..i] == pieces[..i];
        var v := decode(pieces[i]);
        if v.Some? {
          WalkMerge(v.value, 0);
        }
      }
      assert pieces[..|pieces|] == pieces;
    }
  }

  lemma NoUsageObject(known: Usage, v: Json)
    requires At(v, "usage").None?
    ensures Then(known, Says(v).(stopReason := None)) == known
  {
  }

  method FirstFinishReason(v: Json) returns (reason: Option<string>)
    ensures reason == FinishReason(v)
  {
    var choices := At(v, "choices");
    if choices.Some? && choices.value.Arr? {
      var items := choices.value.items;
      for i := 0 to |items|
        invariant FirstFinish(items) == FirstFinish(items[i..])
      {
        assert items[i..][1..] == items[i + 1..];
        reason := Text(At(items[i], "finish_reason"));
        if reason.Some? {
          return;
        }
      }
    }
    reason := None;
  }

  method FindUsageInBody(decode: Decoder, parse: Decoder, body: seq<byte>, isSse: bool) returns (out: UsageData)
    ensures fresh(out)
    ensures out.Contents() == if isSse then ScanSse(NO_USAGE, decode, body) else ScanJson(parse, body)
  {
    out := new UsageData();
    if isSse {
      out.ParseSseLines(decode, body);
    } else {
      var v := parse(body);
      if v.Some? {
        out.WalkMerge(v.value, 0);
      }
    }
  }
}
