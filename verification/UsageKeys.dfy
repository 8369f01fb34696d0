/** Which key of a node feeds which field: the `merge_*` functions of
    `src/proxy/sse.rs`, key by key. */
module UsageKeys {
  import opened Options
  import opened UsageJson
  import opened UsageScan
  import opened UsageStream

  // ---- Fields of an object ----

  /** The object has the field, and its first value is `x`. */
  ghost predicate FieldIs(v: Json, name: string, x: Json) {
    v.Obj? && exists i | 0 <= i < |v.fields| :: FirstField(v.fields, name, i) && v.fields[i].value == x
  }

  ghost predicate FirstField(fields: seq<Field>, name: string, i: nat)
    requires i < |fields|
  {
    fields[i].name == name && forall j | 0 <= j < i :: fields[j].name != name
  }

  ghost predicate NoField(v: Json, name: string) {
    !v.Obj? || forall i | 0 <= i < |v.fields| :: v.fields[i].name != name
  }

  lemma {:induction false} LookupIs(fields: seq<Field>, name: string)
    ensures Lookup(fields, name).None? <==> NoField(Obj(fields), name)
    ensures forall x :: Lookup(fields, name) == Some(x) <==> FieldIs(Obj(fields), name, x)
  {
    if fields != [] && fields[0].name != name {
      var rest := fields[1..];
      LookupIs(rest, name);
      assert forall i | 0 <= i < |rest| :: rest[i] == fields[i + 1];
      forall x ensures FieldIs(Obj(rest), name, x) <==> FieldIs(Obj(fields), name, x) {
        if i: nat :| i < |rest| && FirstField(rest, name, i) && rest[i].value == x {
          assert FirstField(fields, name, i + 1);
        }
        if i: nat :| i < |fields| && FirstField(fields, name, i) && fields[i].value == x {
          assert FirstField(rest, name, i - 1);
        }
      }
    } else if fields != [] {
      assert FirstField(fields, name, 0);
    }
  }

  lemma AtIs(v: Json, name: string)
    ensures At(v, name).None? <==> NoField(v, name)
    ensures forall x :: At(v, name) == Some(x) <==> FieldIs(v, name, x)
  {
    if v.Obj? {
      LookupIs(v.fields, name);
    }
  }

  /** The field holds the count `n`, written as an unsigned number that fits. */
  ghost predicate CountIs(v: Json, name: string, n: nat) {
    n < 0x1_0000_0000 && FieldIs(v, name, Num(Unsigned(n)))
  }

  ghost predicate NoCount(v: Json, name: string) {
    NoField(v, name) || exists x :: FieldIs(v, name, x) && !x.Num?
  }

  ghost predicate TextIs(v: Json, name: string, t: string) {
    FieldIs(v, name, Str(t))
  }

  ghost predicate NoText(v: Json, name: string) {
    NoField(v, name) || exists x :: FieldIs(v, name, x) && !x.Str?
  }

  /** Main result: unsigned numbers wrap at 32 bits, negative ones give 0 and
      floating ones lose their fraction and saturate. */
  lemma NumbersToU32(n: nat, x: real)
    ensures n < 0x1_0000_0000 ==> ToU32(Num(Unsigned(n))) == Some(n)
    ensures ToU32(Num(Unsigned(n + 0x1_0000_0000))) == ToU32(Num(Unsigned(n)))
    ensures ToU32(Num(Negative(n))) == Some(0)
    ensures x < 1.0 ==> ToU32(Num(Floating(x))) == Some(0)
    ensures n <= 0xFFFF_FFFF && n as real <= x < (n + 1) as real ==> ToU32(Num(Floating(x))) == Some(n)
    ensures x >= 4294967295.0 ==> ToU32(Num(Floating(x))) == Some(0xFFFF_FFFF)
    ensures ToU32(Null) == None && ToU32(Str("1")) == None
  {
  }

  lemma CountFound(v: Json, name: string, n: nat)
    requires CountIs(v, name, n)
    ensures Count(Some(v), name) == Some(n)
  {
    AtIs(v, name);
  }

  lemma CountMissing(v: Json, name: string)
    requires NoCount(v, name)
    ensures Count(Some(v), name) == None
  {
    AtIs(v, name);
  }

  lemma TextFound(v: Json, name: string, t: string)
    requires TextIs(v, name, t)
    ensures Text(At(v, name)) == Some(t)
  {
    AtIs(v, name);
  }

  lemma TextMissing(v: Json, name: string)
    requires NoText(v, name)
    ensures Text(At(v, name)) == None
  {
    AtIs(v, name);
  }

  // ---- One node ----

  /** At depth 32 a node is scanned without its children. */
  function Scanned(known: Usage, v: Json): Usage {
    Walk(known, v, 32)
  }

  lemma ScannedIs(known: Usage, v: Json)
    ensures Scanned(known, v) == Then(known, Says(v))
  {
    NothingBelow(Then(known, Says(v)), Children(v), 33);
  }

  lemma {:induction false} NothingBelow(known: Usage, items: seq<Json>, d: nat)
    requires d > 32
    ensures WalkAll(known, items, d) == known
    decreases |items|
  {
    if items != [] {
      NothingBelow(known, items[..|items| - 1], d);
    }
  }

  /** What the pair of keys says: the first one wins over the second. */
  ghost predicate Feeds(u: Json, first: string, second: string, known: Option<nat>, field: Option<nat>) {
    && (forall n: nat :: CountIs(u, first, n) ==> field == Some(n))
    && (forall n: nat :: NoCount(u, first) && CountIs(u, second, n) ==> field == Some(n))
    && (NoCount(u, first) && NoCount(u, second) ==> field == known)
  }

  lemma FeedsBy(u: Json, first: string, second: string, known: Option<nat>)
    ensures Feeds(u, first, second, known, Count(Some(u), first).Or(Count(Some(u), second)).Or(known))
  {
    hide Count, CountIs, NoCount;
    forall n: nat ensures CountIs(u, first, n) ==> Count(Some(u), first) == Some(n) {
      if CountIs(u, first, n) { CountFound(u, first, n); }
    }
    forall n: nat ensures CountIs(u, second, n) ==> Count(Some(u), second) == Some(n) {
      if CountIs(u, second, n) { CountFound(u, second, n); }
    }
    if NoCount(u, first) { CountMissing(u, first); }
    if NoCount(u, second) { CountMissing(u, second); }
  }

  /** Without a usage object every count stays. */
  lemma NoUsageStays(known: Usage, v: Json)
    requires NoField(v, "usage")
    ensures var r := Scanned(known, v);
            && r.tokensIn == known.tokensIn && r.tokensOut == known.tokensOut && r.reasoning == known.reasoning
            && r.cacheCreation == known.cacheCreation && r.cacheRead == known.cacheRead
  {
    ScannedIs(known, v);
    AtIs(v, "usage");
    hide Scanned, StopReason, At;
  }

  /** Main result: the direct keys.  OpenAI's key wins over Anthropic's. */
  lemma DirectKeys(known: Usage, v: Json, u: Json)
    requires FieldIs(v, "usage", u)
    ensures var r := Scanned(known, v);
            && Feeds(u, "prompt_tokens", "input_tokens", known.tokensIn, r.tokensIn)
            && Feeds(u, "completion_tokens", "output_tokens", known.tokensOut, r.tokensOut)
            && Feeds(u, "cache_creation_input_tokens", "cache_creation_input_tokens", known.cacheCreation, r.cacheCreation)
  {
    ScannedIs(known, v);
    AtIs(v, "usage");
    FeedsBy(u, "prompt_tokens", "input_tokens", known.tokensIn);
    FeedsBy(u, "completion_tokens", "output_tokens", known.tokensOut);
    FeedsBy(u, "cache_creation_input_tokens", "cache_creation_input_tokens", known.cacheCreation);
    hide Scanned, Feeds, StopReason, Count, At, FieldIs, NoField;
  }

  // ---- Details ----

  /** The details object stands under the first key or, without that, under the
      second. */
  ghost predicate DetailsAre(u: Json, first: string, second: string, d: Json) {
    FieldIs(u, first, d) || (NoField(u, first) && FieldIs(u, second, d))
  }

  ghost predicate NoDetails(u: Json, first: string, second: string) {
    NoField(u, first) && NoField(u, second)
  }

  lemma DetailsBy(u: Json, first: string, second: string, d: Json)
    ensures DetailsAre(u, first, second, d) ==> In(Some(u), first).Or(In(Some(u), second)) == Some(d)
    ensures NoDetails(u, first, second) ==> In(Some(u), first).Or(In(Some(u), second)) == None
  {
    AtIs(u, first);
    AtIs(u, second);
    hide At, FieldIs, NoField;
  }

  /** Main result: the counts in details.  Cached tokens win over the direct key of
      the cache. */
  lemma DetailKeys(known: Usage, v: Json, u: Json, d: Json, n: nat)
    requires FieldIs(v, "usage", u)
    ensures var r := Scanned(known, v);
            && (DetailsAre(u, "input_tokens_details", "prompt_tokens_details", d) && CountIs(d, "cached_tokens", n) ==>
                  r.cacheRead == Some(n))
            && (DetailsAre(u, "output_tokens_details", "completion_tokens_details", d) && CountIs(d, "reasoning_tokens", n) ==>
                  r.reasoning == Some(n))
            && (DetailsAre(u, "output_tokens_details", "completion_tokens_details", d) && NoCount(d, "reasoning_tokens") ==>
                  r.reasoning == known.reasoning)
            && (NoDetails(u, "output_tokens_details", "completion_tokens_details") ==> r.reasoning == known.reasoning)
  {
    ScannedIs(known, v);
    AtIs(v, "usage");
    DetailsBy(u, "input_tokens_details", "prompt_tokens_details", d);
    DetailsBy(u, "output_tokens_details", "completion_tokens_details", d);
    CountBy(d, "cached_tokens", n);
    CountBy(d, "reasoning_tokens", n);
    NoneCounts();
    hide Scanned, StopReason, Count, At, In, FieldIs, DetailsAre, NoDetails, CountIs, NoCount;
  }

  lemma NoneCounts()
    ensures forall name :: Count(None, name) == None && In(None, name) == None
  {
  }

  lemma CountBy(v: Json, name: string, n: nat)
    ensures CountIs(v, name, n) ==> Count(Some(v), name) == Some(n)
    ensures NoCount(v, name) ==> Count(Some(v), name) == None
  {
    hide Count, CountIs, NoCount;
    if CountIs(v, name, n) { CountFound(v, name, n); }
    if NoCount(v, name) { CountMissing(v, name); }
  }

  /** Without cached tokens in details the direct key of the cache counts. */
  lemma CacheWithoutDetails(known: Usage, v: Json, u: Json, d: Json)
    requires FieldIs(v, "usage", u)
    requires || NoDetails(u, "input_tokens_details", "prompt_tokens_details")
             || (DetailsAre(u, "input_tokens_details", "prompt_tokens_details", d) && NoCount(d, "cached_tokens"))
    ensures Feeds(u, "cache_read_input_tokens", "cache_read_input_tokens", known.cacheRead, Scanned(known, v).cacheRead)
  {
    ScannedIs(known, v);
    AtIs(v, "usage");
    DetailsBy(u, "input_tokens_details", "prompt_tokens_details", d);
    CountBy(d, "cached_tokens", 0);
    FeedsBy(u, "cache_read_input_tokens", "cache_read_input_tokens", known.cacheRead);
    NoneCounts();
    hide Scanned, StopReason, Count, At, In, Feeds, FieldIs, DetailsAre, NoDetails, NoCount;
  }

  // ---- Stop reasons ----

  /** The reason that the first choice with a text under `finish_reason` gives. */
  ghost predicate FinishIs(items: seq<Json>, t: string) {
    exists i | 0 <= i < |items| :: TextIs(items[i], "finish_reason", t) && forall j | 0 <= j < i :: NoText(items[j], "finish_reason")
  }

  ghost predicate NoFinish(items: seq<Json>) {
    forall i | 0 <= i < |items| :: NoText(items[i], "finish_reason")
  }

  lemma {:induction false} FirstFinishIs(items: seq<Json>, t: string)
    ensures FinishIs(items, t) ==> FirstFinish(items) == Some(t)
    ensures NoFinish(items) ==> FirstFinish(items) == None
  {
    hide At, TextIs, NoText;
    if items != [] {
      var rest := items[1..];
      assert forall i | 0 <= i < |rest| :: rest[i] == items[i + 1];
      FirstFinishIs(rest, t);
      if FinishIs(items, t) {
        var i: nat :| i < |items| && TextIs(items[i], "finish_reason", t) && forall j | 0 <= j < i :: NoText(items[j], "finish_reason");
        if i == 0 {
          TextFound(items[0], "finish_reason", t);
        } else {
          TextMissing(items[0], "finish_reason");
          assert TextIs(rest[i - 1], "finish_reason", t);
        }
      }
      if NoFinish(items) {
        TextMissing(items[0], "finish_reason");
      }
    }
  }

  /** Where a reason may stand, in the order in which the places are looked at. */
  ghost predicate DeltaSays(v: Json, t: string) {
    exists d :: FieldIs(v, "delta", d) && TextIs(d, "stop_reason", t)
  }

  ghost predicate DeltaSilent(v: Json) {
    NoField(v, "delta") || exists d :: FieldIs(v, "delta", d) && NoText(d, "stop_reason")
  }

  ghost predicate ChoicesSay(v: Json, t: string) {
    exists items :: FieldIs(v, "choices", Arr(items)) && FinishIs(items, t)
  }

  ghost predicate ChoicesSilent(v: Json) {
    || NoField(v, "choices")
    || (exists x :: FieldIs(v, "choices", x) && !x.Arr?)
    || (exists items :: FieldIs(v, "choices", Arr(items)) && NoFinish(items))
  }

  ghost predicate IncompleteSays(v: Json, t: string) {
    TextIs(v, "status", "incomplete") && exists d :: FieldIs(v, "incomplete_details", d) && TextIs(d, "reason", t)
  }

  lemma DeltaBy(v: Json, t: string)
    ensures DeltaSays(v, t) ==> Text(In(At(v, "delta"), "stop_reason")) == Some(t)
    ensures DeltaSilent(v) ==> Text(In(At(v, "delta"), "stop_reason")) == None
  {
    AtIs(v, "delta");
    hide At, FieldIs, TextIs, NoText, NoField;
    if DeltaSays(v, t) {
      var d :| FieldIs(v, "delta", d) && TextIs(d, "stop_reason", t);
      TextFound(d, "stop_reason", t);
    }
    if d :| FieldIs(v, "delta", d) && NoText(d, "stop_reason") {
      TextMissing(d, "stop_reason");
    }
  }

  lemma ChoicesBy(v: Json, t: string)
    ensures ChoicesSay(v, t) ==> FinishReason(v) == Some(t)
    ensures ChoicesSilent(v) ==> FinishReason(v) == None
  {
    AtIs(v, "choices");
    hide At, FieldIs, FinishIs, NoFinish, NoField, FirstFinish;
    if items :| FieldIs(v, "choices", Arr(items)) && FinishIs(items, t) {
      FirstFinishIs(items, t);
    }
    if items :| FieldIs(v, "choices", Arr(items)) && NoFinish(items) {
      FirstFinishIs(items, t);
    }
  }

  lemma IncompleteBy(v: Json, t: string)
    ensures IncompleteSays(v, t) ==>
              Text(At(v, "status")) == Some("incomplete") && Text(In(At(v, "incomplete_details"), "reason")) == Some(t)
  {
    AtIs(v, "incomplete_details");
    hide At, FieldIs, TextIs;
    if IncompleteSays(v, t) {
      TextFound(v, "status", "incomplete");
      var d :| FieldIs(v, "incomplete_details", d) && TextIs(d, "reason", t);
      TextFound(d, "reason", t);
    }
  }

  /** Main result: a reason that is known stays.  Else the delta is looked at first,
      then the node's own key, then the choices, and the details of an incomplete
      status last. */
  lemma StopReasonSources(known: Usage, v: Json, t: string)
    ensures var r := Scanned(known, v).stopReason;
            && (known.stopReason.Some? ==> r == known.stopReason)
            && (known.stopReason.None? ==>
                  && (DeltaSays(v, t) ==> r == Some(t))
                  && (DeltaSilent(v) && TextIs(v, "stop_reason", t) ==> r == Some(t))
                  && (DeltaSilent(v) && NoText(v, "stop_reason") && ChoicesSay(v, t) ==> r == Some(t))
                  && (DeltaSilent(v) && NoText(v, "stop_reason") && ChoicesSilent(v) && IncompleteSays(v, t) ==> r == Some(t))
                  && (DeltaSilent(v) && NoText(v, "stop_reason") && ChoicesSilent(v) && !TextIs(v, "status", "incomplete") ==> r == None))
  {
    ScannedIs(known, v);
    DeltaBy(v, t);
    ChoicesBy(v, t);
    IncompleteBy(v, t);
    if TextIs(v, "stop_reason", t) { TextFound(v, "stop_reason", t); }
    if NoText(v, "stop_reason") { TextMissing(v, "stop_reason"); }
    StatusBy(v);
    hide Scanned, At, In, Text, FinishReason, DeltaSays, DeltaSilent, ChoicesSay, ChoicesSilent, IncompleteSays, TextIs, NoText, Count;
  }

  lemma StatusBy(v: Json)
    ensures Text(At(v, "status")) == Some("incomplete") ==> TextIs(v, "status", "incomplete")
  {
    AtIs(v, "status");
  }

  // ---- Which values are scanned ----

  /** Every item of an array and every value of an object is scanned, in order. */
  lemma ChildrenAre(v: Json, i: nat)
    ensures v.Arr? ==> Children(v) == v.items
    ensures v.Obj? ==> |Children(v)| == |v.fields| && (i < |v.fields| ==> Children(v)[i] == v.fields[i].value)
    ensures !v.Arr? && !v.Obj? ==> Children(v) == []
  {
  }

  /** A body of one line is that line's value, and an unreadable line says nothing. */
  lemma OneLine(known: Usage, decode: Decoder, parse: Decoder, line: seq<byte>, v: Json)
    requires NEWLINE !in line
    ensures decode(line) == Some(v) ==> ScanSse(known, decode, line) == Walk(known, v, 0)
    ensures decode(line) == None ==> ScanSse(known, decode, line) == known
    ensures parse(line) == Some(v) ==> ScanJson(parse, line) == Walk(Usage(None, None, None, None, None, None), v, 0)
    ensures parse(line) == None ==> ScanJson(parse, line) == Usage(None, None, None, None, None, None)
  {
    OnePiece(line);
    hide Pieces, Walk;
    assert ScanPieces(known, decode, []) == known;
    assert ScanPieces(known, decode, [line]) == match decode(line) case Some(x) => Walk(known, x, 0) case None => known by {
      assert [line][..0] == [] && [line][0] == line;
    }
  }

  lemma {:induction false} OnePiece(line: seq<byte>)
    requires NEWLINE !in line
    ensures Pieces(line) == [line]
  {
    if line != [] {
      var before, last := line[..|line| - 1], line[|line| - 1];
      assert line == before + [last] && last != NEWLINE;
      OnePiece(before);
      PiecesGrow(before, last);
      hide Pieces;
      assert [before][..0] == [];
    }
  }
}
