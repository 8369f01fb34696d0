/** Outbox flush: data model and step functions of `src/sync/engine.rs`.

    The server, the exporters and the store's own writes are an adversary: a
    script of exchanges.  A run that reaches the end of its script is cut short
    there, so the finite scripts cover every moment of every run, also of runs
    that never end. */
module OutboxModel {
  import opened Options

  // ---- Outbox rows and batches ----

  /** A decoded payload; `Row.payload` is what `serde_json` makes of the text. */
  datatype Item = Item(json: string)

  datatype Payload = Parsed(item: Item, size: nat) | Malformed

  datatype Row = Row(id: int, kind: string, payload: Payload)

  datatype Header = Header(teamId: string, workspaceHash: string, projectName: Option<string>)

  datatype Batch =
    | Events(header: Header, items: seq<Item>)
    | ToolSpans(header: Header, items: seq<Item>)
    | RepoSnapshots(header: Header, items: seq<Item>)
    | WorkspaceFacts(header: Header, items: seq<Item>)
    | SessionEvals(items: seq<Item>)
    | SessionFeedback(items: seq<Item>)
  {
    function KindName(): string {
      match this
      case Events(_, _) => "events"
      case ToolSpans(_, _) => "tool_spans"
      case RepoSnapshots(_, _) => "repo_snapshots"
      case WorkspaceFacts(_, _) => "workspace_facts"
      case SessionEvals(_) => "session_evals"
      case SessionFeedback(_) => "session_feedback"
    }

    /** The batch without its items: variant and header fields. */
    function Shape(): Batch {
      this.(items := [])
    }
  }

  const KINDS := {"events", "tool_spans", "repo_snapshots", "workspace_facts", "session_evals", "session_feedback"}

  function MakeBatch(kind: string, header: Header, items: seq<Item>): (b: Option<Batch>)
    ensures b.Some? <==> kind in KINDS
    ensures b.Some? ==> b.value.KindName() == kind && b.value.items == items
    ensures b.Some? && !b.value.SessionEvals? && !b.value.SessionFeedback? ==> b.value.header == header
  {
    if kind == "events" then Some(Events(header, items))
    else if kind == "tool_spans" then Some(ToolSpans(header, items))
    else if kind == "repo_snapshots" then Some(RepoSnapshots(header, items))
    else if kind == "workspace_facts" then Some(WorkspaceFacts(header, items))
    else if kind == "session_evals" then Some(SessionEvals(items))
    else if kind == "session_feedback" then Some(SessionFeedback(items))
    else None
  }

  function SplitBatch(body: Batch, mid: nat): (r: (Batch, Batch))
    requires mid <= |body.items|
    ensures r.0.items + r.1.items == body.items && |r.0.items| == mid
    ensures r.0.Shape() == body.Shape() == r.1.Shape()
  {
    match body
    case Events(h, items) => (Events(h, items[..mid]), Events(h, items[mid..]))
    case ToolSpans(h, items) => (ToolSpans(h, items[..mid]), ToolSpans(h, items[mid..]))
    case RepoSnapshots(h, items) => (RepoSnapshots(h, items[..mid]), RepoSnapshots(h, items[mid..]))
    case WorkspaceFacts(h, items) => (WorkspaceFacts(h, items[..mid]), WorkspaceFacts(h, items[mid..]))
    case SessionEvals(items) => (SessionEvals(items[..mid]), SessionEvals(items[mid..]))
    case SessionFeedback(items) => (SessionFeedback(items[..mid]), SessionFeedback(items[mid..]))
  }

  // ---- Packing ----

  datatype Config = Config(endpoint: string, eventsPerBatchMax: nat, maxBodyBytes: nat)

  datatype Packed = Packed(ids: seq<int>, items: seq<Item>) | BadPayload

  function Cap(cfg: Config): nat {
    if cfg.eventsPerBatchMax == 0 then 1 else cfg.eventsPerBatchMax
  }

  /** One round of the packing loop after another, from row `n` on; `bytes` is
      the size of the rows taken so far. */
  function PackFrom(rows: seq<Row>, cfg: Config, kind: string, n: nat, bytes: nat): (p: Packed)
    requires n <= |rows|
    ensures p.Packed? ==> |p.ids| == |p.items| <= |rows| - n
    decreases |rows| - n
  {
    if n == |rows| || rows[n].kind != kind then Packed([], [])
    else match rows[n].payload
      case Malformed => BadPayload
      case Parsed(item, size) =>
        if n >= Cap(cfg) || (bytes + size > cfg.maxBodyBytes && n > 0) then Packed([], [])
        else match PackFrom(rows, cfg, kind, n + 1, bytes + size)
          case BadPayload => BadPayload
          case Packed(ids, items) => Packed([rows[n].id] + ids, [item] + items)
  }

  function Pack(rows: seq<Row>, cfg: Config, kind: string): Packed {
    PackFrom(rows, cfg, kind, 0, 0)
  }

  datatype Built = Unsendable | Built(ids: seq<int>, batch: Batch) | BuildFailed

  function BuildBatch(rows: seq<Row>, cfg: Config, header: Header, kind: string): (b: Built)
    ensures b.Built? ==> 0 < |b.ids| == |b.batch.items| <= |rows|
  {
    if kind !in KINDS then Unsendable
    else match Pack(rows, cfg, kind)
      case BadPayload => BuildFailed
      case Packed(ids, items) =>
        if ids == [] then Unsendable else Built(ids, MakeBatch(kind, header, items).value)
  }

  // ---- The adversary ----

  datatype Reply =
    | TransportError
    | Accepted
    | Conflict
    | TooLarge
    | RateLimited(ms: nat)
    | Unauthorized
    | ClientError(code: nat)
    | ServerError(code: nat)

  /** What the store does with the two writes after an accepted post. */
  datatype StoreReply = StoreOk | MarkFails | StateFails

  datatype Exchange = Exchange(reply: Reply, fanOk: bool, store: StoreReply)

  datatype SendError =
    | Transport | FanOut | StoreWrite | SingleTooLarge | Denied
    | Client(code: nat) | Server(code: nat) | Payload

  datatype Outcome = Done(batches: nat, events: nat) | Failed(error: SendError) | CutShort

  /** One POST with its parallel fan-out; `slept` is the delay that followed. */
  datatype Attempt = Attempt(batch: Batch, ids: seq<int>, exchange: Exchange, slept: nat) {
    /** Feedback batches are accepted locally, whatever the server would say. */
    function Answer(): Reply {
      if batch.SessionFeedback? then Accepted else exchange.reply
    }

    predicate Committed() {
      Answer() in {Accepted, Conflict} && exchange.fanOk && exchange.store != MarkFails
    }

    predicate Throttled() {
      Answer().RateLimited?
    }
  }

  datatype Run = Run(outcome: Outcome, log: seq<Attempt>, rest: seq<Exchange>)

  const FIRST_BACKOFF: nat := 200
  const MAX_BACKOFF: nat := 30000
  const MAX_SERVER_FAILURES: nat := 12

  function NextBackoff(backoff: nat): nat {
    if backoff * 2 < MAX_BACKOFF then backoff * 2 else MAX_BACKOFF
  }

  function Delay(answer: Reply, failures: nat, backoff: nat): nat {
    match answer
    case RateLimited(ms) => ms
    case ServerError(_) => if failures + 1 > MAX_SERVER_FAILURES then 0 else backoff
    case _ => 0
  }

  /** One attempt followed by what came after it. */
  function Then(a: Attempt, more: Run): Run {
    Run(more.outcome, [a] + more.log, more.rest)
  }

  function Plus(left: Outcome, right: Outcome): Outcome {
    if left.Done? && right.Done? then Done(left.batches + right.batches, left.events + right.events)
    else if left.Done? then right
    else left
  }

  /** The resilient post: the rest of the retry loop after `failures` server
      errors, and the two recursive posts of a split. */
  function Post(body: Batch, ids: seq<int>, script: seq<Exchange>, failures: nat, backoff: nat): Run
    requires |ids| == |body.items|
    decreases |body.items|, |script|
  {
    if body.items == [] then Run(Done(0, 0), [], script)
    else if script == [] then Run(CutShort, [], [])
    else
      var blank := Attempt(body, ids, script[0], 0);
      var answer := blank.Answer();
      var a := blank.(slept := Delay(answer, failures, backoff));
      var rest := script[1..];
      match answer
      case Accepted => Run(Settle(a), [a], rest)
      case Conflict => Run(Settle(a), [a], rest)
      case TooLarge =>
        if |ids| <= 1 then Run(Failed(SingleTooLarge), [a], rest)
        else Then(a, PostHalves(body, ids, rest))
      case RateLimited(_) => Then(a, Post(body, ids, rest, failures, backoff))
      case ServerError(code) =>
        if failures + 1 > MAX_SERVER_FAILURES then Run(Failed(Server(code)), [a], rest)
        else Then(a, Post(body, ids, rest, failures + 1, NextBackoff(backoff)))
      case TransportError => Run(Failed(Transport), [a], rest)
      case Unauthorized => Run(Failed(Denied), [a], rest)
      case ClientError(code) => Run(Failed(Client(code)), [a], rest)
  }

  /** After an accepting answer: fan-out first, then mark, then the sync state. */
  function Settle(a: Attempt): Outcome {
    if !a.exchange.fanOk then Failed(FanOut)
    else if a.exchange.store != StoreOk then Failed(StoreWrite)
    else Done(1, |a.ids|)
  }

  /** A 413: halve the batch and post the halves one after the other. */
  function PostHalves(body: Batch, ids: seq<int>, script: seq<Exchange>): Run
    requires |ids| == |body.items| >= 2
    decreases |body.items|, 0
  {
    var mid := |ids| / 2;
    var (left, right) := SplitBatch(body, mid);
    var a := Post(left, ids[..mid], script, 0, FIRST_BACKOFF);
    if !a.outcome.Done? then a
    else
      var b := Post(right, ids[mid..], a.rest, 0, FIRST_BACKOFF);
      Run(Plus(a.outcome, b.outcome), a.log + b.log, b.rest)
  }

  // ---- What a log says ----

  /** Ids marked sent, in the order of the marks. */
  function Marked(log: seq<Attempt>): seq<int> {
    if log == [] then [] else (if log[0].Committed() then log[0].ids else []) + Marked(log[1..])
  }

  /** Each item of a batch under the batch's kind. */
  function Labelled(b: Batch): seq<(string, Item)> {
    seq(|b.items|, i requires 0 <= i < |b.items| => (b.KindName(), b.items[i]))
  }

  /** Items of the committed batches, in order. */
  function Carried(log: seq<Attempt>): seq<(string, Item)> {
    if log == [] then [] else (if log[0].Committed() then Labelled(log[0].batch) else []) + Carried(log[1..])
  }

  function Commits(log: seq<Attempt>): nat {
    if log == [] then 0 else (if log[0].Committed() then 1 else 0) + Commits(log[1..])
  }

  /** POSTs not answered 429. */
  function Posts(log: seq<Attempt>): nat {
    if log == [] then 0 else (if log[0].Throttled() then 0 else 1) + Posts(log[1..])
  }

  /** Milliseconds slept after server errors. */
  function ServerSleep(log: seq<Attempt>): nat {
    if log == [] then 0 else (if log[0].Answer().ServerError? then log[0].slept else 0) + ServerSleep(log[1..])
  }

  /** 429 replies in a script. */
  function Throttles(script: seq<Exchange>): nat {
    if script == [] then 0 else (if script[0].reply.RateLimited? then 1 else 0) + Throttles(script[1..])
  }
}
