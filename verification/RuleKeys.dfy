/** Source keys of rule actions: `hit_key` and the formats in
    `src/core_loop/rules.rs`. */
module RuleKeys {
  import opened Options

  datatype Severity = Info | Warning | Critical

  datatype RuleAction =
    | CreateCase(caseLabel: Option<string>)
    | QueueReview(title: Option<string>)
    | EmitAlert(severity: Severity)

  datatype LocalRule = LocalRule(id: string, name: string, action: RuleAction)

  datatype TraceHit = TraceHit(sessionId: string, seqNo: Option<nat>, summary: string)

  function Digit(d: nat): char
    requires d < 10
  {
    '0' + d as char
  }

  function Decimal(n: nat): string {
    if n < 10 then [Digit(n)] else Decimal(n / 10) + [Digit(n % 10)]
  }

  function HitKey(hit: TraceHit): string {
    match hit.seqNo
    case Some(s) => hit.sessionId + ":" + Decimal(s)
    case None => hit.sessionId
  }

  function ActionName(a: RuleAction): string {
    match a
    case CreateCase(_) => "case"
    case QueueReview(_) => "review"
    case EmitAlert(_) => "alert"
  }

  function SourceKey(rule: LocalRule, hit: TraceHit): string {
    "rule:" + rule.id + ":" + ActionName(rule.action) + ":" + HitKey(hit)
  }

  // ---- Keys name their parts ----

  lemma {:induction false} DecimalDigits(n: nat)
    ensures Decimal(n) != [] && ':' !in Decimal(n)
  {
    if n >= 10 {
      DecimalDigits(n / 10);
    }
  }

  lemma {:induction false} DecimalInjective(m: nat, n: nat)
    requires Decimal(m) == Decimal(n)
    ensures m == n
  {
    var s, t := Decimal(m), Decimal(n);
    assert s[|s| - 1] == Digit(m % 10) && t[|t| - 1] == Digit(n % 10);
    if m >= 10 {
      DecimalDigits(m / 10);
    }
    if n >= 10 {
      DecimalDigits(n / 10);
    }
    if m >= 10 && n >= 10 {
      assert s[..|s| - 1] == Decimal(m / 10) && t[..|t| - 1] == Decimal(n / 10);
      DecimalInjective(m / 10, n / 10);
    }
  }

  /** A text without the separator ends at the first separator. */
  lemma SplitFirst(a: string, x: string, b: string, y: string)
    requires ':' !in a && ':' !in b && a + ":" + x == b + ":" + y
    ensures a == b && x == y
  {
    FirstColon(a, x);
    FirstColon(b, y);
    var s, t := a + ":" + x, b + ":" + y;
    assert a == s[..|a|] && b == t[..|b|];
    assert x == s[|a| + 1..] && y == t[|b| + 1..];
  }

  lemma FirstColon(a: string, x: string)
    requires ':' !in a
    ensures var s := a + ":" + x; s[|a|] == ':' && forall i | 0 <= i < |a| :: s[i] != ':'
  {
  }

  /** ... and starts after the last one. */
  lemma SplitLast(x: string, a: string, y: string, b: string)
    requires ':' !in a && ':' !in b && x + ":" + a == y + ":" + b
    ensures x == y && a == b
  {
    LastColon(x, a);
    LastColon(y, b);
    var s, t := x + ":" + a, y + ":" + b;
    assert x == s[..|x|] && y == t[..|y|];
    assert a == s[|x| + 1..] && b == t[|y| + 1..];
  }

  lemma LastColon(x: string, a: string)
    requires ':' !in a
    ensures var s := x + ":" + a; s[|x|] == ':' && forall i | |x| < i < |s| :: s[i] != ':'
  {
  }

  lemma HitKeyInjective(a: TraceHit, b: TraceHit)
    requires a.seqNo.Some? && b.seqNo.Some? && HitKey(a) == HitKey(b)
    ensures a.sessionId == b.sessionId && a.seqNo == b.seqNo
  {
    DecimalDigits(a.seqNo.value);
    DecimalDigits(b.seqNo.value);
    SplitLast(a.sessionId, Decimal(a.seqNo.value), b.sessionId, Decimal(b.seqNo.value));
    DecimalInjective(a.seqNo.value, b.seqNo.value);
  }

  /** Main result: for hits that name an event, as every query hit does, and for
      rule ids without a colon, as UUIDs are, two actions share a source key
      exactly when rule, kind of action, session and seq are the same. */
  lemma SourceKeyNamesItsParts(r: LocalRule, a: TraceHit, q: LocalRule, b: TraceHit)
    requires a.seqNo.Some? && b.seqNo.Some? && ':' !in r.id && ':' !in q.id
    ensures SourceKey(r, a) == SourceKey(q, b) <==>
            && r.id == q.id && ActionName(r.action) == ActionName(q.action)
            && a.sessionId == b.sessionId && a.seqNo == b.seqNo
  {
    if SourceKey(r, a) == SourceKey(q, b) {
      var x := ActionName(r.action) + ":" + HitKey(a);
      var y := ActionName(q.action) + ":" + HitKey(b);
      assert SourceKey(r, a) == "rule:" + (r.id + ":" + x);
      assert SourceKey(q, b) == "rule:" + (q.id + ":" + y);
      assert SourceKey(r, a)[5..] == r.id + ":" + x && SourceKey(q, b)[5..] == q.id + ":" + y;
      SplitFirst(r.id, x, q.id, y);
      SplitFirst(ActionName(r.action), HitKey(a), ActionName(q.action), HitKey(b));
      HitKeyInjective(a, b);
    }
  }

  /** A hit without a seq would share the key of another session's event. */
  lemma HitWithoutSeqCollides()
    ensures HitKey(TraceHit("s", Some(1), "")) == HitKey(TraceHit("s:1", None, ""))
  {
    assert Decimal(1) == "1";
  }
}
