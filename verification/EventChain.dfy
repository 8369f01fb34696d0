/** The pure event hash chain of `src/interchange/hash_chain.rs`.

    The digest is a parameter `h` from bytes to text bytes.  Nothing assumes that
    it is injective: where the chain's promise needs that, the lemma returns two
    inputs that collide. */
module EventChain {
  import opened Options

  type Bytes = seq<bv8>
  type Digest = Bytes -> Bytes

  const NEWLINE: bv8 := 10
  const GENESIS: Bytes := [103, 101, 110, 101, 115, 105, 115]
  const PREFIX: Bytes := [98, 108, 97, 107, 101, 51, 58]

  datatype HashChainEvent = HashChainEvent(eventId: string, canonicalJson: Bytes)

  datatype HashChainLink = HashChainLink(
    eventId: string, prevHash: Option<Bytes>, eventHash: Bytes, chainHash: Bytes)

  datatype Verdict =
    | Verified
    | LengthMismatch(expected: nat, actual: nat)
    | LinkMismatch(index: nat, expectedHash: Bytes, actualHash: Bytes)

  function ChainHash(h: Digest, prev: Option<Bytes>, eventHash: Bytes): Bytes {
    h(prev.GetOr(GENESIS) + [NEWLINE] + eventHash)
  }

  function LinkFor(h: Digest, prev: Option<Bytes>, event: HashChainEvent): HashChainLink {
    var eventHash := h(event.canonicalJson);
    HashChainLink(event.eventId, prev, eventHash, ChainHash(h, prev, eventHash))
  }

  /** The `scan` of the source, with its accumulator. */
  function ComputeFrom(h: Digest, prev: Option<Bytes>, events: seq<HashChainEvent>): (links: seq<HashChainLink>)
    ensures |links| == |events|
    decreases |events|
  {
    if events == [] then []
    else
      var link := LinkFor(h, prev, events[0]);
      [link] + ComputeFrom(h, Some(link.chainHash), events[1..])
  }

  function ComputeHashChain(h: Digest, events: seq<HashChainEvent>): (links: seq<HashChainLink>)
    ensures |links| == |events|
  {
    ComputeFrom(h, None, events)
  }

  function FirstMismatch(expected: seq<HashChainLink>, actual: seq<HashChainLink>, index: nat): Verdict
    requires |expected| == |actual|
  {
    if expected == [] then Verified
    else if expected[0] != actual[0] then LinkMismatch(index, expected[0].chainHash, actual[0].chainHash)
    else FirstMismatch(expected[1..], actual[1..], index + 1)
  }

  function VerifyHashChain(h: Digest, events: seq<HashChainEvent>, links: seq<HashChainLink>): Verdict {
    if |events| != |links| then LengthMismatch(|events|, |links|)
    else FirstMismatch(ComputeHashChain(h, events), links, 0)
  }

  // ---- Links, one position at a time ----

  /** Chain hash after all events, from the last one backwards. */
  function HashAfter(h: Digest, events: seq<HashChainEvent>): Option<Bytes> {
    if events == [] then None
    else Some(ChainHash(h, HashAfter(h, events[..|events| - 1]), h(events[|events| - 1].canonicalJson)))
  }

  lemma {:induction false} ComputeFromAt(h: Digest, before: seq<HashChainEvent>, events: seq<HashChainEvent>, i: nat)
    requires i < |events|
    ensures ComputeFrom(h, HashAfter(h, before), events)[i]
            == LinkFor(h, HashAfter(h, before + events[..i]), events[i])
    decreases |events|
  {
    if i == 0 {
      assert before + events[..0] == before;
    } else {
      var next := before + [events[0]];
      assert next[..|before|] == before;
      ComputeFromAt(h, next, events[1..], i - 1);
      assert next + events[1..][..i - 1] == before + events[..i];
    }
  }

  /** The link of event `i` depends on the events up to `i` alone. */
  lemma LinkAt(h: Digest, events: seq<HashChainEvent>, i: nat)
    requires i < |events|
    ensures ComputeHashChain(h, events)[i] == LinkFor(h, HashAfter(h, events[..i]), events[i])
    ensures Some(ComputeHashChain(h, events)[i].chainHash) == HashAfter(h, events[..i + 1])
  {
    ComputeFromAt(h, [], events, i);
    assert [] + events[..i] == events[..i];
    var taken := events[..i + 1];
    assert taken[..i] == events[..i] && taken[i] == events[i];
    hide ComputeFrom;
  }

  /** Main result: every link names its event, the digest of the event's bytes and
      the chain hash of the link before it, the first one none; its own chain hash
      is the digest of that hash, or of the text "genesis", a newline and the event
      hash. */
  lemma LinksAre(h: Digest, events: seq<HashChainEvent>, i: nat)
    requires i < |events|
    ensures var links := ComputeHashChain(h, events);
            && links[i].eventId == events[i].eventId && links[i].eventHash == h(events[i].canonicalJson)
            && (i == 0 ==>
                  && links[i].prevHash == None
                  && links[i].chainHash == h([103, 101, 110, 101, 115, 105, 115] + [10] + links[i].eventHash))
            && (i > 0 ==>
                  && links[i].prevHash == Some(links[i - 1].chainHash)
                  && links[i].chainHash == h(links[i - 1].chainHash + [10] + links[i].eventHash))
  {
    LinkAt(h, events, i);
    if i > 0 {
      LinkAt(h, events, i - 1);
    } else {
      assert events[..0] == [];
    }
    hide ComputeHashChain;
  }

  /** Lists of different lengths are told apart before any link is looked at. */
  lemma LengthsFirst(h: Digest, events: seq<HashChainEvent>, links: seq<HashChainLink>)
    ensures |events| != |links| ==> VerifyHashChain(h, events, links) == LengthMismatch(|events|, |links|)
    ensures |events| == |links| ==> !VerifyHashChain(h, events, links).LengthMismatch?
  {
    if |events| == |links| {
      FirstMismatchIsFirst(ComputeHashChain(h, events), links, 0);
    }
  }

  // ---- The last chain hash binds the payloads ----

  ghost predicate Collision(h: Digest, a: Bytes, b: Bytes) {
    a != b && h(a) == h(b)
  }

  /** Digest texts start with the prefix and hold no newline. */
  ghost predicate IsText(h: Digest) {
    forall x :: |h(x)| >= |PREFIX| && h(x)[..|PREFIX|] == PREFIX && NEWLINE !in h(x)
  }

  ghost predicate SameBytes(xs: seq<HashChainEvent>, ys: seq<HashChainEvent>) {
    |xs| == |ys| && forall i | 0 <= i < |xs| :: xs[i].canonicalJson == ys[i].canonicalJson
  }

  lemma FirstNewline(p: Bytes, e: Bytes)
    requires NEWLINE !in p
    ensures var s := p + [NEWLINE] + e; s[|p|] == NEWLINE && forall i | 0 <= i < |p| :: s[i] != NEWLINE
  {
  }

  lemma NewlineSplits(p: Bytes, e: Bytes, q: Bytes, f: Bytes)
    requires NEWLINE !in p && NEWLINE !in q
    requires p + [NEWLINE] + e == q + [NEWLINE] + f
    ensures p == q && e == f
  {
    var s, t := p + [NEWLINE] + e, q + [NEWLINE] + f;
    FirstNewline(p, e);
    FirstNewline(q, f);
    assert p == s[..|p|] && q == t[..|q|];
    assert e == s[|p| + 1..] && f == t[|q| + 1..];
  }

  lemma PrevText(h: Digest, events: seq<HashChainEvent>)
    requires IsText(h)
    ensures NEWLINE !in HashAfter(h, events).GetOr(GENESIS)
    ensures HashAfter(h, events).GetOr(GENESIS) == GENESIS <==> events == []
  {
    if events != [] {
      var n := |events| - 1;
      var m := HashAfter(h, events[..n]).GetOr(GENESIS) + [NEWLINE] + h(events[n].canonicalJson);
      assert HashAfter(h, events) == Some(h(m));
      assert h(m)[..7][0] == PREFIX[0] && GENESIS[0] != PREFIX[0];
    }
  }

  /** Main result: two non-empty event lists with the same last chain hash hold
      the same bytes at every position, or the two returned inputs collide. */
  lemma {:induction false} LastHashBinds(h: Digest, xs: seq<HashChainEvent>, ys: seq<HashChainEvent>)
      returns (a: Bytes, b: Bytes)
    requires IsText(h) && xs != [] && ys != [] && HashAfter(h, xs) == HashAfter(h, ys)
    ensures SameBytes(xs, ys) || Collision(h, a, b)
    decreases |xs|
  {
    var m, n := |xs| - 1, |ys| - 1;
    var p, q := HashAfter(h, xs[..m]).GetOr(GENESIS), HashAfter(h, ys[..n]).GetOr(GENESIS);
    var x, y := xs[m].canonicalJson, ys[n].canonicalJson;
    a, b := p + [NEWLINE] + h(x), q + [NEWLINE] + h(y);
    if a == b {
      PrevText(h, xs[..m]);
      PrevText(h, ys[..n]);
      NewlineSplits(p, h(x), q, h(y));
      if x != y {
        a, b := x, y;
      } else if m > 0 {
        a, b := LastHashBinds(h, xs[..m], ys[..n]);
        LastByteToo(xs, ys);
      }
    }
  }

  lemma LastByteToo(xs: seq<HashChainEvent>, ys: seq<HashChainEvent>)
    requires xs != [] && ys != [] && xs[|xs| - 1].canonicalJson == ys[|ys| - 1].canonicalJson
    ensures SameBytes(xs[..|xs| - 1], ys[..|ys| - 1]) ==> SameBytes(xs, ys)
  {
    if SameBytes(xs[..|xs| - 1], ys[..|ys| - 1]) {
      forall i | 0 <= i < |xs| ensures xs[i].canonicalJson == ys[i].canonicalJson {
        if i < |xs| - 1 {
          assert xs[..|xs| - 1][i].canonicalJson == ys[..|ys| - 1][i].canonicalJson;
        }
      }
    }
  }

  lemma {:induction false} SameBytesSameHash(h: Digest, xs: seq<HashChainEvent>, ys: seq<HashChainEvent>)
    requires SameBytes(xs, ys)
    ensures HashAfter(h, xs) == HashAfter(h, ys)
    decreases |xs|
  {
    if xs != [] {
      SameBytesSameHash(h, xs[..|xs| - 1], ys[..|ys| - 1]);
    }
  }

  ghost predicate Injective(h: Digest) {
    forall a, b :: h(a) == h(b) ==> a == b
  }

  /** For an injective digest the last chain hash is equal exactly when the bytes
      are: it does not bind the event ids. */
  lemma LastHashIffSameBytes(h: Digest, xs: seq<HashChainEvent>, ys: seq<HashChainEvent>)
    requires IsText(h) && Injective(h) && xs != [] && ys != []
    ensures ComputeHashChain(h, xs)[|xs| - 1].chainHash == ComputeHashChain(h, ys)[|ys| - 1].chainHash
            <==> SameBytes(xs, ys)
  {
    LinkAt(h, xs, |xs| - 1);
    LinkAt(h, ys, |ys| - 1);
    assert xs[..|xs|] == xs && ys[..|ys|] == ys;
    if HashAfter(h, xs) == HashAfter(h, ys) {
      var a, b := LastHashBinds(h, xs, ys);
    }
    if SameBytes(xs, ys) {
      SameBytesSameHash(h, xs, ys);
    }
  }

  // ---- Verification ----

  lemma {:induction false} FirstMismatchIsFirst(expected: seq<HashChainLink>, actual: seq<HashChainLink>, index: nat)
    requires |expected| == |actual|
    ensures var v := FirstMismatch(expected, actual, index);
            if expected == actual then v == Verified
            else
              && v.LinkMismatch? && index <= v.index < index + |expected|
              && expected[v.index - index] != actual[v.index - index]
              && expected[..v.index - index] == actual[..v.index - index]
              && v.expectedHash == expected[v.index - index].chainHash
              && v.actualHash == actual[v.index - index].chainHash
  {
    if expected != [] {
      var e, a := expected[1..], actual[1..];
      assert expected == [expected[0]] + e && actual == [actual[0]] + a;
      if expected[0] == actual[0] {
        FirstMismatchIsFirst(e, a, index + 1);
        var v := FirstMismatch(e, a, index + 1);
        assert FirstMismatch(expected, actual, index) == v;
        hide FirstMismatch;
        if v.LinkMismatch? {
          var k := v.index - index - 1;
          assert expected[..k + 1] == [expected[0]] + e[..k];
          assert actual[..k + 1] == [actual[0]] + a[..k];
        }
      }
    }
  }

  /** Verification succeeds on exactly the links of the events. */
  lemma VerifiedIffComputed(h: Digest, events: seq<HashChainEvent>, links: seq<HashChainLink>)
    ensures VerifyHashChain(h, events, links) == Verified <==> links == ComputeHashChain(h, events)
  {
    if |events| == |links| {
      FirstMismatchIsFirst(ComputeHashChain(h, events), links, 0);
    }
  }

  /** Position of the first event that was altered. */
  function FirstAltered(xs: seq<HashChainEvent>, ys: seq<HashChainEvent>): (k: nat)
    requires |xs| == |ys|
    ensures k <= |xs| && xs[..k] == ys[..k]
    ensures k == |xs| <==> xs == ys
    ensures k < |xs| ==> xs[k] != ys[k]
  {
    if xs == [] || xs[0] != ys[0] then 0
    else
      var k := FirstAltered(xs[1..], ys[1..]);
      assert xs == [xs[0]] + xs[1..] && ys == [ys[0]] + ys[1..];
      assert xs[..k + 1] == [xs[0]] + xs[1..][..k] && ys[..k + 1] == [ys[0]] + ys[1..][..k];
      k + 1
  }

  /** Main result: verifying altered events of the same number against the
      original links reports exactly the first altered position, where a changed
      event id counts too, and succeeds only on the original events; or the two
      returned inputs collide. */
  lemma AlterationIsFound(h: Digest, events: seq<HashChainEvent>, altered: seq<HashChainEvent>)
      returns (a: Bytes, b: Bytes)
    requires |altered| == |events|
    ensures var v := VerifyHashChain(h, altered, ComputeHashChain(h, events));
            var k := FirstAltered(events, altered);
            || Collision(h, a, b)
            || (if events == altered then v == Verified
                else v == LinkMismatch(k, ComputeHashChain(h, altered)[k].chainHash, ComputeHashChain(h, events)[k].chainHash))
  {
    hide ComputeHashChain, ComputeFrom, FirstMismatch, HashAfter;
    var k := FirstAltered(events, altered);
    var original, expected := ComputeHashChain(h, events), ComputeHashChain(h, altered);
    FirstMismatchIsFirst(expected, original, 0);
    a, b := [], [];
    if events != altered {
      a, b := events[k].canonicalJson, altered[k].canonicalJson;
      LinkAt(h, events, k);
      LinkAt(h, altered, k);
      forall i | 0 <= i < k ensures expected[i] == original[i] {
        LinkAt(h, events, i);
        LinkAt(h, altered, i);
        assert events[..k][..i] == events[..i] && altered[..k][..i] == altered[..i];
        assert events[..k][i] == events[i] && altered[..k][i] == altered[i];
      }
      var v := FirstMismatch(expected, original, 0);
      if !Collision(h, a, b) {
        assert expected[k] != original[k];
        SamePlace(expected, original, v.index, k);
      }
    }
  }

  lemma SamePlace(xs: seq<HashChainLink>, ys: seq<HashChainLink>, i: nat, k: nat)
    requires |xs| == |ys| && i < |xs| && k < |xs|
    requires xs[i] != ys[i] && xs[..i] == ys[..i]
    requires xs[k] != ys[k] && forall j | 0 <= j < k :: xs[j] == ys[j]
    ensures i == k
  {
    forall j | 0 <= j < i ensures xs[j] == ys[j] {
      assert xs[..i][j] == ys[..i][j];
    }
  }
}
