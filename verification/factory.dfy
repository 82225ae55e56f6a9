/** The plant (factory.c): accepting an order, confirming it, and the
    sub-factory loop that drains the shared pool of parts still to make.
    The semaphore around the claim is modelled by making the claim one
    atomic function; sends become messages appended to an output sequence. */
module Factory {
  import opened Messages

  /** The one sub-factory main runs: ID 1, capacity 50, duration 350 ms. */
  const SUB_ID: int := 1
  const SUB_CAPACITY: int := 50
  const SUB_DURATION: int := 350

  function Minimum(a: int, b: int): (r: int)
    ensures r <= a && r <= b
    ensures r == a || r == b
  {
    if a <= b then a else b
  }

  /** The result of one pass through the critical section. */
  datatype Claimed = Claimed(toMake: int, remaining: int)

  /** Claim up to `capacity` parts from a pool holding `remaining`. */
  function Claim(remaining: int, capacity: int): (c: Claimed)
    ensures c.toMake == Minimum(remaining, capacity)
    ensures c.toMake + c.remaining == remaining
    ensures 0 < remaining && 0 < capacity ==> 0 < c.toMake <= capacity && 0 <= c.remaining < remaining
    ensures c.toMake < capacity ==> c.remaining == 0
  {
    var toMake := if remaining >= capacity then capacity else remaining;
    Claimed(toMake, remaining - toMake)
  }

  function ProductionMsg(id: int, capacity: int, toMake: int, duration: int): Msg
  {
    Blank(Production).(facID := id, capacity := capacity, partsMade := toMake, duration := duration)
  }

  function CompletionMsg(id: int): Msg
  {
    Blank(Completion).(facID := id)
  }

  /** `m` is a PRODUCTION message of factory `id` with its configuration and a claim in 1..capacity. */
  predicate IsProductionOf(m: Msg, id: int, capacity: int, duration: int)
  {
    m == ProductionMsg(id, capacity, m.partsMade, duration) && 0 < m.partsMade <= capacity
  }

  /** The PRODUCTION messages a sub-factory sends while it drains a pool of `remaining`. */
  function ClaimMessages(id: int, capacity: int, duration: int, remaining: int): seq<Msg>
    requires capacity > 0
    decreases remaining
  {
    if remaining <= 0 then []
    else
      var c := Claim(remaining, capacity);
      [ProductionMsg(id, capacity, c.toMake, duration)] + ClaimMessages(id, capacity, duration, c.remaining)
  }

  /** Everything one sub-factory sends: its PRODUCTION messages, then one COMPLETION. */
  function Emitted(id: int, capacity: int, duration: int, remaining: int): seq<Msg>
    requires capacity > 0
  {
    ClaimMessages(id, capacity, duration, remaining) + [CompletionMsg(id)]
  }

  /** The sub-factory loop. Returns what it sent, its two accumulators and the pool left over. */
  method SubFactory(factoryID: int, myCapacity: int, myDuration: int, remainsToMake: int)
    returns (sent: seq<Msg>, partsImade: int, myIterations: int, remainsAfter: int)
    requires myCapacity > 0
    ensures sent == Emitted(factoryID, myCapacity, myDuration, remainsToMake)
    ensures partsImade + remainsAfter == remainsToMake
    ensures remainsToMake >= 0 ==> remainsAfter == 0 && partsImade == remainsToMake
    ensures remainsToMake <= 0 ==> remainsAfter == remainsToMake && partsImade == 0 && sent == [CompletionMsg(factoryID)]
    ensures |sent| == myIterations + 1 && sent[myIterations] == CompletionMsg(factoryID)
    ensures forall i :: 0 <= i < myIterations ==> IsProductionOf(sent[i], factoryID, myCapacity, myDuration)
    ensures Produced(sent, factoryID, factoryID) == partsImade
    ensures 0 <= myIterations <= partsImade
  {
    var remaining := remainsToMake;
    sent, partsImade, myIterations := [], 0, 0;
    while true
      invariant partsImade + remaining == remainsToMake
      invariant remainsToMake >= 0 ==> remaining >= 0
      invariant remainsToMake < 0 ==> remaining == remainsToMake
      invariant sent + ClaimMessages(factoryID, myCapacity, myDuration, remaining)
                == ClaimMessages(factoryID, myCapacity, myDuration, remainsToMake)
      invariant |sent| == myIterations <= partsImade
      invariant forall i :: 0 <= i < |sent| ==> IsProductionOf(sent[i], factoryID, myCapacity, myDuration)
      invariant Produced(sent, factoryID, factoryID) == partsImade
      decreases remaining
    {
      if remaining <= 0 {
        break;
      }
      var c := Claim(remaining, myCapacity);
      var msg := ProductionMsg(factoryID, myCapacity, c.toMake, myDuration);
      ProducedAppend(sent, [msg], factoryID, factoryID);
      remaining := c.remaining;
      partsImade := partsImade + c.toMake;
      myIterations := myIterations + 1;
      sent := sent + [msg];
    }
    ProducedAppend(sent, [CompletionMsg(factoryID)], factoryID, factoryID);
    sent := sent + [CompletionMsg(factoryID)];
    remainsAfter := remaining;
  }

  predicate AllProductionsOf(ms: seq<Msg>, id: int, capacity: int, duration: int)
  {
    forall i :: 0 <= i < |ms| ==> IsProductionOf(ms[i], id, capacity, duration)
  }

  /** Every PRODUCTION message carries the factory's configuration and a claim in 1..capacity. */
  lemma {:induction false} ClaimMessagesShape(id: int, capacity: int, duration: int, remaining: int)
    requires capacity > 0
    ensures AllProductionsOf(ClaimMessages(id, capacity, duration, remaining), id, capacity, duration)
    decreases remaining
  {
    if remaining > 0 {
      var c := Claim(remaining, capacity);
      var tail := ClaimMessages(id, capacity, duration, c.remaining);
      ClaimMessagesShape(id, capacity, duration, c.remaining);
      assert ClaimMessages(id, capacity, duration, remaining) == [ProductionMsg(id, capacity, c.toMake, duration)] + tail;
    }
  }

  /** Every claim but the last is a full `capacity`, the last is what remained, and
      there are as many as `remaining` divided by `capacity`, rounded up. */
  predicate FullClaimsThenRemainder(ms: seq<Msg>, capacity: int, remaining: int)
  {
    && (|ms| == 0 <==> remaining <= 0)
    && (forall i :: 0 <= i < |ms| - 1 ==> ms[i].partsMade == capacity)
    && (|ms| > 0 ==> ms[|ms| - 1].partsMade == remaining - capacity * (|ms| - 1))
    && (remaining > 0 ==> capacity * (|ms| - 1) < remaining <= capacity * |ms|)
  }

  lemma {:induction false} ClaimMessagesChunks(id: int, capacity: int, duration: int, remaining: int)
    requires capacity > 0
    ensures FullClaimsThenRemainder(ClaimMessages(id, capacity, duration, remaining), capacity, remaining)
    decreases remaining
  {
    if remaining > 0 {
      var c := Claim(remaining, capacity);
      var tail := ClaimMessages(id, capacity, duration, c.remaining);
      var ms := [ProductionMsg(id, capacity, c.toMake, duration)] + tail;
      assert ms == ClaimMessages(id, capacity, duration, remaining);
      ClaimMessagesChunks(id, capacity, duration, c.remaining);
      if c.remaining > 0 {
        var k := |tail|;
        assert c.toMake == capacity && k > 0;
        MulSucc(capacity, k - 1);
        MulSucc(capacity, k);
        assert ms[|ms| - 1] == tail[k - 1];
        assert forall i :: 1 <= i < |ms| ==> ms[i] == tail[i - 1];
      } else {
        assert tail == [];
      }
    }
  }

  lemma MulSucc(c: int, k: int)
    ensures c * (k + 1) == c + c * k
  {
  }

  /** The claims add up to the pool, and they are all attributed to the factory's own ID. */
  lemma {:induction false} ClaimMessagesTotal(id: int, capacity: int, duration: int, remaining: int, lo: int, hi: int)
    requires capacity > 0
    ensures Produced(ClaimMessages(id, capacity, duration, remaining), lo, hi)
            == if lo <= id <= hi && remaining > 0 then remaining else 0
    decreases remaining
  {
    if remaining > 0 {
      var c := Claim(remaining, capacity);
      ClaimMessagesTotal(id, capacity, duration, c.remaining, lo, hi);
    }
  }

  /** Exactly one COMPLETION, from `id`, sent last; before it only PRODUCTION messages from
      `id`; no PROTOCOL_ERR. */
  predicate SubFactoryProtocol(ms: seq<Msg>, id: int)
  {
    && |ms| > 0
    && Completions(ms) == 1
    && NoProtocolErr(ms)
    && ms[|ms| - 1] == CompletionMsg(id)
    && (forall i :: 0 <= i < |ms| - 1 ==> ms[i].purpose == Production && ms[i].facID == id)
  }

  lemma EmittedProtocol(id: int, capacity: int, duration: int, remaining: int)
    requires capacity > 0
    ensures SubFactoryProtocol(Emitted(id, capacity, duration, remaining), id)
  {
    var ps := ClaimMessages(id, capacity, duration, remaining);
    ClaimMessagesShape(id, capacity, duration, remaining);
    var ms := ps + [CompletionMsg(id)];
    assert forall i :: 0 <= i < |ps| ==> ms[i] == ps[i];
    NoCompletions(ps);
    CompletionsAppend(ps, [CompletionMsg(id)]);
  }

  lemma {:induction false} NoCompletions(ms: seq<Msg>)
    requires forall i :: 0 <= i < |ms| ==> ms[i].purpose == Production
    ensures Completions(ms) == 0
  {
    if |ms| > 0 {
      NoCompletions(ms[1..]);
    }
  }

  /** The result of order acceptance: the reply sent back and the pool it seeds. */
  datatype Accepted = Accepted(confirmation: Msg, remainsToMake: int)

  /** Order acceptance. The request's purpose is not inspected. */
  function AcceptOrder(request: Msg, n: int): (a: Accepted)
    ensures a.remainsToMake == request.orderSize
    ensures a.confirmation.purpose == OrderConfirm && a.confirmation.numFac == n
    ensures a.confirmation.(purpose := request.purpose, numFac := request.numFac) == request
  {
    Accepted(request.(purpose := OrderConfirm, numFac := n), request.orderSize)
  }

  /** One pass of main's order loop as written: confirm `n` factories, then run one sub-factory. */
  function Serve(request: Msg, n: int): (sent: seq<Msg>)
    ensures |sent| >= 2 && sent[0].purpose == OrderConfirm && sent[0].numFac == n
    ensures sent[0].orderSize == request.orderSize
    ensures Completions(sent) == 1 && sent[|sent| - 1] == CompletionMsg(SUB_ID)
    ensures FacIDsWithin(sent[1..], SUB_ID, SUB_ID)
  {
    var a := AcceptOrder(request, n);
    var out := [a.confirmation] + Emitted(SUB_ID, SUB_CAPACITY, SUB_DURATION, a.remainsToMake);
    assert out[1..] == Emitted(SUB_ID, SUB_CAPACITY, SUB_DURATION, a.remainsToMake);
    EmittedProtocol(SUB_ID, SUB_CAPACITY, SUB_DURATION, a.remainsToMake);
    CompletionsAppend([a.confirmation], Emitted(SUB_ID, SUB_CAPACITY, SUB_DURATION, a.remainsToMake));
    out
  }

  /** What the pool holds after one sub-factory has run on it. */
  function Leftover(remaining: int): int
  {
    if remaining >= 0 then 0 else remaining
  }

  /** Sub-factories k..n run one after another on one pool. */
  function RunFrom(k: int, n: int, remaining: int): seq<Msg>
    decreases n - k
  {
    if k > n then []
    else Emitted(k, SUB_CAPACITY, SUB_DURATION, remaining) + RunFrom(k + 1, n, Leftover(remaining))
  }

  /** The order loop pass with every confirmed sub-factory actually run. */
  function ServeAll(request: Msg, n: int): (sent: seq<Msg>)
    requires n >= 1
    ensures |sent| >= 2 && sent[0].purpose == OrderConfirm && sent[0].numFac == n
    ensures sent[0].orderSize == request.orderSize
    ensures sent[|sent| - 1].purpose == Completion
    ensures Completions(sent) == n
    ensures Produced(sent, 1, n) == if request.orderSize > 0 then request.orderSize else 0
    ensures FacIDsWithin(sent[1..], 1, n)
  {
    var a := AcceptOrder(request, n);
    var out := [a.confirmation] + RunFrom(1, n, a.remainsToMake);
    assert out[1..] == RunFrom(1, n, a.remainsToMake);
    RunFromProtocol(1, n, a.remainsToMake);
    RunFromTotal(1, n, a.remainsToMake);
    CompletionsAppend([a.confirmation], RunFrom(1, n, a.remainsToMake));
    ProducedAppend([a.confirmation], RunFrom(1, n, a.remainsToMake), 1, n);
    out
  }

  /** Sub-factories k..n send one COMPLETION each with the last message one of them,
      every PRODUCTION comes from one of them, and nothing is a PROTOCOL_ERR. */
  predicate RunProtocol(ms: seq<Msg>, k: int, n: int)
  {
    && Completions(ms) == (if k <= n then n - k + 1 else 0)
    && NoProtocolErr(ms)
    && (k <= n ==> |ms| > 0 && ms[|ms| - 1].purpose == Completion)
    && FacIDsWithin(ms, k, n)
  }

  /** Run in sequence, the sub-factories keep the protocol. */
  lemma {:induction false} RunFromProtocol(k: int, n: int, remaining: int)
    requires 1 <= k
    ensures RunProtocol(RunFrom(k, n, remaining), k, n)
    decreases n - k
  {
    if k <= n {
      var e := Emitted(k, SUB_CAPACITY, SUB_DURATION, remaining);
      var rest := RunFrom(k + 1, n, Leftover(remaining));
      assert RunFrom(k, n, remaining) == e + rest;
      EmittedProtocol(k, SUB_CAPACITY, SUB_DURATION, remaining);
      RunFromProtocol(k + 1, n, Leftover(remaining));
      CompletionsAppend(e, rest);
      NoProtocolErrAppend(e, rest);
      assert FacIDsWithin(e, k, n);
      assert FacIDsWithin(rest, k, n);
      FacIDsWithinAppend(e, rest, k, n);
      if k == n {
        assert rest == [];
        assert e + rest == e;
      } else {
        assert (e + rest)[|e + rest| - 1] == rest[|rest| - 1];
      }
    }
  }

  /** Run in sequence, the first sub-factory makes the whole pool and the others nothing. */
  lemma {:induction false} RunFromTotal(k: int, n: int, remaining: int)
    requires 1 <= k
    ensures Produced(RunFrom(k, n, remaining), 1, n) == if k <= n && remaining > 0 then remaining else 0
    ensures k <= n ==> Produced(Emitted(k, SUB_CAPACITY, SUB_DURATION, remaining), 1, n)
                       == if remaining > 0 then remaining else 0
    ensures k <= n ==> Produced(RunFrom(k + 1, n, Leftover(remaining)), 1, n) == 0
    decreases n - k
  {
    if k <= n {
      var e := Emitted(k, SUB_CAPACITY, SUB_DURATION, remaining);
      var rest := RunFrom(k + 1, n, Leftover(remaining));
      RunFromTotal(k + 1, n, Leftover(remaining));
      ProducedAppend(e, rest, 1, n);
      ProducedAppend(ClaimMessages(k, SUB_CAPACITY, SUB_DURATION, remaining), [CompletionMsg(k)], 1, n);
      ClaimMessagesTotal(k, SUB_CAPACITY, SUB_DURATION, remaining, 1, n);
    }
  }
}
