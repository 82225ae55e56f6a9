/** The two programs put together: what the buyer makes of the plant's replies
    to one order. The plant's sends arrive in order and none is lost here; the
    transport promises neither, so these lemmas describe the best case. */
module Session {
  import opened Messages
  import opened Factory
  import opened Procurement

  /** The plant reads the buyer's order size back out of the request, and the
      confirmation it returns is the request with only purpose and numFac changed. */
  lemma RequestRoundTrip(orderSize: int, n: int)
    ensures AcceptOrder(RequestMsg(orderSize), n).remainsToMake == orderSize
    ensures AcceptOrder(RequestMsg(orderSize), n).confirmation
            == Blank(OrderConfirm).(orderSize := orderSize, numFac := n)
    ensures Confirmed(AcceptOrder(RequestMsg(orderSize), n).confirmation).active == n
  {
  }

  /** What one sub-factory sends can be fed to the buyer: every PRODUCTION names a
      factory inside the buyer's arrays, and the parts reported under `id` are the
      whole pool (nothing when it is not positive). */
  lemma EmittedReadable(id: int, remaining: int)
    requires 0 <= id <= MAXFACTORIES
    ensures AllInRange(Emitted(id, SUB_CAPACITY, SUB_DURATION, remaining))
    ensures Produced(Emitted(id, SUB_CAPACITY, SUB_DURATION, remaining), id, id)
            == if remaining > 0 then remaining else 0
  {
    var ms := Emitted(id, SUB_CAPACITY, SUB_DURATION, remaining);
    EmittedProtocol(id, SUB_CAPACITY, SUB_DURATION, remaining);
    assert forall i :: 0 <= i < |ms| ==> InRange(ms[i]);
    ProducedAppend(ClaimMessages(id, SUB_CAPACITY, SUB_DURATION, remaining), [CompletionMsg(id)], id, id);
    ClaimMessagesTotal(id, SUB_CAPACITY, SUB_DURATION, remaining, id, id);
  }

  /** Confirming one factory: the buyer reads every message the plant sends, leaves
      its loop on the one COMPLETION, and reports the whole order as made by factory 1
      (nothing when the order size is not positive). */
  lemma SingleFactorySession(orderSize: int)
    ensures Procure(orderSize, Serve(RequestMsg(orderSize), 1)).Report?
    ensures Procure(orderSize, Serve(RequestMsg(orderSize), 1)).total == if orderSize > 0 then orderSize else 0
    ensures Procure(orderSize, Serve(RequestMsg(orderSize), 1)).parts[SUB_ID] == if orderSize > 0 then orderSize else 0
  {
    var replies := Serve(RequestMsg(orderSize), 1);
    var e := Emitted(SUB_ID, SUB_CAPACITY, SUB_DURATION, orderSize);
    assert replies[1..] == e;
    EmittedProtocol(SUB_ID, SUB_CAPACITY, SUB_DURATION, orderSize);
    EmittedReadable(SUB_ID, orderSize);
    ProcureCleanRun(orderSize, replies);
  }

  /** As written, the plant confirms `n` factories but runs only one, so for n >= 2
      the buyer receives one COMPLETION and waits for the others forever. */
  lemma MultiFactoryHangs(orderSize: int, n: int)
    requires 2 <= n <= MAXFACTORIES
    ensures Procure(orderSize, Serve(RequestMsg(orderSize), n)) == Hung
  {
    var replies := Serve(RequestMsg(orderSize), n);
    var e := Emitted(SUB_ID, SUB_CAPACITY, SUB_DURATION, orderSize);
    assert replies[1..] == e;
    EmittedProtocol(SUB_ID, SUB_CAPACITY, SUB_DURATION, orderSize);
    EmittedReadable(SUB_ID, orderSize);
    ProcureHangs(orderSize, replies);
  }

  /** With every confirmed sub-factory run, the buyer finishes for every n in
      1..MAXFACTORIES and its grand total is the order size. */
  lemma ServeAllSession(orderSize: int, n: int)
    requires 1 <= n <= MAXFACTORIES
    ensures Procure(orderSize, ServeAll(RequestMsg(orderSize), n)).Report?
    ensures Procure(orderSize, ServeAll(RequestMsg(orderSize), n)).total == if orderSize > 0 then orderSize else 0
  {
    var replies := ServeAll(RequestMsg(orderSize), n);
    var run := RunFrom(1, n, orderSize);
    assert replies[1..] == run;
    RunFromProtocol(1, n, orderSize);
    RunFromTotal(1, n, orderSize);
    assert forall i :: 0 <= i < |run| ==> InRange(run[i]);
    ProcureCleanRun(orderSize, replies);
  }
}
