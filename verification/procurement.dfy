/** The buyer (procurement.c): it sends one order request, learns from the
    confirmation how many factories will report, then consumes their messages
    until every one of them has reported completion, and prints a summary.
    Receives are modelled as reading the next message of an inbox sequence. */
module Procurement {
  import opened Messages

  /** The per-factory arrays have slots 0..MAXFACTORIES. */
  const MAXFACTORIES: int := 20

  /** The order request: a cleared buffer with only the purpose and the order size set. */
  function RequestMsg(orderSize: int): (m: Msg)
    ensures m.purpose == Request && m.orderSize == orderSize
    ensures m.(orderSize := 0) == Blank(Request)
  {
    Blank(Request).(orderSize := orderSize)
  }

  /** The collection state: factories still active, and per factory the number of
      PRODUCTION messages (`iters`) and the parts they reported (`parts`). */
  datatype Tally = Tally(active: int, iters: seq<int>, parts: seq<int>)

  predicate ValidTally(t: Tally)
  {
    |t.iters| == MAXFACTORIES + 1 && |t.parts| == MAXFACTORIES + 1
  }

  function Zeros(): seq<int>
  {
    seq(MAXFACTORIES + 1, _ => 0)
  }

  /** The state the confirmation starts: `numFac` active factories and zeroed arrays. */
  function Confirmed(confirmation: Msg): (t: Tally)
    ensures ValidTally(t) && t.active == confirmation.numFac
    ensures forall f :: 0 <= f <= MAXFACTORIES ==> t.iters[f] == 0 && t.parts[f] == 0
  {
    Tally(confirmation.numFac, Zeros(), Zeros())
  }

  /** A PRODUCTION message names a factory the arrays have a slot for. */
  predicate InRange(m: Msg)
  {
    m.purpose == Production ==> 0 <= m.facID <= MAXFACTORIES
  }

  predicate AllInRange(ms: seq<Msg>)
  {
    forall i :: 0 <= i < |ms| ==> InRange(ms[i])
  }

  datatype Stepped = Next(tally: Tally) | Abort

  /** Dispatch of one received message on its purpose. */
  function Step(t: Tally, m: Msg): (r: Stepped)
    requires ValidTally(t) && InRange(m)
    ensures r.Abort? <==> m.purpose == ProtocolErr
    ensures r.Next? ==> ValidTally(r.tally)
    ensures m.purpose == Production ==>
      && r.Next?
      && r.tally.active == t.active
      && r.tally.iters[m.facID] == t.iters[m.facID] + 1
      && r.tally.parts[m.facID] == t.parts[m.facID] + m.partsMade
      && (forall f :: 0 <= f <= MAXFACTORIES && f != m.facID ==>
            r.tally.iters[f] == t.iters[f] && r.tally.parts[f] == t.parts[f])
    ensures m.purpose == Completion ==> r == Next(t.(active := t.active - 1))
    ensures !m.purpose.Production? && !m.purpose.Completion? && !m.purpose.ProtocolErr? ==> r == Next(t)
  {
    match m.purpose
    case Production =>
      var f := m.facID;
      Next(t.(iters := t.iters[f := t.iters[f] + 1], parts := t.parts[f := t.parts[f] + m.partsMade]))
    case Completion => Next(t.(active := t.active - 1))
    case ProtocolErr => Abort
    case _ => Next(t)
  }

  /** How the collection loop ends: every factory completed (with the messages it
      did not read), a PROTOCOL_ERR arrived, or the inbox ran dry while factories
      were still active, where the program would wait in recvfrom forever. */
  datatype Collected = Finished(tally: Tally, rest: seq<Msg>) | Aborted(rest: seq<Msg>) | Starved(tally: Tally)

  /** `rest` is what is left of `inbox` after some messages were read from its front. */
  predicate IsSuffix(rest: seq<Msg>, inbox: seq<Msg>)
  {
    |rest| <= |inbox| && inbox[|inbox| - |rest|..] == rest
  }

  /** The collection loop: read and dispatch messages while factories are active. */
  function Collect(t: Tally, inbox: seq<Msg>): (c: Collected)
    requires ValidTally(t) && AllInRange(inbox)
    ensures !c.Aborted? ==> ValidTally(c.tally)
    ensures c.Finished? ==> c.tally.active <= 0 && (t.active > 0 ==> c.tally.active == 0)
    ensures c.Finished? ==> IsSuffix(c.rest, inbox)
    ensures c.Aborted? ==> IsSuffix(c.rest, inbox) && |c.rest| < |inbox|
                           && inbox[|inbox| - |c.rest| - 1].purpose == ProtocolErr
    ensures c.Starved? ==> c.tally.active > 0
    decreases |inbox|
  {
    if t.active <= 0 then Finished(t, inbox)
    else if |inbox| == 0 then Starved(t)
    else
      match Step(t, inbox[0])
      case Abort => Aborted(inbox[1..])
      case Next(t') => Collect(t', inbox[1..])
  }

  /** The summary: partsMade[1] + ... + partsMade[n]; slot 0 is never summed. */
  function Total(parts: seq<int>, n: int): int
    requires |parts| == MAXFACTORIES + 1 && n <= MAXFACTORIES
    decreases n
  {
    if n <= 0 then 0 else Total(parts, n - 1) + parts[n]
  }

  /** What the buyer ends with. */
  datatype Outcome =
    | Report(orderSize: int, numFactories: int, iters: seq<int>, parts: seq<int>, total: int)
    | SessionAborted
    | Hung

  /** The buyer after sending its request: `replies` are the datagrams it receives, the
      first taken as the confirmation whatever its purpose. */
  function Procure(orderSize: int, replies: seq<Msg>): (o: Outcome)
    requires |replies| > 0 ==> replies[0].numFac <= MAXFACTORIES && AllInRange(replies[1..])
    ensures |replies| == 0 ==> o.Hung?
    ensures o.Report? ==> o.orderSize == orderSize && o.numFactories == replies[0].numFac
    ensures |replies| > 0 && replies[0].numFac <= 0 ==> o.Report? && o.total == 0
  {
    if |replies| == 0 then Hung
    else
      var numFactories := replies[0].numFac;
      match Collect(Confirmed(replies[0]), replies[1..])
      case Finished(t, _) => Report(orderSize, numFactories, t.iters, t.parts, Total(t.parts, numFactories))
      case Aborted(_) => SessionAborted
      case Starved(_) => Hung
  }

  /** Raising one slot by `p` raises the summary by `p` exactly when the slot is summed. */
  lemma {:induction false} TotalUpdate(parts: seq<int>, f: int, p: int, n: int)
    requires |parts| == MAXFACTORIES + 1 && 0 <= f <= MAXFACTORIES && n <= MAXFACTORIES
    ensures Total(parts[f := parts[f] + p], n) == Total(parts, n) + (if 1 <= f <= n then p else 0)
    decreases n
  {
    if n > 0 {
      TotalUpdate(parts, f, p, n - 1);
    }
  }

  lemma {:induction false} TotalZeros(n: int)
    requires n <= MAXFACTORIES
    ensures Total(Zeros(), n) == 0
    decreases n
  {
    if n > 0 {
      TotalZeros(n - 1);
    }
  }

  /** The loop stops at the message that brings the completions to `n`. */
  predicate ExitsAtCompletion(inbox: seq<Msg>, k: int, n: int)
  {
    0 < k <= |inbox| && Completions(inbox[..k]) == n && inbox[k - 1].purpose == Completion
  }

  /** Reading the first message keeps the rest of the inbox in range. */
  lemma TailInRange(inbox: seq<Msg>)
    requires |inbox| > 0 && AllInRange(inbox)
    ensures InRange(inbox[0]) && AllInRange(inbox[1..])
    ensures NoProtocolErr(inbox) ==> inbox[0].purpose != ProtocolErr && NoProtocolErr(inbox[1..])
  {
  }

  /** The first `k` messages are the first one followed by the first `k - 1` of the rest. */
  lemma PrefixCons(inbox: seq<Msg>, k: int)
    requires 0 < k <= |inbox|
    ensures inbox[..k] == [inbox[0]] + inbox[1..][..k - 1]
    ensures inbox[k - 1] == if k == 1 then inbox[0] else inbox[1..][k - 2]
  {
  }

  /** Without PROTOCOL_ERR, the loop finishes exactly when the inbox holds as many
      COMPLETION messages as there are active factories, and it stops on the one
      that makes the count; otherwise it waits with the remaining count active. */
  lemma {:induction false} CollectExit(t: Tally, inbox: seq<Msg>)
    requires ValidTally(t) && AllInRange(inbox) && NoProtocolErr(inbox) && t.active > 0
    ensures !Collect(t, inbox).Aborted?
    ensures Collect(t, inbox).Finished? <==> Completions(inbox) >= t.active
    ensures Collect(t, inbox).Finished? ==>
              ExitsAtCompletion(inbox, |inbox| - |Collect(t, inbox).rest|, t.active)
    ensures Collect(t, inbox).Starved? ==> Collect(t, inbox).tally.active == t.active - Completions(inbox)
    decreases |inbox|
  {
    if |inbox| > 0 {
      TailInRange(inbox);
      var m := inbox[0];
      var t1 := Step(t, m).tally;
      assert Collect(t, inbox) == Collect(t1, inbox[1..]);
      if t1.active <= 0 {
        PrefixCons(inbox, 1);
        assert Completions(inbox[..1]) == 1;
      } else {
        CollectExit(t1, inbox[1..]);
        var c := Collect(t1, inbox[1..]);
        if c.Finished? {
          var k := |inbox| - |c.rest|;
          PrefixCons(inbox, k);
          CompletionsAppend([m], inbox[1..][..k - 1]);
        }
      }
    }
  }

  /** A PROTOCOL_ERR read while factories are active ends the session at once, however
      many factories are still active, and nothing after it is read. */
  lemma {:induction false} CollectAbortsOnError(t: Tally, pre: seq<Msg>, err: Msg, post: seq<Msg>)
    requires ValidTally(t) && AllInRange(pre + [err] + post) && t.active > 0
    requires err.purpose == ProtocolErr && NoProtocolErr(pre) && Completions(pre) < t.active
    ensures Collect(t, pre + [err] + post) == Aborted(post)
    decreases |pre|
  {
    var inbox := pre + [err] + post;
    if |pre| == 0 {
      assert inbox[0] == err && inbox[1..] == post;
    } else {
      assert inbox[0] == pre[0] && inbox[1..] == pre[1..] + [err] + post;
      TailInRange(inbox);
      NoProtocolErrTail(pre);
      var t1 := Step(t, pre[0]).tally;
      CollectAbortsOnError(t1, pre[1..], err, post);
    }
  }

  /** The summary grows by exactly the parts reported in the PRODUCTION messages read
      whose facID is 1..n. */
  lemma {:induction false} CollectTotal(t: Tally, inbox: seq<Msg>, n: int)
    requires ValidTally(t) && AllInRange(inbox) && n <= MAXFACTORIES
    ensures Collect(t, inbox).Finished? ==>
              Total(Collect(t, inbox).tally.parts, n)
              == Total(t.parts, n) + Produced(inbox[..|inbox| - |Collect(t, inbox).rest|], 1, n)
    ensures Collect(t, inbox).Starved? ==>
              Total(Collect(t, inbox).tally.parts, n) == Total(t.parts, n) + Produced(inbox, 1, n)
    decreases |inbox|
  {
    if t.active > 0 && |inbox| > 0 && inbox[0].purpose != ProtocolErr {
      TailInRange(inbox);
      var m := inbox[0];
      var t1 := Step(t, m).tally;
      assert Collect(t, inbox) == Collect(t1, inbox[1..]);
      CollectTotal(t1, inbox[1..], n);
      StepTotal(t, m, n);
      var c := Collect(t1, inbox[1..]);
      if c.Finished? {
        var k := |inbox| - |c.rest|;
        PrefixCons(inbox, k);
        ProducedAppend([m], inbox[1..][..k - 1], 1, n);
      } else if c.Starved? {
        assert inbox == [m] + inbox[1..];
        ProducedAppend([m], inbox[1..], 1, n);
      }
    } else if t.active <= 0 {
      assert inbox[..0] == [];
    }
  }

  /** Each slot f ends up holding its starting value plus the parts and the number of
      PRODUCTION messages factory f reported among the messages read. */
  lemma {:induction false} CollectTracks(t: Tally, inbox: seq<Msg>, f: int)
    requires ValidTally(t) && AllInRange(inbox) && 0 <= f <= MAXFACTORIES
    ensures Collect(t, inbox).Finished? ==>
              && Collect(t, inbox).tally.parts[f]
                 == t.parts[f] + Produced(inbox[..|inbox| - |Collect(t, inbox).rest|], f, f)
              && Collect(t, inbox).tally.iters[f]
                 == t.iters[f] + Reports(inbox[..|inbox| - |Collect(t, inbox).rest|], f)
    ensures Collect(t, inbox).Starved? ==>
              && Collect(t, inbox).tally.parts[f] == t.parts[f] + Produced(inbox, f, f)
              && Collect(t, inbox).tally.iters[f] == t.iters[f] + Reports(inbox, f)
    decreases |inbox|
  {
    if t.active > 0 && |inbox| > 0 && inbox[0].purpose != ProtocolErr {
      TailInRange(inbox);
      var m := inbox[0];
      var t1 := Step(t, m).tally;
      assert Collect(t, inbox) == Collect(t1, inbox[1..]);
      CollectTracks(t1, inbox[1..], f);
      var c := Collect(t1, inbox[1..]);
      if c.Finished? {
        var k := |inbox| - |c.rest|;
        PrefixCons(inbox, k);
        assert inbox[..k][1..] == inbox[1..][..k - 1];
      }
    } else if t.active <= 0 {
      assert inbox[..0] == [];
    }
  }

  /** One step raises the summary by what the message contributes to `Produced`. */
  lemma StepTotal(t: Tally, m: Msg, n: int)
    requires ValidTally(t) && InRange(m) && n <= MAXFACTORIES && m.purpose != ProtocolErr
    ensures Total(Step(t, m).tally.parts, n) == Total(t.parts, n) + Produced([m], 1, n)
  {
    assert [m][1..] == [];
    if m.purpose == Production {
      TotalUpdate(t.parts, m.facID, m.partsMade, n);
      assert Step(t, m).tally.parts == t.parts[m.facID := t.parts[m.facID] + m.partsMade];
    }
  }

  /** When the last message is the COMPLETION that completes the count and no
      PROTOCOL_ERR comes, the loop finishes having read every message. */
  lemma CollectReadsAll(t: Tally, inbox: seq<Msg>)
    requires ValidTally(t) && AllInRange(inbox) && NoProtocolErr(inbox) && t.active > 0
    requires Completions(inbox) == t.active && inbox[|inbox| - 1].purpose == Completion
    ensures Collect(t, inbox).Finished? && Collect(t, inbox).rest == []
  {
    CollectExit(t, inbox);
    var c := Collect(t, inbox);
    var k := |inbox| - |c.rest|;
    assert inbox == inbox[..k] + c.rest;
    CompletionsAppend(inbox[..k], c.rest);
    if |c.rest| > 0 {
      assert c.rest[|c.rest| - 1] == inbox[|inbox| - 1];
      EndsInCompletion(c.rest);
    }
  }

  /** Read in full from zeroed arrays, the arrays and the summary hold exactly what
      the PRODUCTION messages reported. */
  lemma ReadAllFromZero(t: Tally, inbox: seq<Msg>, n: int)
    requires ValidTally(t) && AllInRange(inbox) && n <= MAXFACTORIES
    requires t.iters == Zeros() && t.parts == Zeros()
    requires Collect(t, inbox).Finished? && Collect(t, inbox).rest == []
    ensures Total(Collect(t, inbox).tally.parts, n) == Produced(inbox, 1, n)
    ensures forall f :: 0 <= f <= MAXFACTORIES ==>
              Collect(t, inbox).tally.parts[f] == Produced(inbox, f, f)
              && Collect(t, inbox).tally.iters[f] == Reports(inbox, f)
  {
    assert inbox[..|inbox|] == inbox;
    CollectTotal(t, inbox, n);
    TotalZeros(n);
    forall f | 0 <= f <= MAXFACTORIES
      ensures Collect(t, inbox).tally.parts[f] == Produced(inbox, f, f)
              && Collect(t, inbox).tally.iters[f] == Reports(inbox, f)
    {
      CollectTracks(t, inbox, f);
    }
  }

  /** A clean session: the confirmation names 1..MAXFACTORIES factories, no PROTOCOL_ERR
      follows, and the last message is the COMPLETION that brings the count to
      `numFac`. The buyer reads every message and reports, for each factory, what its
      PRODUCTION messages said, and as grand total the parts of those from factories
      1..numFac. */
  lemma ProcureCleanRun(orderSize: int, replies: seq<Msg>)
    requires |replies| > 1 && 1 <= replies[0].numFac <= MAXFACTORIES && AllInRange(replies[1..])
    requires NoProtocolErr(replies[1..]) && Completions(replies[1..]) == replies[0].numFac
    requires replies[|replies| - 1].purpose == Completion
    ensures Procure(orderSize, replies).Report?
    ensures Procure(orderSize, replies).total == Produced(replies[1..], 1, replies[0].numFac)
    ensures forall f :: 0 <= f <= MAXFACTORIES ==>
              && Procure(orderSize, replies).parts[f] == Produced(replies[1..], f, f)
              && Procure(orderSize, replies).iters[f] == Reports(replies[1..], f)
  {
    var inbox := replies[1..];
    var n := replies[0].numFac;
    var t := Confirmed(replies[0]);
    assert inbox[|inbox| - 1] == replies[|replies| - 1];
    CollectReadsAll(t, inbox);
    ReadAllFromZero(t, inbox, n);
    var c := Collect(t, inbox);
    assert Procure(orderSize, replies) == Report(orderSize, n, c.tally.iters, c.tally.parts, Total(c.tally.parts, n));
  }

  /** A PROTOCOL_ERR arriving before the completions reach `numFac` aborts the session. */
  lemma ProcureAborts(orderSize: int, replies: seq<Msg>, i: int)
    requires |replies| > 0 && replies[0].numFac <= MAXFACTORIES && AllInRange(replies[1..])
    requires 1 <= i < |replies| && replies[i].purpose == ProtocolErr
    requires NoProtocolErr(replies[1..i]) && Completions(replies[1..i]) < replies[0].numFac
    ensures Procure(orderSize, replies) == SessionAborted
  {
    assert replies[1..] == replies[1..i] + [replies[i]] + replies[i + 1..];
    CollectAbortsOnError(Confirmed(replies[0]), replies[1..i], replies[i], replies[i + 1..]);
  }

  /** Fewer COMPLETION messages than confirmed factories, and no PROTOCOL_ERR: the
      buyer never leaves its loop. */
  lemma ProcureHangs(orderSize: int, replies: seq<Msg>)
    requires |replies| > 0 && replies[0].numFac <= MAXFACTORIES && AllInRange(replies[1..])
    requires NoProtocolErr(replies[1..]) && Completions(replies[1..]) < replies[0].numFac
    ensures Procure(orderSize, replies) == Hung
  {
    CollectExit(Confirmed(replies[0]), replies[1..]);
  }
}
