/** The fixed-layout message the buyer (procurement.c) and the plant (factory.c)
    exchange. Field names follow the msgBuf struct; the struct's byte layout and
    the numeric purpose codes live in message.h, which is not part of this model,
    so a message is a record of named integers and its purpose is a tag. */
module Messages {

  /** The five purposes the programs name; any other code on the wire is `Unknown`.
      An `Unknown` code is taken to differ from the five named codes of message.h,
      so each wire value has one representation. */
  datatype Purpose = Request | OrderConfirm | Production | Completion | ProtocolErr | Unknown(code: int)

  datatype Msg = Msg(purpose: Purpose, orderSize: int, numFac: int, facID: int,
                     capacity: int, partsMade: int, duration: int)

  /** A buffer cleared with memset that has been given only a purpose. */
  function Blank(p: Purpose): Msg
  {
    Msg(p, 0, 0, 0, 0, 0, 0)
  }

  const INT32_MIN: int := -0x8000_0000
  const INT32_MAX: int := 0x7FFF_FFFF

  /** The range of a C `int` on the platforms the programs target. */
  predicate IsInt32(x: int)
  {
    INT32_MIN <= x <= INT32_MAX
  }

  /** Number of COMPLETION messages in `ms`. */
  function Completions(ms: seq<Msg>): nat
  {
    if |ms| == 0 then 0
    else (if ms[0].purpose == Completion then 1 else 0) + Completions(ms[1..])
  }

  predicate NoProtocolErr(ms: seq<Msg>)
  {
    forall i :: 0 <= i < |ms| ==> ms[i].purpose != ProtocolErr
  }

  /** Every PRODUCTION message in `ms` names a factory in lo..hi. */
  predicate FacIDsWithin(ms: seq<Msg>, lo: int, hi: int)
  {
    forall i :: 0 <= i < |ms| && ms[i].purpose == Production ==> lo <= ms[i].facID <= hi
  }

  /** Sum of the partsMade fields of the PRODUCTION messages whose facID lies in lo..hi. */
  function Produced(ms: seq<Msg>, lo: int, hi: int): int
  {
    if |ms| == 0 then 0
    else (if ms[0].purpose == Production && lo <= ms[0].facID <= hi then ms[0].partsMade else 0)
         + Produced(ms[1..], lo, hi)
  }

  /** Number of PRODUCTION messages that factory `f` sent. */
  function Reports(ms: seq<Msg>, f: int): nat
  {
    if |ms| == 0 then 0
    else (if ms[0].purpose == Production && ms[0].facID == f then 1 else 0) + Reports(ms[1..], f)
  }

  lemma {:induction false} CompletionsAppend(a: seq<Msg>, b: seq<Msg>)
    ensures Completions(a + b) == Completions(a) + Completions(b)
  {
    if |a| == 0 {
      assert a + b == b;
    } else {
      assert (a + b)[1..] == a[1..] + b;
      CompletionsAppend(a[1..], b);
    }
  }

  lemma {:induction false} ProducedAppend(a: seq<Msg>, b: seq<Msg>, lo: int, hi: int)
    ensures Produced(a + b, lo, hi) == Produced(a, lo, hi) + Produced(b, lo, hi)
  {
    if |a| == 0 {
      assert a + b == b;
    } else {
      assert (a + b)[1..] == a[1..] + b;
      ProducedAppend(a[1..], b, lo, hi);
    }
  }

  lemma NoProtocolErrTail(ms: seq<Msg>)
    requires |ms| > 0 && NoProtocolErr(ms)
    ensures ms[0].purpose != ProtocolErr && NoProtocolErr(ms[1..])
  {
  }

  lemma NoProtocolErrAppend(a: seq<Msg>, b: seq<Msg>)
    requires NoProtocolErr(a) && NoProtocolErr(b)
    ensures NoProtocolErr(a + b)
  {
  }

  lemma FacIDsWithinAppend(a: seq<Msg>, b: seq<Msg>, lo: int, hi: int)
    requires FacIDsWithin(a, lo, hi) && FacIDsWithin(b, lo, hi)
    ensures FacIDsWithin(a + b, lo, hi)
  {
  }

  /** A sequence that ends in a COMPLETION holds at least one. */
  lemma EndsInCompletion(ms: seq<Msg>)
    requires |ms| > 0 && ms[|ms| - 1].purpose == Completion
    ensures Completions(ms) >= 1
  {
  }
}
