/** The bounded queue between the user interface and the log writer thread (`emit`,
    `run_writer`, `handle` and `shutdown`, src/applog.rs). The two threads interleave
    as any sequence of calls of the methods below. */
module LogQueue {
  import opened Wrappers

  const QUEUE_DEPTH := 4096

  datatype Entry = Line(text: string) | Flush(id: nat)

  function Lines(queue: seq<Entry>): seq<string> {
    if queue == [] then []
    else (if queue[0].Line? then [queue[0].text] else []) + Lines(queue[1..])
  }

  /** Each waiting flush is known to come after as many lines as were handled when the
      queue began and wait in front of it. */
  ghost predicate Placed(queue: seq<Entry>, handled: nat, before: map<nat, nat>) {
    queue == []
    || match queue[0]
       case Line(_) => Placed(queue[1..], handled + 1, before)
       case Flush(id) => id in before && before[id] == handled && Placed(queue[1..], handled, before)
  }

  /** The flush a drain of the queue acknowledges: the newest one. */
  function Newest(queue: seq<Entry>, ack: Option<nat>): Option<nat> {
    if queue == [] then ack else Newest(queue[1..], if queue[0].Flush? then Some(queue[0].id) else ack)
  }

  lemma {:induction false} LinesAppend(queue: seq<Entry>, e: Entry)
    ensures Lines(queue + [e]) == Lines(queue) + if e.Line? then [e.text] else []
  {
    if queue != [] {
      LinesAppend(queue[1..], e);
      assert (queue + [e])[1..] == queue[1..] + [e];
    }
  }

  lemma {:induction false} PlacedAppend(queue: seq<Entry>, e: Entry, handled: nat, before: map<nat, nat>)
    requires Placed(queue, handled, before)
    requires e.Flush? ==> e.id !in before
    ensures Placed(queue + [e], handled, if e.Flush? then before[e.id := handled + |Lines(queue)|] else before)
  {
    if queue == [] {
      assert queue + [e] == [e] && [e][1..] == [];
    } else {
      assert (queue + [e])[1..] == queue[1..] + [e];
      PlacedAppend(queue[1..], e, if queue[0].Line? then handled + 1 else handled, before);
    }
  }

  class Sink {
    var queue: seq<Entry>
    var written: nat
    var dropped: nat
    /** The newest flush of the batch that is being drained. */
    var ack: Option<nat>
    var acked: set<nat>
    ghost var accepted: seq<string>
    ghost var handled: seq<string>
    ghost var before: map<nat, nat>

    /** Accepted lines are handled or waiting, in order, and none is lost in between; an
        acknowledged flush has every line accepted before it handled. */
    ghost predicate Valid()
      reads this
    {
      && |queue| <= QUEUE_DEPTH
      && accepted == handled + Lines(queue) && written == |accepted|
      && Placed(queue, |handled|, before)
      && (ack.Some? ==> Served(ack.value))
      && (forall id :: id in acked ==> Served(id))
    }

    ghost predicate Served(id: nat)
      reads this
    {
      id in before && before[id] <= |handled|
    }

    constructor ()
      ensures Valid() && queue == [] && accepted == [] && dropped == 0 && before == map[] && acked == {}
    {
      queue, written, dropped, ack, acked := [], 0, 0, None, {};
      accepted, handled, before := [], [], map[];
    }

    /** Never waits: a full queue drops the line and counts it. */
    method Emit(line: string) returns (sent: bool)
      requires Valid()
      modifies this
      ensures Valid()
      ensures sent <==> |old(queue)| < QUEUE_DEPTH
      ensures accepted == old(accepted) + if sent then [line] else []
      ensures dropped == old(dropped) + if sent then 0 else 1
      ensures handled == old(handled) && before == old(before) && acked == old(acked) && ack == old(ack)
    {
      hide Lines, Placed;
      sent := |queue| < QUEUE_DEPTH;
      if sent {
        LinesAppend(queue, Line(line));
        PlacedAppend(queue, Line(line), |handled|, before);
        queue := queue + [Line(line)];
        accepted := accepted + [line];
        written := written + 1;
      } else {
        dropped := dropped + 1;
      }
    }

    /** `shutdown`: ask for an acknowledgement, under an id of its own. */
    method AskFlush(id: nat) returns (sent: bool)
      requires Valid() && id !in before
      modifies this
      ensures Valid()
      ensures sent <==> |old(queue)| < QUEUE_DEPTH
      ensures before == if sent then old(before)[id := |accepted|] else old(before)
      ensures accepted == old(accepted) && handled == old(handled) && acked == old(acked) && ack == old(ack)
    {
      hide Lines, Placed;
      sent := |queue| < QUEUE_DEPTH;
      if sent {
        LinesAppend(queue, Flush(id));
        PlacedAppend(queue, Flush(id), |handled|, before);
        before := before[id := |accepted|];
        queue := queue + [Flush(id)];
      }
    }

    /** `recv` or `try_recv`, then `handle`: a newer flush replaces the batch's older one. */
    method Take()
      requires Valid() && queue != []
      modifies this
      ensures Valid() && queue == old(queue)[1..]
      ensures accepted == old(accepted) && acked == old(acked) && before == old(before)
      ensures var e := old(queue)[0];
              && handled == old(handled) + (if e.Line? then [e.text] else [])
              && ack == if e.Flush? then Some(e.id) else old(ack)
    {
      var e := queue[0];
      if e.Line? { handled := handled + [e.text]; } else { ack := Some(e.id); }
      queue := queue[1..];
    }

    /** The batch ends after `try_recv` found the queue empty: the file is flushed and the
        batch's flush acknowledged. By then other threads may have queued more, which waits
        for the next batch. */
    method EndBatch()
      requires Valid()
      modifies this
      ensures Valid() && ack.None?
      ensures queue == old(queue) && handled == old(handled) && accepted == old(accepted) && before == old(before)
      ensures dropped == old(dropped) && written == old(written)
      ensures acked == old(acked) + if old(ack).Some? then {old(ack).value} else {}
    {
      hide Lines, Placed;
      if ack.Some? { acked := acked + {ack.value}; }
      ack := None;
    }

    /** One batch of the writer thread with nobody else running: everything accepted is
        handled and the newest flush acknowledged. */
    method Drain()
      requires Valid()
      modifies this
      ensures Valid() && queue == [] && handled == accepted == old(accepted) && before == old(before)
      ensures var newest := Newest(old(queue), old(ack));
              acked == old(acked) + if newest.Some? then {newest.value} else {}
    {
      assert Lines([]) == [];
      hide Lines, Placed;
      while queue != []
        invariant Valid() && accepted == old(accepted) && before == old(before) && acked == old(acked)
        invariant Newest(queue, ack) == Newest(old(queue), old(ack))
        decreases |queue|
      {
        Take();
      }
      EndBatch();
    }

    /** What an acknowledgement promises: the lines accepted before the flush was sent
        have all been handed to the file, in order. */
    lemma AcknowledgedMeansHandled(id: nat)
      requires Valid() && id in acked
      ensures id in before && before[id] <= |handled| <= |accepted|
      ensures accepted[..before[id]] == handled[..before[id]]
    {
    }
  }
}
