/**
 * The bridge's end of the request/reply exchange with the external dispatcher. The socket is modelled
 * as the sequence of messages the dispatcher will send and the trace of every operation on it.
 */
module Communication {
  import opened Common
  import opened Messages
  import opened TravelTimes
  import opened Routes

  /** What one exchange does: the socket operations, the messages left unread, and its result. */
  datatype Outcome = Outcome(ops: seq<SocketOp>, rest: seq<Message>, result: Result<Assignment>)

  /**
   * One exchange after the bridge has spoken: receive, answer each travel-time query at `time`, until a
   * message that is not a query arrives, which must be an assignment. A query naming a link outside the
   * network is fatal; so is a dispatcher that falls silent.
   */
  function Exchange(network: set<LinkId>, tt: TravelTime, inbox: seq<Message>, time: real): (o: Outcome)
    decreases |inbox|
  {
    if inbox == [] then Outcome([], [], Failure(PeerSilent))
    else
      var m := inbox[0];
      match m
      case TravelTimeQuery(links) =>
        if Answerable(network, links) then
          var o := Exchange(network, tt, inbox[1..], time);
          Outcome([Received(m), Sent(TravelTimeResponse(TravelTimesAt(network, tt, links, time)))] + o.ops, o.rest, o.result)
        else Outcome([Received(m)], inbox[1..], Failure(UnknownLink(FirstUnknown(network, links).value)))
      case AssignmentMessage(a) => Outcome([Received(m)], inbox[1..], Success(a))
      case _ => Outcome([Received(m)], inbox[1..], Failure(UnexpectedMessage))
  }

  /** Operations that alternate, a receive at every even position and a send at every odd one. */
  predicate Alternating(ops: seq<SocketOp>) {
    forall i :: 0 <= i < |ops| ==> (ops[i].Received? <==> i % 2 == 0)
  }

  /** Whether every query received in `ops` is followed at once by its answer at `time`, when any. */
  predicate QueriesAnswered(network: set<LinkId>, tt: TravelTime, ops: seq<SocketOp>, time: real) {
    forall i :: 0 <= i < |ops| - 1 && ops[i].Received? && ops[i].message.TravelTimeQuery? ==>
      ops[i + 1] == Sent(TravelTimeResponse(TravelTimesAt(network, tt, ops[i].message.links, time)))
  }

  /**
   * An exchange alternates, starting with a receive, and ends on a receive unless the dispatcher fell
   * silent.
   */
  lemma {:induction false} ExchangeAlternates(network: set<LinkId>, tt: TravelTime, inbox: seq<Message>, time: real)
    ensures var o := Exchange(network, tt, inbox, time);
      && Alternating(o.ops)
      && (o.result == Failure(PeerSilent) <==> |o.ops| % 2 == 0)
    decreases |inbox|
  {
    if inbox != [] {
      var m := inbox[0];
      if m.TravelTimeQuery? && Answerable(network, m.links) {
        var o := Exchange(network, tt, inbox[1..], time);
        ExchangeAlternates(network, tt, inbox[1..], time);
        var head := [Received(m), Sent(TravelTimeResponse(TravelTimesAt(network, tt, m.links, time)))];
        AlternatingAppend(head, o.ops);
      }
    }
  }

  /**
   * Within an exchange every query received is answered by the next operation, and every message
   * received before the last one is a query.
   */
  lemma {:induction false} ExchangeAnswers(network: set<LinkId>, tt: TravelTime, inbox: seq<Message>, time: real)
    ensures var o := Exchange(network, tt, inbox, time);
      && QueriesAnswered(network, tt, o.ops, time)
      && (forall i :: 0 <= i < |o.ops| - 1 && o.ops[i].Received? ==> o.ops[i].message.TravelTimeQuery?)
    decreases |inbox|
  {
    if inbox != [] {
      var m := inbox[0];
      if m.TravelTimeQuery? && Answerable(network, m.links) {
        var o := Exchange(network, tt, inbox[1..], time);
        ExchangeAnswers(network, tt, inbox[1..], time);
        var head := [Received(m), Sent(TravelTimeResponse(TravelTimesAt(network, tt, m.links, time)))];
        var ops := head + o.ops;
        assert forall i :: 2 <= i < |ops| ==> ops[i] == o.ops[i - 2];
      }
    }
  }

  /** An exchange reads a prefix of the inbox, one message per receive, and leaves the rest. */
  lemma {:induction false} ExchangeReadsFront(network: set<LinkId>, tt: TravelTime, inbox: seq<Message>, time: real)
    ensures var o := Exchange(network, tt, inbox, time);
      && |o.rest| <= |inbox| && inbox[|inbox| - |o.rest|..] == o.rest
      && (o.result != Failure(PeerSilent) ==> |o.rest| < |inbox|)
    decreases |inbox|
  {
    if inbox != [] {
      var m := inbox[0];
      var o := Exchange(network, tt, inbox, time);
      if m.TravelTimeQuery? && Answerable(network, m.links) {
        var o' := Exchange(network, tt, inbox[1..], time);
        ExchangeReadsFront(network, tt, inbox[1..], time);
        assert o.rest == o'.rest && o.result == o'.result;
        assert inbox[1..][|inbox[1..]| - |o'.rest|..] == inbox[|inbox| - |o'.rest|..];
      } else {
        assert o.rest == inbox[1..];
      }
    }
  }

  /**
   * An exchange returns an assignment only when its last receive is that assignment; every earlier
   * receive was an answerable query.
   */
  lemma {:induction false} ExchangeAccepts(network: set<LinkId>, tt: TravelTime, inbox: seq<Message>, time: real)
    ensures var o := Exchange(network, tt, inbox, time);
      o.result.Success? ==>
        && |o.ops| > 0 && o.ops[|o.ops| - 1] == Received(AssignmentMessage(o.result.value))
        && (forall i :: 0 <= i < |o.ops| - 1 && o.ops[i].Received? ==>
              o.ops[i].message.TravelTimeQuery? && Answerable(network, o.ops[i].message.links))
    decreases |inbox|
  {
    if inbox != [] {
      var m := inbox[0];
      if m.TravelTimeQuery? && Answerable(network, m.links) {
        var o := Exchange(network, tt, inbox[1..], time);
        ExchangeAccepts(network, tt, inbox[1..], time);
        var head := [Received(m), Sent(TravelTimeResponse(TravelTimesAt(network, tt, m.links, time)))];
        var ops := head + o.ops;
        assert forall i :: 2 <= i < |ops| ==> ops[i] == o.ops[i - 2];
      }
    }
  }

  lemma AlternatingSend(a: seq<SocketOp>, m: Message)
    requires Alternating(a) && |a| % 2 == 1
    ensures Alternating(a + [Sent(m)])
  {
  }

  lemma AlternatingAppend(a: seq<SocketOp>, b: seq<SocketOp>)
    requires Alternating(a) && Alternating(b) && |a| % 2 == 0
    ensures Alternating(a + b)
  {
    forall i | 0 <= i < |a + b| ensures ((a + b)[i].Received? <==> i % 2 == 0) {
      if i >= |a| {
        assert (a + b)[i] == b[i - |a|];
      }
    }
  }

  /** What the bridge does with one received message: answer it, or end the exchange with a result. */
  datatype Handled = Reply(response: Message) | Done(result: Result<Assignment>)

  /** The message at the front is received first; only an answerable query lets the exchange go on behind it. */
  lemma ExchangeFront(network: set<LinkId>, tt: TravelTime, inbox: seq<Message>, time: real)
    requires inbox != []
    ensures var o := Exchange(network, tt, inbox, time); var o' := Exchange(network, tt, inbox[1..], time);
      var m := inbox[0];
      if m.TravelTimeQuery? && Answerable(network, m.links) then
        && o.ops == [Received(m), Sent(TravelTimeResponse(TravelTimesAt(network, tt, m.links, time)))] + o'.ops
        && o.rest == o'.rest && o.result == o'.result
      else
        && o.ops == [Received(m)] && o.rest == inbox[1..]
        && (m.AssignmentMessage? ==> o.result == Success(m.assignment))
        && (m.TravelTimeQuery? ==> o.result.Failure? && o.result.error.UnknownLink?)
        && (!m.AssignmentMessage? && !m.TravelTimeQuery? ==> o.result == Failure(UnexpectedMessage))
  {
  }

  class CommunicationManager {
    const travelTimes: TravelTimeManager
    var iteration: int
    var initialized: bool
    /** The messages the dispatcher will still send, in order. */
    var inbox: seq<Message>
    /** Every operation on the socket so far. */
    var trace: seq<SocketOp>

    constructor (travelTimes: TravelTimeManager, inbox: seq<Message>)
      ensures this.travelTimes == travelTimes && this.inbox == inbox
      ensures iteration == 0 && !initialized && trace == []
    {
      this.travelTimes := travelTimes;
      this.inbox := inbox;
      iteration := 0;
      initialized := false;
      trace := [];
    }

    /** Before the first exchange: nothing has crossed the socket. */
    predicate Fresh()
      reads this
    {
      !initialized && trace == []
    }

    /**
     * Between exchanges: the handshake is done, the operations so far alternate from a receive, and the
     * last was a receive, so it is the bridge's turn to send.
     */
    predicate Ready()
      reads this
    {
      initialized && Alternating(trace) && |trace| % 2 == 1
    }

    method NotifyIterationStarts(i: int)
      modifies this
      ensures iteration == i
      ensures initialized == old(initialized) && inbox == old(inbox) && trace == old(trace)
    {
      iteration := i;
    }

    /** The receive-and-answer loop shared by both exchanges. */
    method Respond(time: real) returns (r: Result<Assignment>)
      modifies this
      ensures var o := Exchange(travelTimes.network, travelTimes.travelTime, old(inbox), time);
        && trace == old(trace) + o.ops && inbox == o.rest
        && (r.Success? <==> o.result.Success?)
        && (r.Success? ==> r == o.result)
        && (r.Failure? && o.result.error.UnknownLink? ==> r.error.UnknownLink? && r.error.link !in travelTimes.network)
        && (r.Failure? && !o.result.error.UnknownLink? ==> r == o.result)
      ensures iteration == old(iteration) && initialized == old(initialized)
    {
      ghost var network, tt := travelTimes.network, travelTimes.travelTime;
      ghost var o0 := Exchange(network, tt, inbox, time);
      // the socket's pending messages and what crosses it during this exchange
      var pending := inbox;
      var ops: seq<SocketOp> := [];
      while true
        invariant inbox == old(inbox) && trace == old(trace)
        invariant iteration == old(iteration) && initialized == old(initialized)
        invariant var o := Exchange(network, tt, pending, time);
          ops + o.ops == o0.ops && o.rest == o0.rest && o.result == o0.result
        decreases |pending|
      {
        if pending == [] {
          inbox, trace := pending, trace + ops;
          return Failure(PeerSilent);
        }
        var m := pending[0];
        ExchangeFront(network, tt, pending, time);
        ghost var before := pending;
        pending := pending[1..];
        var handled := Handle(m, time);
        if handled.Done? {
          ops := ops + [Received(m)];
          inbox, trace := pending, trace + ops;
          return handled.result;
        }
        ghost var next := Exchange(network, tt, pending, time);
        assert (ops + [Received(m), Sent(handled.response)]) + next.ops == ops + Exchange(network, tt, before, time).ops;
        ops := ops + [Received(m), Sent(handled.response)];
      }
    }

    /** One received message: a query is answered, and anything else ends the exchange with its outcome. */
    method Handle(m: Message, time: real) returns (h: Handled)
      ensures h.Reply? <==> m.TravelTimeQuery? && Answerable(travelTimes.network, m.links)
      ensures h.Reply? ==>
                h.response == TravelTimeResponse(TravelTimesAt(travelTimes.network, travelTimes.travelTime, m.links, time))
      ensures m.AssignmentMessage? ==> h == Done(Success(m.assignment))
      ensures m.TravelTimeQuery? && h.Done? ==>
                h.result.Failure? && h.result.error.UnknownLink? && h.result.error.link !in travelTimes.network
      ensures !m.AssignmentMessage? && !m.TravelTimeQuery? ==> h == Done(Failure(UnexpectedMessage))
    {
      if !m.TravelTimeQuery? {
        if m.AssignmentMessage? {
          return Done(Success(m.assignment));
        }
        return Done(Failure(UnexpectedMessage));
      }
      var response := travelTimes.Query(m.links, time);
      if response.Failure? {
        return Done(Failure(response.error));
      }
      return Reply(TravelTimeResponse(response.value));
    }

    /** The one-time handshake: exactly one message is received, and it must be the initialization. */
    method Initialize() returns (r: Result<()>)
      modifies this
      ensures old(inbox) == [] ==> r == Failure(PeerSilent) && trace == old(trace) && inbox == old(inbox)
      ensures old(inbox) != [] ==>
                && trace == old(trace) + [Received(old(inbox)[0])] && inbox == old(inbox)[1..]
                && (r.Success? <==> old(inbox)[0] == Initialization)
                && (r.Failure? ==> r.error == HandshakeMissing)
      ensures iteration == old(iteration) && initialized == old(initialized)
    {
      if inbox == [] {
        return Failure(PeerSilent);
      }
      var m := inbox[0];
      inbox := inbox[1..];
      trace := trace + [Received(m)];
      if m != Initialization {
        return Failure(HandshakeMissing);
      }
      return Success(());
    }

    /**
     * The start of an iteration. The first call performs the handshake; every call then sends the
     * iteration number and the roster, and runs an exchange answering queries at time zero.
     */
    method StartIteration(vehicles: seq<RosterVehicle>) returns (r: Result<Assignment>)
      modifies this
      ensures iteration == old(iteration)
      ensures !old(initialized) && (old(inbox) == [] || old(inbox)[0] != Initialization) ==>
                && r.Failure? && !initialized && inbox == (if old(inbox) == [] then [] else old(inbox)[1..])
                && trace == old(trace) + (if old(inbox) == [] then [] else [Received(old(inbox)[0])])
      ensures old(initialized) ==>
                var o := Exchange(travelTimes.network, travelTimes.travelTime, old(inbox), 0.0);
                && initialized && inbox == o.rest
                && trace == old(trace) + [Sent(Iteration(old(iteration), vehicles))] + o.ops
                && (r.Success? <==> o.result.Success?) && (r.Success? ==> r == o.result)
      ensures !old(initialized) && old(inbox) != [] && old(inbox)[0] == Initialization ==>
                var o := Exchange(travelTimes.network, travelTimes.travelTime, old(inbox)[1..], 0.0);
                && initialized && inbox == o.rest
                && trace == old(trace) + [Received(Initialization), Sent(Iteration(old(iteration), vehicles))] + o.ops
                && (r.Success? <==> o.result.Success?) && (r.Success? ==> r == o.result)
      ensures old(Fresh() || Ready()) && r.Success? ==> Ready()
    {
      if !initialized {
        var handshake := Initialize();
        if handshake.Failure? {
          return Failure(handshake.error);
        }
        initialized := true;
      }
      var sent := trace + [Sent(Iteration(iteration, vehicles))];
      assert old(Fresh() || Ready()) ==> Alternating(sent) && |sent| % 2 == 0 by {
        if old(Ready()) {
          AlternatingSend(old(trace), Iteration(iteration, vehicles));
        }
      }
      trace := sent;
      var unread := inbox;
      r := Respond(0.0);
      ExchangeAlternates(travelTimes.network, travelTimes.travelTime, unread, 0.0);
      if old(Fresh() || Ready()) && r.Success? {
        AlternatingAppend(sent, Exchange(travelTimes.network, travelTimes.travelTime, unread, 0.0).ops);
      }
    }

    /** One step of the simulation: send the snapshot, then run an exchange answering at its time. */
    method Update(state: State) returns (r: Result<Assignment>)
      modifies this
      ensures iteration == old(iteration) && initialized == old(initialized)
      ensures var o := Exchange(travelTimes.network, travelTimes.travelTime, old(inbox), state.time);
        && trace == old(trace) + [Sent(StateMessage(state))] + o.ops
        && inbox == o.rest
        && (r.Success? <==> o.result.Success?) && (r.Success? ==> r == o.result)
      ensures old(Ready()) && r.Success? ==> Ready()
    {
      var sent := trace + [Sent(StateMessage(state))];
      if old(Ready()) {
        AlternatingSend(old(trace), StateMessage(state));
      }
      trace := sent;
      r := Respond(state.time);
      ExchangeAlternates(travelTimes.network, travelTimes.travelTime, old(inbox), state.time);
      if old(Ready()) && r.Success? {
        AlternatingAppend(sent, Exchange(travelTimes.network, travelTimes.travelTime, old(inbox), state.time).ops);
      }
    }

    /** The end of the run: one finalization is sent. */
    method NotifyShutdown()
      modifies this
      ensures trace == old(trace) + [Sent(Finalization)]
      ensures iteration == old(iteration) && initialized == old(initialized) && inbox == old(inbox)
      ensures old(Ready()) ==> Alternating(trace)
    {
      if old(Ready()) {
        AlternatingSend(trace, Finalization);
      }
      trace := trace + [Sent(Finalization)];
    }
  }
}
