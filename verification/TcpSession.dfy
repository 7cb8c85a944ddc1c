/**
 The TCP part of a flow update: the connection states of section 3.3.2 of RFC 9293 as a packet observer
 tracks them, the timeout in force, and the routing of payload into the two reassembly buffers.
 */
module TcpSession {
  import opened Options

  datatype State =
    | TcpNone | Listen | SynSent | SynRecv | Established | FinWait1 | FinWait2
    | TimeWait | CloseWait | LastAck | Closing | Closed

  datatype Direction = ToServer | ToClient

  type Payload = seq<int>

  /**
   A packet of the flow; `memory` says whether a buffer asked for at this packet can be had.  A record that could not
   be allocated with the flow is one that no packet can have.
   */
  datatype Packet = Packet(dir: Direction, syn: bool, ack: bool, fin: bool, rst: bool, number: nat, payload: Payload,
                           memory: bool)

  /** Which of the configured idle timeouts applies to the flow. */
  datatype Timeout = TimeoutNew | TimeoutEst

  /** A reassembly buffer as the flow sees it: the number it was seeded with, and the segments handed to it. */
  datatype Sink = Sink(seed: nat, segments: seq<(nat, Payload)>)

  datatype Session = Session(state: State, timeout: Timeout, toServer: Option<Sink>, toClient: Option<Sink>)

  const START := Session(TcpNone, TimeoutNew, None, None)

  /** The transition on one packet. */
  function Next(s: State, p: Packet): State {
    match s
    case TcpNone => if p.syn then (if p.ack then SynRecv else SynSent) else if p.rst then Closed else s
    case SynSent => if p.syn then SynRecv else if p.rst then Closed else s
    case SynRecv => if p.ack then Established else if p.rst then Closed else s
    case Established =>
      if p.fin then (if p.dir.ToServer? then FinWait1 else CloseWait) else if p.rst then Closed else s
    case FinWait1 =>
      if p.fin then (if p.ack then TimeWait else Closing) else if p.ack then FinWait2 else if p.rst then Closed else s
    case FinWait2 => if p.fin then TimeWait else if p.rst then Closed else s
    case Closing => if p.ack then TimeWait else if p.rst then Closed else s
    case TimeWait => if p.rst then Closed else s
    case CloseWait => if p.fin then LastAck else if p.rst then Closed else s
    case LastAck => if p.ack || p.rst then Closed else s
    case Listen => s
    case Closed => s
  }

  // ----- what the transitions mean -----

  /** The packets that each state waits for. */
  predicate Awaited(s: State, p: Packet) {
    match s
    case TcpNone => p.syn
    case SynSent => p.syn
    case SynRecv => p.ack
    case Established => p.fin
    case FinWait1 => p.fin || p.ack
    case FinWait2 => p.fin
    case Closing => p.ack
    case CloseWait => p.fin
    case LastAck => p.ack
    case _ => false
  }

  predicate Inert(s: State) { s == Listen || s == Closed }

  /**
   A packet that is awaited always moves the connection on, and to CLOSED only from LAST_ACK; one that is not closes
   it if it is a reset, and otherwise changes nothing.
   */
  lemma TransitionMeaning(s: State, p: Packet)
    requires !Inert(s)
    ensures Awaited(s, p) ==> Next(s, p) != s && (Next(s, p) == Closed <==> s == LastAck)
    ensures !Awaited(s, p) ==> Next(s, p) == if p.rst then Closed else s
  {
  }

  // ----- one packet -----

  function Seeded(sink: Option<Sink>, wanted: bool, number: nat): Option<Sink> {
    if wanted && sink.None? then Some(Sink(number, [])) else sink
  }

  function Fed(sink: Option<Sink>, wanted: bool, p: Packet): Option<Sink> {
    if wanted && sink.Some? then Some(Sink(sink.value.seed, sink.value.segments + [(p.number, p.payload)])) else sink
  }

  /** `flow_update` on a TCP packet. */
  function Update(s: Session, p: Packet): Session {
    var state := Next(s.state, p);
    var carries := p.payload != [] && state == Established;
    Session(state,
            if s.state == SynRecv && state == Established then TimeoutEst else s.timeout,
            Fed(Seeded(s.toServer, state == SynSent && p.memory, p.number), carries && p.dir.ToServer?, p),
            Fed(Seeded(s.toClient, state == SynRecv && p.memory, p.number), carries && p.dir.ToClient?, p))
  }

  function Run(packets: seq<Packet>): Session {
    if packets == [] then START else Update(Run(packets[..|packets| - 1]), packets[|packets| - 1])
  }

  function StateAfter(packets: seq<Packet>, i: nat): State
    requires i <= |packets|
  {
    Run(packets[..i]).state
  }

  // ----- how far a connection can go -----

  function Rank(s: State): nat {
    match s
    case TcpNone => 7 case Listen => 7 case SynSent => 6 case SynRecv => 5 case Established => 4
    case FinWait1 => 3 case CloseWait => 3 case FinWait2 => 2 case Closing => 2 case LastAck => 2
    case TimeWait => 1 case Closed => 0
  }

  function Changes(packets: seq<Packet>): nat {
    if packets == [] then 0
    else
      var last := |packets| - 1;
      Changes(packets[..last]) + if Run(packets).state != Run(packets[..last]).state then 1 else 0
  }

  /** Every change of state loses rank: a run changes state at most seven times, and never reaches LISTEN. */
  lemma {:induction false} ChangesBounded(packets: seq<Packet>)
    ensures Changes(packets) + Rank(Run(packets).state) <= 7
    ensures Run(packets).state != Listen
  {
    if packets != [] { ChangesBounded(packets[..|packets| - 1]); }
  }

  lemma Unopened()
    ensures Run([]).state == TcpNone && Changes([]) == 0
  {
  }

  lemma OneMore(packets: seq<Packet>, p: Packet) returns (longer: seq<Packet>)
    ensures Run(longer).state == Next(Run(packets).state, p)
    ensures Changes(longer) == Changes(packets) + if Run(longer).state != Run(packets).state then 1 else 0
  {
    longer := packets + [p];
    assert longer[..|packets|] == packets;
  }

  /** Seven changes are possible, so the bound cannot be improved. */
  lemma SevenChanges()
    ensures exists packets :: Changes(packets) == 7 && Run(packets).state == Closed
  {
    hide Run, Changes;
    var syn := Packet(ToServer, true, false, false, false, 0, [], true);
    var ack := Packet(ToServer, false, true, false, false, 0, [], true);
    var fin := Packet(ToServer, false, false, true, false, 0, [], true);
    var rst := Packet(ToServer, false, false, false, true, 0, [], true);
    Unopened();
    var run := OneMore([], syn);
    run := OneMore(run, syn);
    run := OneMore(run, ack);
    run := OneMore(run, fin);
    run := OneMore(run, ack);
    run := OneMore(run, fin);
    run := OneMore(run, rst);
  }

  /** CLOSED is final. */
  lemma {:induction false} ClosedForEver(packets: seq<Packet>, i: nat)
    requires i <= |packets| && StateAfter(packets, i) == Closed
    ensures Run(packets).state == Closed
  {
    if i == |packets| {
      assert packets[..i] == packets;
    } else {
      var init := packets[..|packets| - 1];
      assert init[..i] == packets[..i];
      ClosedForEver(init, i);
    }
  }

  /** A SYN somewhere, and an ACK on a later packet. */
  predicate Handshake(packets: seq<Packet>) {
    exists i, j :: 0 <= i < j < |packets| && packets[i].syn && packets[j].ack
  }

  predicate SynSeen(packets: seq<Packet>) { exists i :: 0 <= i < |packets| && packets[i].syn }

  predicate Opened(s: State) { s != TcpNone && s != Closed && s != Listen }

  /** No connection counts as established without a SYN and a later ACK. */
  lemma {:induction false} EstablishedAfterHandshake(packets: seq<Packet>)
    ensures Opened(Run(packets).state) ==> SynSeen(packets)
    ensures Opened(Run(packets).state) && Run(packets).state !in {SynSent, SynRecv} ==> Handshake(packets)
  {
    if packets != [] {
      var last := |packets| - 1;
      var init := packets[..last];
      EstablishedAfterHandshake(init);
      var s, p := Run(init).state, packets[last];
      if SynSeen(init) {
        var i :| 0 <= i < |init| && init[i].syn;
        assert packets[i].syn;
        if p.ack { assert Handshake(packets); }
      }
      if Handshake(init) {
        var i, j :| 0 <= i < j < |init| && init[i].syn && init[j].ack;
        assert packets[i].syn && packets[j].ack;
      }
    }
  }

  predicate WasEstablished(packets: seq<Packet>) {
    exists i :: 0 <= i <= |packets| && StateAfter(packets, i) == Established
  }

  lemma PrefixOfPrefix(packets: seq<Packet>, i: nat)
    requires i < |packets|
    ensures packets[..|packets| - 1][..i] == packets[..i]
  {
  }

  lemma WasEstablishedStep(packets: seq<Packet>)
    requires packets != []
    ensures WasEstablished(packets) <==> WasEstablished(packets[..|packets| - 1]) || Run(packets).state == Established
  {
    hide Run;
    var init := packets[..|packets| - 1];
    assert packets[..|packets|] == packets;
    forall i: nat | i < |packets| ensures StateAfter(init, i) == StateAfter(packets, i) {
      PrefixOfPrefix(packets, i);
    }
    if WasEstablished(init) {
      var i :| 0 <= i <= |init| && StateAfter(init, i) == Established;
      assert StateAfter(packets, i) == Established;
    }
    assert StateAfter(packets, |packets|) == Run(packets).state;
  }

  /** The long timeout is in force exactly from the first ESTABLISHED on. */
  lemma {:induction false} TimeoutInForce(packets: seq<Packet>)
    ensures Run(packets).timeout == if WasEstablished(packets) then TimeoutEst else TimeoutNew
    ensures Run(packets).state in {TcpNone, SynSent, SynRecv} ==> !WasEstablished(packets)
    ensures Run(packets).state == Established ==> WasEstablished(packets)
  {
    if packets != [] {
      TimeoutInForce(packets[..|packets| - 1]);
      WasEstablishedStep(packets);
    }
  }

  // ----- what reaches the buffers -----

  /** The payload-carrying packets of one direction that arrived in ESTABLISHED, in order. */
  function Carried(packets: seq<Packet>, dir: Direction): seq<(nat, Payload)> {
    if packets == [] then []
    else
      var p := packets[|packets| - 1];
      var earlier := Carried(packets[..|packets| - 1], dir);
      if p.dir == dir && p.payload != [] && Run(packets).state == Established
      then earlier + [(p.number, p.payload)]
      else earlier
  }

  /** The sequence number of the first packet after which the connection was in `state` and memory was available. */
  function FirstNumber(packets: seq<Packet>, state: State): Option<nat> {
    if packets == [] then None
    else
      var earlier := FirstNumber(packets[..|packets| - 1], state);
      if earlier.Some? then earlier
      else if Run(packets).state == state && packets[|packets| - 1].memory then Some(packets[|packets| - 1].number)
      else None
  }

  predicate Before(s: State) { s in {TcpNone, SynSent, SynRecv} }

  lemma {:induction false} NothingBeforeEstablished(packets: seq<Packet>, dir: Direction)
    requires Before(Run(packets).state)
    ensures Carried(packets, dir) == []
  {
    if packets != [] { NothingBeforeEstablished(packets[..|packets| - 1], dir); }
  }

  function Buffer(first: Option<nat>, segments: seq<(nat, Payload)>): Option<Sink> {
    if first.None? then None else Some(Sink(first.value, segments))
  }

  /**
   Each direction's buffer is seeded with the number of the first packet that left the connection in SYN_SENT
   (towards the server) or SYN_RECV (towards the client) while memory was available, is missing if there was no such
   packet, and holds exactly that direction's ESTABLISHED payload, in order.
   */
  lemma {:induction false} BuffersExact(packets: seq<Packet>)
    ensures Run(packets).toServer == Buffer(FirstNumber(packets, SynSent), Carried(packets, ToServer))
    ensures Run(packets).toClient == Buffer(FirstNumber(packets, SynRecv), Carried(packets, ToClient))
  {
    if packets != [] {
      var init := packets[..|packets| - 1];
      BuffersExact(init);
      if Before(Run(init).state) {
        NothingBeforeEstablished(init, ToServer);
        NothingBeforeEstablished(init, ToClient);
      }
    }
  }

  /** A connection picked up at its SYN-ACK never gets a buffer towards the server, whatever follows. */
  lemma {:induction false} MidstreamPickup(packets: seq<Packet>)
    requires packets != [] && packets[0].syn && packets[0].ack
    ensures Run(packets).toServer.None? && Run(packets).state !in {TcpNone, SynSent}
  {
    if |packets| == 1 {
      assert packets[..0] == [];
    } else {
      MidstreamPickup(packets[..|packets| - 1]);
    }
  }

  // ----- the object -----

  class TcpFlow {
    var state: State
    var timeoutPolicy: Timeout
    var toServer: Option<Sink>
    var toClient: Option<Sink>

    function View(): Session
      reads this
    {
      Session(state, timeoutPolicy, toServer, toClient)
    }

    constructor ()
      ensures View() == START
    {
      state, timeoutPolicy, toServer, toClient := TcpNone, TimeoutNew, None, None;
    }

    /** The state switch. */
    method Switch(p: Packet)
      modifies this`state, this`timeoutPolicy
      ensures state == Next(old(state), p)
      ensures timeoutPolicy == if old(state) == SynRecv && state == Established then TimeoutEst else old(timeoutPolicy)
    {
      match state {
        case TcpNone =>
          if p.syn {
            if p.ack { state := SynRecv; } else { state := SynSent; }
          } else if p.rst {
            state := Closed;
          }
        case SynSent =>
          if p.syn && p.ack {
            state := SynRecv;
          } else if p.syn {
            state := SynRecv;
          } else if p.rst {
            state := Closed;
          }
        case SynRecv =>
          if p.ack {
            state := Established;
            timeoutPolicy := TimeoutEst;
          } else if p.rst {
            state := Closed;
          }
        case Established =>
          if p.fin {
            state := if p.dir.ToServer? then FinWait1 else CloseWait;
          } else if p.rst {
            state := Closed;
          }
        case FinWait1 =>
          if p.fin {
            if p.ack { state := TimeWait; } else { state := Closing; }
          } else if p.ack {
            state := FinWait2;
          } else if p.rst {
            state := Closed;
          }
        case FinWait2 =>
          if p.fin { state := TimeWait; } else if p.rst { state := Closed; }
        case Closing =>
          if p.ack { state := TimeWait; } else if p.rst { state := Closed; }
        case TimeWait =>
          if p.rst { state := Closed; }
        case CloseWait =>
          if p.fin { state := LastAck; } else if p.rst { state := Closed; }
        case LastAck =>
          if p.ack { state := Closed; } else if p.rst { state := Closed; }
        case Listen =>
        case Closed =>
      }
    }

    method UpdateFlow(p: Packet)
      modifies this
      ensures View() == Update(old(View()), p)
    {
      Switch(p);
      if state == SynSent && toServer.None? && p.memory { toServer := Some(Sink(p.number, [])); }
      if state == SynRecv && toClient.None? && p.memory { toClient := Some(Sink(p.number, [])); }
      if p.payload != [] && state == Established {
        if p.dir.ToServer? {
          if toServer.Some? {
            toServer := Some(Sink(toServer.value.seed, toServer.value.segments + [(p.number, p.payload)]));
          }
        } else {
          if toClient.Some? {
            toClient := Some(Sink(toClient.value.seed, toClient.value.segments + [(p.number, p.payload)]));
          }
        }
      }
    }
  }
}
