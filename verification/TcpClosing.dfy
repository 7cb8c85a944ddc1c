/**
 How a connection opens and closes, over whole runs: which packets lead into each state, and which side's FIN the
 closing states answer to.
 */
module TcpClosing {
  import opened Options
  import opened TcpSession

  /** The packets that lead into a state, and the state that each of them finds. */
  ghost predicate LeadsTo(before: State, p: Packet, s: State) {
    match s
    case SynSent => before == TcpNone && p.syn && !p.ack
    case SynRecv => (before == TcpNone && p.syn && p.ack) || (before == SynSent && p.syn)
    case Established => before == SynRecv && p.ack
    case FinWait1 => before == Established && p.fin && p.dir == ToServer
    case CloseWait => before == Established && p.fin && p.dir == ToClient
    case FinWait2 => before == FinWait1 && p.ack && !p.fin
    case Closing => before == FinWait1 && p.fin && !p.ack
    case TimeWait =>
      (before == FinWait1 && p.fin && p.ack) || (before == FinWait2 && p.fin) || (before == Closing && p.ack)
    case LastAck => before == CloseWait && p.fin
    case Closed => (before == LastAck && p.ack) || (p.rst && !Inert(before) && !Awaited(before, p))
    case _ => false
  }

  /** A packet changes the state to `s` if and only if it leads there. */
  lemma EnteredExactly(packets: seq<Packet>, p: Packet, s: State)
    ensures var before, after := Run(packets).state, Run(packets + [p]).state;
            after != before && after == s <==> LeadsTo(before, p, s)
  {
    assert (packets + [p])[..|packets|] == packets;
    NeverListening(packets);
    hide Run;
    StepEntered(Run(packets).state, p, s);
    RunStep(packets, p);
  }

  lemma RunStep(packets: seq<Packet>, p: Packet)
    ensures Run(packets + [p]).state == Next(Run(packets).state, p)
  {
    assert (packets + [p])[..|packets|] == packets;
  }

  lemma StepEntered(before: State, p: Packet, s: State)
    requires before != Listen
    ensures Next(before, p) != before && Next(before, p) == s <==> LeadsTo(before, p, s)
  {
  }

  lemma NeverListening(packets: seq<Packet>)
    ensures Run(packets).state != Listen
  {
    ChangesBounded(packets);
  }

  /** The side whose FIN took the connection out of ESTABLISHED. */
  function Closer(packets: seq<Packet>): Option<Direction> {
    if packets == [] then None
    else
      var front, p := packets[..|packets| - 1], packets[|packets| - 1];
      var earlier := Closer(front);
      if earlier.Some? then earlier
      else if Run(front).state == Established && p.fin then Some(p.dir)
      else None
  }

  /**
   The states FIN_WAIT1, FIN_WAIT2, CLOSING and TIME_WAIT are those of a connection that the client began to close,
   CLOSE_WAIT and LAST_ACK those of one that the server began to close.
   */
  lemma {:induction false} ClosingSide(packets: seq<Packet>)
    ensures var s := Run(packets).state;
            && (s in {FinWait1, FinWait2, Closing, TimeWait} <==> Closer(packets) == Some(ToServer) && s != Closed)
            && (s in {CloseWait, LastAck} <==> Closer(packets) == Some(ToClient) && s != Closed)
            && (s in {TcpNone, SynSent, SynRecv, Established} ==> Closer(packets) == None)
  {
    if packets != [] {
      var front, p := packets[..|packets| - 1], packets[|packets| - 1];
      assert packets == front + [p];
      ClosingSide(front);
      RunStep(front, p);
      NeverListening(front);
      hide Run;
    }
  }

  // ----- the FINs and ACKs behind a state -----

  /** The FINs taken since the connection was established. */
  function Fins(packets: seq<Packet>): nat {
    if packets == [] then 0
    else
      var front, p := packets[..|packets| - 1], packets[|packets| - 1];
      Fins(front) + if p.fin && TakesFin(Run(front).state) then 1 else 0
  }

  /** ESTABLISHED, FIN_WAIT1, FIN_WAIT2 and CLOSE_WAIT wait for a FIN. */
  predicate TakesFin(s: State) { s in {Established, FinWait1, FinWait2, CloseWait} }

  /** An ACK has come since the first FIN was taken. */
  predicate Acked(packets: seq<Packet>) {
    packets != [] &&
      var front, p := packets[..|packets| - 1], packets[|packets| - 1];
      Acked(front) || (Fins(front) >= 1 && p.ack && Run(front).state in {FinWait1, Closing, LastAck})
  }

  /**
   One FIN has been taken in FIN_WAIT1, FIN_WAIT2 and CLOSE_WAIT, and two in CLOSING, TIME_WAIT and LAST_ACK; the
   client's FIN has been acknowledged in FIN_WAIT2 and TIME_WAIT, and not yet in FIN_WAIT1 and CLOSING.
   */
  lemma {:induction false} FinsTaken(packets: seq<Packet>)
    ensures var s := Run(packets).state;
            && (s in {TcpNone, SynSent, SynRecv, Established} ==> Fins(packets) == 0 && !Acked(packets))
            && (s in {FinWait1, FinWait2, CloseWait} ==> Fins(packets) == 1)
            && (s in {Closing, TimeWait, LastAck} ==> Fins(packets) == 2)
            && (s in {FinWait2, TimeWait} ==> Acked(packets))
            && (s in {FinWait1, Closing, CloseWait, LastAck} ==> !Acked(packets))
  {
    if packets != [] {
      var front, p := packets[..|packets| - 1], packets[|packets| - 1];
      assert packets == front + [p];
      FinsTaken(front);
      RunStep(front, p);
      NeverListening(front);
      hide Run;
    }
  }
}
