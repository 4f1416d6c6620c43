/** The life of one TCP session, and what closes it. */
module TcpSession {
  import opened Bytes
  import opened TcpId
  import opened TcpSegBuf

  datatype State = Init | Handshake | ClientSending | ServerSending | ClientFinished | ServerFinished | Closed

  /** The sequence number after a SYN. */
  function Succ(n: SeqNum): SeqNum {
    (n + 1) % TWO_TO_THE_32
  }

  datatype Packet = Packet(dir: Direction, syn: bool, ack: bool, fin: bool, rst: bool, seqNum: SeqNum, data: seq<byte>)

  /** The switch on a payload. */
  function OnPayload(s: State, dir: Direction): State {
    match s
    case Init => if dir.ToServer? then ClientSending else ServerSending
    case Handshake => if dir.ToServer? then ClientSending else ServerSending
    case ClientSending => if dir.ToServer? then s else ServerSending
    case ServerSending => if dir.ToServer? then ClientSending else s
    case ServerFinished => if dir.ToServer? then s else Closed
    case ClientFinished => if dir.ToServer? then Closed else s
    case Closed => s
  }

  /** `finishMe`. */
  function OnFinish(s: State, p: Packet): State {
    if p.rst then Closed
    else if !p.fin then s
    else
      match s
      case Init => if p.dir.ToClient? then ServerFinished else ClientFinished
      case Handshake => if p.dir.ToClient? then ServerFinished else ClientFinished
      case ClientSending => if p.dir.ToClient? then ServerFinished else ClientFinished
      case ServerSending => if p.dir.ToClient? then ServerFinished else ClientFinished
      case ServerFinished => if p.dir.ToClient? then s else Closed
      case ClientFinished => if p.dir.ToClient? then Closed else s
      case Closed => s
  }

  /** `updateMe`. */
  function Next(s: State, p: Packet): State {
    if p.syn then Handshake
    else OnFinish(if |p.data| > 0 then OnPayload(s, p.dir) else s, p)
  }

  function After(ps: seq<Packet>): State {
    if ps == [] then Handshake else Next(After(ps[..|ps| - 1]), ps[|ps| - 1])
  }

  // ---- What the packets themselves say ----

  /** The packets after the last SYN. */
  function SinceSyn(ps: seq<Packet>): seq<Packet> {
    if ps == [] then []
    else
      var n := |ps| - 1;
      if ps[n].syn then [] else SinceSyn(ps[..n]) + [ps[n]]
  }

  /** A side has sent a FIN. */
  ghost predicate Finished(ps: seq<Packet>, dir: Direction) {
    exists i :: 0 <= i < |ps| && ps[i].fin && ps[i].dir == dir
  }

  /** The last packet ends the session, given what came before it. */
  ghost predicate Ends(before: seq<Packet>, p: Packet) {
    || p.rst
    || (p.fin && Finished(before, if p.dir.ToServer? then ToClient else ToServer))
    || (|p.data| > 0 && Finished(before, p.dir))
  }

  /** Some packet has ended the session. */
  ghost predicate Ended(ps: seq<Packet>) {
    exists i :: 0 <= i < |ps| && Ends(ps[..i], ps[i])
  }

  /** The state says exactly what the packets since the last SYN have done: the session is
      closed if and only if one of them was an RST, a FIN after a FIN from the other side, or
      payload from a side after its own FIN. */
  ghost predicate Tells(s: State, ps: seq<Packet>) {
    && (s.Closed? <==> Ended(ps))
    && (!s.Closed? ==>
      && (s.ServerFinished? <==> Finished(ps, ToClient))
      && (s.ClientFinished? <==> Finished(ps, ToServer)))
  }

  lemma {:induction false} StateTells(ps: seq<Packet>)
    ensures Tells(After(ps), SinceSyn(ps))
  {
    if ps != [] {
      var n := |ps| - 1;
      StateTells(ps[..n]);
      if !ps[n].syn {
        NextTells(After(ps[..n]), SinceSyn(ps[..n]), ps[n]);
      }
    }
  }

  lemma NextTells(s: State, ps: seq<Packet>, p: Packet)
    requires Tells(s, ps) && !p.syn
    ensures Tells(Next(s, p), ps + [p])
  {
    hide Ended, Finished;
    EndedNext(ps, p);
    FinishedNext(ps, p, ToServer);
    FinishedNext(ps, p, ToClient);
  }

  lemma EndedNext(ps: seq<Packet>, p: Packet)
    ensures Ended(ps + [p]) <==> Ended(ps) || Ends(ps, p)
  {
    hide Ends;
    var qs := ps + [p];
    assert forall i :: 0 <= i < |ps| ==> qs[..i] == ps[..i] && qs[i] == ps[i];
    assert qs[..|ps|] == ps && qs[|ps|] == p;
    if Ended(ps) {
      var i :| 0 <= i < |ps| && Ends(ps[..i], ps[i]);
      assert Ends(qs[..i], qs[i]);
    }
  }

  lemma FinishedNext(ps: seq<Packet>, p: Packet, dir: Direction)
    ensures Finished(ps + [p], dir) <==> Finished(ps, dir) || (p.fin && p.dir == dir)
  {
    var qs := ps + [p];
    assert forall i :: 0 <= i < |ps| ==> qs[i] == ps[i];
    assert qs[|ps|] == p;
    if Finished(ps, dir) {
      var i :| 0 <= i < |ps| && ps[i].fin && ps[i].dir == dir;
      assert qs[i].fin && qs[i].dir == dir;
    }
  }

  // ---- The session object ----

  class Session {
    const toServer: SegBuf
    const toClient: SegBuf
    var state: State

    ghost predicate Valid()
      reads this, toServer, toClient
    {
      toServer != toClient && toServer.Valid() && toClient.Valid()
    }

    /** A session begins with the SYN of its client. */
    constructor (synSeq: SeqNum)
      ensures Valid() && fresh(toServer) && fresh(toClient) && state == After([])
      ensures toServer.start == toServer.used == Succ(synSeq) && toServer.buf == [] && toClient.buf == []
      ensures toServer.end == toClient.end == toClient.used == 0
    {
      toServer := new SegBuf();
      toClient := new SegBuf();
      state := Handshake;
      new;
      toServer.SetStartSeq(Succ(synSeq));
      toServer.SetUsedPos(0);
    }

    function Buf(dir: Direction): SegBuf {
      if dir.ToServer? then toServer else toClient
    }

    function Other(dir: Direction): SegBuf {
      if dir.ToServer? then toClient else toServer
    }

    /** A packet that can be put where it belongs: no wrap-around of sequence numbers, no data
        before the start, and no second SYN-ACK with another number. */
    ghost predicate Acceptable(p: Packet)
      reads toServer, toClient
    {
      if p.syn then
        p.ack ==> toClient.used == 0 && (toClient.end == 0 || toClient.start == Succ(p.seqNum))
      else
        |p.data| > 0 ==> Fits(Buf(p.dir).Now(), p.seqNum, p.data)
    }

    /** `updateMe` on any packet: the state is that of the packets so far unless storing the payload
        ends in an exception, and payload goes into the buffer of its direction only. */
    method UpdateMe(p: Packet, ghost ps: seq<Packet>) returns (ok: bool)
      requires toServer != toClient && state == After(ps)
      modifies this, toServer, toClient
      ensures state == if ok then After(ps + [p]) else old(state)
      ensures !p.syn && p.data != [] ==>
        && (Buf(p.dir).Now(), ok) == Inserted(old(Buf(p.dir).Now()), p.seqNum, p.data)
        && Other(p.dir).Now() == old(Other(p.dir).Now())
      ensures !p.syn && p.data == [] ==>
        ok && toServer.Now() == old(toServer.Now()) && toClient.Now() == old(toClient.Now())
      ensures p.syn ==>
        && ok && toServer.Now() == old(toServer.Now())
        && toClient.Now() == if p.ack then old(toClient.Now()).(start := Succ(p.seqNum)) else old(toClient.Now())
      ensures old(Valid() && Acceptable(p)) ==> ok && Valid() && (!p.syn && p.data != [] ==> Saved(p))
    {
      hide Overlay, OnPayload, OnFinish, Inserted;
      assert (ps + [p])[..|ps|] == ps;
      ok := true;
      if p.syn {
        state := Handshake;
        if p.ack {
          toClient.SetStartSeq(Succ(p.seqNum));
        }
        return;
      }
      if |p.data| > 0 {
        ok := SavePayload(p);
        if !ok {
          return;
        }
        state := OnPayload(state, p.dir);
      }
      FinishMe(p);
    }

    /** The payload is laid over its own direction at its place. */
    twostate predicate Saved(p: Packet)
      reads toServer, toClient
    {
      var b := Buf(p.dir);
      b.start <= p.seqNum && b.buf == Overlay(old(b.buf), p.seqNum - b.start, p.data) && b.used == old(b.used)
    }

    method SavePayload(p: Packet) returns (ok: bool)
      requires toServer != toClient && !p.syn && p.data != []
      modifies Buf(p.dir)
      ensures (Buf(p.dir).Now(), ok) == Inserted(old(Buf(p.dir).Now()), p.seqNum, p.data)
      ensures old(Valid() && Acceptable(p)) ==> ok && Valid() && Saved(p)
    {
      hide Overlay, Inserted;
      ok := Buf(p.dir).InsertData(p.seqNum, p.data);
    }

    method FinishMe(p: Packet)
      modifies this`state
      ensures state == OnFinish(old(state), p)
    {
      if p.rst {
        state := Closed;
        return;
      }
      if !p.fin {
        return;
      }
      match state
      case ServerFinished =>
        if p.dir.ToServer? { state := Closed; }
      case ClientFinished =>
        if p.dir.ToClient? { state := Closed; }
      case Closed =>
      case _ => state := if p.dir.ToClient? then ServerFinished else ClientFinished;
    }
  }
}
