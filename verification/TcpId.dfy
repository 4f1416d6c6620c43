/** Session identities that do not depend on a packet's direction. */
module TcpId {
  import opened Bytes

  type Port = x: int | 0 <= x < 65536

  datatype Id = Id(srcIp: Quad, srcPort: Port, dstIp: Quad, dstPort: Port)

  /** `operator==`: the same two ends, in either order. */
  predicate Same(a: Id, b: Id) {
    || (a.srcIp == b.srcIp && a.srcPort == b.srcPort && a.dstIp == b.dstIp && a.dstPort == b.dstPort)
    || (a.srcIp == b.dstIp && a.srcPort == b.dstPort && a.dstIp == b.srcIp && a.dstPort == b.srcPort)
  }

  function Reversed(a: Id): Id {
    Id(a.dstIp, a.dstPort, a.srcIp, a.srcPort)
  }

  function Sum(s: seq<byte>): (n: nat)
    ensures n <= 255 * |s|
  {
    if s == [] then 0 else s[0] as int + Sum(s[1..])
  }

  function Xor(x: nat, y: nat): bv64
    requires x < TWO_TO_THE_32 && y < TWO_TO_THE_32
  {
    (x as bv64) ^ (y as bv64)
  }

  /** `getHash`: the folded addresses added, exclusive-or the ports added. */
  function Hash(a: Id): bv64 {
    Xor(Sum(a.srcIp) + Sum(a.dstIp), a.srcPort + a.dstPort)
  }

  lemma SameHash(a: Id, b: Id)
    requires Same(a, b)
    ensures Hash(a) == Hash(b)
  {
    hide Xor, Sum;
    if a.srcIp != b.srcIp || a.srcPort != b.srcPort || a.dstIp != b.dstIp || a.dstPort != b.dstPort {
      assert Sum(a.srcIp) + Sum(a.dstIp) == Sum(b.srcIp) + Sum(b.dstIp);
      assert a.srcPort + a.dstPort == b.srcPort + b.dstPort;
    }
  }

  /** The equality is an equivalence that the hash respects, so it can be the equality of a
      hash table's keys. */
  lemma SameIsEquivalence(a: Id, b: Id, c: Id)
    ensures Same(a, a)
    ensures Same(a, b) ==> Same(b, a)
    ensures Same(a, b) && Same(b, c) ==> Same(a, c)
    ensures Same(a, b) ==> Hash(a) == Hash(b)
    ensures Same(a, b) <==> a == b || a == Reversed(b)
  {
    hide Hash;
    if Same(a, b) {
      SameHash(a, b);
    }
  }

  // ---- Direction ----

  datatype Direction = ToServer | ToClient

  /** `getDirection`: from the end that opened the session, or else to it. */
  function DirectionOf(session: Id, packet: Id): Direction {
    if session.srcIp == packet.srcIp && session.srcPort == packet.srcPort then ToServer else ToClient
  }

  /** The packets of a session that go in its own direction are those to the server. */
  lemma DirectionIsRight(session: Id, packet: Id)
    requires Same(session, packet)
    ensures DirectionOf(session, packet) == ToServer <==> packet == session
    ensures DirectionOf(session, packet) == ToClient ==> packet == Reversed(session)
  {
    if packet == Reversed(session) && session.srcIp == packet.srcIp && session.srcPort == packet.srcPort {
      assert packet == session;
    }
  }
}
