/** What stands in a reply, byte by byte, in the numbers of RFC 2131 and RFC 2132 and
    without reference to the code that writes it; and who can read it. */
module ReplyContents {
  import opened Words
  import opened OptionFormat
  import opened MessageType
  import opened Leases
  import opened Replies

  /** Four bytes at `at`, most significant byte first. */
  predicate WordIn(options: seq<byte>, at: nat, w: int)
    requires at + 4 <= |options|
  {
    var a: int, b: int, c: int, d: int := options[at], options[at + 1], options[at + 2], options[at + 3];
    a * 0x100_0000 + b * 0x1_0000 + c * 0x100 + d == w % 0x1_0000_0000
  }

  predicate ZerosFrom(options: seq<byte>, at: nat) {
    forall i :: at <= i < |options| ==> options[i] == 0
  }

  predicate OfferBytes(options: seq<byte>, leaseTime: int) {
    && |options| == 312
    && options[..9] == [0x63, 0x82, 0x53, 0x63, 53, 1, 2, 51, 4] && WordIn(options, 9, leaseTime)
    && options[13] == 255 && ZerosFrom(options, 14)
  }

  predicate AckBytes(options: seq<byte>, leaseTime: int, router: u32) {
    && |options| == 312
    && options[..9] == [0x63, 0x82, 0x53, 0x63, 53, 1, 5, 51, 4] && WordIn(options, 9, leaseTime)
    && options[13..15] == [1, 4] && options[15..19] == [255, 255, 255, 0]
    && options[19..21] == [3, 4] && WordIn(options, 21, router)
    && options[25..27] == [6, 4] && options[27..31] == [8, 8, 8, 8]
    && options[31] == 255 && ZerosFrom(options, 32)
  }

  predicate InformBytes(options: seq<byte>, dns: u32) {
    && |options| == 312
    && options[..4] == [53, 8, 6, 4] && WordIn(options, 4, dns)
    && (forall i :: 8 <= i < 312 ==> options[i] == if i == 25 then 255 else 0)
  }

  predicate NackBytes(options: seq<byte>) {
    |options| == 312 && options[..4] == [53, 1, 6, 255] && ZerosFrom(options, 4)
  }

  /** A BOOTREPLY to the client that sent `t`, in its transaction. */
  predicate Answering(t: Task, reply: Reply) {
    && reply.Reply? && reply.op == 2
    && reply.htype == t.request.htype && reply.hlen == t.request.hlen && reply.xid == t.request.xid
    && reply.client == t.request.chaddr[..t.request.hlen]
  }

  /** What is sent when handling `t` comes to `action`. */
  predicate Conveys(config: Config, t: Task, action: Action, reply: Reply) {
    match action
    case Offered(_, ip) =>
      && Answering(t, reply) && OfferBytes(reply.options, config.maxLeaseTime)
      && reply.flags == t.request.flags && reply.yiaddr == ip && reply.siaddr == config.router
    case Acked(_, ip) =>
      && Answering(t, reply) && AckBytes(reply.options, config.maxLeaseTime, config.router)
      && reply.flags == 0 && reply.yiaddr == ip && reply.siaddr == 0xC0A8_0101
    case Informed(dns) =>
      && Answering(t, reply) && InformBytes(reply.options, dns)
      && reply.flags == 0 && reply.yiaddr == 0 && reply.siaddr == 0
    case Nacked =>
      && Answering(t, reply) && NackBytes(reply.options)
      && reply.flags == 0 && reply.yiaddr == 0 && reply.siaddr == 0
    case Silent => reply == NoReply
    case OfferLost(_) => reply == NoReply
    case Declined(_, _) => reply == NoReply
    case Released(_, _) => reply == NoReply
  }

  // ----- The bytes

  lemma BigEndianIn(options: seq<byte>, at: nat, w: int)
    requires at + 4 <= |options| && options[at..at + 4] == BigEndian(w)
    ensures WordIn(options, at, w)
  {
    WordAtBigEndian(w);
    var bytes := BigEndian(w);
    assert options[at] == options[at..at + 4][0] && options[at + 1] == options[at..at + 4][1];
    assert options[at + 2] == options[at..at + 4][2] && options[at + 3] == options[at..at + 4][3];
    assert WordAt(bytes) == w % 0x1_0000_0000;
  }

  lemma OfferIs(leaseTime: int)
    ensures 5 + WireSize(OfferFields(leaseTime)) <= OPTIONS_SIZE
    ensures OfferBytes(OptionsField(OfferFields(leaseTime)), leaseTime)
  {
    var os := OfferFields(leaseTime);
    OfferFits(leaseTime);
    SerializedTwo(os[0], os[1]);
    var options := OptionsField(os);
    assert options == [0x63, 0x82, 0x53, 0x63, 53, 1, 2, 51, 4] + BigEndian(leaseTime) + [255] + Zeros(298);
    BigEndianIn(options, 9, leaseTime);
  }

  function AckLayout(leaseTime: int, router: u32): seq<byte> {
    [0x63, 0x82, 0x53, 0x63]
    + ([53, 1, 5] + ([51, 4] + BigEndian(leaseTime)) + [1, 4, 255, 255, 255, 0]
       + ([3, 4] + BigEndian(router)) + [6, 4, 8, 8, 8, 8])
    + [255] + Zeros(280)
  }

  lemma AckLaidOut(leaseTime: int, router: u32)
    ensures 5 + WireSize(AckFields(leaseTime, ACK_SUBNET, router, ACK_DNS)) <= OPTIONS_SIZE
    ensures OptionsField(AckFields(leaseTime, ACK_SUBNET, router, ACK_DNS)) == AckLayout(leaseTime, router)
  {
    var os := AckFields(leaseTime, ACK_SUBNET, router, ACK_DNS);
    AckFits(leaseTime, ACK_SUBNET, router, ACK_DNS);
    SerializedFive(os[0], os[1], os[2], os[3], os[4]);
    assert EncodeOption(os[0]) == [53, 1, 5];
    assert EncodeOption(os[2]) == [1, 4] + BigEndian(0xFFFF_FF00) == [1, 4, 255, 255, 255, 0];
    assert EncodeOption(os[4]) == [6, 4] + BigEndian(0x0808_0808) == [6, 4, 8, 8, 8, 8];
  }

  lemma AckLayoutBytes(leaseTime: int, router: u32)
    ensures AckBytes(AckLayout(leaseTime, router), leaseTime, router)
  {
    BigEndianIn(AckLayout(leaseTime, router), 9, leaseTime);
    BigEndianIn(AckLayout(leaseTime, router), 21, router);
  }

  lemma AckIs(leaseTime: int, router: u32)
    ensures 5 + WireSize(AckFields(leaseTime, ACK_SUBNET, router, ACK_DNS)) <= OPTIONS_SIZE
    ensures AckBytes(OptionsField(AckFields(leaseTime, ACK_SUBNET, router, ACK_DNS)), leaseTime, router)
  {
    AckLaidOut(leaseTime, router);
    AckLayoutBytes(leaseTime, router);
  }

  lemma InformIs(dns: u32)
    ensures InformBytes(InformField(dns), dns)
  {
    BigEndianIn(InformField(dns), 4, dns);
  }

  lemma NackIs()
    ensures NackBytes(NackField())
  {
  }

  /** The replies of the model are these. */
  lemma ReplyConveys(s: Server, t: Task, action: Action)
    ensures Conveys(s.config, t, action, ReplyTo(s, t, action))
  {
    match action
    case Offered(_, _) => OfferIs(s.config.maxLeaseTime);
    case Acked(_, _) => AckIs(s.config.maxLeaseTime, s.config.router);
    case Informed(dns) => InformIs(dns);
    case Nacked => NackIs();
    case _ =>
  }

  // ----- What readers find

  /** The parser finds the five options of an ACK. */
  lemma AckSays(s: Server, t: Task, client: seq<byte>, ip: u32)
    ensures var reply := ReplyTo(s, t, Acked(client, ip));
            && reply.Reply? && Parse(reply.options).ok
            && SaysAck(Parse(reply.options).options, s.config.maxLeaseTime, 0xFFFF_FF00, s.config.router, 0x0808_0808)
  {
    AckReadsBack(s.config.maxLeaseTime, ACK_SUBNET, s.config.router, ACK_DNS, []);
  }

  /** No reader finds anything in a NACK: it has no cookie, and the scan for the message
      type starts behind it. */
  lemma NackUnreadable(options: seq<byte>, behind: seq<byte>)
    requires NackBytes(options)
    ensures !Parse(options).ok && Parse(options).options == [] && Scan(options + behind, 312) == 0
  {
    assert options[0] == options[..4][0] == 53;
    ScanOverZeros(options + behind, 312, 4);
  }

  /** Nor in the reply to an INFORM, unless the DNS server's address starts with 53 and a
      number other than 0, which is then taken for a message type. */
  lemma InformUnreadable(options: seq<byte>, dns: u32, behind: seq<byte>)
    requires InformBytes(options, dns)
    ensures !Parse(options).ok && Parse(options).options == []
    ensures Scan(options + behind, 312) == if options[4] == 53 && options[5] != 0 then options[6] else 0
  {
    var memory := options + behind;
    assert options[0] == options[..4][0] == 53;
    assert forall i :: 4 <= i < 312 ==> Load(memory, i) == options[i];
    if !(options[4] == 53 && options[5] != 0) && options[4] != 255 {
      var skipped: nat := options[5];
      var next := 6 + skipped;
      assert Scan(memory, 312) == ScanFrom(memory, 312, next);
      ScanBehindWord(memory, next);
    }
  }

  /** Behind the first two bytes of the word there is nothing to find. */
  lemma ScanBehindWord(memory: seq<byte>, i: nat)
    requires |memory| >= 312 && 6 <= i
    requires forall j :: 8 <= j < 312 ==> memory[j] == if j == 25 then 255 else 0
    ensures ScanFrom(memory, 312, i) == 0
    decreases 312 - i
  {
    if i > 25 {
      ScanOverZeros(memory, 312, i);
    } else {
      assert Load(memory, i) == memory[i] && Load(memory, i + 1) == memory[i + 1];
      if memory[i] != END && !(memory[i] == 53 && memory[i + 1] >= 1) {
        ScanBehindWord(memory, i + 2 + memory[i + 1]);
      }
    }
  }
}
