/** The option fields the handlers write by hand into an OFFER and an ACK, store
    by store, what any reader of the format finds in them, and the replies. */
module Replies {
  import opened Words
  import opened OptionFormat
  import opened MessageType
  import opened Leases

  const OFFER: byte := 2
  const ACK: byte := 5
  const NACK: byte := 6

  const SUBNET_MASK: byte := 1
  const ROUTER: byte := 3
  const DOMAIN_NAME_SERVER: byte := 6
  const IP_ADDRESS_LEASE_TIME: byte := 51

  function OfferFields(leaseTime: int): seq<DhcpOption> {
    [Opt(MESSAGE_TYPE, [OFFER]), Opt(IP_ADDRESS_LEASE_TIME, BigEndian(leaseTime))]
  }

  function AckFields(leaseTime: int, subnet: u32, router: u32, dns: u32): seq<DhcpOption> {
    [Opt(MESSAGE_TYPE, [ACK]), Opt(IP_ADDRESS_LEASE_TIME, BigEndian(leaseTime)),
     Opt(SUBNET_MASK, BigEndian(subnet)), Opt(ROUTER, BigEndian(router)),
     Opt(DOMAIN_NAME_SERVER, BigEndian(dns))]
  }

  function Zeros(n: nat): seq<byte> {
    seq(n, i => 0)
  }

  /** The options field of the reply to an INFORM, as it is written: without a cookie, and
      with the length of a DNS option in the place of a message type. */
  function InformField(dns: u32): seq<byte> {
    var front := [MESSAGE_TYPE, 8, DOMAIN_NAME_SERVER, 4] + BigEndian(dns);
    seq(OPTIONS_SIZE, i requires 0 <= i < OPTIONS_SIZE => if i < 8 then front[i] else if i == 25 then END else 0)
  }

  /** The options field of a NACK, without a cookie as well. */
  function NackField(): seq<byte> {
    [MESSAGE_TYPE, 1, NACK, END] + Zeros(308)
  }

  /** A zeroed options field with a serialised list at its front. */
  function OptionsField(os: seq<DhcpOption>): seq<byte>
    requires 5 + WireSize(os) <= OPTIONS_SIZE
  {
    Serialized(os) + Zeros(OPTIONS_SIZE - 5 - WireSize(os))
  }

  lemma SerializedTwo(a: DhcpOption, b: DhcpOption)
    ensures EncodeOptions([a, b]) == EncodeOption(a) + EncodeOption(b)
    ensures WireSize([a, b]) == 4 + |a.data| + |b.data|
  {
    EncodeSnoc([a], b);
    EncodeSnoc([], a);
    assert [] + [a] == [a] && [a] + [b] == [a, b];
  }

  lemma SerializedFive(a: DhcpOption, b: DhcpOption, c: DhcpOption, d: DhcpOption, e: DhcpOption)
    ensures EncodeOptions([a, b, c, d, e]) ==
            EncodeOption(a) + EncodeOption(b) + EncodeOption(c) + EncodeOption(d) + EncodeOption(e)
    ensures WireSize([a, b, c, d, e]) == 10 + |a.data| + |b.data| + |c.data| + |d.data| + |e.data|
  {
    SerializedTwo(a, b);
    EncodeSnoc([a, b], c);
    EncodeSnoc([a, b, c], d);
    EncodeSnoc([a, b, c, d], e);
    assert [a, b] + [c] == [a, b, c] && [a, b, c] + [d] == [a, b, c, d];
    assert [a, b, c, d] + [e] == [a, b, c, d, e];
  }

  lemma OfferFits(leaseTime: int)
    ensures WireSize(OfferFields(leaseTime)) == 9
  {
    var os := OfferFields(leaseTime);
    SerializedTwo(os[0], os[1]);
  }

  lemma AckFits(leaseTime: int, subnet: u32, router: u32, dns: u32)
    ensures WireSize(AckFields(leaseTime, subnet, router, dns)) == 27
  {
    var os := AckFields(leaseTime, subnet, router, dns);
    SerializedFive(os[0], os[1], os[2], os[3], os[4]);
  }

  /** The field so far: `front`, and the zeros of memset behind it. */
  ghost predicate Filled(options: seq<byte>, front: seq<byte>) {
    |front| <= |options| && options == front + Zeros(|options| - |front|)
  }

  /** A zeroed field with the cookie and the message type. */
  method WriteHeader(kind: byte) returns (options: array<byte>)
    ensures fresh(options) && options.Length == OPTIONS_SIZE
    ensures Filled(options[..], MAGIC + EncodeOption(Opt(MESSAGE_TYPE, [kind])))
  {
    options := new byte[OPTIONS_SIZE](i => 0);
    options[0], options[1], options[2], options[3] := 0x63, 0x82, 0x53, 0x63;
    options[4], options[5], options[6] := MESSAGE_TYPE, 1, kind;
  }

  /** The six stores of a four-byte option, most significant byte first. */
  method WriteWordOption(options: array<byte>, at: nat, id: byte, w: int, ghost front: seq<byte>)
    requires at + 6 <= options.Length && |front| == at && Filled(options[..], front)
    modifies options
    ensures Filled(options[..], front + EncodeOption(Opt(id, BigEndian(w))))
  {
    options[at], options[at + 1] := id, 4;
    options[at + 2] := (w / 0x100_0000) % 256;
    options[at + 3] := (w / 0x1_0000) % 256;
    options[at + 4] := (w / 0x100) % 256;
    options[at + 5] := w % 256;
  }

  method WriteEnd(options: array<byte>, at: nat, ghost os: seq<DhcpOption>)
    requires 5 + WireSize(os) <= options.Length == OPTIONS_SIZE
    requires at == 4 + WireSize(os) && Filled(options[..], MAGIC + EncodeOptions(os))
    modifies options
    ensures options[..] == OptionsField(os)
  {
    EncodedSize(os);
    options[at] := END;
  }

  /** The option bytes of send_DHCP_Offer. */
  method WriteOfferOptions(leaseTime: int) returns (options: array<byte>)
    ensures fresh(options)
    ensures 5 + WireSize(OfferFields(leaseTime)) <= OPTIONS_SIZE
    ensures options[..] == OptionsField(OfferFields(leaseTime))
  {
    ghost var os := OfferFields(leaseTime);
    options := WriteHeader(OFFER);
    ghost var front := MAGIC + EncodeOption(os[0]);
    WriteWordOption(options, 7, IP_ADDRESS_LEASE_TIME, leaseTime, front);
    SerializedTwo(os[0], os[1]);
    assert front + EncodeOption(os[1]) == MAGIC + EncodeOptions(os);
    WriteEnd(options, 13, os);
  }

  /** The option bytes of send_DHCP_Ack. */
  method WriteAckOptions(leaseTime: int, subnet: u32, router: u32, dns: u32) returns (options: array<byte>)
    ensures fresh(options)
    ensures 5 + WireSize(AckFields(leaseTime, subnet, router, dns)) <= OPTIONS_SIZE
    ensures options[..] == OptionsField(AckFields(leaseTime, subnet, router, dns))
  {
    ghost var os := AckFields(leaseTime, subnet, router, dns);
    options := WriteHeader(ACK);
    ghost var front := MAGIC + EncodeOption(os[0]);
    WriteWordOption(options, 7, IP_ADDRESS_LEASE_TIME, leaseTime, front);
    ghost var front1 := front + EncodeOption(os[1]);
    WriteWordOption(options, 13, SUBNET_MASK, subnet, front1);
    ghost var front2 := front1 + EncodeOption(os[2]);
    WriteWordOption(options, 19, ROUTER, router, front2);
    ghost var front3 := front2 + EncodeOption(os[3]);
    WriteWordOption(options, 25, DOMAIN_NAME_SERVER, dns, front3);
    SerializedFive(os[0], os[1], os[2], os[3], os[4]);
    assert front3 + EncodeOption(os[4]) == MAGIC + EncodeOptions(os);
    WriteEnd(options, 31, os);
  }

  /** The option bytes of handle_DHCP_Inform_Reply. */
  method WriteInformOptions(dns: u32) returns (options: array<byte>)
    ensures fresh(options) && options[..] == InformField(dns)
  {
    options := new byte[OPTIONS_SIZE](i => 0);
    options[0], options[1], options[2], options[3] := MESSAGE_TYPE, 8, DOMAIN_NAME_SERVER, 4;
    options[4], options[5] := (dns / 0x100_0000) % 256, (dns / 0x1_0000) % 256;
    options[6], options[7] := (dns / 0x100) % 256, dns % 256;
    options[25] := END;
  }

  /** The option bytes of send_DHCP_NACK. */
  method WriteNackOptions() returns (options: array<byte>)
    ensures fresh(options) && options[..] == NackField()
  {
    options := new byte[OPTIONS_SIZE](i => 0);
    options[0], options[1], options[2], options[3] := MESSAGE_TYPE, 1, NACK, END;
  }

  /** A field with a serialised list at its front reads as that list, and scans
      to its type even when two stray bytes behind it are in reach. */
  lemma FieldReadsBack(os: seq<DhcpOption>, behind: seq<byte>)
    requires NoEnd(os) && 5 + WireSize(os) <= OPTIONS_SIZE
    ensures |OptionsField(os)| == OPTIONS_SIZE
    ensures Parse(OptionsField(os)) == Parsed(true, os)
    ensures Scan(OptionsField(os) + behind, OPTIONS_SIZE) == TypeOf(os)
  {
    EncodedSize(os);
    var field := OptionsField(os);
    AcceptedIffSerialized(field, os);
    assert (field + behind)[..OPTIONS_SIZE] == field;
    ScanAgreesWithParse(field + behind, OPTIONS_SIZE);
  }

  /** An OFFER decodes to message type 2 and the lease time of the configuration. */
  lemma OfferReadsBack(leaseTime: int, behind: seq<byte>)
    ensures 5 + WireSize(OfferFields(leaseTime)) <= OPTIONS_SIZE
    ensures var field := OptionsField(OfferFields(leaseTime));
            && Parse(field).ok && Scan(field + behind, OPTIONS_SIZE) == 2
            && var os := Parse(field).options;
               |os| == 2 && os[0] == Opt(53, [2]) && Carries(os[1], 51, leaseTime % TWO_TO_THE_32)
  {
    OfferFits(leaseTime);
    FieldReadsBack(OfferFields(leaseTime), behind);
    CarriesWord(51, leaseTime);
  }

  /** An option holding one word, as its reader sees it. */
  predicate Carries(o: DhcpOption, id: byte, w: u32) {
    o.id == id && |o.data| == 4 && WordAt(o.data) == w
  }

  lemma CarriesWord(id: byte, w: int)
    ensures Carries(Opt(id, BigEndian(w)), id, w % TWO_TO_THE_32)
    ensures 0 <= w < TWO_TO_THE_32 ==> Carries(Opt(id, BigEndian(w)), id, w)
  {
    WordAtBigEndian(w);
  }

  /** What the five options of an ACK say. */
  predicate SaysAck(os: seq<DhcpOption>, leaseTime: int, subnet: u32, router: u32, dns: u32) {
    && |os| == 5
    && os[0] == Opt(53, [5])
    && Carries(os[1], 51, leaseTime % TWO_TO_THE_32)
    && Carries(os[2], 1, subnet)
    && Carries(os[3], 3, router)
    && Carries(os[4], 6, dns)
  }

  lemma AckFieldsSayIt(leaseTime: int, subnet: u32, router: u32, dns: u32)
    ensures SaysAck(AckFields(leaseTime, subnet, router, dns), leaseTime, subnet, router, dns)
  {
    CarriesWord(51, leaseTime);
    CarriesWord(1, subnet);
    CarriesWord(3, router);
    CarriesWord(6, dns);
  }

  /** An ACK decodes to message type 5, lease time, mask, router and DNS server. */
  lemma AckReadsBack(leaseTime: int, subnet: u32, router: u32, dns: u32, behind: seq<byte>)
    ensures 5 + WireSize(AckFields(leaseTime, subnet, router, dns)) <= OPTIONS_SIZE
    ensures var field := OptionsField(AckFields(leaseTime, subnet, router, dns));
            && Parse(field).ok && Scan(field + behind, OPTIONS_SIZE) == 5
            && SaysAck(Parse(field).options, leaseTime, subnet, router, dns)
  {
    AckFits(leaseTime, subnet, router, dns);
    FieldReadsBack(AckFields(leaseTime, subnet, router, dns), behind);
    AckFieldsSayIt(leaseTime, subnet, router, dns);
  }

  // ----- Whole replies

  /** The fields of a reply that are written; the others are zero. `client` is what is
      copied into chaddr. */
  datatype Reply =
    | NoReply
    | Reply(op: byte, htype: byte, hlen: byte, xid: u32, flags: int, yiaddr: u32, siaddr: u32,
            client: seq<byte>, options: seq<byte>)

  const BOOTREPLY: byte := 2
  const ACK_SERVER: u32 := 0xC0A8_0101

  /** What is sent when handling `t` in state `s` comes to `action`. */
  function ReplyTo(s: Server, t: Task, action: Action): Reply {
    var m := t.request;
    match action
    case Offered(_, ip) =>
      OfferFits(s.config.maxLeaseTime);
      Reply(BOOTREPLY, m.htype, m.hlen, m.xid, m.flags, ip, s.config.router, ClientOf(m),
            OptionsField(OfferFields(s.config.maxLeaseTime)))
    case Acked(_, ip) =>
      AckFits(s.config.maxLeaseTime, ACK_SUBNET, s.config.router, ACK_DNS);
      Reply(BOOTREPLY, m.htype, m.hlen, m.xid, 0, ip, ACK_SERVER, ClientOf(m),
            OptionsField(AckFields(s.config.maxLeaseTime, ACK_SUBNET, s.config.router, ACK_DNS)))
    case Informed(dns) => Reply(BOOTREPLY, m.htype, m.hlen, m.xid, 0, 0, 0, ClientOf(m), InformField(dns))
    case Nacked => Reply(BOOTREPLY, m.htype, m.hlen, m.xid, 0, 0, 0, ClientOf(m), NackField())
    case _ => NoReply
  }

  /** A client that gets an OFFER or an ACK finds in it the address the action is
      about, its own transaction, and well-formed options of the right type. */
  lemma ReplyReadsBack(s: Server, t: Task, action: Action, behind: seq<byte>)
    requires action.Offered? || action.Acked?
    ensures var reply := ReplyTo(s, t, action);
            && reply.Reply? && reply.yiaddr == action.ip && reply.xid == t.request.xid
            && Parse(reply.options).ok
            && Scan(reply.options + behind, OPTIONS_SIZE) == (if action.Offered? then OFFER else ACK)
            && |Parse(reply.options).options| > 1
            && Carries(Parse(reply.options).options[1], IP_ADDRESS_LEASE_TIME, s.config.maxLeaseTime % TWO_TO_THE_32)
  {
    OfferReadsBack(s.config.maxLeaseTime, behind);
    AckReadsBack(s.config.maxLeaseTime, ACK_SUBNET, s.config.router, ACK_DNS, behind);
  }

  /** One reply for each task, as a server with the configuration of `s` sends it. */
  ghost predicate Answers(s: Server, tasks: seq<Task>, actions: seq<Action>, replies: seq<Reply>) {
    |replies| == |tasks| == |actions|
    && forall i :: 0 <= i < |tasks| ==> replies[i] == ReplyTo(s, tasks[i], actions[i])
  }
}
