/** Well-formed datagrams, for runs that show that something can happen. */
module Samples {
  import opened Words
  import opened OptionFormat
  import opened MessageType
  import opened Replies
  import opened Leases

  /** A message of any type that names `ip`, from a client with a hardware address
      of zeros of any length. */
  ghost function Sample(messageType: byte, hlen: byte, ip: u32): (t: Task)
    requires hlen <= 16
    ensures DispatchType(t) == messageType && t.mallocOk
    ensures Parse(t.request.memory[..OPTIONS_SIZE]) == Parsed(true, [Opt(MESSAGE_TYPE, [messageType])])
    ensures t.request.hlen == hlen && t.request.chaddr == Zeros(16)
    ensures t.request.yiaddr == t.request.ciaddr == ip
  {
    var os := [Opt(MESSAGE_TYPE, [messageType])];
    EncodeSnoc([], os[0]);
    assert [] + [os[0]] == os;
    FieldReadsBack(os, [0, 0]);
    var memory := OptionsField(os) + [0, 0];
    assert memory[..OPTIONS_SIZE] == OptionsField(os);
    Task(548, Message(BOOTREQUEST, 1, hlen, 1, 0, ip, ip, Zeros(16), memory), true, 0)
  }

  ghost function SomeDiscover(): (t: Task)
    ensures DispatchType(t) == TYPE_DISCOVER && t.mallocOk
  {
    Sample(TYPE_DISCOVER, 6, 0)
  }
}
