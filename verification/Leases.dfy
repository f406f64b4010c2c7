/** The lease state machine: what handle_client does to the address pool, the
    binding list and the configuration, and what it sends. Addresses are in host
    order throughout, so htonl and ntohl leave no trace. */
module Leases {
  import opened Words
  import opened OptionFormat
  import opened MessageType
  import opened Bindings

  const BOOTREQUEST: byte := 1

  /** What the ACK handler puts into the configuration before it answers. */
  const ACK_SUBNET: u32 := 0xFFFF_FF00
  const ACK_DNS: u32 := 0x0808_0808

  // The message types handle_client acts on, by the numbers in its switch
  const TYPE_DISCOVER: byte := 1
  const TYPE_REQUEST: byte := 3
  const TYPE_DECLINE: byte := 5
  const TYPE_NACK: byte := 6
  const TYPE_RELEASE: byte := 7
  const TYPE_INFORM: byte := 8

  /** `current` is the address offered last. */
  datatype Pool = Pool(first: u32, last: u32, current: u32)

  datatype Config = Config(maxLeaseTime: int, router: u32, subnet: u32, dns: u32)

  /** A received message. `memory` holds the 312 bytes of the options field and
      the two that happen to lie behind it. */
  datatype Message = Message(op: byte, htype: byte, hlen: byte, xid: u32, flags: int,
                             ciaddr: u32, yiaddr: u32, chaddr: seq<byte>, memory: seq<byte>)

  /** chaddr has 16 bytes, and hlen counts the ones in use. */
  ghost predicate WellFormed(m: Message) {
    |m.chaddr| == 16 && m.hlen <= 16 && |m.memory| == OPTIONS_SIZE + 2
  }

  type Request = m: Message | WellFormed(m)
    ghost witness Message(1, 1, 6, 1, 0, 0, 0, seq(16, i => 0), seq(OPTIONS_SIZE + 2, i => 0))

  /** A queued datagram, with what the environment will answer while it is being
      handled: whether malloc succeeds, and the time. */
  datatype Task = Task(recvBytes: int, request: Request, mallocOk: bool, now: int)

  datatype Server = Server(pool: Pool, bindings: seq<Binding>, config: Config)

  /** What handling a datagram came to. */
  datatype Action =
    | Silent
    | Offered(client: seq<byte>, ip: u32)
    | OfferLost(ip: u32)
    | Acked(client: seq<byte>, ip: u32)
    | Declined(client: seq<byte>, ip: u32)
    | Released(client: seq<byte>, ip: u32)
    | Informed(dns: u32)
    | Nacked

  // ----- is_ip_available, offer_ip_available

  predicate Bound(bs: seq<Binding>, ip: u32) {
    exists i :: 0 <= i < |bs| && bs[i].address == ip
  }

  predicate IpAvailable(pool: Pool, bs: seq<Binding>, ip: u32) {
    pool.first <= ip <= pool.last && !Bound(bs, ip)
  }

  datatype ScanResult = Exhausted | Found(ip: u32) | Running

  /** The for loop over candidate addresses, cut off after `probes` steps. The
      loop variable is a uint32_t, so it wraps around behind 2^32 - 1. */
  function ScanPool(pool: Pool, bs: seq<Binding>, ip: u32, probes: nat): ScanResult
    decreases probes
  {
    if ip > pool.last then Exhausted
    else if IpAvailable(pool, bs, ip) then Found(ip)
    else if probes == 0 then Running
    else ScanPool(pool, bs, Succ32(ip), probes - 1)
  }

  /** How the loop ends, or Running if it never does. */
  ghost function ScanOutcome(pool: Pool, bs: seq<Binding>): ScanResult {
    if probes: nat :| ScanPool(pool, bs, Succ32(pool.current), probes) != Running
    then ScanPool(pool, bs, Succ32(pool.current), probes)
    else Running
  }

  lemma {:induction false} ScanSettled(pool: Pool, bs: seq<Binding>, ip: u32, p: nat, q: nat)
    requires ScanPool(pool, bs, ip, p) != Running && p <= q
    ensures ScanPool(pool, bs, ip, q) == ScanPool(pool, bs, ip, p)
    decreases p
  {
    if ip <= pool.last && !IpAvailable(pool, bs, ip) {
      ScanSettled(pool, bs, Succ32(ip), p - 1, q - 1);
    }
  }

  /** Any number of probes that ends the scan shows its outcome. */
  lemma ScanOutcomeIs(pool: Pool, bs: seq<Binding>, probes: nat)
    requires ScanPool(pool, bs, Succ32(pool.current), probes) != Running
    ensures ScanOutcome(pool, bs) == ScanPool(pool, bs, Succ32(pool.current), probes)
  {
    var other: nat :| ScanPool(pool, bs, Succ32(pool.current), other) != Running
                      && ScanOutcome(pool, bs) == ScanPool(pool, bs, Succ32(pool.current), other);
    if other <= probes {
      ScanSettled(pool, bs, Succ32(pool.current), other, probes);
    } else {
      ScanSettled(pool, bs, Succ32(pool.current), probes, other);
    }
  }

  // ----- The handlers

  function ClientOf(m: Request): seq<byte> {
    m.chaddr[..m.hlen]
  }

  /** The key under which REQUEST searches, whatever hlen says. */
  function RequestKey(m: Request): seq<byte> {
    m.chaddr[..6]
  }

  function NewBinding(t: Task, ip: u32, config: Config): Binding {
    Binding(ip, ClientOf(t.request), t.now, t.now + config.maxLeaseTime, ASSOCIATED, DYNAMIC)
  }

  /** The state after a datagram, and what came of it; None when the handler
      does not return. */
  datatype Result = None | Done(server: Server, action: Action)

  /** send_DHCP_Offer */
  ghost function Discover(s: Server, t: Task): Result {
    if s.pool.current >= s.pool.last then Done(s, Silent)
    else
      match ScanOutcome(s.pool, s.bindings)
      case Running => None
      case Exhausted => Done(s, Silent)
      case Found(ip) =>
        var moved := s.(pool := s.pool.(current := ip));
        if ip == 0 then Done(moved, Silent)
        else if !t.mallocOk then Done(moved, OfferLost(ip))
        else
          Done(moved.(bindings := [NewBinding(t, ip, s.config)] + s.bindings), Offered(ClientOf(t.request), ip))
  }

  // REQUEST, DECLINE and RELEASE look a binding up first and then go on with it; with
  // several workers others can come in between.

  /** The rest of send_DHCP_Ack, which also overwrites two words of the configuration. */
  function AcknowledgeWith(s: Server, t: Task, k: nat): Result
    requires k < |s.bindings|
  {
    Done(s.(config := s.config.(subnet := ACK_SUBNET, dns := ACK_DNS)),
         Acked(RequestKey(t.request), s.bindings[k].address))
  }

  /** send_DHCP_Ack */
  function Acknowledge(s: Server, t: Task): Result {
    var k := Search(s.bindings, RequestKey(t.request), STATIC_OR_DYNAMIC, ASSOCIATED);
    if k == |s.bindings| then Done(s, Silent) else AcknowledgeWith(s, t, k)
  }

  /** The rest of handle_DHCP_Decline. */
  function DeclineWith(s: Server, t: Task, k: nat): Result
    requires k < |s.bindings|
  {
    var m := t.request;
    if s.bindings[k].address == m.yiaddr then
      Done(s.(bindings := s.bindings[..k] + s.bindings[k + 1..]), Declined(ClientOf(m), m.yiaddr))
    else Done(s, Silent)
  }

  /** handle_DHCP_Decline */
  function Decline(s: Server, t: Task): Result {
    var k := Search(s.bindings, ClientOf(t.request), DYNAMIC, ASSOCIATED);
    if k == |s.bindings| then Done(s, Silent) else DeclineWith(s, t, k)
  }

  /** The rest of handle_DHCP_Release. */
  function ReleaseWith(s: Server, t: Task, k: nat): Result
    requires k < |s.bindings|
  {
    var m := t.request;
    if s.bindings[k].address == m.ciaddr then
      Done(s.(bindings := s.bindings[k := s.bindings[k].(status := RELEASED, leaseTime := 0)]),
           Released(ClientOf(m), m.ciaddr))
    else Done(s, Silent)
  }

  /** handle_DHCP_Release */
  function Release(s: Server, t: Task): Result {
    var k := Search(s.bindings, ClientOf(t.request), STATIC_OR_DYNAMIC, ASSOCIATED);
    if k == |s.bindings| then Done(s, Silent) else ReleaseWith(s, t, k)
  }

  /** The message type a datagram is dispatched on; 0 when it is dropped unread. */
  function DispatchType(t: Task): byte {
    if t.recvBytes < 0 || t.request.op != BOOTREQUEST || t.request.xid == 0 then 0
    else Scan(t.request.memory, OPTIONS_SIZE)
  }

  /** handle_client */
  ghost function Handle(s: Server, t: Task): Result {
    var messageType := DispatchType(t);
    if messageType == TYPE_DISCOVER then Discover(s, t)
    else if messageType == TYPE_REQUEST then Acknowledge(s, t)
    else if messageType == TYPE_DECLINE then Decline(s, t)
    else if messageType == TYPE_RELEASE then Release(s, t)
    else if messageType == TYPE_INFORM then Done(s, Informed(s.config.dns))
    else if messageType == TYPE_NACK then Done(s, Nacked)
    else Done(s, Silent)
  }

  // ----- Looking up and going on, as two steps

  predicate LooksUp(t: Task) {
    DispatchType(t) == TYPE_REQUEST || DispatchType(t) == TYPE_DECLINE || DispatchType(t) == TYPE_RELEASE
  }

  /** The key a binding is looked up under. */
  function KeyOf(t: Task): seq<byte> {
    if DispatchType(t) == TYPE_REQUEST then RequestKey(t.request) else ClientOf(t.request)
  }

  /** The position of the binding found, or the length of the list. */
  function LookUp(s: Server, t: Task): (k: nat)
    ensures k <= |s.bindings|
    ensures k < |s.bindings| ==> s.bindings[k].cident == KeyOf(t) && s.bindings[k].status == ASSOCIATED
  {
    Search(s.bindings, KeyOf(t), if DispatchType(t) == TYPE_DECLINE then DYNAMIC else STATIC_OR_DYNAMIC, ASSOCIATED)
  }

  /** What becomes of a binding that was found, wherever it stands by now. */
  function GoOnWith(s: Server, t: Task, k: nat): Result
    requires k < |s.bindings|
  {
    if DispatchType(t) == TYPE_REQUEST then AcknowledgeWith(s, t, k)
    else if DispatchType(t) == TYPE_DECLINE then DeclineWith(s, t, k)
    else ReleaseWith(s, t, k)
  }

  /** The two in a row are the handler. */
  lemma LookUpThenGoOn(s: Server, t: Task)
    requires LooksUp(t)
    ensures var k := LookUp(s, t);
            Handle(s, t) == if k == |s.bindings| then Done(s, Silent) else GoOnWith(s, t, k)
  {
  }

  // ----- Runs

  datatype Event = Datagram(task: Task) | Maintenance(now: int)

  ghost function React(s: Server, e: Event): Result {
    match e
    case Datagram(t) => Handle(s, t)
    case Maintenance(now) => Done(s.(bindings := Maintain(s.bindings, now)), Silent)
  }

  /** The server as main starts it: nothing bound, the cursor on the first address. */
  function Initial(first: u32, last: u32, config: Config): Server {
    Server(Pool(first, last, first), [], config)
  }

  datatype Outcome = Hung | Ran(server: Server, actions: seq<Action>)

  /** A whole run, one action per event. */
  ghost function Run(s: Server, events: seq<Event>): Outcome
    decreases events
  {
    if events == [] then Ran(s, [])
    else
      var n := |events| - 1;
      match Run(s, events[..n])
      case Hung => Hung
      case Ran(before, actions) =>
        match React(before, events[n])
        case None => Hung
        case Done(after, action) => Ran(after, actions + [action])
  }
}
