/** A reader of the options field as RFC 2132 has it. Its section 3.1 makes PAD a
    single byte without length or data; to the code it is an option like any other.
    Here is when that makes a difference. */
module StandardReader {
  import opened Words
  import opened OptionFormat
  import opened MessageType
  import opened Leases

  const PAD: byte := 0

  function StandardFrom(buf: seq<byte>, pos: nat): Parsed
    decreases |buf| - pos
  {
    if pos >= |buf| then Parsed(false, [])
    else if buf[pos] == END then Parsed(true, [])
    else if buf[pos] == PAD then StandardFrom(buf, pos + 1)
    else if !OptionFits(buf, pos) then Parsed(false, [])
    else Prepend([OptionAt(buf, pos)], StandardFrom(buf, pos + 2 + buf[pos + 1]))
  }

  function StandardParse(buf: seq<byte>): Parsed {
    if HasCookie(buf) then StandardFrom(buf, 4) else Parsed(false, [])
  }

  predicate NoPad(os: seq<DhcpOption>) {
    forall i :: 0 <= i < |os| ==> os[i].id != PAD
  }

  /** The first byte from `pos` on that is not PAD. */
  function SkipPads(buf: seq<byte>, pos: nat): (q: nat)
    ensures q >= pos
    decreases |buf| - pos
  {
    if pos < |buf| && buf[pos] == PAD then SkipPads(buf, pos + 1) else pos
  }

  // ----- The two readers side by side

  /** PAD is never an option to the standard reader. */
  lemma {:induction false} StandardYieldsNoPad(buf: seq<byte>, pos: nat)
    ensures NoPad(StandardFrom(buf, pos).options)
    decreases |buf| - pos
  {
    if pos < |buf| && buf[pos] != END {
      if buf[pos] == PAD {
        StandardYieldsNoPad(buf, pos + 1);
      } else if OptionFits(buf, pos) {
        StandardYieldsNoPad(buf, pos + 2 + buf[pos + 1]);
      }
    }
  }

  /** Reading one encoded option in front of what is read behind it. */
  lemma StandardEncoded(buf: seq<byte>, pos: nat, o: DhcpOption, tail: seq<DhcpOption>, rest: Parsed)
    requires At(buf, pos, EncodeOption(o)) && pos + 2 + |o.data| < |buf| && o.id != END && o.id != PAD
    requires StandardFrom(buf, pos + 2 + |o.data|) == Prepend(tail, rest)
    ensures StandardFrom(buf, pos) == Prepend([o] + tail, rest)
  {
    OptionAtEncoded(buf, pos, o);
    PrependTwice([o], tail, rest);
  }

  /** It retraces an encoding without PAD as the parser does. */
  lemma {:induction false} StandardFollows(buf: seq<byte>, pos: nat, os: seq<DhcpOption>)
    requires NoEnd(os) && NoPad(os) && At(buf, pos, EncodeOptions(os))
    requires os == [] || pos + |EncodeOptions(os)| < |buf|
    ensures StandardFrom(buf, pos) == Prepend(os, StandardFrom(buf, pos + |EncodeOptions(os)|))
    decreases os
  {
    if os == [] {
      var r := StandardFrom(buf, pos);
      assert [] + r.options == r.options;
    } else {
      var o, tail := os[0], os[1..];
      var next := pos + 2 + |o.data|;
      AtConcat(buf, pos, EncodeOption(o), EncodeOptions(tail));
      StandardFollows(buf, next, tail);
      StandardEncoded(buf, pos, o, tail, StandardFrom(buf, next + |EncodeOptions(tail)|));
      assert os == [o] + tail;
    }
  }

  /** It gives up without an option exactly where nothing but PADs stand in front
      of the end of the buffer or of a cut-off option. */
  lemma {:induction false} StandardGivesUp(buf: seq<byte>, pos: nat)
    ensures StandardFrom(buf, pos) == Parsed(false, []) <==> Truncated(buf, SkipPads(buf, pos))
    decreases |buf| - pos
  {
    if pos < |buf| && buf[pos] == PAD {
      StandardGivesUp(buf, pos + 1);
    }
  }

  /** Where the parser stops. */
  function StoppedAt(buf: seq<byte>): nat {
    4 + |EncodeOptions(Parse(buf).options)|
  }

  /** What a buffer must be like for PAD not to matter: the parser has taken none for
      an option, and if it gives up, there is nothing more behind the PADs there. */
  predicate PadMakesNoDifference(buf: seq<byte>) {
    NoPad(Parse(buf).options) && (Parse(buf).ok || Truncated(buf, SkipPads(buf, StoppedAt(buf))))
  }

  lemma SameRest(os: seq<DhcpOption>, r: Parsed, ok: bool)
    ensures Prepend(os, r) == Parsed(ok, os) <==> r == Parsed(ok, [])
  {
    assert os + [] == os;
    assert |os + r.options| == |os| + |r.options|;
  }

  /** The parser agrees with the standard on a buffer with a cookie if and only if
      PAD makes no difference to it. */
  lemma AgreesWithStandardIff(buf: seq<byte>)
    requires HasCookie(buf)
    ensures StandardParse(buf) == Parse(buf) <==> PadMakesNoDifference(buf)
  {
    var r, next := Parse(buf), StoppedAt(buf);
    ParseFromConsumes(buf, 4);
    if NoPad(r.options) {
      StandardFollows(buf, 4, r.options);
      SameRest(r.options, StandardFrom(buf, next), r.ok);
      StandardGivesUp(buf, next);
    } else {
      StandardYieldsNoPad(buf, 4);
    }
  }

  /** In particular, on what the parser accepts: if and only if no id is PAD. */
  lemma AcceptedAgreesIffNoPad(buf: seq<byte>, os: seq<DhcpOption>)
    requires NoEnd(os) && Serialized(os) <= buf
    ensures Parse(buf) == Parsed(true, os)
    ensures StandardParse(buf) == Parse(buf) <==> NoPad(os)
  {
    AcceptedIffSerialized(buf, os);
    AgreesWithStandardIff(buf);
  }

  // ----- What the dispatch makes of it

  /** In front of the first message type the PADs come in pairs, each of which looks like
      an empty option. */
  predicate PadsPaired(buf: seq<byte>, pos: nat)
    decreases |buf| - pos
  {
    if pos >= |buf| || buf[pos] == END then true
    else if buf[pos] == PAD then pos + 1 < |buf| && buf[pos + 1] == PAD && PadsPaired(buf, pos + 2)
    else !OptionFits(buf, pos) || NamesType(OptionAt(buf, pos)) || PadsPaired(buf, pos + 2 + buf[pos + 1])
  }

  lemma {:induction false} ScanFollowsStandard(memory: seq<byte>, len: nat, buf: seq<byte>, pos: nat)
    requires len <= |memory| && buf == memory[..len]
    requires StandardFrom(buf, pos).ok && PadsPaired(buf, pos)
    ensures ScanFrom(memory, len, pos) == TypeOf(StandardFrom(buf, pos).options)
    decreases len - pos
  {
    assert buf[pos] == Load(memory, pos);
    if buf[pos] == PAD {
      assert buf[pos + 1] == Load(memory, pos + 1) == 0;
      ScanFollowsStandard(memory, len, buf, pos + 2);
    } else if buf[pos] != END {
      OptionInField(memory, len, pos);
      var o, next := OptionAt(buf, pos), pos + 2 + buf[pos + 1];
      TypeOfCons(o, StandardFrom(buf, next).options);
      ScanOption(memory, len, pos, o);
      if !NamesType(o) {
        ScanFollowsStandard(memory, len, buf, next);
      }
    }
  }

  /** A field the standard accepts is dispatched on the message type the standard finds
      in it, if no PAD stands in front of that type but in pairs. */
  lemma DispatchedAsStandard(t: Task)
    requires t.recvBytes >= 0 && t.request.op == 1 && t.request.xid != 0
    requires var field := t.request.memory[..OPTIONS_SIZE]; StandardParse(field).ok && PadsPaired(field, 4)
    ensures DispatchType(t) == TypeOf(StandardParse(t.request.memory[..OPTIONS_SIZE]).options)
  {
    ScanFollowsStandard(t.request.memory, OPTIONS_SIZE, t.request.memory[..OPTIONS_SIZE], 4);
  }

  /** This includes every field the parser accepts without meeting PAD. */
  lemma {:induction false} NoPadsArePaired(buf: seq<byte>, pos: nat)
    requires ParseFrom(buf, pos).ok && NoPad(ParseFrom(buf, pos).options)
    ensures PadsPaired(buf, pos) && StandardFrom(buf, pos) == ParseFrom(buf, pos)
    decreases |buf| - pos
  {
    if buf[pos] != END {
      var o, rest := OptionAt(buf, pos), ParseFrom(buf, pos + 2 + buf[pos + 1]);
      assert ([o] + rest.options)[0].id != PAD;
      assert NoPad(rest.options) by {
        assert forall i :: 0 <= i < |rest.options| ==> rest.options[i] == ([o] + rest.options)[i + 1];
      }
      NoPadsArePaired(buf, pos + 2 + buf[pos + 1]);
    }
  }

  /** With a single PAD the scan can still come out right, by what it lands on: here the
      PAD takes the next option for its data. */
  lemma UnpairedYetRight()
    ensures var buf := [0x63, 0x82, 0x53, 0x63, 0, 3, 2, 0, 0, 53, 1, 1, 255];
            && !PadsPaired(buf, 4) && Scan(buf, |buf|) == 1
            && StandardParse(buf) == Parsed(true, [Opt(3, [0, 0]), Opt(53, [1])])
  {
    var buf := [0x63, 0x82, 0x53, 0x63, 0, 3, 2, 0, 0, 53, 1, 1, 255];
    assert HasCookie(buf) && |buf| == 13;
    assert buf[4] == PAD && buf[5] == 3 && buf[6] == 2 && buf[9] == 53 && buf[10] == 1 && buf[11] == 1;
    assert OptionAt(buf, 5) == Opt(3, [0, 0]) && OptionAt(buf, 9) == Opt(53, [1]);
    assert StandardFrom(buf, 12) == Parsed(true, []);
    assert StandardFrom(buf, 9) == Parsed(true, [Opt(53, [1])]);
    assert StandardFrom(buf, 5).options == [Opt(3, [0, 0])] + [Opt(53, [1])];
    assert StandardFrom(buf, 4) == StandardFrom(buf, 5);
    assert Load(buf, 4) == PAD && Load(buf, 5) == 3 && Load(buf, 9) == 53 && Load(buf, 10) == 1 && Load(buf, 11) == 1;
    assert ScanFrom(buf, 13, 4) == ScanFrom(buf, 13, 9) == 1;
  }

  /** One PAD in front of the message type. */
  const PADDED_DISCOVER: seq<byte> := [0x63, 0x82, 0x53, 0x63, 0, 53, 1, 1, 255]

  /** The standard reads PAD and a DISCOVER. The parser takes the PAD for an option of
      53 bytes: it refuses the bytes as they are. */
  lemma PaddedDiscoverRefused()
    ensures StandardParse(PADDED_DISCOVER) == Parsed(true, [Opt(53, [1])])
    ensures Parse(PADDED_DISCOVER) == Parsed(false, [])
  {
    var buf := PADDED_DISCOVER;
    assert HasCookie(buf) && |buf| == 9;
    assert buf[4] == PAD && buf[5] == 53 && buf[6] == 1 && buf[7] == 1 && buf[8] == END;
    assert OptionAt(buf, 5) == Opt(53, [1]);
    assert StandardFrom(buf, 8) == Parsed(true, []);
    assert StandardFrom(buf, 5) == Parsed(true, [Opt(53, [1])]);
  }

  /** And in a field filled up with zeros it makes the scan step over the message
      type, so the DISCOVER is dropped. */
  lemma PaddedDiscoverDropped(s: Server, t: Task)
    requires PADDED_DISCOVER <= t.request.memory
    requires forall j :: |PADDED_DISCOVER| <= j < |t.request.memory| ==> t.request.memory[j] == 0
    ensures StandardParse(t.request.memory[..OPTIONS_SIZE]).options == [Opt(53, [1])]
    ensures Handle(s, t) == Done(s, Silent)
  {
    var memory := t.request.memory;
    var field := memory[..OPTIONS_SIZE];
    var n := |PADDED_DISCOVER|;
    assert memory[..n] == PADDED_DISCOVER;
    assert memory[..4] == memory[..n][..4] == MAGIC;
    assert memory[4] == memory[..n][4] == PAD && memory[5] == memory[..n][5] == 53;
    assert memory[6] == memory[..n][6] == 1 && memory[7] == memory[..n][7] == 1;
    assert memory[8] == memory[..n][8] == END;
    assert field[..4] == memory[..4];
    assert OptionAt(field, 5) == Opt(53, [1]);
    assert StandardFrom(field, 8) == Parsed(true, []);
    assert StandardFrom(field, 5).options == [Opt(53, [1])];
    ScanOverZeros(memory, OPTIONS_SIZE, 59);
  }
}
