/** The wire format of the DHCP options field (section 2 of RFC 2132, after the
    cookie of section 3 of RFC 2131) and what options.c reads as it. PAD is an
    ordinary option with a length byte here, because it is one in the code. */
module OptionFormat {
  import opened Words

  const END: byte := 255
  const MAGIC: seq<byte> := [0x63, 0x82, 0x53, 0x63]

  /** The size of the options field of a message. */
  const OPTIONS_SIZE: nat := 312

  /** The data of an option: its length fits the one byte `len`. */
  type Payload = d: seq<byte> | |d| < 256

  datatype DhcpOption = Opt(id: byte, data: Payload)

  datatype Parsed = Parsed(ok: bool, options: seq<DhcpOption>)

  // ----- Writing

  function EncodeOption(o: DhcpOption): (bytes: seq<byte>)
    ensures |bytes| == 2 + |o.data|
  {
    [o.id, |o.data|] + o.data
  }

  function EncodeOptions(os: seq<DhcpOption>): seq<byte> {
    if os == [] then [] else EncodeOption(os[0]) + EncodeOptions(os[1..])
  }

  /** The number of bytes the options take on the wire. */
  function WireSize(os: seq<DhcpOption>): nat {
    if os == [] then 0 else 2 + |os[0].data| + WireSize(os[1..])
  }

  function Serialized(os: seq<DhcpOption>): seq<byte> {
    MAGIC + EncodeOptions(os) + [END]
  }

  predicate NoEnd(os: seq<DhcpOption>) {
    forall i :: 0 <= i < |os| ==> os[i].id != END
  }

  // ----- Reading

  /** The option whose id is at `pos`, when it ends strictly before the buffer does. */
  predicate OptionFits(buf: seq<byte>, pos: nat)
    requires pos < |buf|
  {
    pos + 1 < |buf| && pos + 2 + buf[pos + 1] < |buf|
  }

  function OptionAt(buf: seq<byte>, pos: nat): DhcpOption
    requires pos < |buf| && OptionFits(buf, pos)
  {
    Opt(buf[pos], buf[pos + 2..pos + 2 + buf[pos + 1]])
  }

  function ParseFrom(buf: seq<byte>, pos: nat): Parsed
    decreases |buf| - pos
  {
    if pos >= |buf| then Parsed(false, [])
    else if buf[pos] == END then Parsed(true, [])
    else if !OptionFits(buf, pos) then Parsed(false, [])
    else
      var rest := ParseFrom(buf, pos + 2 + buf[pos + 1]);
      Parsed(rest.ok, [OptionAt(buf, pos)] + rest.options)
  }

  predicate HasCookie(buf: seq<byte>) {
    |buf| >= 4 && buf[..4] == MAGIC
  }

  function Parse(buf: seq<byte>): Parsed {
    if HasCookie(buf) then ParseFrom(buf, 4) else Parsed(false, [])
  }

  function Prepend(front: seq<DhcpOption>, rest: Parsed): Parsed {
    Parsed(rest.ok, front + rest.options)
  }

  lemma PrependTwice(a: seq<DhcpOption>, b: seq<DhcpOption>, rest: Parsed)
    ensures Prepend(a, Prepend(b, rest)) == Prepend(a + b, rest)
  {
  }

  /** One turn of the parser's loop. */
  lemma ParseOne(buf: seq<byte>, pos: nat)
    requires pos < |buf| && buf[pos] != END && OptionFits(buf, pos)
    ensures ParseFrom(buf, pos) == Prepend([OptionAt(buf, pos)], ParseFrom(buf, pos + 2 + buf[pos + 1]))
  {
  }

  // ----- Sizes and concatenation

  lemma EncodeCons(o: DhcpOption, os: seq<DhcpOption>)
    ensures EncodeOptions([o] + os) == EncodeOption(o) + EncodeOptions(os)
  {
  }

  lemma {:induction false} EncodedSize(os: seq<DhcpOption>)
    ensures |EncodeOptions(os)| == WireSize(os)
  {
    if os != [] {
      EncodedSize(os[1..]);
    }
  }

  lemma {:induction false} EncodeAppend(os: seq<DhcpOption>, ps: seq<DhcpOption>)
    ensures EncodeOptions(os + ps) == EncodeOptions(os) + EncodeOptions(ps)
    ensures WireSize(os + ps) == WireSize(os) + WireSize(ps)
  {
    if os == [] {
      assert os + ps == ps;
    } else {
      assert (os + ps)[1..] == os[1..] + ps;
      EncodeAppend(os[1..], ps);
    }
  }

  lemma EncodeSnoc(os: seq<DhcpOption>, o: DhcpOption)
    ensures EncodeOptions(os + [o]) == EncodeOptions(os) + EncodeOption(o)
    ensures WireSize(os + [o]) == WireSize(os) + 2 + |o.data|
  {
    EncodeAppend(os, [o]);
    assert EncodeOptions([o]) == EncodeOption(o) + EncodeOptions([]);
  }

  lemma WireSizeSplit(os: seq<DhcpOption>, k: nat)
    requires k <= |os|
    ensures WireSize(os) == WireSize(os[..k]) + WireSize(os[k..])
    ensures EncodeOptions(os) == EncodeOptions(os[..k]) + EncodeOptions(os[k..])
  {
    assert os == os[..k] + os[k..];
    EncodeAppend(os[..k], os[k..]);
  }

  // ----- What the parser accepts and rejects

  /** `bytes` stand in `buf` at `pos`. */
  predicate At(buf: seq<byte>, pos: nat, bytes: seq<byte>) {
    pos + |bytes| <= |buf| && buf[pos..pos + |bytes|] == bytes
  }

  lemma AtConcat(buf: seq<byte>, pos: nat, a: seq<byte>, b: seq<byte>)
    ensures At(buf, pos, a + b) <==> At(buf, pos, a) && At(buf, pos + |a|, b)
  {
    var mid, end := pos + |a|, pos + |a| + |b|;
    if end <= |buf| {
      assert buf[pos..end] == buf[pos..mid] + buf[mid..end];
      assert (a + b)[..|a|] == a && (a + b)[|a|..] == b;
      assert buf[pos..end][..|a|] == buf[pos..mid] && buf[pos..end][|a|..] == buf[mid..end];
    }
  }

  /** The bytes at which the parser gives up: none left, or an option that does
      not leave room for anything behind it. */
  predicate Truncated(buf: seq<byte>, pos: nat) {
    pos >= |buf| || (buf[pos] != END && !OptionFits(buf, pos))
  }

  lemma OptionAtEncoded(buf: seq<byte>, pos: nat, o: DhcpOption)
    requires At(buf, pos, EncodeOption(o)) && pos + 2 + |o.data| < |buf|
    ensures OptionFits(buf, pos) && OptionAt(buf, pos) == o
  {
  }

  /** What a parse from `pos` has walked over and where it stopped. */
  ghost predicate WalkedOver(buf: seq<byte>, pos: nat, r: Parsed) {
    var next := pos + |EncodeOptions(r.options)|;
    && NoEnd(r.options)
    && At(buf, pos, EncodeOptions(r.options))
    && if r.ok then next < |buf| && buf[next] == END
       else Truncated(buf, next) && (r.options == [] || next < |buf|)
  }

  /** `ParseFrom` walks over exactly the encoding of the options it returns. */
  lemma {:induction false} ParseFromConsumes(buf: seq<byte>, pos: nat)
    requires pos <= |buf|
    ensures WalkedOver(buf, pos, ParseFrom(buf, pos))
    decreases |buf| - pos
  {
    if pos < |buf| && buf[pos] != END && OptionFits(buf, pos) {
      var o, next := OptionAt(buf, pos), pos + 2 + buf[pos + 1];
      var tail := ParseFrom(buf, next).options;
      ParseFromConsumes(buf, next);
      EncodeCons(o, tail);
      assert EncodeOption(o) == buf[pos..next];
      AtConcat(buf, pos, EncodeOption(o), EncodeOptions(tail));
    } else {
      assert EncodeOptions([]) == [];
      assert At(buf, pos, []);
    }
  }

  /** Reading one encoded option in front of what is read behind it. */
  lemma ParseEncoded(buf: seq<byte>, pos: nat, o: DhcpOption, tail: seq<DhcpOption>, rest: Parsed)
    requires At(buf, pos, EncodeOption(o)) && pos + 2 + |o.data| < |buf| && o.id != END
    requires ParseFrom(buf, pos + 2 + |o.data|) == Prepend(tail, rest)
    ensures ParseFrom(buf, pos) == Prepend([o] + tail, rest)
  {
    OptionAtEncoded(buf, pos, o);
    ParseOne(buf, pos);
    PrependTwice([o], tail, rest);
  }

  /** The parser retraces an encoding it finds at `pos`. */
  lemma {:induction false} ParseFromFollows(buf: seq<byte>, pos: nat, os: seq<DhcpOption>)
    requires NoEnd(os) && At(buf, pos, EncodeOptions(os))
    requires os == [] || pos + |EncodeOptions(os)| < |buf|
    ensures ParseFrom(buf, pos) == Prepend(os, ParseFrom(buf, pos + |EncodeOptions(os)|))
    decreases os
  {
    if os == [] {
      var r := ParseFrom(buf, pos);
      assert [] + r.options == r.options;
    } else {
      var o, tail := os[0], os[1..];
      var next := pos + 2 + |o.data|;
      AtConcat(buf, pos, EncodeOption(o), EncodeOptions(tail));
      ParseFromFollows(buf, next, tail);
      ParseEncoded(buf, pos, o, tail, ParseFrom(buf, next + |EncodeOptions(tail)|));
      assert os == [o] + tail;
    }
  }

  /** The verdict 1 and its list, characterised: a buffer is accepted with the
      list `os` exactly when it starts with the serialisation of `os`, and `os`
      holds no END. Bytes behind that END play no part. */
  lemma AcceptedIffSerialized(buf: seq<byte>, os: seq<DhcpOption>)
    ensures Parse(buf) == Parsed(true, os) <==> NoEnd(os) && Serialized(os) <= buf
  {
    var enc := EncodeOptions(os);
    var n := 4 + |enc|;
    AtConcat(buf, 0, MAGIC, enc);
    AtConcat(buf, 0, MAGIC + enc, [END]);
    assert At(buf, 0, Serialized(os)) <==> Serialized(os) <= buf;
    assert At(buf, 0, MAGIC) <==> HasCookie(buf);
    assert At(buf, n, [END]) <==> n < |buf| && buf[n] == END;
    if Parse(buf) == Parsed(true, os) {
      ParseFromConsumes(buf, 4);
    }
    if NoEnd(os) && Serialized(os) <= buf {
      ParseFromFollows(buf, 4, os);
      assert os + [] == os;
    }
  }

  /** `os` has been walked over, and the parser gives up right behind it. The last
      option never ends flush with the buffer: it would have been refused itself. */
  predicate GivesUpBehind(buf: seq<byte>, os: seq<DhcpOption>) {
    && NoEnd(os)
    && At(buf, 4, EncodeOptions(os))
    && Truncated(buf, 4 + |EncodeOptions(os)|)
    && (os == [] || 4 + |EncodeOptions(os)| < |buf|)
  }

  lemma GivesUp(buf: seq<byte>, os: seq<DhcpOption>)
    requires GivesUpBehind(buf, os)
    ensures ParseFrom(buf, 4) == Parsed(false, os)
  {
    ParseFromFollows(buf, 4, os);
    assert os + [] == os;
  }

  /** The verdict 0 and the list left behind, characterised. */
  lemma RejectedIff(buf: seq<byte>, os: seq<DhcpOption>)
    ensures Parse(buf) == Parsed(false, os) <==>
            if HasCookie(buf) then GivesUpBehind(buf, os) else os == []
  {
    if HasCookie(buf) {
      if GivesUpBehind(buf, os) {
        GivesUp(buf, os);
      } else if ParseFrom(buf, 4) == Parsed(false, os) {
        ParseFromConsumes(buf, 4);
      }
    }
  }

  // ----- The bytes themselves

  /** What is accepted starts with 99, 130, 83, 99 and has a 255 behind its options;
      nothing at all is read from a buffer that starts otherwise. */
  lemma CookieAndEnd(buf: seq<byte>)
    ensures Parse(buf).ok ==>
              var end := 4 + |EncodeOptions(Parse(buf).options)|;
              end < |buf| && buf[end] == 0xFF
    ensures !(|buf| >= 4 && buf[0] == 0x63 && buf[1] == 0x82 && buf[2] == 0x53 && buf[3] == 0x63) ==>
              Parse(buf) == Parsed(false, [])
  {
    if HasCookie(buf) {
      ParseFromConsumes(buf, 4);
      assert buf[0] == buf[..4][0] && buf[1] == buf[..4][1] && buf[2] == buf[..4][2] && buf[3] == buf[..4][3];
    }
  }

  /** An option stands on the wire as its id, the number of its data bytes, and these,
      behind the cookie and the options in front of it; a 255 follows the last one. */
  lemma OptionOnWire(os: seq<DhcpOption>, k: nat)
    requires k < |os|
    ensures Serialized(os)[..4] == [0x63, 0x82, 0x53, 0x63] && Serialized(os)[|Serialized(os)| - 1] == 0xFF
    ensures |Serialized(os)| == 5 + WireSize(os)
    ensures At(Serialized(os), 4 + WireSize(os[..k]), [os[k].id, |os[k].data|] + os[k].data)
  {
    EncodedSize(os);
    EncodedSize(os[..k]);
    OptionBetween(os, k);
    var before, behind := MAGIC + EncodeOptions(os[..k]), EncodeOptions(os[k + 1..]) + [END];
    AtConcat(Serialized(os), 0, before, EncodeOption(os[k]) + behind);
    AtConcat(Serialized(os), |before|, EncodeOption(os[k]), behind);
  }

  lemma OptionBetween(os: seq<DhcpOption>, k: nat)
    requires k < |os|
    ensures Serialized(os) ==
            (MAGIC + EncodeOptions(os[..k])) + (EncodeOption(os[k]) + (EncodeOptions(os[k + 1..]) + [END]))
  {
    WireSizeSplit(os, k);
    assert os[k..] == [os[k]] + os[k + 1..];
    EncodeCons(os[k], os[k + 1..]);
  }

  // ----- Round trips

  /** Parse, then serialise: an accepted buffer is reproduced byte for byte up
      to and including its END. */
  lemma ParseThenSerialize(buf: seq<byte>)
    requires Parse(buf).ok
    ensures var s := Serialized(Parse(buf).options);
            |s| <= |buf| && buf[..|s|] == s
  {
    AcceptedIffSerialized(buf, Parse(buf).options);
  }

  /** The verdict and the list depend only on the bytes up to the END. */
  lemma BytesBehindEndIgnored(buf: seq<byte>, other: seq<byte>)
    requires Parse(buf).ok
    requires Serialized(Parse(buf).options) <= other
    ensures Parse(other) == Parse(buf)
  {
    AcceptedIffSerialized(buf, Parse(buf).options);
    AcceptedIffSerialized(other, Parse(buf).options);
  }

  /** The number of options in front of the first one whose id is END. */
  function BeforeEnd(os: seq<DhcpOption>): (n: nat)
    ensures n <= |os| && NoEnd(os[..n]) && (n < |os| ==> os[n].id == END)
  {
    if os == [] || os[0].id == END then 0
    else
      var n := BeforeEnd(os[1..]);
      assert os[..n + 1] == [os[0]] + os[1..][..n];
      n + 1
  }

  /** What stands in front of the first END option is what a reader finds. */
  lemma FrontIsSerialized(os: seq<DhcpOption>)
    ensures Serialized(os[..BeforeEnd(os)]) <= Serialized(os)
  {
    var n := BeforeEnd(os);
    var front := EncodeOptions(os[..n]);
    WireSizeSplit(os, n);
    if n == |os| {
      assert os[..n] == os;
    } else {
      var back := EncodeOptions(os[n..]);
      assert back[0] == END;
      assert back == [END] + back[1..];
      assert Serialized(os) == (MAGIC + front + [END]) + (back[1..] + [END]);
    }
  }

  /** Serialise, then parse: what comes back is the list up to its first END. */
  lemma SerializeThenParse(os: seq<DhcpOption>, tail: seq<byte>)
    ensures Parse(Serialized(os) + tail) == Parsed(true, os[..BeforeEnd(os)])
  {
    FrontIsSerialized(os);
    AcceptedIffSerialized(Serialized(os) + tail, os[..BeforeEnd(os)]);
  }

  /** So a list survives the round trip exactly when none of its ids is END. */
  lemma RoundTripIffNoEnd(os: seq<DhcpOption>, tail: seq<byte>)
    ensures Parse(Serialized(os) + tail) == Parsed(true, os) <==> NoEnd(os)
  {
    SerializeThenParse(os, tail);
    if NoEnd(os) {
      assert os[..BeforeEnd(os)] == os;
    }
  }
}
