/** get_dhcp_message_type: a second, independent reader of the options field,
    which looks for the message type and skips the cookie unseen. */
module MessageType {
  import opened Words
  import opened OptionFormat

  const MESSAGE_TYPE: byte := 53

  /** A load from memory of which only the front is in sight. */
  function Load(memory: seq<byte>, i: nat): byte {
    if i < |memory| then memory[i] else 0
  }

  /** The scan from index `i` over an options field of `len` bytes. */
  function ScanFrom(memory: seq<byte>, len: nat, i: nat): byte
    decreases len - i
  {
    if i >= len || Load(memory, i) == END then 0
    else if Load(memory, i) == MESSAGE_TYPE && Load(memory, i + 1) >= 1 then Load(memory, i + 2)
    else ScanFrom(memory, len, i + 2 + Load(memory, i + 1))
  }

  function Scan(memory: seq<byte>, len: nat): byte {
    ScanFrom(memory, len, 4)
  }

  /** Option `i` is the first message type option that has data. */
  ghost predicate IsFirstType(os: seq<DhcpOption>, i: nat) {
    && i < |os| && NamesType(os[i])
    && forall j :: 0 <= j < i ==> !NamesType(os[j])
  }

  predicate NamesType(o: DhcpOption) {
    o.id == MESSAGE_TYPE && |o.data| >= 1
  }

  /** What a list of options says about the message type. */
  function TypeOf(os: seq<DhcpOption>): byte {
    if os == [] then 0
    else if NamesType(os[0]) then os[0].data[0]
    else TypeOf(os[1..])
  }

  /** It is the data of the first message type option; 0 when there is none. */
  lemma {:induction false} TypeOfIsFirst(os: seq<DhcpOption>)
    ensures (forall i :: 0 <= i < |os| ==> !NamesType(os[i])) ==> TypeOf(os) == 0
    ensures forall i: nat :: IsFirstType(os, i) ==> TypeOf(os) == os[i].data[0]
  {
    if os != [] && !NamesType(os[0]) {
      TypeOfIsFirst(os[1..]);
      forall i: nat | IsFirstType(os, i)
        ensures TypeOf(os) == os[i].data[0]
      {
        assert IsFirstType(os[1..], i - 1);
      }
    }
  }

  lemma TypeOfCons(o: DhcpOption, os: seq<DhcpOption>)
    ensures TypeOf([o] + os) == if NamesType(o) then o.data[0] else TypeOf(os)
  {
  }

  /** An option the parser reads is one the scanner loads, all inside the field. */
  lemma OptionInField(memory: seq<byte>, len: nat, pos: nat)
    requires pos < len <= |memory| && OptionFits(memory[..len], pos)
    ensures pos + 2 + memory[pos + 1] < len
    ensures var o := OptionAt(memory[..len], pos);
            o.id == memory[pos] && |o.data| == memory[pos + 1]
            && (|o.data| >= 1 ==> o.data[0] == memory[pos + 2])
  {
  }

  /** One turn of the scanner's loop over such an option. */
  lemma ScanOption(memory: seq<byte>, len: nat, pos: nat, o: DhcpOption)
    requires pos + 2 + |o.data| < len <= |memory|
    requires o.id == memory[pos] != END && |o.data| == memory[pos + 1]
    requires |o.data| >= 1 ==> o.data[0] == memory[pos + 2]
    ensures ScanFrom(memory, len, pos) ==
            if NamesType(o) then o.data[0] else ScanFrom(memory, len, pos + 2 + |o.data|)
  {
  }

  /** Wherever the parser succeeds, the scanner sees the options it sees. */
  lemma {:induction false} ScanFromAgrees(memory: seq<byte>, len: nat, buf: seq<byte>, pos: nat)
    requires len <= |memory| && buf == memory[..len] && ParseFrom(buf, pos).ok
    ensures ScanFrom(memory, len, pos) == TypeOf(ParseFrom(buf, pos).options)
    decreases len - pos
  {
    assert buf[pos] == Load(memory, pos);
    if buf[pos] != END {
      OptionInField(memory, len, pos);
      var o, next := OptionAt(buf, pos), pos + 2 + buf[pos + 1];
      ParseOne(buf, pos);
      TypeOfCons(o, ParseFrom(buf, next).options);
      ScanFromAgrees(memory, len, buf, next);
      ScanOption(memory, len, pos, o);
    }
  }

  /** The two readers of the format agree on every field the parser accepts. */
  lemma ScanAgreesWithParse(memory: seq<byte>, len: nat)
    requires len <= |memory| && Parse(memory[..len]).ok
    ensures Scan(memory, len) == TypeOf(Parse(memory[..len]).options)
  {
    ScanFromAgrees(memory, len, memory[..len], 4);
  }

  /** Zeros are empty options to the scan. */
  lemma {:induction false} ScanOverZeros(memory: seq<byte>, len: nat, i: nat)
    requires len <= |memory| && forall j :: i <= j < len ==> memory[j] == 0
    ensures ScanFrom(memory, len, i) == 0
    decreases len - i
  {
    if i + 1 < len {
      assert Load(memory, i) == 0 && Load(memory, i + 1) == 0;
      ScanOverZeros(memory, len, i + 2);
    } else if i < len {
      assert Load(memory, i) == 0;
    }
  }

  // ----- Any field at all

  ghost predicate SomeNamesType(os: seq<DhcpOption>) {
    exists i :: 0 <= i < |os| && NamesType(os[i])
  }

  /** What the scan takes from an option that is cut off by the end of the field. */
  function CutOffType(memory: seq<byte>, len: nat, pos: nat): byte {
    if pos < len && Load(memory, pos) == MESSAGE_TYPE && Load(memory, pos + 1) >= 1 then Load(memory, pos + 2) else 0
  }

  /** What the options walked over from `pos` name, or else the one cut off behind them. */
  ghost function WalkedType(memory: seq<byte>, len: nat, pos: nat, os: seq<DhcpOption>): byte {
    if SomeNamesType(os) then TypeOf(os) else CutOffType(memory, len, pos + |EncodeOptions(os)|)
  }

  lemma SomeNamesTypeCons(o: DhcpOption, os: seq<DhcpOption>)
    ensures SomeNamesType([o] + os) <==> NamesType(o) || SomeNamesType(os)
  {
    var all := [o] + os;
    if i :| 0 <= i < |os| && NamesType(os[i]) {
      assert all[i + 1] == os[i];
    }
    assert all[0] == o;
  }

  /** One option more in front of those walked over. */
  lemma ScanOneMore(memory: seq<byte>, len: nat, pos: nat, o: DhcpOption, os: seq<DhcpOption>)
    requires pos + 2 + |o.data| < len <= |memory|
    requires o.id == memory[pos] != END && |o.data| == memory[pos + 1]
    requires |o.data| >= 1 ==> o.data[0] == memory[pos + 2]
    requires var next := pos + 2 + |o.data|; ScanFrom(memory, len, next) == WalkedType(memory, len, next, os)
    ensures ScanFrom(memory, len, pos) == WalkedType(memory, len, pos, [o] + os)
  {
    TypeOfCons(o, os);
    SomeNamesTypeCons(o, os);
    EncodeCons(o, os);
    ScanOption(memory, len, pos, o);
  }

  lemma {:induction false} ScanFromWalks(memory: seq<byte>, len: nat, buf: seq<byte>, pos: nat)
    requires len <= |memory| && buf == memory[..len]
    ensures ScanFrom(memory, len, pos) == WalkedType(memory, len, pos, ParseFrom(buf, pos).options)
    decreases len - pos
  {
    if pos < len && buf[pos] != END && OptionFits(buf, pos) {
      OptionInField(memory, len, pos);
      var o, next := OptionAt(buf, pos), pos + 2 + buf[pos + 1];
      ScanFromWalks(memory, len, buf, next);
      ParseOne(buf, pos);
      ScanOneMore(memory, len, pos, o, ParseFrom(buf, next).options);
    } else {
      ScanStops(memory, len, buf, pos);
      assert WalkedType(memory, len, pos, []) == CutOffType(memory, len, pos);
    }
  }

  lemma ScanStops(memory: seq<byte>, len: nat, buf: seq<byte>, pos: nat)
    requires len <= |memory| && buf == memory[..len]
    requires pos < len && buf[pos] != END ==> !OptionFits(buf, pos)
    ensures ParseFrom(buf, pos).options == [] && |EncodeOptions([])| == 0
    ensures ScanFrom(memory, len, pos) == CutOffType(memory, len, pos)
  {
    assert pos < len ==> buf[pos] == Load(memory, pos);
    assert pos + 1 < len ==> buf[pos + 1] == Load(memory, pos + 1);
  }

  /** With or without the cookie: the scan yields the type that the options in front of
      the point where the parser's walk stops name, and if they name none, the first
      data byte of a cut-off message type option there. */
  lemma ScanOfAnyField(memory: seq<byte>, len: nat)
    requires len <= |memory|
    ensures var os := ParseFrom(memory[..len], 4).options;
            Scan(memory, len) ==
            if SomeNamesType(os) then TypeOf(os) else CutOffType(memory, len, 4 + |EncodeOptions(os)|)
  {
    ScanFromWalks(memory, len, memory[..len], 4);
  }

  /** So the dispatch acts on fields the parser refuses: for want of a cookie, or of an
      END. */
  lemma RefusedYetScanned(messageType: byte)
    ensures var memory := [0, 0, 0, 0, 53, 1, messageType, 255];
            !Parse(memory).ok && Scan(memory, |memory|) == messageType
    ensures var memory := [0x63, 0x82, 0x53, 0x63, 53, 1, messageType];
            !Parse(memory).ok && Scan(memory, |memory|) == messageType
  {
    var memory := [0, 0, 0, 0, 53, 1, messageType, 255];
    assert memory[..4][0] == 0;
    var endless := [0x63, 0x82, 0x53, 0x63, 53, 1, messageType];
    assert endless[4] == MESSAGE_TYPE && endless[5] == 1 && endless[6] == messageType;
    assert !OptionFits(endless, 4);
  }

  /** A serialised list scans to the type of its front up to the first END id,
      which is all of it when it has none, whatever lies behind it. */
  lemma ScanSerialized(os: seq<DhcpOption>, behind: seq<byte>, len: nat)
    requires |Serialized(os)| <= len <= |Serialized(os) + behind|
    ensures Scan(Serialized(os) + behind, len) == TypeOf(os[..BeforeEnd(os)])
  {
    var memory, front := Serialized(os) + behind, os[..BeforeEnd(os)];
    FrontIsSerialized(os);
    AcceptedIffSerialized(memory[..len], front);
    ScanAgreesWithParse(memory, len);
  }

  /** The scanning loop. On a field the parser accepts it needs no byte behind
      the field; on any other it may load up to two, whatever they are. */
  method GetDhcpMessageType(options: seq<byte>, optionsLen: nat) returns (messageType: byte)
    requires optionsLen <= |options|
    requires optionsLen + 2 <= |options| || Parse(options[..optionsLen]).ok
    ensures messageType == Scan(options, optionsLen)
    ensures Parse(options[..optionsLen]).ok ==>
              messageType == TypeOf(Parse(options[..optionsLen]).options)
  {
    ghost var buf := options[..optionsLen];
    if Parse(buf).ok {
      ScanAgreesWithParse(options, optionsLen);
    }
    var i: nat := 4;
    while i < optionsLen
      invariant Scan(options, optionsLen) == ScanFrom(options, optionsLen, i)
      invariant optionsLen + 2 <= |options| || ParseFrom(buf, i).ok
      decreases optionsLen - i
    {
      if options[i] == END {
        break;
      }
      if optionsLen + 2 > |options| {
        assert buf[i] == options[i] && OptionFits(buf, i);
        OptionInField(options, optionsLen, i);
      }
      if options[i] == MESSAGE_TYPE {
        var optionLen := options[i + 1];
        if optionLen >= 1 {
          return options[i + 2];
        }
      }
      i := i + 2 + options[i + 1];
    }
    return 0;
  }
}
