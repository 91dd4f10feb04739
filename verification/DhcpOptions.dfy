/** The options codec (dhcp/options.py), section 2 of RFC 2132. */
module DhcpOptions {
  import opened Bytes

  const REQUESTED_IP := 50
  const LEASE_TIME := 51
  const MESSAGE_TYPE := 53
  const SERVER_IDENTIFIER := 54
  const RENEWAL_TIME := 58
  const REBINDING_TIME := 59
  const CLIENT_IDENTIFIER := 61
  const SUBNET_MASK := 1
  const ROUTER := 3
  const DNS_SERVER := 6
  const PAD := 0
  const END := 255

  /** An option as the constructor admits it: any code, a value of at most 255 octets. */
  type Opt = o: RawOpt | |o.data| <= 255 witness RawOpt(0, [])
  datatype RawOpt = RawOpt(code: byte, data: seq<byte>)

  datatype OptionError = MissingLength | PastEnd | BadMessageType | BadAddress

  function OptionBytes(o: Opt): seq<byte> {
    [o.code, |o.data|] + o.data
  }

  function Encoded(os: seq<Opt>): seq<byte> {
    if os == [] then [] else OptionBytes(os[0]) + Encoded(os[1..])
  }

  // ----- the grammar of the options field -----

  /** An options field is a list of items and then nothing, or END and anything at all. */
  datatype Item = Pad | Field(o: Opt)

  /** A field that the standard calls an option: neither padding nor the end marker. */
  predicate Proper(o: Opt) {
    o.code != 0 && o.code != 255
  }

  predicate ProperItems(items: seq<Item>) {
    forall i :: 0 <= i < |items| && items[i].Field? ==> Proper(items[i].o)
  }

  function ItemBytes(items: seq<Item>): seq<byte> {
    if items == [] then []
    else (if items[0].Pad? then [0] else OptionBytes(items[0].o)) + ItemBytes(items[1..])
  }

  function Fields(items: seq<Item>): seq<Opt> {
    if items == [] then []
    else (if items[0].Pad? then [] else [items[0].o]) + Fields(items[1..])
  }

  predicate Tail(t: seq<byte>) {
    t == [] || t[0] == 255
  }

  ghost predicate Describes(items: seq<Item>, t: seq<byte>, data: seq<byte>) {
    ProperItems(items) && Tail(t) && data == ItemBytes(items) + t
  }

  // ----- parsing -----

  /** The options from `data` on, in recursive form. */
  function ParseFrom(data: seq<byte>): (r: Result<seq<Opt>, OptionError>)
    decreases |data|
  {
    if data == [] then Ok([])
    else if data[0] == PAD then ParseFrom(data[1..])
    else if data[0] == END then Ok([])
    else if |data| < 2 then Err(MissingLength)
    else if 2 + data[1] > |data| then Err(PastEnd)
    else
      var rest := ParseFrom(data[2 + data[1]..]);
      if rest.Err? then rest
      else Ok([RawOpt(data[0], data[2..2 + data[1]])] + rest.value)
  }

  function Prepend(os: seq<Opt>, r: Result<seq<Opt>, OptionError>): Result<seq<Opt>, OptionError> {
    if r.Err? then r else Ok(os + r.value)
  }

  lemma PrependUnits(os: seq<Opt>, r: Result<seq<Opt>, OptionError>)
    ensures Prepend([], r) == r && Prepend(os, Ok([])) == Ok(os)
  {
    assert r.Ok? ==> [] + r.value == r.value;
    assert os + [] == os;
  }

  lemma PrependTwice(os: seq<Opt>, o: Opt, r: Result<seq<Opt>, OptionError>)
    ensures Prepend(os, Prepend([o], r)) == Prepend(os + [o], r)
  {
    if r.Ok? {
      assert os + ([o] + r.value) == os + [o] + r.value;
    }
  }

  /** The option at `offset`, and the rest of the field after it. */
  lemma ReadsOption(data: seq<byte>, offset: nat, end: nat)
    requires offset + 2 <= end <= |data| && end == offset + 2 + data[offset + 1]
    requires data[offset] != PAD && data[offset] != END
    ensures |data[offset + 2..end]| <= 255
    ensures ParseFrom(data[offset..])
            == Prepend([RawOpt(data[offset], data[offset + 2..end])], ParseFrom(data[end..]))
  {
    var here := data[offset..];
    assert here[0] == data[offset] && here[1] == data[offset + 1];
    assert here[2..2 + here[1]] == data[offset + 2..end] && here[2 + here[1]..] == data[end..];
  }

  method ParseOptions(data: seq<byte>) returns (r: Result<seq<Opt>, OptionError>)
    ensures r == ParseFrom(data)
  {
    var options: seq<Opt> := [];
    var offset, length := 0, |data|;
    assert data[0..] == data;
    PrependUnits([], ParseFrom(data));
    while offset < length
      invariant 0 <= offset <= length
      invariant ParseFrom(data) == Prepend(options, ParseFrom(data[offset..]))
    {
      var code := data[offset];
      ghost var here := data[offset..];
      assert here[0] == code;
      offset := offset + 1;
      if code == PAD {
        assert here[1..] == data[offset..];
        continue;
      }
      if code == END {
        PrependUnits(options, Ok([]));
        return Ok(options);
      }
      if offset >= length {
        return Err(MissingLength);
      }
      assert here[1] == data[offset];
      var optionLength: int := data[offset];
      offset := offset + 1;
      var end := offset + optionLength;
      if end > length {
        return Err(PastEnd);
      }
      var value := data[offset..end];
      ReadsOption(data, offset - 2, end);
      PrependTwice(options, RawOpt(code, value), ParseFrom(data[end..]));
      options := options + [RawOpt(code, value)];
      offset := end;
    }
    PrependUnits(options, Ok([]));
    return Ok(options);
  }

  /** One more item in front of what a field describes. */
  lemma DescribesMore(item: Item, items: seq<Item>, t: seq<byte>, data: seq<byte>)
    requires Describes(items, t, data) && (item.Field? ==> Proper(item.o))
    ensures Describes([item] + items, t, (if item.Pad? then [PAD] else OptionBytes(item.o)) + data)
    ensures Fields([item] + items) == (if item.Pad? then [] else [item.o]) + Fields(items)
  {
    hide OptionBytes;
    assert ([item] + items)[1..] == items;
    var first := if item.Pad? then [PAD] else OptionBytes(item.o);
    assert first + (ItemBytes(items) + t) == first + ItemBytes(items) + t;
  }

  /** The option in front of a field that parses, and what follows it. */
  lemma FirstOption(data: seq<byte>) returns (o: Opt, rest: seq<byte>)
    requires ParseFrom(data).Ok? && data != [] && data[0] != PAD && data[0] != END
    ensures Proper(o) && data == OptionBytes(o) + rest
    ensures ParseFrom(rest).Ok? && ParseFrom(data).value == [o] + ParseFrom(rest).value
  {
    var size: int := data[1];
    o, rest := RawOpt(data[0], data[2..2 + size]), data[2 + size..];
    assert data == [data[0], data[1]] + data[2..2 + size] + data[2 + size..];
  }

  /** What is parsed is what the field describes. */
  lemma {:induction false} ParseIsSound(data: seq<byte>) returns (items: seq<Item>, t: seq<byte>)
    requires ParseFrom(data).Ok?
    ensures Describes(items, t, data) && ParseFrom(data).value == Fields(items)
    decreases |data|
  {
    if data == [] || data[0] == END {
      items, t := [], data;
    } else if data[0] == PAD {
      items, t := ParseIsSound(data[1..]);
      assert data == [PAD] + data[1..];
      DescribesMore(Pad, items, t, data[1..]);
      hide ItemBytes, Fields;
      items := [Pad] + items;
    } else {
      var o, rest := FirstOption(data);
      hide ParseFrom;
      items, t := ParseIsSound(rest);
      DescribesMore(Field(o), items, t, rest);
      hide ItemBytes, Fields;
      items := [Field(o)] + items;
    }
  }

  lemma ParseTail(t: seq<byte>)
    requires Tail(t)
    ensures ParseFrom(t) == Ok([])
  {
  }

  lemma ParsePad(rest: seq<byte>)
    ensures ParseFrom([PAD] + rest) == ParseFrom(rest)
  {
    assert ([PAD] + rest)[1..] == rest;
  }

  lemma ParseOne(o: Opt, rest: seq<byte>)
    requires Proper(o) && ParseFrom(rest).Ok?
    ensures ParseFrom(OptionBytes(o) + rest) == Ok([o] + ParseFrom(rest).value)
  {
    var data := OptionBytes(o) + rest;
    assert data[0] == o.code && data[1] == |o.data|;
    assert data[2..2 + |o.data|] == o.data && data[2 + |o.data|..] == rest;
  }

  /** Whatever a field describes is parsed, with padding dropped and everything after END ignored. */
  lemma {:induction false} ParseIsComplete(items: seq<Item>, t: seq<byte>, data: seq<byte>)
    requires Describes(items, t, data)
    ensures ParseFrom(data) == Ok(Fields(items))
    decreases |items|
  {
    hide ParseFrom, OptionBytes;
    if items == [] {
      ParseTail(t);
      assert data == t;
    } else {
      var rest := ItemBytes(items[1..]) + t;
      ParseIsComplete(items[1..], t, rest);
      if items[0].Pad? {
        ParsePad(rest);
        assert data == [PAD] + rest && Fields(items) == Fields(items[1..]);
      } else {
        ParseOne(items[0].o, rest);
        assert data == OptionBytes(items[0].o) + rest;
      }
    }
  }

  /** A field is accepted with these options exactly when it describes them. */
  lemma ParsesExactlyDescribed(data: seq<byte>, os: seq<Opt>)
    ensures ParseFrom(data) == Ok(os) <==> exists items, t :: Describes(items, t, data) && os == Fields(items)
  {
    if ParseFrom(data) == Ok(os) {
      var items, t := ParseIsSound(data);
    }
    forall items, t | Describes(items, t, data) && os == Fields(items)
      ensures ParseFrom(data) == Ok(os)
    {
      ParseIsComplete(items, t, data);
    }
  }

  // ----- encoding -----

  method EncodeOptions(os: seq<Opt>, addEnd: bool) returns (r: seq<byte>)
    ensures r == Encoded(os) + if addEnd then [END] else []
  {
    r := [];
    for i := 0 to |os|
      invariant r + Encoded(os[i..]) == Encoded(os)
    {
      assert os[i..][1..] == os[i + 1..];
      r := r + OptionBytes(os[i]);
    }
    if addEnd {
      r := r + [END];
    }
  }

  function AsItems(os: seq<Opt>): (items: seq<Item>)
    ensures |items| == |os| && forall i :: 0 <= i < |os| ==> items[i] == Field(os[i])
  {
    seq(|os|, i requires 0 <= i < |os| => Field(os[i]))
  }

  lemma {:induction false} ItemsOfOptions(os: seq<Opt>)
    ensures ItemBytes(AsItems(os)) == Encoded(os) && Fields(AsItems(os)) == os
  {
    if os == [] {
    } else {
      ItemsOfOptions(os[1..]);
      assert AsItems(os)[1..] == AsItems(os[1..]);
    }
  }

  lemma {:induction false} FieldsAreProper(items: seq<Item>)
    requires ProperItems(items)
    ensures forall i :: 0 <= i < |Fields(items)| ==> Proper(Fields(items)[i])
  {
    if items == [] {
    } else {
      FieldsAreProper(items[1..]);
    }
  }

  /**
   Parsing undoes encoding, whatever follows the END octet, exactly when no option carries a
   code that means padding or the end: the encoder writes such options out all the same.
   */
  lemma ParseUndoesEncode(os: seq<Opt>, after: seq<byte>)
    ensures ParseFrom(Encoded(os) + [END] + after) == Ok(os) <==> forall i :: 0 <= i < |os| ==> Proper(os[i])
  {
    var data := Encoded(os) + [END] + after;
    if forall i :: 0 <= i < |os| ==> Proper(os[i]) {
      ItemsOfOptions(os);
      assert data == ItemBytes(AsItems(os)) + ([END] + after);
      ParseIsComplete(AsItems(os), [END] + after, data);
    } else if ParseFrom(data) == Ok(os) {
      var items, t := ParseIsSound(data);
      FieldsAreProper(items);
    }
  }

  /** Encoding what was parsed and parsing again gives the same options. */
  lemma ReencodeIsStable(data: seq<byte>)
    requires ParseFrom(data).Ok?
    ensures ParseFrom(Encoded(ParseFrom(data).value) + [END]) == ParseFrom(data)
  {
    var items, t := ParseIsSound(data);
    FieldsAreProper(items);
    var os := ParseFrom(data).value;
    ParseUndoesEncode(os, []);
    assert Encoded(os) + [END] + [] == Encoded(os) + [END];
  }

  /** Padding anywhere between options, and any octets after END, change nothing. */
  lemma PaddingIsIgnored(items: seq<Item>, items': seq<Item>, after: seq<byte>, after': seq<byte>)
    requires ProperItems(items) && ProperItems(items') && Fields(items) == Fields(items')
    ensures ParseFrom(ItemBytes(items) + [END] + after) == ParseFrom(ItemBytes(items') + [END] + after')
  {
    hide ParseFrom, ItemBytes, Fields;
    EndedField(items, after);
    EndedField(items', after');
  }

  lemma EndedField(items: seq<Item>, after: seq<byte>)
    requires ProperItems(items)
    ensures ParseFrom(ItemBytes(items) + [END] + after) == Ok(Fields(items))
  {
    hide ParseFrom, ItemBytes, Fields;
    var data, t := ItemBytes(items) + [END] + after, [END] + after;
    assert data == ItemBytes(items) + t;
    ParseIsComplete(items, t, data);
  }

  // ----- looking options up -----

  /** The value of the first option with this code. */
  function ValueOf(os: seq<Opt>, code: byte): Option<seq<byte>> {
    if os == [] then None
    else if os[0].code == code then Some(os[0].data)
    else ValueOf(os[1..], code)
  }

  method GetOption(os: seq<Opt>, code: byte) returns (r: Option<Opt>)
    ensures r.Some? ==>
      exists i :: 0 <= i < |os| && os[i] == r.value && os[i].code == code
                  && forall j :: 0 <= j < i ==> os[j].code != code
    ensures r.None? ==> forall j :: 0 <= j < |os| ==> os[j].code != code
    ensures ValueOf(os, code) == if r.None? then None else Some(r.value.data)
  {
    for i := 0 to |os|
      invariant forall j :: 0 <= j < i ==> os[j].code != code
      invariant ValueOf(os, code) == ValueOf(os[i..], code)
    {
      if os[i].code == code {
        return Some(os[i]);
      }
      assert os[i..][1..] == os[i + 1..];
    }
    return None;
  }

  /** It is the value of the first option with the code. */
  lemma {:induction false} ValueOfFirst(os: seq<Opt>, code: byte)
    ensures ValueOf(os, code).None? ==> forall i :: 0 <= i < |os| ==> os[i].code != code
    ensures ValueOf(os, code).Some? ==>
      exists i :: 0 <= i < |os| && os[i].code == code && os[i].data == ValueOf(os, code).value
                  && forall j :: 0 <= j < i ==> os[j].code != code
  {
    if os == [] {
    } else if os[0].code == code {
      assert os[0].code == code && os[0].data == ValueOf(os, code).value;
    } else {
      ValueOfFirst(os[1..], code);
      if ValueOf(os, code).Some? {
        var i :| 0 <= i < |os[1..]| && os[1..][i].code == code && os[1..][i].data == ValueOf(os, code).value
                 && forall j :: 0 <= j < i ==> os[1..][j].code != code;
        assert os[i + 1] == os[1..][i];
        assert forall j :: 0 < j < i + 1 ==> os[j] == os[1..][j - 1];
      } else {
        assert forall j :: 0 < j < |os| ==> os[j] == os[1..][j - 1];
      }
    }
  }

  /** Option 53 must hold exactly one octet; a message without it has no type. */
  function MessageType(os: seq<Opt>): Result<Option<byte>, OptionError> {
    var v := ValueOf(os, MESSAGE_TYPE);
    if v.None? then Ok(None)
    else if |v.value| != 1 then Err(BadMessageType)
    else Ok(Some(v.value[0]))
  }

  /** An option holding one address: 50 (requested address) and 54 (server identifier). */
  function AddressOption(os: seq<Opt>, code: byte): Result<Option<int>, OptionError> {
    var v := ValueOf(os, code);
    if v.None? then Ok(None)
    else if |v.value| != 4 then Err(BadAddress)
    else Ok(Some(U32(v.value[0], v.value[1], v.value[2], v.value[3])))
  }

  /** The four octets are read in network order, the first being the highest. */
  lemma AddressInOrder(os: seq<Opt>, code: byte)
    ensures var v := ValueOf(os, code);
            AddressOption(os, code)
            == if v.None? then Ok(None)
               else if |v.value| != 4 then Err(BadAddress)
               else Ok(Some(InOrder(v.value[0], v.value[1], v.value[2], v.value[3])))
  {
  }
}
