/** The query parser (dns_engine/parser.py), proved against the unbounded decompressor of DnsNames. */
module DnsParser {
  import opened Bytes
  import opened DnsNames

  const DNS_HEADER_SIZE := 12
  const MAX_DOMAIN_LENGTH := 255
  const MAX_POINTER_JUMPS := 32

  /** Text conversions of the standard library: decoding one label, and lower-casing a name. */
  datatype Text = Text(decode: seq<byte> -> Option<string>, lower: string -> string)

  datatype ParseError =
    | NegativeOffset | Truncated | DomainTooLong | BadText
    | PointerOutside | TooManyJumps | PointerLoop | ReservedLabel
    | IncompleteHeader | NotAQuery | UnsupportedOpcode | ReservedBits | QuestionCount
    | UnsupportedClass

  datatype Query = Query(id: int, flags: int, questions: int, answers: int, authority: int,
                         additional: int, domain: string, queryType: int, queryClass: int)

  // ----- what a name means -----

  predicate Decodable(text: Text, labels: seq<seq<byte>>) {
    forall k :: 0 <= k < |labels| ==> text.decode(labels[k]).Some?
  }

  function Decoded(text: Text, labels: seq<seq<byte>>): (r: seq<string>)
    requires Decodable(text, labels)
    ensures |r| == |labels|
  {
    seq(|labels|, k requires 0 <= k < |labels| => text.decode(labels[k]).value)
  }

  function Join(parts: seq<string>): string {
    if parts == [] then "" else if |parts| == 1 then parts[0] else parts[0] + "." + Join(parts[1..])
  }

  function DomainText(text: Text, labels: seq<seq<byte>>): string
    requires Decodable(text, labels)
  {
    var s := text.lower(Join(Decoded(text, labels)));
    if s == "" then "." else s
  }

  /** `w` expands the name at `off` within the limits the parser grants. */
  ghost predicate Readable(text: Text, p: seq<byte>, off: int, w: seq<Step>) {
    && Expands(p, off, w)
    && Hops(w) <= 32
    && Octets(w) + 1 <= 255
    && Decodable(text, Labels(w))
  }

  /** What each refusal of a name says about the name itself. */
  ghost predicate Explains(e: ParseError, text: Text, p: seq<byte>, off: int) {
    match e
    case NegativeOffset => off < 0
    case Truncated | PointerOutside | PointerLoop | ReservedLabel => forall w :: !Expands(p, off, w)
    case TooManyJumps => forall w :: Expands(p, off, w) ==> Hops(w) > 32
    case DomainTooLong => forall w :: Expands(p, off, w) ==> Octets(w) + 1 > 255
    case BadText => forall w :: Expands(p, off, w) ==> !Decodable(text, Labels(w))
    case _ => false
  }

  /** A refusal that is explained is justified: no expansion within the limits was overlooked. */
  lemma ExplainedIsUnreadable(e: ParseError, text: Text, p: seq<byte>, off: int)
    requires Explains(e, text, p, off)
    ensures forall w :: !Readable(text, p, off, w)
  {
  }

  // ----- one step of the walk, and why a stopped walk is a refusal -----

  lemma StuckNeverEnds(p: seq<byte>, off: int, trail: seq<Step>, at: int)
    requires Leads(p, off, trail, at) && StepAt(p, at).None? && !Ends(p, at)
    ensures forall w :: !Expands(p, off, w)
  {
    forall w | Expands(p, off, w)
      ensures false
    {
      ExpandsSplit(p, off, trail, at, w);
    }
  }

  /** Any full expansion has the steps taken so far as its beginning. */
  lemma TrailIsSpent(p: seq<byte>, off: int, trail: seq<Step>, at: int, w: seq<Step>)
    requires Leads(p, off, trail, at) && Expands(p, off, w)
    ensures Hops(trail) <= Hops(w) && Octets(trail) <= Octets(w) && Labels(trail) <= Labels(w)
  {
    ExpandsSplit(p, off, trail, at, w);
    assert w == trail + w[|trail|..];
    CountsAdd(trail, w[|trail|..]);
    LabelsAdd(trail, w[|trail|..]);
  }

  lemma OneMoreStep(p: seq<byte>, off: int, trail: seq<Step>, at: int, next: Step)
    requires Leads(p, off, trail, at) && StepAt(p, at) == Some(next)
    ensures Leads(p, off, trail + [next], After(at, next))
  {
    assert Leads(p, at, [next], After(at, next));
    LeadsJoin(p, off, trail, at, [next], After(at, next));
  }

  lemma TakeLabel(text: Text, p: seq<byte>, off: int, trail: seq<Step>, at: int, data: seq<byte>)
    requires Leads(p, off, trail, at) && StepAt(p, at) == Some(Label(data))
    ensures var v := trail + [Label(data)];
            && Leads(p, off, v, at + 1 + |data|)
            && Labels(v) == Labels(trail) + [data]
            && Hops(v) == Hops(trail) && Octets(v) == Octets(trail) + 1 + |data|
            && (Hops(trail) > 0 ==> Resume(off, v) == Resume(off, trail))
    ensures text.decode(data).None? ==> Explains(BadText, text, p, off)
  {
    var v := trail + [Label(data)];
    OneMoreStep(p, off, trail, at, Label(data));
    CountsAdd(trail, [Label(data)]);
    LabelsAdd(trail, [Label(data)]);
    assert Labels([Label(data)]) == [data];
    if Hops(trail) > 0 {
      ResumeAtFirstJump(off, trail, [Label(data)]);
    }
    if text.decode(data).None? {
      forall w | Expands(p, off, w)
        ensures !Decodable(text, Labels(w))
      {
        TrailIsSpent(p, off, v, at + 1 + |data|, w);
        assert Labels(w)[|Labels(trail)|] == Labels(v)[|Labels(trail)|] == data;
      }
    }
  }

  lemma TakeJump(text: Text, p: seq<byte>, off: int, trail: seq<Step>, at: int, target: nat)
    requires Leads(p, off, trail, at) && StepAt(p, at) == Some(Jump(target))
    ensures var v := trail + [Jump(target)];
            && Leads(p, off, v, target)
            && Labels(v) == Labels(trail)
            && Hops(v) == Hops(trail) + 1 && Octets(v) == Octets(trail)
            && Resume(off, v) == if Hops(trail) > 0 then Resume(off, trail) else at + 2
    ensures target >= |p| ==> Explains(PointerOutside, text, p, off)
    ensures Hops(trail) >= MAX_POINTER_JUMPS ==> Explains(TooManyJumps, text, p, off)
    ensures Jump(target) in trail ==> Explains(PointerLoop, text, p, off)
  {
    var v := trail + [Jump(target)];
    OneMoreStep(p, off, trail, at, Jump(target));
    CountsAdd(trail, [Jump(target)]);
    LabelsAdd(trail, [Jump(target)]);
    if Hops(trail) > 0 {
      ResumeAtFirstJump(off, trail, [Jump(target)]);
    } else {
      ResumeWithoutJump(p, off, trail, at, [Jump(target)]);
    }
    if target >= |p| {
      StuckNeverEnds(p, off, v, target);
    }
    forall w | Expands(p, off, w)
      ensures Hops(w) >= Hops(v)
    {
      TrailIsSpent(p, off, v, target, w);
    }
    if Jump(target) in trail {
      var i :| 0 <= i < |trail| && trail[i] == Jump(target);
      RevisitNeverEnds(p, off, v, target, i);
    }
  }

  /** A trail that stands at `target` again after jumping there is a cycle. */
  lemma RevisitNeverEnds(p: seq<byte>, off: int, v: seq<Step>, target: nat, i: nat)
    requires Leads(p, off, v, target) && i < |v| - 1 && v[i] == Jump(target)
    ensures forall w :: !Expands(p, off, w)
  {
    var b := LeadsSplit(p, off, v, target, i + 1);
    forall w | Expands(p, off, w)
      ensures false
    {
      ExpandsSplit(p, off, v[..i + 1], target, w);
      CycleNeverEnds(p, target, v[i + 1..], w[i + 1..]);
    }
  }

  /** The octet budget is checked before the label is known to lie inside the packet. */
  lemma LongName(text: Text, p: seq<byte>, off: int, trail: seq<Step>, at: int)
    requires Leads(p, off, trail, at) && 0 <= at < |p| && 1 <= p[at] < 0x40
    requires Octets(trail) + 1 + p[at] > MAX_DOMAIN_LENGTH
    ensures Explains(DomainTooLong, text, p, off)
  {
    var s := StepAt(p, at);
    if s.Some? {
      OneMoreStep(p, off, trail, at, s.value);
      CountsAdd(trail, [s.value]);
      forall w | Expands(p, off, w)
        ensures Octets(w) >= Octets(trail + [s.value])
      {
        TrailIsSpent(p, off, trail + [s.value], After(at, s.value), w);
      }
    } else {
      StuckNeverEnds(p, off, trail, at);
    }
  }

  lemma FinishWalk(text: Text, p: seq<byte>, off: int, trail: seq<Step>, at: int)
    requires Leads(p, off, trail, at) && Ends(p, at)
    ensures Expands(p, off, trail)
    ensures Hops(trail) == 0 ==> Resume(off, trail) == at + 1
    ensures off < Resume(off, trail) <= |p|
    ensures Octets(trail) + 1 > MAX_DOMAIN_LENGTH ==> Explains(DomainTooLong, text, p, off)
  {
    ExpandsJoin(p, off, trail, at, []);
    assert trail + [] == trail;
    if Hops(trail) == 0 {
      ResumeWithoutJump(p, off, trail, at, []);
    }
    ResumeInside(p, off, trail);
    forall w | Expands(p, off, w)
      ensures w == trail
    {
      ExpansionUnique(p, off, w, trail);
    }
  }

  // ----- the decompression loop -----

  function RequireLength(packet: seq<byte>, offset: int, size: int): Option<ParseError> {
    if offset < 0 then Some(NegativeOffset)
    else if offset + size > |packet| then Some(Truncated)
    else None
  }

  /**
   Reads the name at `offset`.  It is accepted exactly when its expansion ends within 32
   pointers and 255 octets and all its labels decode; the measure of the loop is the
   pointers, then the octets, that may still be spent.
   */
  method ReadDomain(text: Text, packet: seq<byte>, offset: int)
    returns (r: Result<(string, int), ParseError>)
    ensures r.Ok? ==>
      exists w :: Readable(text, packet, offset, w)
                  && r.value == (DomainText(text, Labels(w)), Resume(offset, w))
    ensures r.Ok? ==> offset < r.value.1 <= |packet|
    ensures r.Err? ==> Explains(r.error, text, packet, offset)
  {
    var labels: seq<string> := [];
    var originalOffset, currentOffset := offset, offset;
    var jumped := false;
    var pointerJumps := 0;
    var visited: set<int> := {};
    var encodedLength := 0;
    ghost var trail: seq<Step> := [];
    hide Expands, Join;

    while true
      invariant Leads(packet, offset, trail, currentOffset)
      invariant currentOffset < 0 ==> trail == []
      invariant pointerJumps == Hops(trail) <= MAX_POINTER_JUMPS
      invariant encodedLength == Octets(trail) <= MAX_DOMAIN_LENGTH
      invariant Decodable(text, Labels(trail)) && labels == Decoded(text, Labels(trail))
      invariant jumped <==> Hops(trail) > 0
      invariant jumped ==> originalOffset == Resume(offset, trail)
      invariant forall v: nat :: v in visited ==> Jump(v) in trail
      decreases MAX_POINTER_JUMPS - pointerJumps, MAX_DOMAIN_LENGTH - encodedLength
    {
      var bounds := RequireLength(packet, currentOffset, 1);
      if bounds.Some? {
        if currentOffset >= 0 { StuckNeverEnds(packet, offset, trail, currentOffset); }
        return Err(bounds.value);
      }
      var length: int := packet[currentOffset];

      if length < 0x40 {
        if length == 0 {
          break;
        }
        encodedLength := encodedLength + 1 + length;
        if encodedLength > MAX_DOMAIN_LENGTH {
          LongName(text, packet, offset, trail, currentOffset);
          return Err(DomainTooLong);
        }
        bounds := RequireLength(packet, currentOffset + 1, length);
        if bounds.Some? {
          StuckNeverEnds(packet, offset, trail, currentOffset);
          return Err(bounds.value);
        }
        var labelData := packet[currentOffset + 1..currentOffset + 1 + length];
        TakeLabel(text, packet, offset, trail, currentOffset, labelData);
        var decoded := text.decode(labelData);
        if decoded.None? {
          return Err(BadText);
        }
        labels := labels + [decoded.value];
        trail := trail + [Label(labelData)];
        currentOffset := currentOffset + 1 + length;
        continue;
      }

      if length >= 0xC0 {
        bounds := RequireLength(packet, currentOffset, 2);
        if bounds.Some? {
          StuckNeverEnds(packet, offset, trail, currentOffset);
          return Err(bounds.value);
        }
        var pointer := PointerTarget(length, packet[currentOffset + 1]);
        TakeJump(text, packet, offset, trail, currentOffset, pointer);
        if pointer >= |packet| {
          return Err(PointerOutside);
        }
        if !jumped {
          originalOffset := currentOffset + 2;
        }
        pointerJumps := pointerJumps + 1;
        if pointerJumps > MAX_POINTER_JUMPS {
          return Err(TooManyJumps);
        }
        if pointer in visited {
          return Err(PointerLoop);
        }
        visited := visited + {pointer};
        trail := trail + [Jump(pointer)];
        currentOffset := pointer;
        jumped := true;
        continue;
      }

      StuckNeverEnds(packet, offset, trail, currentOffset);
      return Err(ReservedLabel);
    }

    FinishWalk(text, packet, offset, trail, currentOffset);
    currentOffset := currentOffset + 1;
    if !jumped {
      originalOffset := currentOffset;
    }
    var domain := text.lower(Join(labels));
    if domain == "" {
      domain := ".";
    }
    if encodedLength + 1 > MAX_DOMAIN_LENGTH {
      return Err(DomainTooLong);
    }
    assert Readable(text, packet, offset, trail);
    return Ok((domain, originalOffset));
  }

  // ----- the whole query -----

  /** The first header check that fails; the masks 0x8000, 0x7800 and 0x0070 select these fields. */
  function HeaderError(flags: int, questions: int): Option<ParseError>
    requires 0 <= flags < 0x1_0000
  {
    if flags >= 0x8000 then Some(NotAQuery)
    else if flags / 0x800 % 0x10 != 0 then Some(UnsupportedOpcode)
    else if flags / 0x10 % 8 != 0 then Some(ReservedBits)
    else if questions != 1 then Some(QuestionCount)
    else None
  }

  /**
   Which header is accepted, by the fields of the flags in the order of section 4.1.1 of RFC
   1035: one bit for a response, four for the opcode, four flag bits that do not matter, three
   reserved bits, and four bits of response code that do not matter either.
   */
  lemma HeaderErrorByFields(qr: nat, opcode: nat, flags: nat, z: nat, rcode: nat, questions: int)
    requires qr < 2 && opcode < 16 && flags < 16 && z < 8 && rcode < 16
    ensures HeaderError(qr * 0x8000 + opcode * 0x800 + flags * 0x80 + z * 0x10 + rcode, questions)
            == if qr == 1 then Some(NotAQuery)
               else if opcode != 0 then Some(UnsupportedOpcode)
               else if z != 0 then Some(ReservedBits)
               else if questions != 1 then Some(QuestionCount)
               else None
  {
  }

  function Field(p: seq<byte>, i: nat): (n: int)
    requires i + 2 <= |p|
    ensures 0 <= n < 0x1_0000
  {
    U16(p[i], p[i + 1])
  }

  /** `q` is the query in `p` when its name is expanded by `w`. */
  ghost predicate QuestionVia(text: Text, p: seq<byte>, w: seq<Step>, q: Query) {
    var n := Resume(DNS_HEADER_SIZE, w);
    && Readable(text, p, DNS_HEADER_SIZE, w)
    && DNS_HEADER_SIZE < n <= |p| - 4
    && HeaderError(Field(p, 2), Field(p, 4)).None?
    && Field(p, n + 2) == 1
    && q == Query(Field(p, 0), Field(p, 2), Field(p, 4), Field(p, 6), Field(p, 8), Field(p, 10),
                  DomainText(text, Labels(w)), Field(p, n), Field(p, n + 2))
  }

  ghost predicate ParsesTo(text: Text, p: seq<byte>, q: Query) {
    exists w :: QuestionVia(text, p, w, q)
  }

  lemma ParsesToVia(text: Text, p: seq<byte>, w: seq<Step>, q: Query)
    requires Readable(text, p, DNS_HEADER_SIZE, w)
    ensures ParsesTo(text, p, q) <==> QuestionVia(text, p, w, q)
  {
    if ParsesTo(text, p, q) {
      var v :| QuestionVia(text, p, v, q);
      ExpansionUnique(p, DNS_HEADER_SIZE, v, w);
    }
  }

  /** Two queries cannot be read from the same octets. */
  lemma ParsesToOne(text: Text, p: seq<byte>, q: Query, q': Query)
    requires ParsesTo(text, p, q) && ParsesTo(text, p, q')
    ensures q == q'
  {
    var w :| QuestionVia(text, p, w, q);
    ParsesToVia(text, p, w, q');
  }

  method Parse(text: Text, packet: seq<byte>) returns (r: Result<Query, ParseError>)
    ensures r.Ok? ==> ParsesTo(text, packet, r.value)
    ensures r.Err? ==> forall q :: !ParsesTo(text, packet, q)
    ensures |packet| < DNS_HEADER_SIZE ==> r == Err(IncompleteHeader)
    ensures |packet| >= DNS_HEADER_SIZE && HeaderError(Field(packet, 2), Field(packet, 4)).Some? ==>
      r == Err(HeaderError(Field(packet, 2), Field(packet, 4)).value)
  {
    hide Expands, DomainText, HeaderError, Field, Explains;
    if |packet| < DNS_HEADER_SIZE {
      return Err(IncompleteHeader);
    }
    var bad := HeaderError(Field(packet, 2), Field(packet, 4));
    if bad.Some? {
      return Err(bad.value);
    }
    var name := ReadDomain(text, packet, DNS_HEADER_SIZE);
    if name.Err? {
      ExplainedIsUnreadable(name.error, text, packet, DNS_HEADER_SIZE);
      return Err(name.error);
    }
    var (domain, offset) := name.value;
    ghost var w :| Readable(text, packet, DNS_HEADER_SIZE, w) && domain == DomainText(text, Labels(w))
                   && offset == Resume(DNS_HEADER_SIZE, w);
    forall q
      ensures ParsesTo(text, packet, q) <==> QuestionVia(text, packet, w, q)
    {
      ParsesToVia(text, packet, w, q);
    }
    var bounds := RequireLength(packet, offset, 4);
    if bounds.Some? {
      return Err(bounds.value);
    }
    var queryType, queryClass := Field(packet, offset), Field(packet, offset + 2);
    if queryClass != 1 {
      return Err(UnsupportedClass);
    }
    return Ok(Query(Field(packet, 0), Field(packet, 2), Field(packet, 4), Field(packet, 6),
                    Field(packet, 8), Field(packet, 10), domain, queryType, queryClass));
  }

  // ----- meaning is preserved when a compressed question is written out -----

  lemma ReadableLabels(text: Text, p: seq<byte>, off: int, w: seq<Step>)
    requires Readable(text, p, off, w)
    ensures Writable(Labels(w))
    ensures |Labels(w)| <= 127
    ensures |Plain(Labels(w))| == Octets(w)
  {
    LabelBudget(p, off, w);
    LabelsOctets(w);
  }

  /** The same question with its name uncompressed and nothing after it. */
  function Uncompressed(p: seq<byte>, labels: seq<seq<byte>>, n: nat): seq<byte>
    requires DNS_HEADER_SIZE <= n <= |p| - 4
    requires Writable(labels)
  {
    p[..DNS_HEADER_SIZE] + (Plain(labels) + [0] + p[n..n + 4])
  }

  /** A name between a header and whatever follows stands after the header and is ended by its zero. */
  lemma NameStands(head: seq<byte>, name: seq<byte>, tail: seq<byte>)
    requires |head| == DNS_HEADER_SIZE
    ensures var p := head + (name + [0] + tail); Stands(p, DNS_HEADER_SIZE, name) && Ends(p, DNS_HEADER_SIZE + |name|)
  {
    var p := head + (name + [0] + tail);
    StandsJoined(p, 0, head, name + [0] + tail);
    StandsJoined(p, DNS_HEADER_SIZE, name + [0], tail);
    StandsJoined(p, DNS_HEADER_SIZE, name, [0]);
  }

  lemma UncompressedIsReadable(text: Text, head: seq<byte>, labels: seq<seq<byte>>, tail: seq<byte>)
    requires Writable(labels)
    requires |head| == DNS_HEADER_SIZE && |Plain(labels)| + 1 <= MAX_DOMAIN_LENGTH && Decodable(text, labels)
    ensures var p, w := head + (Plain(labels) + [0] + tail), LabelSteps(labels);
            && Readable(text, p, DNS_HEADER_SIZE, w) && Labels(w) == labels
            && Resume(DNS_HEADER_SIZE, w) == DNS_HEADER_SIZE + |Plain(labels)| + 1
  {
    NameStands(head, Plain(labels), tail);
    PlainExpands(head + (Plain(labels) + [0] + tail), DNS_HEADER_SIZE, labels);
    LabelStepsMeasures(labels);
  }

  /** Writing the labels out in place changes nothing that the parser reports. */
  lemma ExpansionPreservesMeaning(text: Text, p: seq<byte>, w: seq<Step>, q: Query)
    requires Readable(text, p, DNS_HEADER_SIZE, w)
    requires Resume(DNS_HEADER_SIZE, w) + 4 <= |p|
    ensures DNS_HEADER_SIZE <= Resume(DNS_HEADER_SIZE, w)
    ensures Writable(Labels(w))
    ensures ParsesTo(text, p, q)
            <==> ParsesTo(text, Uncompressed(p, Labels(w), Resume(DNS_HEADER_SIZE, w)), q)
  {
    ReadableLabels(text, p, DNS_HEADER_SIZE, w);
    ResumeInside(p, DNS_HEADER_SIZE, w);
    var labels, n := Labels(w), Resume(DNS_HEADER_SIZE, w);
    UncompressedIsReadable(text, p[..DNS_HEADER_SIZE], labels, p[n..n + 4]);
    UncompressedFields(p, labels, n);
    ParsesToVia(text, p, w, q);
    ParsesToVia(text, Uncompressed(p, labels, n), LabelSteps(labels), q);
    hide Expands, LabelSteps, Plain, HeaderError, Field, Readable, DomainText, Writable, Labels, Resume, ParsesTo;
  }

  /** Header, type and class are the same octets. */
  lemma UncompressedFields(p: seq<byte>, labels: seq<seq<byte>>, n: nat)
    requires DNS_HEADER_SIZE <= n <= |p| - 4 && Writable(labels)
    ensures var p', n' := Uncompressed(p, labels, n), DNS_HEADER_SIZE + |Plain(labels)| + 1;
            && |p'| == n' + 4
            && (forall i: nat :: i + 2 <= DNS_HEADER_SIZE ==> Field(p', i) == Field(p, i))
            && Field(p', n') == Field(p, n) && Field(p', n' + 2) == Field(p, n + 2)
  {
    var p', name, tail := Uncompressed(p, labels, n), Plain(labels) + [0], p[n..n + 4];
    var n' := DNS_HEADER_SIZE + |name|;
    hide Plain;
    assert Stands(p', 0, p');
    StandsJoined(p', 0, p[..DNS_HEADER_SIZE], name + tail);
    StandsJoined(p', DNS_HEADER_SIZE, name, tail);
    assert p'[n'] == tail[0] && p'[n' + 1] == tail[1] && p'[n' + 2] == tail[2] && p'[n' + 3] == tail[3];
  }

  // ----- ASCII names -----

  predicate IsAscii(s: string) {
    forall i :: 0 <= i < |s| ==> s[i] as int < 0x80
  }

  predicate AsciiOctets(bs: seq<byte>) {
    forall i :: 0 <= i < |bs| ==> bs[i] < 0x80
  }

  function Chars(bs: seq<byte>): string
    requires AsciiOctets(bs)
  {
    seq(|bs|, i requires 0 <= i < |bs| => bs[i] as char)
  }

  function AsciiEncode(s: string): (r: seq<byte>)
    requires IsAscii(s)
    ensures |r| == |s| && AsciiOctets(r) && Chars(r) == s
  {
    seq(|s|, i requires 0 <= i < |s| => s[i] as int)
  }

  function LowerAscii(s: string): (r: string)
    requires IsAscii(s)
    ensures |r| == |s|
  {
    seq(|s|, i requires 0 <= i < |s| => if 'A' <= s[i] <= 'Z' then (s[i] as int + 32) as char else s[i])
  }

  /** On ASCII the library conversions are the obvious ones, as for UTF-8 and Unicode. */
  ghost predicate AsciiText(text: Text) {
    && (forall bs: seq<byte> :: AsciiOctets(bs) ==> text.decode(bs) == Some(Chars(bs)))
    && (forall s: string :: IsAscii(s) ==> text.lower(s) == LowerAscii(s))
  }

  lemma {:induction false} JoinLength(labels: seq<seq<byte>>, parts: seq<string>)
    requires |parts| == |labels|
    requires forall k :: 0 <= k < |labels| ==>
                           1 <= |labels[k]| <= 63 && AsciiOctets(labels[k]) && parts[k] == Chars(labels[k])
    ensures IsAscii(Join(parts))
    ensures labels != [] ==> |Join(parts)| == |Plain(labels)| - 1
  {
    if |labels| > 1 {
      JoinLength(labels[1..], parts[1..]);
    } else if |labels| == 1 {
      assert Plain(labels[1..]) == [];
    }
  }

  /** An accepted ASCII name has at most 253 characters. */
  lemma AcceptedNameFits(text: Text, p: seq<byte>, off: int, w: seq<Step>)
    requires AsciiText(text) && Readable(text, p, off, w)
    requires forall k :: 0 <= k < |Labels(w)| ==> AsciiOctets(Labels(w)[k])
    ensures 1 <= |DomainText(text, Labels(w))| <= 253
    ensures IsAscii(DomainText(text, Labels(w)))
  {
    ReadableLabels(text, p, off, w);
    JoinLength(Labels(w), Decoded(text, Labels(w)));
  }

  function Split(s: string): (r: seq<string>)
    ensures |r| > 0
  {
    if s == "" then [""]
    else
      var rest := Split(s[1..]);
      if s[0] == '.' then [""] + rest else [[s[0]] + rest[0]] + rest[1..]
  }

  lemma {:induction false} JoinUndoesSplit(s: string)
    ensures Join(Split(s)) == s
  {
    if s == "" {
    } else {
      JoinUndoesSplit(s[1..]);
      var rest := Split(s[1..]);
      if s[0] == '.' {
        assert Split(s)[1..] == rest;
      } else if |rest| > 1 {
        assert Split(s)[1..] == rest[1..];
      }
    }
  }

  predicate ProperName(domain: string) {
    && IsAscii(domain)
    && forall k :: 0 <= k < |Split(domain)| ==> 1 <= |Split(domain)[k]| <= 63 && IsAscii(Split(domain)[k])
  }

  function EncodedLabels(parts: seq<string>): (r: seq<seq<byte>>)
    requires forall k :: 0 <= k < |parts| ==> IsAscii(parts[k])
    ensures |r| == |parts| && forall k :: 0 <= k < |r| ==> r[k] == AsciiEncode(parts[k])
  {
    seq(|parts|, k requires 0 <= k < |parts| => AsciiEncode(parts[k]))
  }

  predicate Words(ns: seq<int>) {
    forall i :: 0 <= i < |ns| ==> 0 <= ns[i] < 0x1_0000
  }

  /** Consecutive 16-bit fields in network byte order. */
  function Pack(ns: seq<int>): (r: seq<byte>)
    requires Words(ns)
    ensures |r| == 2 * |ns|
  {
    if ns == [] then [] else PutU16(ns[0]) + Pack(ns[1..])
  }

  /** The `i`-th of the numbers that were packed into the octets at `off`. */
  lemma {:induction false} PackedField(p: seq<byte>, off: nat, ns: seq<int>, i: nat)
    requires Words(ns) && i < |ns| && Stands(p, off, Pack(ns))
    ensures Field(p, off + 2 * i) == ns[i]
    decreases i
  {
    var word, rest := PutU16(ns[0]), ns[1..];
    assert Pack(ns) == word + Pack(rest);
    StandsJoined(p, off, word, Pack(rest));
    hide Pack, Stands;
    if i == 0 {
      WordStands(p, off, ns[0]);
    } else {
      PackedField(p, off + 2, rest, i - 1);
    }
  }

  lemma WordStands(p: seq<byte>, off: nat, n: int)
    requires 0 <= n < 0x1_0000 && Stands(p, off, PutU16(n))
    ensures Field(p, off) == n
  {
    assert p[off] == PutU16(n)[0] && p[off + 1] == PutU16(n)[1];
  }

  /** The query builder: header, one length-prefixed label per dot-separated part, zero, type, class. */
  function BuildQuery(domain: string, queryType: int, queryClass: int, id: int, flags: int): seq<byte>
    requires ProperName(domain)
    requires 0 <= queryType < 0x1_0000 && 0 <= queryClass < 0x1_0000
    requires 0 <= id < 0x1_0000 && 0 <= flags < 0x1_0000
  {
    Pack([id, flags, 1, 0, 0, 0]) + (Plain(EncodedLabels(Split(domain))) + [0]) + Pack([queryType, queryClass])
  }

  /** Where the parts of a built query stand. */
  lemma BuiltParts(domain: string, queryType: int, queryClass: int, id: int, flags: int)
    requires ProperName(domain)
    requires 0 <= queryType < 0x1_0000 && 0 <= queryClass < 0x1_0000
    requires 0 <= id < 0x1_0000 && 0 <= flags < 0x1_0000
    ensures var p, name := BuildQuery(domain, queryType, queryClass, id, flags), Plain(EncodedLabels(Split(domain)));
            && |p| == DNS_HEADER_SIZE + |name| + 5
            && Stands(p, 0, Pack([id, flags, 1, 0, 0, 0]))
            && Stands(p, DNS_HEADER_SIZE, name) && Ends(p, DNS_HEADER_SIZE + |name|)
            && Stands(p, DNS_HEADER_SIZE + |name| + 1, Pack([queryType, queryClass]))
  {
    var p, name := BuildQuery(domain, queryType, queryClass, id, flags), Plain(EncodedLabels(Split(domain)));
    var head, tail := Pack([id, flags, 1, 0, 0, 0]), Pack([queryType, queryClass]);
    assert p == head + (name + [0]) + tail;
    hide Pack, Plain, EncodedLabels, BuildQuery, ProperName;
    assert Stands(p, 0, p);
    StandsJoined(p, 0, head + (name + [0]), tail);
    StandsJoined(p, 0, head, name + [0]);
    StandsJoined(p, DNS_HEADER_SIZE, name, [0]);
  }

  lemma HeaderFields(p: seq<byte>, id: int, flags: int)
    requires 0 <= id < 0x1_0000 && 0 <= flags < 0x1_0000 && Stands(p, 0, Pack([id, flags, 1, 0, 0, 0]))
    ensures |p| >= 12 && Field(p, 0) == id && Field(p, 2) == flags && Field(p, 4) == 1
    ensures Field(p, 6) == Field(p, 8) == Field(p, 10) == 0
  {
    var head := [id, flags, 1, 0, 0, 0];
    hide Pack, Field;
    PackedField(p, 0, head, 0);
    PackedField(p, 0, head, 1);
    PackedField(p, 0, head, 2);
    PackedField(p, 0, head, 3);
    PackedField(p, 0, head, 4);
    PackedField(p, 0, head, 5);
  }

  /** Where the fields of a built query are found again. */
  lemma BuiltFields(domain: string, queryType: int, queryClass: int, id: int, flags: int)
    requires ProperName(domain)
    requires 0 <= queryType < 0x1_0000 && 0 <= queryClass < 0x1_0000
    requires 0 <= id < 0x1_0000 && 0 <= flags < 0x1_0000
    ensures var p, name := BuildQuery(domain, queryType, queryClass, id, flags), Plain(EncodedLabels(Split(domain)));
            var n := DNS_HEADER_SIZE + |name| + 1;
            && |p| == n + 4
            && Field(p, 0) == id && Field(p, 2) == flags && Field(p, 4) == 1
            && Field(p, 6) == Field(p, 8) == Field(p, 10) == 0
            && Field(p, n) == queryType && Field(p, n + 2) == queryClass
  {
    var p, name := BuildQuery(domain, queryType, queryClass, id, flags), Plain(EncodedLabels(Split(domain)));
    var tail := [queryType, queryClass];
    BuiltParts(domain, queryType, queryClass, id, flags);
    hide Stands, Pack, Field, Plain, EncodedLabels, BuildQuery;
    HeaderFields(p, id, flags);
    PackedField(p, DNS_HEADER_SIZE + |name| + 1, tail, 0);
    PackedField(p, DNS_HEADER_SIZE + |name| + 1, tail, 1);
  }

  /** The built name expands without pointers to the labels it was made of. */
  lemma BuiltName(text: Text, domain: string, p: seq<byte>)
    requires AsciiText(text) && ProperName(domain)
    requires var name := Plain(EncodedLabels(Split(domain)));
             Stands(p, DNS_HEADER_SIZE, name) && Ends(p, DNS_HEADER_SIZE + |name|)
    ensures var name, w := Plain(EncodedLabels(Split(domain))), LabelSteps(EncodedLabels(Split(domain)));
            && |name| == |domain| + 1
            && Expands(p, DNS_HEADER_SIZE, w) && Hops(w) == 0 && Octets(w) == |name|
            && Resume(DNS_HEADER_SIZE, w) == DNS_HEADER_SIZE + |name| + 1
            && Decodable(text, Labels(w)) && DomainText(text, Labels(w)) == LowerAscii(domain)
  {
    var parts := Split(domain);
    var labels := EncodedLabels(parts);
    JoinLength(labels, parts);
    JoinUndoesSplit(domain);
    LabelStepsMeasures(labels);
    PlainExpands(p, DNS_HEADER_SIZE, labels);
    assert forall k :: 0 <= k < |labels| ==> text.decode(labels[k]) == Some(parts[k]);
    assert Decoded(text, labels) == parts;
  }

  /**
   Parsing undoes the builder up to lower-casing, and a built query is refused exactly when
   the name is longer than 253 characters, the flags or the class are not supported.
   */
  lemma ParseUndoesBuild(text: Text, domain: string, queryType: int, queryClass: int, id: int, flags: int)
    requires AsciiText(text) && ProperName(domain)
    requires 0 <= queryType < 0x1_0000 && 0 <= queryClass < 0x1_0000
    requires 0 <= id < 0x1_0000 && 0 <= flags < 0x1_0000
    ensures var p := BuildQuery(domain, queryType, queryClass, id, flags);
            var good := |domain| <= 253 && HeaderError(flags, 1).None? && queryClass == 1;
            forall q :: ParsesTo(text, p, q)
                        <==> good && q == Query(id, flags, 1, 0, 0, 0, LowerAscii(domain), queryType, 1)
  {
    var p := BuildQuery(domain, queryType, queryClass, id, flags);
    BuiltParts(domain, queryType, queryClass, id, flags);
    BuiltFields(domain, queryType, queryClass, id, flags);
    BuiltName(text, domain, p);
    var w := LabelSteps(EncodedLabels(Split(domain)));
    forall q
      ensures ParsesTo(text, p, q) <==> |domain| <= 253 && QuestionVia(text, p, w, q)
    {
      OneQuestion(text, p, w, |domain| + 2, q);
    }
    hide ParsesTo, Expands, Field, HeaderError, DomainText, Plain, BuildQuery, EncodedLabels, ProperName, Stands, Pack;
  }

  /** All that a packet can parse to, once a pointer-free expansion of its name is known. */
  lemma OneQuestion(text: Text, p: seq<byte>, w: seq<Step>, octets: nat, q: Query)
    requires Expands(p, DNS_HEADER_SIZE, w) && Hops(w) == 0 && Octets(w) + 1 == octets && Decodable(text, Labels(w))
    ensures ParsesTo(text, p, q) <==> octets <= MAX_DOMAIN_LENGTH && QuestionVia(text, p, w, q)
  {
    hide Expands, Field, HeaderError, DomainText, Resume;
    if octets <= MAX_DOMAIN_LENGTH {
      ParsesToVia(text, p, w, q);
    } else if ParsesTo(text, p, q) {
      var v :| QuestionVia(text, p, v, q);
      ExpansionUnique(p, DNS_HEADER_SIZE, v, w);
    }
  }
}
