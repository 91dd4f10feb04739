/**
 Compressed questions, the other way round: a name written with a pointer (section 4.1.4 of RFC
 1035) is read as the name it stands for.
 */
module DnsCompression {
  import opened Bytes
  import opened DnsNames
  import opened DnsParser

  /** The two octets of a pointer. */
  function Pointer(target: nat): (r: seq<byte>)
    requires target < 0x4000
    ensures |r| == 2
  {
    [0xC0 + target / 0x100, target % 0x100]
  }

  /** The steps through a pointer and the labels it points to. */
  function Tail(target: nat, back: seq<seq<byte>>): seq<Step> {
    [Jump(target)] + LabelSteps(back)
  }

  /** The steps through labels, a pointer, and the labels it points to. */
  function Steps(front: seq<seq<byte>>, target: nat, back: seq<seq<byte>>): seq<Step> {
    LabelSteps(front) + Tail(target, back)
  }

  lemma PointerStands(p: seq<byte>, off: nat, target: nat)
    requires target < 0x4000 && Stands(p, off, Pointer(target))
    ensures StepAt(p, off) == Some(Jump(target))
  {
    assert p[off] == Pointer(target)[0] && p[off + 1] == Pointer(target)[1];
    PointerExactly(p, off, target);
  }

  /** Labels written out lead past themselves. */
  lemma {:induction false} LabelsLead(p: seq<byte>, off: nat, labels: seq<seq<byte>>)
    requires Writable(labels) && Stands(p, off, Plain(labels))
    ensures Leads(p, off, LabelSteps(labels), off + |Plain(labels)|)
    decreases |labels|
  {
    hide Stands, StepAt;
    if labels == [] {
    } else {
      var first, rest := [|labels[0]|] + labels[0], Plain(labels[1..]);
      assert Plain(labels) == first + rest;
      hide Plain;
      StandsJoined(p, off, first, rest);
      LabelStands(p, off, labels[0]);
      LabelsLead(p, off + |first|, labels[1..]);
      assert LabelSteps(labels)[1..] == LabelSteps(labels[1..]);
    }
  }

  lemma TailFacts(target: nat, back: seq<seq<byte>>)
    requires Writable(back)
    ensures var tail := Tail(target, back);
            && tail[0] == Jump(target) && tail[1..] == LabelSteps(back)
            && Labels(tail) == back && Hops(tail) == 1 && Octets(tail) == |Plain(back)|
  {
    LabelStepsMeasures(back);
    assert Tail(target, back)[1..] == LabelSteps(back);
    assert [] + back == back;
    hide Plain, LabelSteps;
  }

  lemma TailExpands(p: seq<byte>, at: nat, target: nat, back: seq<seq<byte>>)
    requires Writable(back) && StepAt(p, at) == Some(Jump(target)) && Expands(p, target, LabelSteps(back))
    ensures Expands(p, at, Tail(target, back))
  {
    hide StepAt;
    TailFacts(target, back);
  }

  lemma FrontLeads(p: seq<byte>, off: nat, front: seq<seq<byte>>, target: nat)
    requires Writable(front) && target < 0x4000 && Stands(p, off, Plain(front) + Pointer(target))
    ensures Leads(p, off, LabelSteps(front), off + |Plain(front)|)
    ensures StepAt(p, off + |Plain(front)|) == Some(Jump(target))
  {
    hide Stands, StepAt, Pointer, Plain, Leads, LabelSteps, Writable;
    StandsJoined(p, off, Plain(front), Pointer(target));
    LabelsLead(p, off, front);
    PointerStands(p, off + |Plain(front)|, target);
  }

  lemma BackExpands(p: seq<byte>, at: nat, target: nat, back: seq<seq<byte>>)
    requires Writable(back) && StepAt(p, at) == Some(Jump(target))
    requires Stands(p, target, Plain(back)) && Ends(p, target + |Plain(back)|)
    ensures Expands(p, at, Tail(target, back))
  {
    hide Stands, StepAt, Plain, Ends, Expands, LabelSteps, Tail, Writable;
    PlainExpands(p, target, back);
    TailExpands(p, at, target, back);
  }

  /** A name of labels and a pointer to further labels expands to all of them. */
  lemma PointedNameExpands(p: seq<byte>, off: nat, front: seq<seq<byte>>, target: nat, back: seq<seq<byte>>)
    requires Writable(front) && Writable(back) && target < 0x4000
    requires Stands(p, off, Plain(front) + Pointer(target))
    requires Stands(p, target, Plain(back)) && Ends(p, target + |Plain(back)|)
    ensures Expands(p, off, Steps(front, target, back))
    ensures Resume(off, Steps(front, target, back)) == off + |Plain(front)| + 2
  {
    hide Stands, StepAt, Pointer, Plain, Ends, Expands, Leads, LabelSteps, Tail, Resume, Steps, Writable;
    FrontLeads(p, off, front, target);
    var at := off + |Plain(front)|;
    BackExpands(p, at, target, back);
    StepsExpand(p, off, front, at, target, back);
  }

  lemma StepsExpand(p: seq<byte>, off: nat, front: seq<seq<byte>>, at: nat, target: nat, back: seq<seq<byte>>)
    requires Writable(front) && Leads(p, off, LabelSteps(front), at) && Expands(p, at, Tail(target, back))
    ensures Expands(p, off, Steps(front, target, back)) && Resume(off, Steps(front, target, back)) == at + 2
  {
    hide Expands, Leads, LabelSteps, Tail, Resume, Plain, Writable;
    ExpandsJoin(p, off, LabelSteps(front), at, Tail(target, back));
    LabelStepsMeasures(front);
    ResumeWithoutJump(p, off, LabelSteps(front), at, Tail(target, back));
    TailResumes(at, target, back);
  }

  lemma TailResumes(at: int, target: nat, back: seq<seq<byte>>)
    ensures Resume(at, Tail(target, back)) == at + 2
  {
  }

  lemma StepsMeasures(front: seq<seq<byte>>, target: nat, back: seq<seq<byte>>)
    requires Writable(front) && Writable(back)
    ensures var w := Steps(front, target, back);
            Labels(w) == front + back && Hops(w) == 1 && Octets(w) == |Plain(front)| + |Plain(back)|
  {
    hide Labels, Hops, Octets, Plain, LabelSteps, Tail;
    LabelStepsMeasures(front);
    TailFacts(target, back);
    LabelsAdd(LabelSteps(front), Tail(target, back));
    CountsAdd(LabelSteps(front), Tail(target, back));
  }

  /** Within the limits of section 2.3.4 of RFC 1035, written out, and with labels that decode. */
  predicate Allowed(text: Text, labels: seq<seq<byte>>)
    requires Writable(labels)
  {
    |Plain(labels)| + 1 <= 255 && Decodable(text, labels)
  }

  lemma PlainJoined(front: seq<seq<byte>>, back: seq<seq<byte>>)
    requires Writable(front) && Writable(back)
    ensures Writable(front + back) && |Plain(front + back)| == |Plain(front)| + |Plain(back)|
  {
    WritableJoined(front, back);
    LabelStepsMeasures(front + back);
    StepsMeasures(front, 0, back);
    LabelsOctets(Steps(front, 0, back));
    hide Plain, Steps, Octets, LabelSteps, Labels;
  }

  lemma WritableJoined(front: seq<seq<byte>>, back: seq<seq<byte>>)
    requires Writable(front) && Writable(back)
    ensures Writable(front + back)
  {
  }

  /** A question whose name stands compressed in the packet. */
  ghost predicate Compressed(p: seq<byte>, front: seq<seq<byte>>, target: nat, back: seq<seq<byte>>) {
    && Writable(front) && Writable(back) && target < 0x4000
    && Stands(p, 12, Plain(front) + Pointer(target))
    && Stands(p, target, Plain(back)) && Ends(p, target + |Plain(back)|)
    && 12 + |Plain(front)| + 2 + 4 <= |p|
  }

  /** The packet's header and fixed fields with the name of these labels, type and class being read at `n`. */
  ghost predicate Asks(text: Text, p: seq<byte>, labels: seq<seq<byte>>, n: nat, q: Query)
    requires Writable(labels) && 12 <= n <= |p| - 4
  {
    && Allowed(text, labels) && HeaderError(Field(p, 2), Field(p, 4)).None? && Field(p, n + 2) == 1
    && q == Query(Field(p, 0), Field(p, 2), Field(p, 4), Field(p, 6), Field(p, 8), Field(p, 10),
                  DomainText(text, labels), Field(p, n), Field(p, n + 2))
  }

  /**
   A question whose name is some labels and a pointer to further labels is the query for all the
   labels, with type and class read after the pointer; it is refused exactly when the name is
   beyond the limits or the header or class is not supported.
   */
  lemma CompressedQuestion(text: Text, p: seq<byte>, front: seq<seq<byte>>, target: nat, back: seq<seq<byte>>,
                           q: Query)
    requires Compressed(p, front, target, back)
    ensures Writable(front + back)
    ensures ParsesTo(text, p, q) <==> Asks(text, p, front + back, 12 + |Plain(front)| + 2, q)
  {
    hide ParsesTo, Expands, Steps, HeaderError, Field, DomainText, Plain, Stands, Ends, Pointer, Decodable, Labels,
         Writable, Resume;
    PlainJoined(front, back);
    CompressedVia(text, p, front, target, back, q);
    PointedNameExpands(p, 12, front, target, back);
    StepsMeasures(front, target, back);
  }

  lemma CompressedVia(text: Text, p: seq<byte>, front: seq<seq<byte>>, target: nat, back: seq<seq<byte>>, q: Query)
    requires Compressed(p, front, target, back) && Writable(front + back)
    ensures ParsesTo(text, p, q)
            <==> Allowed(text, front + back) && QuestionVia(text, p, Steps(front, target, back), q)
  {
    var w := Steps(front, target, back);
    PlainJoined(front, back);
    PointedNameExpands(p, 12, front, target, back);
    StepsMeasures(front, target, back);
    hide Expands, Steps, HeaderError, Field, DomainText, Plain, Stands, Ends, Pointer, Decodable, Labels, Resume;
    if Allowed(text, front + back) {
      ParsesToVia(text, p, w, q);
    } else if ParsesTo(text, p, q) {
      var v :| QuestionVia(text, p, v, q);
      ExpansionUnique(p, 12, v, w);
    }
  }

  /** So a compressed question says what the same question says with its name written out. */
  lemma CompressionChangesNothing(text: Text, p: seq<byte>, front: seq<seq<byte>>, target: nat,
                                  back: seq<seq<byte>>, q: Query)
    requires Compressed(p, front, target, back) && Writable(front + back) && Allowed(text, front + back)
    ensures ParsesTo(text, p, q) <==> ParsesTo(text, Uncompressed(p, front + back, 12 + |Plain(front)| + 2), q)
  {
    var w := Steps(front, target, back);
    PlainJoined(front, back);
    PointedNameExpands(p, 12, front, target, back);
    StepsMeasures(front, target, back);
    ExpansionPreservesMeaning(text, p, w, q);
    hide Expands, Steps, Plain, Stands, Ends, Pointer, Decodable, ParsesTo;
  }
}
