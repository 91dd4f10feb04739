/**
 Domain names on the wire (sections 3.1 and 4.1.4 of RFC 1035), independently of any parser.

 A compressed name is described by the steps a reader takes through the packet: a label is
 read, or a pointer is followed.  Nothing here bounds the walk: `Expands` is the
 decompressor of the standard, with no limit on pointers or octets, and a walk that never
 ends simply has no finite list of steps.
 */
module DnsNames {
  import opened Bytes

  datatype Step = Label(text: seq<byte>) | Jump(target: nat)

  /** The 14-bit offset in the two octets of a compression pointer. */
  function PointerTarget(first: int, second: byte): nat
    requires first >= 0xC0
  {
    (first - 0xC0) * 0x100 + second
  }

  /** The only step the octets at `off` allow, if any. */
  function StepAt(p: seq<byte>, off: int): (s: Option<Step>)
    ensures s.Some? && s.value.Label? ==> 1 <= |s.value.text| <= 63
  {
    if off < 0 || off >= |p| then None
    else if 1 <= p[off] < 0x40 then
      if off + 1 + p[off] <= |p| then Some(Label(p[off + 1..off + 1 + p[off]])) else None
    else if p[off] >= 0xC0 then
      if off + 2 <= |p| then Some(Jump(PointerTarget(p[off], p[off + 1]))) else None
    else None
  }

  /** A pointer is the 16-bit field whose two highest bits are set; the other 14 bits are its target. */
  lemma PointerExactly(p: seq<byte>, off: nat, target: nat)
    requires off + 2 <= |p| && target < 0x4000
    ensures StepAt(p, off) == Some(Jump(target)) <==> U16(p[off], p[off + 1]) == 0xC000 + target
  {
  }

  function After(off: int, s: Step): int {
    match s
    case Label(text) => off + 1 + |text|
    case Jump(target) => target
  }

  /** A zero octet ends the name. */
  predicate Ends(p: seq<byte>, off: int) {
    0 <= off < |p| && p[off] == 0
  }

  /** The steps `w` are possible from `from` and lead to `to`. */
  predicate Leads(p: seq<byte>, from: int, w: seq<Step>, to: int)
    decreases |w|
  {
    if w == [] then from == to
    else StepAt(p, from) == Some(w[0]) && Leads(p, After(from, w[0]), w[1..], to)
  }

  /** The name at `off` is fully expanded by the steps `w`. */
  predicate Expands(p: seq<byte>, off: int, w: seq<Step>)
    decreases |w|
  {
    if w == [] then Ends(p, off)
    else StepAt(p, off) == Some(w[0]) && Expands(p, After(off, w[0]), w[1..])
  }

  function Labels(w: seq<Step>): seq<seq<byte>> {
    if w == [] then []
    else (if w[0].Label? then [w[0].text] else []) + Labels(w[1..])
  }

  function Hops(w: seq<Step>): nat {
    if w == [] then 0
    else (if w[0].Jump? then 1 else 0) + Hops(w[1..])
  }

  /** Octets of the expanded labels, each with its length octet, without the final zero. */
  function Octets(w: seq<Step>): nat {
    if w == [] then 0
    else (if w[0].Label? then 1 + |w[0].text| else 0) + Octets(w[1..])
  }

  /** Where reading resumes: after the first pointer, or after the terminating zero. */
  function Resume(off: int, w: seq<Step>): int
    decreases |w|
  {
    if w == [] then off + 1
    else if w[0].Jump? then off + 2
    else Resume(After(off, w[0]), w[1..])
  }

  // ----- joining and splitting walks -----

  lemma {:induction false} LeadsJoin(p: seq<byte>, a: int, v: seq<Step>, b: int, w: seq<Step>, c: int)
    requires Leads(p, a, v, b) && Leads(p, b, w, c)
    ensures Leads(p, a, v + w, c)
    decreases |v|
  {
    if v == [] {
      assert v + w == w;
    } else {
      LeadsJoin(p, After(a, v[0]), v[1..], b, w, c);
      assert (v + w)[1..] == v[1..] + w;
    }
  }

  lemma {:induction false} ExpandsJoin(p: seq<byte>, a: int, v: seq<Step>, b: int, w: seq<Step>)
    requires Leads(p, a, v, b) && Expands(p, b, w)
    ensures Expands(p, a, v + w)
    decreases |v|
  {
    if v == [] {
      assert v + w == w;
    } else {
      ExpandsJoin(p, After(a, v[0]), v[1..], b, w);
      assert (v + w)[1..] == v[1..] + w;
    }
  }

  /** A full expansion goes through every point the octets lead to. */
  lemma {:induction false} ExpandsSplit(p: seq<byte>, a: int, v: seq<Step>, b: int, w: seq<Step>)
    requires Leads(p, a, v, b) && Expands(p, a, w)
    ensures v <= w && Expands(p, b, w[|v|..])
    decreases |v|
  {
    if v != [] {
      assert w != [];
      ExpandsSplit(p, After(a, v[0]), v[1..], b, w[1..]);
      assert w[|v|..] == w[1..][|v[1..]|..];
      assert w == [w[0]] + w[1..] && v == [v[0]] + v[1..];
    } else {
      assert w[0..] == w;
    }
  }

  lemma {:induction false} LeadsSplit(p: seq<byte>, a: int, w: seq<Step>, c: int, i: nat) returns (b: int)
    requires i <= |w| && Leads(p, a, w, c)
    ensures Leads(p, a, w[..i], b) && Leads(p, b, w[i..], c)
    ensures 0 < i && w[i - 1].Jump? ==> b == w[i - 1].target
    decreases i
  {
    if i == 0 {
      b := a;
      assert w[0..] == w;
    } else {
      b := LeadsSplit(p, After(a, w[0]), w[1..], c, i - 1);
      assert w[..i][1..] == w[1..][..i - 1];
      assert w[i..] == w[1..][i - 1..];
      if i == 1 {
        assert w[1..][..0] == [];
      }
    }
  }

  /** The expansion of a name is unique. */
  lemma ExpansionUnique(p: seq<byte>, off: int, v: seq<Step>, w: seq<Step>)
    requires Expands(p, off, v) && Expands(p, off, w)
    ensures v == w
  {
    ExpansionLeads(p, off, v);
    var b :| Leads(p, off, v, b) && Ends(p, b);
    ExpandsSplit(p, off, v, b, w);
    assert w[|v|..] == [];
  }

  lemma {:induction false} ExpansionLeads(p: seq<byte>, off: int, w: seq<Step>)
    requires Expands(p, off, w)
    ensures exists b :: Leads(p, off, w, b) && Ends(p, b)
    decreases |w|
  {
    if w == [] {
      assert Leads(p, off, w, off);
    } else {
      ExpansionLeads(p, After(off, w[0]), w[1..]);
      var b :| Leads(p, After(off, w[0]), w[1..], b) && Ends(p, b);
      assert Leads(p, off, w, b);
    }
  }

  /** A walk that comes back to where it was never ends. */
  lemma {:induction false} CycleNeverEnds(p: seq<byte>, off: int, cycle: seq<Step>, w: seq<Step>)
    requires cycle != [] && Leads(p, off, cycle, off)
    ensures !Expands(p, off, w)
    decreases |w|
  {
    if Expands(p, off, w) {
      ExpandsSplit(p, off, cycle, off, w);
      CycleNeverEnds(p, off, cycle, w[|cycle|..]);
    }
  }

  // ----- measures of walks -----

  lemma {:induction false} LabelsAdd(v: seq<Step>, w: seq<Step>)
    ensures Labels(v + w) == Labels(v) + Labels(w)
    decreases |v|
  {
    if v == [] {
      assert v + w == w;
    } else {
      LabelsAdd(v[1..], w);
      assert (v + w)[1..] == v[1..] + w && (v + w)[0] == v[0];
    }
  }

  lemma {:induction false} CountsAdd(v: seq<Step>, w: seq<Step>)
    ensures Hops(v + w) == Hops(v) + Hops(w)
    ensures Octets(v + w) == Octets(v) + Octets(w)
    decreases |v|
  {
    if v == [] {
      assert v + w == w;
    } else {
      CountsAdd(v[1..], w);
      assert (v + w)[1..] == v[1..] + w && (v + w)[0] == v[0];
    }
  }

  /** With 254 octets to spend on non-empty labels there are at most 127 of them. */
  lemma {:induction false} LabelBudget(p: seq<byte>, off: int, w: seq<Step>)
    requires Expands(p, off, w)
    ensures 2 * |Labels(w)| <= Octets(w)
    ensures forall k :: 0 <= k < |Labels(w)| ==> 1 <= |Labels(w)[k]| <= 63
    decreases |w|
  {
    if w == [] {
    } else {
      LabelBudget(p, After(off, w[0]), w[1..]);
    }
  }

  lemma {:induction false} ResumeInside(p: seq<byte>, off: int, w: seq<Step>)
    requires Expands(p, off, w)
    ensures off < Resume(off, w) <= |p|
    decreases |w|
  {
    if w != [] && w[0].Label? {
      ResumeInside(p, After(off, w[0]), w[1..]);
    }
  }

  /** Reading resumes at the same place however the walk goes on after its first pointer. */
  lemma {:induction false} ResumeAtFirstJump(off: int, v: seq<Step>, w: seq<Step>)
    requires Hops(v) > 0
    ensures Resume(off, v + w) == Resume(off, v)
    decreases |v|
  {
    assert (v + w)[1..] == v[1..] + w;
    if v[0].Label? {
      ResumeAtFirstJump(After(off, v[0]), v[1..], w);
    }
  }

  lemma {:induction false} ResumeWithoutJump(p: seq<byte>, off: int, v: seq<Step>, b: int, w: seq<Step>)
    requires Leads(p, off, v, b) && Hops(v) == 0
    ensures Resume(off, v + w) == Resume(b, w)
    decreases |v|
  {
    if v == [] {
      assert v + w == w;
    } else {
      assert (v + w)[1..] == v[1..] + w;
      ResumeWithoutJump(p, After(off, v[0]), v[1..], b, w);
    }
  }

  // ----- names written without compression -----

  function LabelSteps(labels: seq<seq<byte>>): (w: seq<Step>)
    ensures |w| == |labels|
  {
    if labels == [] then [] else [Label(labels[0])] + LabelSteps(labels[1..])
  }

  predicate Writable(labels: seq<seq<byte>>) {
    forall k :: 0 <= k < |labels| ==> 1 <= |labels[k]| <= 63
  }

  /** Length-prefixed labels; the terminating zero is not included. */
  function Plain(labels: seq<seq<byte>>): seq<byte>
    requires Writable(labels)
  {
    if labels == [] then [] else [|labels[0]|] + labels[0] + Plain(labels[1..])
  }

  lemma {:induction false} LabelStepsMeasures(labels: seq<seq<byte>>)
    requires Writable(labels)
    ensures Labels(LabelSteps(labels)) == labels
    ensures Hops(LabelSteps(labels)) == 0
    ensures Octets(LabelSteps(labels)) == |Plain(labels)|
  {
    if labels == [] {
    } else {
      LabelStepsMeasures(labels[1..]);
      assert LabelSteps(labels)[1..] == LabelSteps(labels[1..]);
    }
  }

  lemma {:induction false} LabelsOctets(w: seq<Step>)
    requires Writable(Labels(w))
    ensures |Plain(Labels(w))| == Octets(w)
  {
    if w == [] {
    } else {
      if w[0].Label? {
        assert Labels(w)[1..] == Labels(w[1..]);
        assert Labels(w)[0] == w[0].text;
      } else {
        assert Labels(w) == Labels(w[1..]);
      }
      forall k | 0 <= k < |Labels(w[1..])|
        ensures 1 <= |Labels(w[1..])[k]| <= 63
      {
        assert Labels(w[1..])[k] == Labels(w)[if w[0].Label? then k + 1 else k];
      }
      LabelsOctets(w[1..]);
    }
  }

  /** The octets `s` stand in the packet at `off`. */
  predicate Stands(p: seq<byte>, off: nat, s: seq<byte>) {
    off + |s| <= |p| && forall k :: off <= k < off + |s| ==> p[k] == s[k - off]
  }

  lemma StandsIsSlice(p: seq<byte>, off: nat, s: seq<byte>)
    requires Stands(p, off, s)
    ensures p[off..off + |s|] == s
  {
    assert forall i :: 0 <= i < |s| ==> p[off + i] == s[i];
  }

  lemma StandsJoined(p: seq<byte>, off: nat, s: seq<byte>, u: seq<byte>)
    requires Stands(p, off, s + u)
    ensures Stands(p, off, s) && Stands(p, off + |s|, u)
  {
  }

  /** A label of labels written out is the step at its place. */
  lemma LabelStands(p: seq<byte>, off: nat, text: seq<byte>)
    requires 1 <= |text| <= 63 && Stands(p, off, [|text|] + text)
    ensures StepAt(p, off) == Some(Label(text))
  {
    StandsJoined(p, off, [|text|], text);
    assert p[off] == [|text|][0];
    StandsIsSlice(p, off + 1, text);
    hide Stands;
  }

  /** Labels written out in place expand to themselves, and reading resumes after the zero. */
  lemma {:induction false} PlainExpands(p: seq<byte>, off: nat, labels: seq<seq<byte>>)
    requires Writable(labels) && Stands(p, off, Plain(labels)) && Ends(p, off + |Plain(labels)|)
    ensures Expands(p, off, LabelSteps(labels))
    ensures Resume(off, LabelSteps(labels)) == off + |Plain(labels)| + 1
    decreases |labels|
  {
    hide Stands, Ends, StepAt;
    if labels == [] {
    } else {
      var first, rest := [|labels[0]|] + labels[0], Plain(labels[1..]);
      assert Plain(labels) == first + rest;
      hide Plain;
      StandsJoined(p, off, first, rest);
      LabelStands(p, off, labels[0]);
      assert off + |first| + |rest| == off + |Plain(labels)|;
      PlainExpands(p, off + |first|, labels[1..]);
      assert LabelSteps(labels)[1..] == LabelSteps(labels[1..]);
    }
  }
}
