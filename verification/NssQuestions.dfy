/** Which questions the response check of the NSS module takes for a name (`nss/nss_dns_stub.c`). */
module NssQuestions {
  import opened Bytes
  import opened NssNames
  import opened NssResponses

  type Label = seq<Byte>

  /** The labels of the name at `position`, pointers followed. */
  function Walk(p: seq<Byte>, position: nat, jumps: nat): seq<Label>
    requires jumps <= MAX_JUMPS
    decreases MAX_JUMPS - jumps, |p| - position
  {
    if position >= |p| || p[position] == 0 then []
    else if p[position] >= 0xC0 then
      if position + 1 >= |p| then []
      else
        var pointer := Target(p, position);
        if pointer >= position || jumps == MAX_JUMPS then [] else Walk(p, pointer, jumps + 1)
    else if p[position] >= 0x40 || position + 1 + p[position] > |p| then []
    else [p[position + 1..position + 1 + p[position]]] + Walk(p, position + 1 + p[position], jumps)
  }

  /** Labels with dots between them. */
  function Join(labels: seq<Label>): seq<Byte> {
    if labels == [] then []
    else if |labels| == 1 then labels[0]
    else labels[0] + [DOT] + Join(labels[1..])
  }

  /** What expansion makes of labels. */
  function Text(labels: seq<Label>): seq<Byte> {
    if labels == [] then [DOT] else Join(labels)
  }

  function Onto(out: seq<Byte>, labels: seq<Label>): seq<Byte> {
    if labels == [] then out else if out == [] then Join(labels) else out + [DOT] + Join(labels)
  }

  lemma OntoNext(out: seq<Byte>, l: Label, rest: seq<Label>)
    requires l != []
    ensures Onto(out + (if out == [] then [] else [DOT]) + l, rest) == Onto(out, [l] + rest)
  {
    assert ([l] + rest)[1..] == rest;
    var front := out + if out == [] then [] else [DOT];
    if rest != [] {
      Assoc(front, l, [DOT]);
      Assoc(front, l + [DOT], Join(rest));
    }
    if out == [] {
      assert front + l == l;
    }
  }

  lemma {:induction false} ExpandsWalk(p: seq<Byte>, position: nat, next: Outcome<nat>, jumps: nat, out: seq<Byte>,
                                       capacity: nat)
    requires jumps <= MAX_JUMPS && ExpandFrom(p, position, next, jumps, out, capacity).Done?
    ensures var text := Onto(out, Walk(p, position, jumps));
            ExpandFrom(p, position, next, jumps, out, capacity).value.0 == if text == [] then [DOT] else text
    ensures forall l :: l in Walk(p, position, jumps) ==> l != []
    decreases MAX_JUMPS - jumps, |p| - position
  {
    hide ExpandFrom, Onto;
    ExpandStep(p, position, next, jumps, out, capacity);
    if p[position] >= 0xC0 {
      var pointer := Target(p, position);
      ExpandsWalk(p, pointer, if next.Done? then next else Done(position + 2), jumps + 1, out, capacity);
    } else if p[position] > 0 {
      var n := p[position];
      var l := p[position + 1..position + 1 + n];
      ExpandsWalk(p, position + 1 + n, next, jumps, out + (if out == [] then [] else [DOT]) + l, capacity);
      OntoNext(out, l, Walk(p, position + 1 + n, jumps));
    } else {
      OntoNothing(out);
    }
  }

  lemma OntoNothing(out: seq<Byte>)
    ensures Onto(out, []) == out
  {}

  /** Expansion joins the labels of the name with dots. */
  lemma ExpandedText(p: seq<Byte>, offset: nat, capacity: nat)
    requires Expand(p, offset, capacity).Done?
    ensures Expand(p, offset, capacity).value.0 == Text(Walk(p, offset, 0))
    ensures forall l :: l in Walk(p, offset, 0) ==> l != []
  {
    hide ExpandFrom, Walk;
    ExpandsWalk(p, offset, Failed, 0, [], capacity);
    JoinEmpty(Walk(p, offset, 0));
  }

  lemma JoinEmpty(labels: seq<Label>)
    requires forall l :: l in labels ==> l != []
    ensures Join(labels) == [] <==> labels == []
  {
    if labels != [] {
      assert labels[0] in labels;
    }
  }

  /** The labels of a name as its dots separate them. */
  function Split(t: seq<Byte>): seq<Label> {
    var e := LabelEnd(t, 0);
    [t[..e]] + if e == |t| then [] else Split(t[e + 1..])
  }

  function NameLabels(name: seq<Byte>): seq<Label> {
    if name == [DOT] then [] else Split(name)
  }

  ghost predicate SameLabels(a: seq<Label>, b: seq<Label>) {
    |a| == |b| && forall i :: 0 <= i < |a| ==> Lower(a[i]) == Lower(b[i])
  }

  /** No label holds a dot or a NUL. */
  ghost predicate Clean(labels: seq<Label>) {
    forall i, k :: 0 <= i < |labels| && 0 <= k < |labels[i]| ==> labels[i][k] != DOT && labels[i][k] != 0
  }

  lemma {:induction false} EndOfFirst(t: seq<Byte>, i: nat, e: nat)
    requires i <= e <= |t| && (e < |t| ==> t[e] == DOT) && forall k :: i <= k < e ==> t[k] != DOT
    ensures LabelEnd(t, i) == e
    decreases e - i
  {
    if i < e {
      EndOfFirst(t, i + 1, e);
    }
  }

  /** Splitting undoes joining where no label holds a dot. */
  lemma {:induction false} SplitJoined(labels: seq<Label>)
    requires labels != [] && forall i, k :: 0 <= i < |labels| && 0 <= k < |labels[i]| ==> labels[i][k] != DOT
    ensures Split(Join(labels)) == labels
  {
    var t, e := Join(labels), |labels[0]|;
    EndOfFirst(t, 0, e);
    assert t[..e] == labels[0];
    if |labels| > 1 {
      assert t[e + 1..] == Join(labels[1..]);
      SplitJoined(labels[1..]);
    }
  }

  lemma {:induction false} SplitLower(s: seq<Byte>, t: seq<Byte>)
    requires Lower(s) == Lower(t)
    ensures SameLabels(Split(s), Split(t))
    decreases |s|
  {
    hide LabelEnd;
    LowerLabelEnd(s, t, 0);
    var e := LabelEnd(s, 0);
    LowerSlice(s, 0, e);
    LowerSlice(t, 0, e);
    if e < |s| {
      LowerSlice(s, e + 1, |s|);
      LowerSlice(t, e + 1, |t|);
      SplitLower(s[e + 1..], t[e + 1..]);
    }
  }

  lemma {:induction false} SplitClean(t: CString)
    ensures Clean(Split(t))
    decreases |t|
  {
    var e := LabelEnd(t, 0);
    if e < |t| {
      SplitClean(t[e + 1..]);
    }
  }

  lemma LowerClean(a: seq<Label>, b: seq<Label>)
    requires SameLabels(a, b) && Clean(b)
    ensures Clean(a)
  {
    forall i, k | 0 <= i < |a| && 0 <= k < |a[i]| ensures a[i][k] != DOT && a[i][k] != 0 {
      assert |Lower(a[i])| == |Lower(b[i])|;
      assert Lower(a[i])[k] == Lower(b[i])[k];
    }
  }

  lemma {:induction false} JoinClean(labels: seq<Label>)
    requires Clean(labels)
    ensures forall k :: 0 <= k < |Join(labels)| ==> Join(labels)[k] != 0
  {
    if |labels| > 1 {
      assert Clean(labels[1..]);
      JoinClean(labels[1..]);
    }
  }

  /** Exactly what is accepted: the joined labels of the question, as C reads them, equal the name
      up to case, and the header, the type and the class fit. */
  lemma AcceptsExactly(r: seq<Byte>, id: U16, name: seq<Byte>, qtype: U16)
    ensures Accepts(r, id, name, qtype) <==>
            && |r| >= HEADER_LEN && U16At(r, 0) == id && r[2] >= 0x80 && U16At(r, 4) == 1
            && Expand(r, HEADER_LEN, MAX_NAME + 1).Done?
            && Lower(CStr(Text(Walk(r, HEADER_LEN, 0)))) == Lower(name)
            && var end := Expand(r, HEADER_LEN, MAX_NAME + 1).value.1;
            end + 4 <= |r| && U16At(r, end) == qtype && U16At(r, end + 2) == CLASS_IN
    ensures Expand(r, HEADER_LEN, MAX_NAME + 1).Done? ==> forall l :: l in Walk(r, HEADER_LEN, 0) ==> l != []
  {
    hide Expand, Walk, CStr, Lower, Text;
    if Expand(r, HEADER_LEN, MAX_NAME + 1).Done? {
      ExpandedText(r, HEADER_LEN, MAX_NAME + 1);
    }
  }

  lemma LowerIsDot(t: seq<Byte>)
    requires Lower(t) == Lower([DOT])
    ensures t == [DOT]
  {
    assert |Lower(t)| == |Lower([DOT])| == 1;
    assert Lower(t)[0] == Lower([DOT])[0];
  }

  /** A question that is accepted for a name asks for that name, label by label and up to case,
      exactly when none of its labels holds a dot or a NUL. */
  lemma AcceptedQuestion(r: seq<Byte>, id: U16, name: CString, qtype: U16)
    requires Accepts(r, id, name, qtype)
    ensures SameLabels(Walk(r, HEADER_LEN, 0), NameLabels(name)) <==> Clean(Walk(r, HEADER_LEN, 0))
  {
    hide Accepts, Walk, Split, Lower, Expand;
    var labels := Walk(r, HEADER_LEN, 0);
    AcceptsExactly(r, id, name, qtype);
    SplitClean(name);
    if SameLabels(labels, NameLabels(name)) && name != [DOT] {
      LowerClean(labels, Split(name));
    }
    if Clean(labels) {
      CleanMatches(labels, name);
    }
  }

  lemma CleanMatches(labels: seq<Label>, name: CString)
    requires Clean(labels) && (forall l :: l in labels ==> l != []) && Lower(CStr(Text(labels))) == Lower(name)
    ensures SameLabels(labels, NameLabels(name))
  {
    hide Split, Lower;
    if labels == [] {
      CStrWhole([DOT]);
      LowerIsDot(name);
    } else {
      JoinClean(labels);
      CStrWhole(Join(labels));
      SplitJoined(labels);
      SplitLower(Join(labels), name);
      assert labels[0] in labels;
      FirstOctet(labels);
      assert name != [DOT] by {
        if name == [DOT] {
          LowerIsDot(Join(labels));
        }
      }
    }
  }

  lemma FirstOctet(labels: seq<Label>)
    requires labels != [] && labels[0] != []
    ensures Join(labels) != [] && Join(labels)[0] == labels[0][0]
  {}

  /** A response to query 7 with a question of one label of three octets. */
  function OneLabel(l: Label): seq<Byte>
    requires |l| == 3
  {
    RESPONSE_HEAD + ([3] + l + [0]) + [0, 1, 0, 1]
  }

  const RESPONSE_HEAD: seq<Byte> := [0, 7, 0x81, 0, 0, 1, 0, 0, 0, 0, 0, 0]

  lemma OneLabelReads(l: Label)
    requires |l| == 3
    ensures Expand(OneLabel(l), HEADER_LEN, MAX_NAME + 1) == Done((l, 17))
    ensures Walk(OneLabel(l), HEADER_LEN, 0) == [l]
  {
    hide ExpandFrom;
    var r := OneLabel(l);
    assert r[12] == 3 && r[13..16] == l && r[16] == 0;
    ExpandStep(r, 12, Failed, 0, [], MAX_NAME + 1);
    var none: seq<Byte> := [];
    assert none + none + r[13..16] == l;
    ExpandStep(r, 16, Failed, 0, l, MAX_NAME + 1);
    assert Walk(r, 16, 0) == [];
  }

  lemma OneLabelAccepted(l: Label, name: seq<Byte>)
    requires |l| == 3
    ensures Accepts(OneLabel(l), 7, name, 1) <==> Lower(CStr(l)) == Lower(name)
  {
    hide Expand, CStr, Lower;
    OneLabelReads(l);
    var r := OneLabel(l);
    assert r[0] == 0 && r[1] == 7 && r[2] == 0x81 && r[4] == 0 && r[5] == 1;
    assert r[17] == 0 && r[18] == 1 && r[19] == 0 && r[20] == 1;
  }

  /** One label that holds a dot passes for a name of two labels, and one that holds a NUL for what
      stands before it. */
  lemma OtherQuestionsAccepted()
    ensures var a: Label, ab: seq<Byte> := [97, DOT, 98], [97, DOT, 98];
            Accepts(OneLabel(a), 7, ab, 1) && Walk(OneLabel(a), HEADER_LEN, 0) == [a] && |NameLabels(ab)| == 2
    ensures var a: Label, name: seq<Byte> := [97, 0, 98], [97];
            Accepts(OneLabel(a), 7, name, 1) && Walk(OneLabel(a), HEADER_LEN, 0) == [a]
  {
    hide Accepts, Walk, Lower;
    var dotted: Label, cut: Label := [97, DOT, 98], [97, 0, 98];
    OneLabelReads(dotted);
    OneLabelReads(cut);
    CStrWhole(dotted);
    assert CStr(cut[1..]) == [] && CStr(cut) == [97];
    OneLabelAccepted(dotted, dotted);
    OneLabelAccepted(cut, [97]);
    EndOfFirst(dotted, 0, 1);
    var rest := dotted[2..];
    assert rest == [98];
    EndOfFirst(rest, 0, 1);
    assert |Split(rest)| == 1;
  }
}
