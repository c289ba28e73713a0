/** Names as lists of labels and their length-prefixed wire form. */
module LabelNames {
  import opened Bytes
  import MdnsNames

  type Label = seq<Byte>

  predicate AllFit(labels: seq<Label>) {
    forall l :: l in labels ==> 1 <= |l| <= 63
  }

  /** Length-prefixed labels. */
  function Flat(labels: seq<Label>): seq<Byte>
    requires AllFit(labels)
  {
    if labels == [] then [] else [|labels[0]|] + labels[0] + Flat(labels[1..])
  }

  lemma {:induction false} FlatPush(labels: seq<Label>, l: Label)
    requires AllFit(labels) && 1 <= |l| <= 63
    ensures Flat(labels + [l]) == Flat(labels) + [|l|] + l
  {
    if labels == [] {
      assert labels + [l] == [l] && [l][1..] == [];
    } else {
      FlatPush(labels[1..], l);
      assert (labels + [l])[1..] == labels[1..] + [l];
      var first, rest := [|labels[0]|] + labels[0], Flat(labels[1..]);
      Assoc(first, rest + [|l|], l);
      Assoc(first, rest, [|l|]);
    }
  }

  lemma {:induction false} FlatLabels(labels: seq<Label>)
    requires AllFit(labels)
    ensures MdnsNames.Labels(Flat(labels), 0)
  {
    if labels != [] {
      var n := |labels| - 1;
      FlatLabels(labels[..n]);
      assert labels[n] in labels && labels == labels[..n] + [labels[n]];
      FlatPush(labels[..n], labels[n]);
      MdnsNames.LabelsAppend(Flat(labels[..n]), labels[n]);
    }
  }

  lemma FlatIsName(labels: seq<Label>)
    requires AllFit(labels) && |Flat(labels)| < 255
    ensures MdnsNames.WireName(Flat(labels) + [0])
  {
    FlatLabels(labels);
    var flat := Flat(labels);
    assert (flat + [0])[..|flat|] == flat;
  }

  /** Equal but for letter case, label by label. */
  ghost predicate SameLabels(a: seq<Label>, b: seq<Label>) {
    |a| == |b| && forall i :: 0 <= i < |a| ==> Lower(a[i]) == Lower(b[i])
  }

  /** The octets of a name after its first label. */
  lemma FirstLabel(labels: seq<Label>)
    requires AllFit(labels) && labels != []
    ensures var n, w := |labels[0]|, Lower(Flat(labels) + [0]);
            1 + n < |w| && w[0] == n && w[1..1 + n] == Lower(labels[0]) && w[1 + n..] == Lower(Flat(labels[1..]) + [0])
  {
    assert labels[0] in labels;
    assert AllFit(labels[1..]);
    var first, rest := [|labels[0]|] + labels[0], Flat(labels[1..]);
    Assoc(first, rest, [0]);
    LowerParts(|labels[0]|, labels[0], rest + [0]);
  }

  lemma LowerParts(n: Byte, l: seq<Byte>, rest: seq<Byte>)
    requires n == |l| <= 63 && rest != []
    ensures var w := Lower([n] + l + rest);
            1 + n < |w| && w[0] == n && w[1..1 + n] == Lower(l) && w[1 + n..] == Lower(rest)
  {
    var v := [n] + l + rest;
    assert v[1..1 + n] == l && v[1 + n..] == rest;
    assert Lower(v)[1..1 + n] == Lower(v[1..1 + n]);
    assert Lower(v)[1 + n..] == Lower(v[1 + n..]);
  }

  /** Wire names agree exactly when the labels do, letter case aside: no two different splits into
      labels collide. */
  lemma {:induction false} WireAgrees(a: seq<Label>, b: seq<Label>)
    requires AllFit(a) && AllFit(b)
    ensures Lower(Flat(a) + [0]) == Lower(Flat(b) + [0]) <==> SameLabels(a, b)
  {
    hide Flat, Lower;
    EmptyWire(a);
    EmptyWire(b);
    if a != [] && b != [] {
      AllFitTail(a);
      AllFitTail(b);
      WireAgrees(a[1..], b[1..]);
      WireAgreesStep(a, b);
    }
  }

  lemma WireAgreesStep(a: seq<Label>, b: seq<Label>)
    requires a != [] && b != [] && AllFit(a) && AllFit(b) && AllFit(a[1..]) && AllFit(b[1..])
    requires Lower(Flat(a[1..]) + [0]) == Lower(Flat(b[1..]) + [0]) <==> SameLabels(a[1..], b[1..])
    ensures Lower(Flat(a) + [0]) == Lower(Flat(b) + [0]) <==> SameLabels(a, b)
  {
    hide Flat, Lower, SameLabels, AllFit;
    FirstLabel(a);
    FirstLabel(b);
    SameSplit(a, b);
    assert |Lower(a[0])| == |a[0]| && |Lower(b[0])| == |b[0]|;
    if |a[0]| == |b[0]| {
      JoinParts(Lower(Flat(a) + [0]), Lower(Flat(b) + [0]), |a[0]|);
    }
  }

  lemma AllFitTail(labels: seq<Label>)
    requires AllFit(labels) && labels != []
    ensures AllFit(labels[1..]) && 1 <= |labels[0]| <= 63
  {
    assert labels[0] in labels;
  }

  /** Only the root is one octet long. */
  lemma EmptyWire(a: seq<Label>)
    requires AllFit(a)
    ensures a == [] <==> |Lower(Flat(a) + [0])| == 1
    ensures a == [] ==> Lower(Flat(a) + [0]) == [0]
  {}

  lemma SameSplit(a: seq<Label>, b: seq<Label>)
    requires a != [] && b != []
    ensures SameLabels(a, b) <==> Lower(a[0]) == Lower(b[0]) && SameLabels(a[1..], b[1..])
  {
    if Lower(a[0]) == Lower(b[0]) && SameLabels(a[1..], b[1..]) {
      forall i | 0 <= i < |a| ensures Lower(a[i]) == Lower(b[i]) {
        if i > 0 {
          assert a[i] == a[1..][i - 1] && b[i] == b[1..][i - 1];
        }
      }
    }
    if SameLabels(a, b) {
      forall i | 0 <= i < |a[1..]| ensures Lower(a[1..][i]) == Lower(b[1..][i]) {
        assert a[1..][i] == a[i + 1] && b[1..][i] == b[i + 1];
      }
    }
  }

  lemma JoinParts(v: seq<Byte>, w: seq<Byte>, n: nat)
    requires 1 + n < |v| && 1 + n < |w|
    ensures v == w <==> v[0] == w[0] && v[1..1 + n] == w[1..1 + n] && v[1 + n..] == w[1 + n..]
  {
    assert v == [v[0]] + v[1..1 + n] + v[1 + n..];
    assert w == [w[0]] + w[1..1 + n] + w[1 + n..];
  }
}
