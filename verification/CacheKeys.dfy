/** The owner names of cache keys (`src/cache_x.rs`). */
module CacheKeys {
  import opened Bytes
  import opened LabelNames
  import MdnsNames

  datatype OwnerResult = Owner(wire: seq<Byte>) | BadLabel | TooLong

  /** The checks in the order the labels come: lengths, then the running total, which leaves out
      the root octet. */
  function Check(labels: seq<Label>, total: nat): OwnerResult {
    if labels == [] then Owner([])
    else if labels[0] == [] || |labels[0]| > 63 then BadLabel
    else if total + |labels[0]| + 1 > 255 then TooLong
    else Check(labels[1..], total + |labels[0]| + 1)
  }

  lemma FirstFits(labels: seq<Label>)
    requires labels != []
    ensures AllFit(labels) <==> 1 <= |labels[0]| <= 63 && AllFit(labels[1..])
    ensures AllFit(labels) ==> |Flat(labels)| == 1 + |labels[0]| + |Flat(labels[1..])|
  {
    assert labels[0] in labels;
    if AllFit(labels[1..]) && 1 <= |labels[0]| <= 63 {
      forall l | l in labels ensures 1 <= |l| <= 63 {
        assert l == labels[0] || l in labels[1..];
      }
    }
  }

  lemma {:induction false} CheckExact(labels: seq<Label>, total: nat)
    ensures Check(labels, total).Owner? <==> AllFit(labels) && (labels != [] ==> total + |Flat(labels)| <= 255)
  {
    hide Flat, AllFit;
    if labels == [] {
      NoLabel();
    } else {
      CheckExact(labels[1..], total + |labels[0]| + 1);
      FirstFits(labels);
      if labels[1..] == [] {
        NoLabel();
      }
    }
  }

  lemma NoLabel()
    ensures AllFit([]) && Flat([]) == [] && Lower(Flat([])) == []
  {}

  lemma OneMoreLabel(labels: seq<Label>, i: nat)
    requires i < |labels| && AllFit(labels[..i]) && 1 <= |labels[i]| <= 63
    ensures AllFit(labels[..i + 1])
    ensures Lower(Flat(labels[..i + 1])) == Lower(Flat(labels[..i])) + [|labels[i]|] + Lower(labels[i])
  {
    hide Flat, Lower;
    assert labels[..i + 1] == labels[..i] + [labels[i]];
    FlatPush(labels[..i], labels[i]);
    LowerConcat(Flat(labels[..i]) + [|labels[i]|], labels[i]);
    LowerConcat(Flat(labels[..i]), [|labels[i]|]);
    assert Lower([|labels[i]|]) == [|labels[i]|];
  }

  /** `owner_to_wire_lower`. */
  method OwnerToWireLower(labels: seq<Label>) returns (r: OwnerResult)
    ensures r.Owner? <==> AllFit(labels) && |Flat(labels)| <= 255
    ensures r.Owner? ==> r.wire == Lower(Flat(labels) + [0])
    ensures !r.Owner? ==> r == Check(labels, 0)
  {
    hide Lower, Flat;
    var out: seq<Byte> := [];
    var total := 0;
    NoLabel();
    CheckExact(labels, 0);
    assert labels[0..] == labels && labels[..0] == [];
    for i := 0 to |labels|
      invariant AllFit(labels[..i]) && out == Lower(Flat(labels[..i])) && total == |out| <= 255
      invariant Check(labels, 0) == Check(labels[i..], total)
    {
      assert labels[i] in labels && labels[i..][1..] == labels[i + 1..];
      if labels[i] == [] || |labels[i]| > 63 {
        return BadLabel;
      }
      total := total + |labels[i]| + 1;
      if total > 255 {
        return TooLong;
      }
      OneMoreLabel(labels, i);
      out := out + [|labels[i]|];
      out := out + Lower(labels[i]);
    }
    assert labels[..|labels|] == labels;
    LowerConcat(Flat(labels), [0]);
    r := Owner(out + [0]);
  }

  /** An accepted owner is a wire name in the sense of the other codecs exactly when the labels
      take at most 254 octets: the check does not count the root octet. */
  lemma OwnerIsName(labels: seq<Label>)
    requires AllFit(labels) && |Flat(labels)| <= 255
    ensures MdnsNames.CanonicalName(Lower(Flat(labels) + [0])) <==> |Flat(labels)| <= 254
  {
    var n := Flat(labels) + [0];
    if |n| <= 255 {
      FlatIsName(labels);
      MdnsNames.CanonicalExact(n);
    }
  }

  function Repeated(l: Label, n: nat): seq<Label> {
    if n == 0 then [] else [l] + Repeated(l, n - 1)
  }

  lemma {:induction false} RepeatedFlat(l: Label, n: nat)
    requires 1 <= |l| <= 63
    ensures AllFit(Repeated(l, n)) && |Flat(Repeated(l, n))| == n * (|l| + 1)
  {
    if n == 0 {
    } else {
      hide Flat, AllFit;
      RepeatedFlat(l, n - 1);
      FlatCons(l, Repeated(l, n - 1));
      Distributes(n - 1, |l| + 1);
    }
  }

  lemma FlatCons(l: Label, labels: seq<Label>)
    requires 1 <= |l| <= 63 && AllFit(labels)
    ensures AllFit([l] + labels) && |Flat([l] + labels)| == |l| + 1 + |Flat(labels)|
  {
    assert ([l] + labels)[1..] == labels;
  }

  lemma Distributes(n: nat, k: nat)
    ensures (n + 1) * k == n * k + k
  {
  }

  /** Fifty-one labels of four octets: accepted, and with the root 256 octets long. */
  lemma LongOwnerAccepted()
    ensures exists labels: seq<Label> :: AllFit(labels) && |Flat(labels)| == 255 && Check(labels, 0).Owner?
  {
    var l: Label := [97, 97, 97, 97];
    RepeatedFlat(l, 51);
    var labels := Repeated(l, 51);
    CheckExact(labels, 0);
  }
}
