/** Owner names of DNS-SD registrations (`src/dnssd_full.rs`): when two registrations answer under
    the same wire name. */
module DnsSdOwners {
  import opened Bytes
  import opened DnsSd
  import opened LabelNames
  import MdnsNames

  datatype Encoded = Refused | Wire(name: Name)

  /** Fits in 255 octets, no label empty, too long or with a zero octet in it. */
  predicate Fits(labels: seq<Name>) {
    AllFit(labels) && (forall l :: l in labels ==> 0 !in l) && |Flat(labels)| + 1 <= 255
  }

  /** `encode_labels`: a name in lower case, or refused. */
  method EncodeLabels(labels: seq<Name>) returns (r: Encoded)
    ensures r == if Fits(labels) then Wire(Lower(Flat(labels) + [0])) else Refused
  {
    hide MdnsNames.Canonical;
    var output: Name := [];
    for i := 0 to |labels|
      invariant AllFit(labels[..i]) && (forall l :: l in labels[..i] ==> 0 !in l) && output == Flat(labels[..i])
    {
      assert labels[i] in labels;
      if labels[i] == [] || |labels[i]| > 63 || 0 in labels[i] {
        return Refused;
      }
      assert labels[..i + 1] == labels[..i] + [labels[i]];
      FlatPush(labels[..i], labels[i]);
      output := output + [|labels[i]|];
      output := output + labels[i];
    }
    assert labels[..|labels|] == labels;
    output := output + [0];
    if |output| > 255 {
      return Refused;
    }
    FlatIsName(labels);
    MdnsNames.CanonicalExact(output);
    match MdnsNames.Canonical(output)
    case Ok(name) => return Wire(name);
    case Err(_) => return Refused;
  }

  /** The labels of `instance_owner`. */
  function InstanceLabels(r: Registration): seq<Name> {
    [r.instance, r.serviceType.service, r.serviceType.protocol] + r.domain
  }

  /** The owner a registration answers under. */
  function OwnerOf(r: Registration): Encoded {
    if Fits(InstanceLabels(r)) then Wire(Lower(Flat(InstanceLabels(r)) + [0])) else Refused
  }

  /** `instance_owner`. */
  method InstanceOwner(r: Registration) returns (owner: Encoded)
    ensures owner == OwnerOf(r)
  {
    owner := EncodeLabels(InstanceLabels(r));
  }

  /** Keys that differ may share an owner: on one interface exactly when they differ only in letter
      case. So registry keys separate owners exactly up to case. */
  lemma OwnersAgree(a: Registration, b: Registration)
    requires OwnerOf(a).Wire? && OwnerOf(b).Wire?
    ensures OwnerOf(a) == OwnerOf(b) <==>
            && Lower(a.instance) == Lower(b.instance)
            && Lower(a.serviceType.service) == Lower(b.serviceType.service)
            && Lower(a.serviceType.protocol) == Lower(b.serviceType.protocol)
            && SameLabels(a.domain, b.domain)
  {
    hide Flat, Lower;
    var x, y := InstanceLabels(a), InstanceLabels(b);
    WireAgrees(x, y);
    assert x[3..] == a.domain && y[3..] == b.domain;
    assert x[1..][1..] == x[2..] && x[2..][1..] == x[3..];
    assert y[1..][1..] == y[2..] && y[2..][1..] == y[3..];
    SameSplit(x, y);
    SameSplit(x[1..], y[1..]);
    SameSplit(x[2..], y[2..]);
  }

  /** Two instances that differ in case, registered under different keys with one owner. */
  lemma SharedOwner(r: Registration)
    requires r.instance == [97] && OwnerOf(r).Wire?
    ensures var s := r.(instance := [65]); KeyOf(s) != KeyOf(r) && OwnerOf(s) == OwnerOf(r)
  {
    var s := r.(instance := [65]);
    assert InstanceLabels(s)[1..] == InstanceLabels(r)[1..];
    forall l | l in InstanceLabels(s) ensures 1 <= |l| <= 63 && 0 !in l {
      assert l == [65] || l in InstanceLabels(r);
    }
    assert KeyOf(s).instance[0] != KeyOf(r).instance[0];
    OwnersAgree(r, s);
  }
}
