/** Automatic renaming of a registration whose name is taken (`src/dnssd_full.rs`). */
module DnsSdRename {
  import opened Bytes
  import opened Text
  import opened DnsSd

  const MAX_ORDINAL := 9999

  /** ` (n)` */
  function Suffix(ordinal: nat): Name {
    [32, 40] + Digits(ordinal) + [41]
  }

  /** Drops octets from the end until the rest is UTF-8. */
  function TrimToUtf8(s: Name): (r: Name)
    ensures r <= s && Utf8From(r, 0)
  {
    if Utf8From(s, 0) then s else TrimToUtf8(s[..|s| - 1])
  }

  function Shortened(base: Name, maximum: nat): Name {
    if |base| > maximum then TrimToUtf8(base[..maximum]) else base
  }

  /** `DnsSdInstance::new`. */
  function NewInstance(b: Name): Result<Instance> {
    if b == [] then Failure(EmptyInstance)
    else if |b| > 63 then Failure(InstanceTooLong)
    else if 0 in b then Failure(InvalidInstance)
    else Success(b)
  }

  /** `renamed_instance`. */
  function Renamed(base: Instance, ordinal: U32): Result<Instance> {
    var suffix := Suffix(ordinal);
    if |suffix| >= 63 then Failure(InstanceTooLong)
    else NewInstance(Shortened(base, 63 - |suffix|) + suffix)
  }

  function Candidate(base: Instance, ordinal: U32): Result<Instance> {
    if ordinal == 1 then Success(base) else Renamed(base, ordinal)
  }

  /** The loop of `register_with_automatic_rename` from an ordinal on. */
  function RenameFrom(s: Registry, r: Registration, base: Instance, ordinal: U32)
    : (Registry, Result<(nat, Instance)>)
    requires ordinal <= MAX_ORDINAL + 1
    decreases MAX_ORDINAL - ordinal
  {
    if ordinal > MAX_ORDINAL then (s, Failure(DuplicateRegistration))
    else
      var candidate := Candidate(base, ordinal);
      if candidate.Failure? then (s, Failure(candidate.error))
      else
        var named := r.(instance := candidate.value);
        if KeyOf(named) in s.keys then RenameFrom(s, r, base, ordinal + 1)
        else
          var (s', id) := Register(s, named);
          (s', if id.Success? then Success((id.value, candidate.value)) else Failure(id.error))
  }

  function RegisterRenaming(s: Registry, r: Registration): (Registry, Result<(nat, Instance)>) {
    RenameFrom(s, r, r.instance, 1)
  }

  lemma {:induction false} DigitsLength(n: nat, k: nat, bound: nat)
    requires k >= 1 && n < bound && bound == Power10(k)
    ensures |Digits(n)| <= k
    decreases k
  {
    if n >= 10 {
      DigitsLength(n / 10, k - 1, bound / 10);
    }
  }

  function Power10(k: nat): nat {
    if k == 0 then 1 else 10 * Power10(k - 1)
  }

  lemma SuffixLength(ordinal: U32)
    ensures 4 <= |Suffix(ordinal)| <= 13 && 0 !in Suffix(ordinal)
  {
    assert Power10(10) == 10_000_000_000;
    DigitsLength(ordinal, 10, 10_000_000_000);
    forall k | 0 <= k < |Suffix(ordinal)| ensures Suffix(ordinal)[k] != 0 {
      if 2 <= k < |Suffix(ordinal)| - 1 {
        assert IsDigit(Digits(ordinal)[k - 2]);
      }
    }
  }

  /** A renamed instance always fits one label, for every base and every ordinal. */
  lemma RenamedFits(base: Instance, ordinal: U32)
    ensures Renamed(base, ordinal).Success?
    ensures var name := Renamed(base, ordinal).value;
            name == Shortened(base, 63 - |Suffix(ordinal)|) + Suffix(ordinal) && 1 <= |name| <= 63
  {
    SuffixLength(ordinal);
    var prefix := Shortened(base, 63 - |Suffix(ordinal)|);
    assert prefix <= base;
    assert 0 !in prefix;
  }

  /** The ordinal can be read off the end of the name, so truncation cannot merge two ordinals. */
  lemma RenamedDistinct(base: Instance, other: Instance, m: U32, n: U32)
    requires Renamed(base, m).Success? && Renamed(other, n).Success?
    requires Renamed(base, m).value == Renamed(other, n).value
    ensures m == n
  {
    RenamedFits(base, m);
    RenamedFits(other, n);
    var name := Renamed(base, m).value;
    var dm, dn := Digits(m), Digits(n);
    DigitsFromEnd(name, Shortened(base, 63 - |Suffix(m)|), m);
    DigitsFromEnd(name, Shortened(other, 63 - |Suffix(n)|), n);
    assert name[|name| - 2 - |dm|] == 40 && name[|name| - 2 - |dn|] == 40;
    assert |dm| == |dn|;
    NumberOfDigits(m);
    NumberOfDigits(n);
  }

  /** Where the digits of a suffixed name are, and what stands before them. */
  lemma DigitsFromEnd(name: Name, prefix: Name, n: nat)
    requires name == prefix + Suffix(n)
    ensures var d := Digits(n);
            && |name| >= |d| + 2
            && name[|name| - 1 - |d|..|name| - 1] == d
            && name[|name| - 2 - |d|] == 40
            && forall k :: |name| - 1 - |d| <= k < |name| - 1 ==> IsDigit(name[k])
  {
    var d := Digits(n);
    var start := |name| - 1 - |d|;
    assert name == prefix + [32, 40] + d + [41];
    forall k | start <= k < |name| - 1 ensures name[k] == d[k - start] && IsDigit(name[k]) {
      assert IsDigit(d[k - start]);
    }
    assert name[start..|name| - 1] == d;
  }

  /** Key of the registration under its `ordinal`-th name. */
  function KeyFor(r: Registration, ordinal: U32): Key
    requires Candidate(r.instance, ordinal).Success?
  {
    KeyOf(r.(instance := Candidate(r.instance, ordinal).value))
  }

  lemma CandidateExists(r: Registration, ordinal: U32)
    ensures Candidate(r.instance, ordinal).Success?
  {
    RenamedFits(r.instance, ordinal);
  }

  ghost predicate Taken(s: Registry, r: Registration, ordinal: U32) {
    CandidateExists(r, ordinal);
    KeyFor(r, ordinal) in s.keys
  }

  /** The loop settles on the smallest ordinal whose name is free, and on nothing else:
      it reports a duplicate and leaves the registry alone exactly when all are taken. */
  lemma {:induction false} RenameFromChooses(s: Registry, r: Registration, ordinal: U32, free: U32)
    requires ordinal <= free <= MAX_ORDINAL + 1
    requires forall k :: ordinal <= k < free ==> Taken(s, r, k)
    requires free <= MAX_ORDINAL ==> !Taken(s, r, free)
    ensures Candidate(r.instance, free).Success?
    ensures RenameFrom(s, r, r.instance, ordinal) ==
            if free > MAX_ORDINAL then (s, Failure(DuplicateRegistration))
            else
              var name := Candidate(r.instance, free).value;
              var (s', id) := Register(s, r.(instance := name));
              (s', if id.Success? then Success((id.value, name)) else Failure(id.error))
    decreases free - ordinal
  {
    CandidateExists(r, ordinal);
    CandidateExists(r, free);
    if ordinal < free {
      assert Taken(s, r, ordinal);
      RenameFromChooses(s, r, ordinal + 1, free);
    }
  }

  /** Validation does not look at the name. */
  lemma ValidateIgnoresName(r: Registration, name: Instance)
    ensures Validate(r.(instance := name)) == Validate(r)
  {}

  /** A valid registration with fewer than 9998 registrations around always gets a name. */
  lemma RenameSucceeds(s: Registry, r: Registration)
    requires Validate(r).Success? && |s.keys| < 9998
    ensures RegisterRenaming(s, r).1.Success?
  {
    var free := FirstFree(s, r, 1);
    RenameFromChooses(s, r, 1, free);
    if free > MAX_ORDINAL {
      AllTakenIsMany(s, r, MAX_ORDINAL + 1);
      assert false;
    }
    ValidateIgnoresName(r, Candidate(r.instance, free).value);
  }

  /** The smallest free ordinal from `k` on, or one past the last. */
  ghost function FirstFree(s: Registry, r: Registration, k: U32): (free: U32)
    requires k <= MAX_ORDINAL + 1
    ensures k <= free <= MAX_ORDINAL + 1
    ensures forall i :: k <= i < free ==> Taken(s, r, i)
    ensures free <= MAX_ORDINAL ==> !Taken(s, r, free)
    decreases MAX_ORDINAL - k
  {
    if k > MAX_ORDINAL || !Taken(s, r, k) then k else FirstFree(s, r, k + 1)
  }

  /** `x` is the key of one of the names 2 up to `n`. */
  ghost predicate NameBelow(r: Registration, n: U32, x: Key) {
    exists k: U32 :: 2 <= k < n && Candidate(r.instance, k).Success? && x == KeyFor(r, k)
  }

  /** Distinct ordinals have distinct keys, so taking `n - 2` names needs that many entries. */
  lemma {:induction false} AllTakenIsMany(s: Registry, r: Registration, n: U32)
    requires n >= 2
    requires forall k :: 2 <= k < n ==> Taken(s, r, k)
    ensures |s.keys| >= n - 2
  {
    var names := TakenKeys(s, r, n);
    SubsetSize(names, s.keys.Keys);
  }

  /** The keys of the names 2 up to `n`: one for each. */
  lemma {:induction false} TakenKeys(s: Registry, r: Registration, n: U32) returns (names: set<Key>)
    requires n >= 2
    requires forall k :: 2 <= k < n ==> Taken(s, r, k)
    ensures |names| == n - 2 && names <= s.keys.Keys
    ensures forall x :: x in names ==> NameBelow(r, n, x)
  {
    if n == 2 {
      names := {};
    } else {
      var rest := TakenKeys(s, r, n - 1);
      CandidateExists(r, n - 1);
      assert Taken(s, r, n - 1);
      var last := KeyFor(r, n - 1);
      hide KeyFor, Candidate;
      FreshKey(r, n - 1);
      assert NameBelow(r, n, last);
      names := rest + {last};
      forall x | x in names ensures NameBelow(r, n, x) {
        if x in rest {
          assert NameBelow(r, n - 1, x);
        }
      }
    }
  }

  lemma FreshKey(r: Registration, n: U32)
    requires n >= 2 && Candidate(r.instance, n).Success?
    ensures !NameBelow(r, n, KeyFor(r, n))
  {
    if NameBelow(r, n, KeyFor(r, n)) {
      var k: U32 :| 2 <= k < n && Candidate(r.instance, k).Success? && KeyFor(r, n) == KeyFor(r, k);
      RenamedDistinct(r.instance, r.instance, k, n);
    }
  }

  lemma {:induction false} Utf8Concat(a: Name, b: Name, i: nat)
    requires i <= |a| && Utf8From(a, i) && Utf8From(b, 0)
    ensures Utf8From(a + b, i)
    decreases |a| - i
  {
    hide Decode, Encode;
    if i == |a| {
      Utf8Shift(a, b, 0);
    } else {
      var c := Decode(a, i).value;
      EncodeDecoded(a, i);
      assert At(a + b, i, Encode(c));
      DecodeEncoded(a + b, i, c);
      Utf8Concat(a, b, i + |Encode(c)|);
    }
  }

  lemma {:induction false} Utf8Shift(a: Name, b: Name, i: nat)
    requires i <= |b| && Utf8From(b, i)
    ensures Utf8From(a + b, |a| + i)
    decreases |b| - i
  {
    hide Decode, Encode;
    if i < |b| {
      var c := Decode(b, i).value;
      EncodeDecoded(b, i);
      assert (a + b)[|a| + i..|a| + i + |Encode(c)|] == b[i..i + |Encode(c)|];
      DecodeEncoded(a + b, |a| + i, c);
      Utf8Shift(a, b, i + |Encode(c)|);
    }
  }

  lemma {:induction false} AsciiIsUtf8(s: Name, i: nat)
    requires forall k :: 0 <= k < |s| ==> s[k] < 0x80
    ensures Utf8From(s, i)
    decreases |s| - i
  {
    if i < |s| {
      AsciiIsUtf8(s, i + 1);
    }
  }

  /** Truncation never splits a character: a renamed UTF-8 name is UTF-8. */
  lemma RenamedStaysUtf8(base: Instance, ordinal: U32)
    requires Utf8From(base, 0)
    ensures Renamed(base, ordinal).Success? && Utf8From(Renamed(base, ordinal).value, 0)
  {
    hide Utf8From, Renamed, Suffix, Decode, Encode;
    RenamedFits(base, ordinal);
    SuffixAscii(ordinal);
    AsciiIsUtf8(Suffix(ordinal), 0);
    Utf8Concat(Shortened(base, 63 - |Suffix(ordinal)|), Suffix(ordinal), 0);
  }

  lemma SuffixAscii(ordinal: U32)
    ensures forall k :: 0 <= k < |Suffix(ordinal)| ==> Suffix(ordinal)[k] < 0x80
    ensures |Suffix(ordinal)| < 63
  {
    hide Digits;
    SuffixLength(ordinal);
    var suffix := Suffix(ordinal);
    forall k | 0 <= k < |suffix| ensures suffix[k] < 0x80 {
      if 2 <= k < |suffix| - 1 {
        assert IsDigit(Digits(ordinal)[k - 2]);
      }
    }
  }
}
