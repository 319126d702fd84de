/** One DNS provider in front of several zones: every operation goes to the zone whose apex is
    the longest label suffix of the record's owner name. */
module Routing {
  import opened Text
  import opened DnsNames

  /** A provider as far as routing sees it: the record kinds it can write. */
  datatype Provider = Provider(id: nat, kinds: set<Kind>)

  datatype Kind = A | AAAA | CNAME | TXT | MX | SRV | CAA | NS | PTR | HTTPS | SVCB | TLSA

  /** The data of a record, as far as it is checked before a write. */
  datatype Rdata = Txt(strings: seq<string>) | Caa(value: string) | Other(kind: Kind)

  datatype Record = Record(name: string, rdata: Rdata)

  datatype Operation = Upsert | Delete

  /** What a provider is asked to do. */
  datatype Request = Request(provider: Provider, operation: Operation, record: Record)

  function KindOf(rdata: Rdata): Kind {
    match rdata
    case Txt(_) => TXT
    case Caa(_) => CAA
    case Other(kind) => kind
  }

  /** TXT data is at least one string, none over 255 bytes; a CAA value is not blank. */
  predicate ValidRdata(rdata: Rdata) {
    match rdata
    case Txt(strings) => strings != [] && forall i :: 0 <= i < |strings| ==> ByteLength(strings[i]) <= 255
    case Caa(value) => Trim(value) != ""
    case Other(_) => true
  }

  datatype Zone = Zone(name: string, root: string, provider: Provider)

  // ---- building the registry ----

  datatype BuildError = Empty | InvalidZoneRoot(name: string, why: Reason) | DuplicateZoneRoot(root: string)

  ghost predicate DistinctRoots(zones: seq<Zone>) {
    forall i, j :: 0 <= i < j < |zones| ==> zones[i].root != zones[j].root
  }

  /** The zone is the entry under its canonical apex. */
  ghost predicate Canonicalizes(entry: Zone, zone: Zone) {
    Canonical(entry.root) == Ok(zone.root) && zone.name == entry.name && zone.provider == entry.provider
  }

  /** The zones are the entries in order, each under its canonical apex. */
  ghost predicate Canonicalized(entries: seq<Zone>, zones: seq<Zone>) {
    |zones| == |entries| && forall i :: 0 <= i < |zones| ==> Canonicalizes(entries[i], zones[i])
  }

  /** The zones before entry k are good, and entry k is refused. */
  ghost predicate RefusedAfter(entries: seq<Zone>, zones: seq<Zone>, e: BuildError) {
    var k := |zones|;
    && k < |entries| && Canonicalized(entries[..k], zones) && DistinctRoots(zones)
    && match Canonical(entries[k].root)
       case Err(why) => e == InvalidZoneRoot(entries[k].name, why)
       case Ok(root) => e == DuplicateZoneRoot(root) && exists z :: z in zones && z.root == root
  }

  lemma PushKeepsRegistry(entries: seq<Zone>, k: nat, zones: seq<Zone>, zone: Zone)
    requires k < |entries| && Canonicalized(entries[..k], zones) && DistinctRoots(zones)
    requires Canonicalizes(entries[k], zone) && forall z :: z in zones ==> z.root != zone.root
    ensures Canonicalized(entries[..k + 1], zones + [zone]) && DistinctRoots(zones + [zone])
  {
    assert entries[..k + 1] == entries[..k] + [entries[k]];
  }

  method Build(entries: seq<Zone>) returns (r: Result<seq<Zone>, BuildError>)
    ensures r.Ok? ==> entries != [] && Canonicalized(entries, r.value) && DistinctRoots(r.value)
    ensures r.Err? ==> if entries == [] then r.error == Empty else exists zones :: RefusedAfter(entries, zones, r.error)
  {
    if entries == [] { return Err(Empty); }
    var zones: seq<Zone> := [];
    for k := 0 to |entries|
      invariant Canonicalized(entries[..k], zones) && DistinctRoots(zones)
    {
      var zone := Admit(entries[k], zones);
      if zone.Err? {
        assert RefusedAfter(entries, zones, zone.error);
        return Err(zone.error);
      }
      PushKeepsRegistry(entries, k, zones, zone.value);
      zones := zones + [zone.value];
    }
    assert entries[..|entries|] == entries;
    r := Ok(zones);
  }

  /** One round of the loop: the zone to push, or why the entry is refused. */
  method Admit(entry: Zone, zones: seq<Zone>) returns (r: Result<Zone, BuildError>)
    ensures r.Ok? ==> Canonicalizes(entry, r.value) && forall z :: z in zones ==> z.root != r.value.root
    ensures r.Err? ==>
              match Canonical(entry.root)
              case Err(why) => r.error == InvalidZoneRoot(entry.name, why)
              case Ok(root) => r.error == DuplicateZoneRoot(root) && exists z :: z in zones && z.root == root
  {
    var canonical := CanonicalizeOwnerName(entry.root);
    match canonical
    case Err(why) => r := Err(InvalidZoneRoot(entry.name, why));
    case Ok(root) =>
      if exists z :: z in zones && z.root == root {
        r := Err(DuplicateZoneRoot(root));
      } else {
        r := Ok(Zone(entry.name, root, entry.provider));
      }
  }

  // ---- selection ----

  predicate EndsWith(name: string, suffix: string) {
    |name| >= |suffix| && name[|name| - |suffix|..] == suffix
  }

  predicate SuffixOnLabelBoundary(name: string, root: string) {
    || name == root
    || (|name| > |root| && EndsWith(name, root) && name[|name| - |root| - 1] == '.')
  }

  /** The longest matching apex by byte length; of equals the later is kept. */
  function Longest(zones: seq<Zone>, name: string): Option<Zone> {
    if zones == [] then None
    else
      var best, last := Longest(zones[..|zones| - 1], name), zones[|zones| - 1];
      if !SuffixOnLabelBoundary(name, last.root) then best
      else if best.Some? && |best.value.root| > |last.root| then best else Some(last)
  }

  function Select(zones: seq<Zone>, owner: string): Option<Zone> {
    match Canonical(owner)
    case Ok(name) => Longest(zones, name)
    case Err(_) => None
  }

  // ---- the label-level specification ----

  predicate LabelSuffix(suffix: seq<string>, labels: seq<string>) {
    |suffix| <= |labels| && labels[|labels| - |suffix|..] == suffix
  }

  /** The byte test is the label test, on all strings. */
  lemma ByteTestIsLabelTest(name: string, root: string)
    ensures SuffixOnLabelBoundary(name, root) <==> LabelSuffix(Split(root), Split(name))
  {
    if SuffixOnLabelBoundary(name, root) && name != root {
      var head := name[..|name| - |root| - 1];
      assert name == head + "." + root;
      SplitAtDot(head, root);
    }
    if LabelSuffix(Split(root), Split(name)) {
      var labels, n := Split(name), |Split(name)| - |Split(root)|;
      JoinSplit(name);
      JoinSplit(root);
      if n > 0 {
        assert labels == labels[..n] + labels[n..];
        JoinConcat(labels[..n], labels[n..]);
        var head := Join(labels[..n]);
        assert name == head + "." + root;
        assert name[|head| + 1..] == root;
      }
    }
  }

  /** Of two apexes of one name the one with more bytes has more labels, and equally long
      ones are the same. */
  lemma MoreBytesMoreLabels(name: string, a: string, b: string)
    requires SuffixOnLabelBoundary(name, a) && SuffixOnLabelBoundary(name, b)
    ensures |a| < |b| <==> |Split(a)| < |Split(b)|
    ensures |a| == |b| <==> a == b
  {
    if |a| < |b| { LongerHasMoreLabels(name, a, b); }
    if |b| < |a| { LongerHasMoreLabels(name, b, a); }
  }

  /** The longer of two apexes of one name ends in a dot and the shorter. */
  lemma LongerEndsInShorter(name: string, a: string, b: string) returns (head: string)
    requires SuffixOnLabelBoundary(name, a) && SuffixOnLabelBoundary(name, b) && |a| < |b|
    ensures b == head + "." + a
  {
    var k, n := |b| - |a|, |name| - |b|;
    assert name[n..] == b;
    assert name[n + k..] == a;
    assert b[k..] == a;
    assert b[k - 1] == name[n + k - 1];
    head := b[..k - 1];
  }

  lemma LongerHasMoreLabels(name: string, a: string, b: string)
    requires SuffixOnLabelBoundary(name, a) && SuffixOnLabelBoundary(name, b) && |a| < |b|
    ensures |Split(a)| < |Split(b)|
  {
    var head := LongerEndsInShorter(name, a, b);
    SplitAtDot(head, a);
  }

  /** `z` is authoritative for the name and no other zone has as many labels of it. */
  ghost predicate MostSpecific(zones: seq<Zone>, name: string, z: Zone) {
    && z in zones && LabelSuffix(Split(z.root), Split(name))
    && forall y :: y in zones && LabelSuffix(Split(y.root), Split(name)) ==> y == z || |Split(y.root)| < |Split(z.root)|
  }

  lemma {:induction false} LongestIsBytewise(zones: seq<Zone>, name: string)
    ensures Longest(zones, name).None? ==> forall y :: y in zones ==> !SuffixOnLabelBoundary(name, y.root)
    ensures Longest(zones, name).Some? ==>
              var z := Longest(zones, name).value;
              z in zones && SuffixOnLabelBoundary(name, z.root)
              && forall y :: y in zones && SuffixOnLabelBoundary(name, y.root) ==> |y.root| <= |z.root|
  {
    if zones != [] {
      LongestIsBytewise(zones[..|zones| - 1], name);
      assert zones == zones[..|zones| - 1] + [zones[|zones| - 1]];
    }
  }

  lemma SameRootSameZone(zones: seq<Zone>, y: Zone, z: Zone)
    requires DistinctRoots(zones) && y in zones && z in zones && y.root == z.root
    ensures y == z
  {
    var i :| 0 <= i < |zones| && zones[i] == y;
    var j :| 0 <= j < |zones| && zones[j] == z;
    assert i == j;
  }

  lemma LongerIsMoreSpecific(zones: seq<Zone>, name: string, y: Zone, z: Zone)
    requires DistinctRoots(zones) && y in zones && z in zones && |y.root| <= |z.root|
    requires SuffixOnLabelBoundary(name, y.root) && SuffixOnLabelBoundary(name, z.root)
    ensures y == z || |Split(y.root)| < |Split(z.root)|
  {
    MoreBytesMoreLabels(name, y.root, z.root);
    if y.root == z.root { SameRootSameZone(zones, y, z); }
  }

  lemma LongestIsAuthoritative(zones: seq<Zone>, name: string, z: Zone)
    requires Longest(zones, name) == Some(z)
    ensures z in zones && LabelSuffix(Split(z.root), Split(name))
  {
    LongestIsBytewise(zones, name);
    ByteTestIsLabelTest(name, z.root);
  }

  lemma LongestBeats(zones: seq<Zone>, name: string, y: Zone, z: Zone)
    requires DistinctRoots(zones) && Longest(zones, name) == Some(z)
    requires y in zones && LabelSuffix(Split(y.root), Split(name))
    ensures y == z || |Split(y.root)| < |Split(z.root)|
  {
    LongestIsBytewise(zones, name);
    ByteTestIsLabelTest(name, y.root);
    LongerIsMoreSpecific(zones, name, y, z);
  }

  lemma LongestIsMostSpecific(zones: seq<Zone>, name: string, z: Zone)
    requires DistinctRoots(zones) && Longest(zones, name) == Some(z)
    ensures MostSpecific(zones, name, z)
  {
    LongestIsAuthoritative(zones, name, z);
    forall y | y in zones && LabelSuffix(Split(y.root), Split(name)) ensures y == z || |Split(y.root)| < |Split(z.root)| {
      LongestBeats(zones, name, y, z);
    }
  }

  /** Routing refines the label-level specification: for every registry and owner name, a zone
      is selected exactly if it is the most specific one for the canonical name. */
  lemma SelectIsMostSpecific(zones: seq<Zone>, owner: string, z: Zone)
    requires DistinctRoots(zones)
    ensures Select(zones, owner) == Some(z) <==> Canonical(owner).Ok? && MostSpecific(zones, Canonical(owner).value, z)
  {
    if Canonical(owner).Ok? {
      var name := Canonical(owner).value;
      LongestIsBytewise(zones, name);
      if Longest(zones, name).Some? { LongestIsMostSpecific(zones, name, Longest(zones, name).value); }
      ByteTestIsLabelTest(name, z.root);
    }
  }

  /** Nothing is selected exactly if the name is illegal or no zone is authoritative for it. */
  lemma SelectsNothingIff(zones: seq<Zone>, owner: string)
    ensures Select(zones, owner).None? <==>
              Canonical(owner).Err? || forall y :: y in zones ==> !LabelSuffix(Split(y.root), Split(Canonical(owner).value))
  {
    if Canonical(owner).Ok? {
      var name := Canonical(owner).value;
      LongestIsBytewise(zones, name);
      forall y | y in zones ensures SuffixOnLabelBoundary(name, y.root) <==> LabelSuffix(Split(y.root), Split(name)) {
        ByteTestIsLabelTest(name, y.root);
      }
    }
  }

  /** The order of the entries does not matter. */
  lemma SelectIgnoresOrder(zones: seq<Zone>, others: seq<Zone>, owner: string)
    requires DistinctRoots(zones) && DistinctRoots(others) && forall z :: z in zones <==> z in others
    ensures Select(zones, owner) == Select(others, owner)
  {
    if Select(zones, owner).Some? {
      SelectIsMostSpecific(zones, owner, Select(zones, owner).value);
      SelectIsMostSpecific(others, owner, Select(zones, owner).value);
    } else {
      SelectsNothingIff(zones, owner);
      SelectsNothingIff(others, owner);
    }
  }

  /** Spelling the owner differently does not change its zone. */
  lemma SelectIgnoresSpelling(zones: seq<Zone>, a: string, b: string)
    requires Canonical(a).Ok? && Canonical(b).Ok? && NamesEqual(a, b)
    ensures Select(zones, a) == Select(zones, b)
  {
    EqualIffSameCanonical(a, b);
  }

  // ---- dispatch ----

  datatype DnsError = NoZone | InvalidRecord | ApexNsRefused | UnsupportedRecordType

  function ValidateWritable(provider: Provider, record: Record, root: string): Result<(), DnsError> {
    if !ValidRdata(record.rdata) then Err(InvalidRecord)
    else
      match Canonical(record.name)
      case Err(_) => Err(InvalidRecord)
      case Ok(name) =>
        if KindOf(record.rdata) == NS && NamesEqual(name, root) then Err(ApexNsRefused)
        else if KindOf(record.rdata) !in provider.kinds then Err(UnsupportedRecordType)
        else Ok(())
  }

  /** The request that an upsert or delete ends in, or its refusal. */
  function Dispatch(zones: seq<Zone>, operation: Operation, record: Record): Result<Request, DnsError> {
    match Select(zones, record.name)
    case None => Err(NoZone)
    case Some(zone) =>
      match ValidateWritable(zone.provider, record, zone.root)
      case Ok(_) => Ok(Request(zone.provider, operation, record))
      case Err(e) => Err(e)
  }

  function ResolveZoneRoot(zones: seq<Zone>, name: string): Option<string> {
    match Select(zones, name)
    case Some(zone) => Some(zone.root)
    case None => None
  }

  /** The apex guard compares canonical names. */
  lemma ApexGuardIsExact(entries: seq<Zone>, zones: seq<Zone>, name: string, z: Zone)
    requires Canonicalized(entries, zones) && z in zones && Canonical(name).Ok?
    ensures NamesEqual(Canonical(name).value, z.root) <==> Canonical(name) == Ok(z.root)
  {
    var i :| 0 <= i < |zones| && zones[i] == z;
    CanonicalIsFixed(entries[i].root);
    CanonicalIsFixed(name);
    EqualIffSameCanonical(Canonical(name).value, z.root);
  }

  /** TXT data is at least one string, none over 255 bytes in UTF-8; a CAA value is not blank. */
  ghost predicate GoodData(rdata: Rdata) {
    match rdata
    case Txt(strings) =>
      strings != [] && forall i :: 0 <= i < |strings| ==>
        |strings[i]| + CountFrom(strings[i], 0x80) + CountFrom(strings[i], 0x800) + CountFrom(strings[i], 0x10000) <= 255
    case Caa(value) => exists i :: 0 <= i < |value| && !IsWhitespace(value[i])
    case Other(_) => true
  }

  lemma ValidIsGood(rdata: Rdata)
    ensures ValidRdata(rdata) <==> GoodData(rdata)
  {
    match rdata
    case Txt(strings) =>
      forall i | 0 <= i < |strings| ensures ByteLength(strings[i]) ==
        |strings[i]| + CountFrom(strings[i], 0x80) + CountFrom(strings[i], 0x800) + CountFrom(strings[i], 0x10000)
      {
        ByteLengthCounts(strings[i]);
      }
    case Caa(value) => TrimEmptyIff(value);
    case Other(_) =>
  }

  /** The record may be written to the zone: its data is valid, of a kind the zone's provider
      writes, and it is not an NS of the zone itself under any spelling. */
  ghost predicate Writable(record: Record, z: Zone) {
    GoodData(record.rdata) && !ApexNs(record, z) && exists kind :: kind in z.provider.kinds && OfKind(record.rdata, kind)
  }

  ghost predicate ApexNs(record: Record, z: Zone) { OfKind(record.rdata, NS) && Canonical(record.name) == Ok(z.root) }

  ghost predicate OfKind(rdata: Rdata, kind: Kind) {
    (rdata.Txt? && kind == TXT) || (rdata.Caa? && kind == CAA) || rdata == Other(kind)
  }

  /** The checks let through exactly the writable records, and name the first that fails. */
  lemma ChecksAreExact(entries: seq<Zone>, zones: seq<Zone>, record: Record, z: Zone)
    requires Canonicalized(entries, zones) && z in zones && Canonical(record.name).Ok?
    ensures ValidateWritable(z.provider, record, z.root) ==
            if Writable(record, z) then Ok(())
            else if !GoodData(record.rdata) then Err(InvalidRecord)
            else if ApexNs(record, z) then Err(ApexNsRefused)
            else Err(UnsupportedRecordType)
  {
    ValidIsGood(record.rdata);
    assert OfKind(record.rdata, KindOf(record.rdata));
    ApexGuardIsExact(entries, zones, record.name, z);
  }

  /** With `z` the most specific zone, the apex lookup names it, and an upsert or delete reaches
      its provider as it is, exactly if the record may be written there. */
  lemma DispatchFollowsZone(entries: seq<Zone>, zones: seq<Zone>, operation: Operation, record: Record, z: Zone)
    requires Canonicalized(entries, zones) && DistinctRoots(zones)
    requires Canonical(record.name).Ok? && MostSpecific(zones, Canonical(record.name).value, z)
    ensures ResolveZoneRoot(zones, record.name) == Some(z.root)
    ensures Dispatch(zones, operation, record).Ok? <==> Writable(record, z)
    ensures Writable(record, z) ==> Dispatch(zones, operation, record) == Ok(Request(z.provider, operation, record))
    ensures Dispatch(zones, operation, record) != Err(NoZone)
  {
    SelectIsMostSpecific(zones, record.name, z);
    ChecksAreExact(entries, zones, record, z);
  }

  /** Without an authoritative zone every write is refused and the lookup says so. */
  lemma NoZoneNoDispatch(zones: seq<Zone>, operation: Operation, record: Record)
    ensures Dispatch(zones, operation, record) == Err(NoZone) <==> ResolveZoneRoot(zones, record.name).None?
    ensures ResolveZoneRoot(zones, record.name).None? <==>
              Canonical(record.name).Err?
              || forall y :: y in zones ==> !LabelSuffix(Split(y.root), Split(Canonical(record.name).value))
  {
    SelectsNothingIff(zones, record.name);
  }
}
