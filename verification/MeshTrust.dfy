/** The mesh trust set: its durable keys as text, and the observer that mirrors the applied
    keys into the set the TLS verifiers read. */
module MeshTrust {
  import opened Text
  import opened Durable

  type NodeId = n: nat | n <= U64_MAX
  type Spki = seq<Byte>
  type Trust = (NodeId, Spki)
  type Data = map<string, string>
  type Mutation = Write<string>

  // ---- keys as text ----

  const TRUST_PREFIX := "mesh/trust/"
  const REVOKED_PREFIX := "mesh/revoked/"
  const ADDR_PREFIX := "mesh/addr/"

  function Hex(bytes: Spki): string {
    if bytes == [] then "" else [HexDigit(bytes[0] / 16), HexDigit(bytes[0] % 16)] + Hex(bytes[1..])
  }

  function TrustKey(node: NodeId, spki: Spki): string { TrustKeyHex(node, Hex(spki)) }

  lemma {:induction false} HexSnoc(bytes: Spki, b: Byte)
    ensures Hex(bytes + [b]) == Hex(bytes) + [HexDigit(b / 16), HexDigit(b % 16)]
  {
    if bytes == [] {
      assert bytes + [b] == [b];
    } else {
      HexSnoc(bytes[1..], b);
      assert (bytes + [b])[1..] == bytes[1..] + [b];
    }
  }

  method ToHex(bytes: Spki) returns (s: string)
    ensures s == Hex(bytes)
  {
    s := "";
    for i := 0 to |bytes|
      invariant s == Hex(bytes[..i])
    {
      HexSnoc(bytes[..i], bytes[i]);
      assert bytes[..i + 1] == bytes[..i] + [bytes[i]];
      s := s + [HexDigit(bytes[i] / 16), HexDigit(bytes[i] % 16)];
    }
    assert bytes[..|bytes|] == bytes;
  }

  /** `u8::from_str_radix` of two characters in base 16, which allows a plus sign. */
  function HexPair(a: char, b: char): Option<Byte> {
    match (HexValue(a), HexValue(b))
    case (Some(x), Some(y)) => Some(16 * x + y)
    case (_, Some(y)) => if a == '+' then Some(y) else None
    case _ => None
  }

  function HexPairs(s: string): Option<Spki> {
    if s == "" then Some([])
    else if |s| == 1 then None
    else
      match (HexPair(s[0], s[1]), HexPairs(s[2..]))
      case (Some(b), Some(rest)) => Some([b] + rest)
      case _ => None
  }

  function FromHex(s: string): Option<Spki> { HexPairs(Trim(s)) }

  /** The position of the first slash, or the length. */
  function FirstSlash(s: string): (i: nat)
    ensures i <= |s| && (i < |s| ==> s[i] == '/') && forall j :: 0 <= j < i ==> s[j] != '/'
  {
    if s == "" || s[0] == '/' then 0 else 1 + FirstSlash(s[1..])
  }

  function ParseTrustKey(key: string): Option<Trust> {
    if !(TRUST_PREFIX <= key) then None
    else
      var rest := key[|TRUST_PREFIX|..];
      var slash := FirstSlash(rest);
      if slash == |rest| then None
      else
        match (ParseNode(rest[..slash]), FromHex(rest[slash + 1..]))
        case (Some(node), Some(spki)) => Some((node, spki))
        case _ => None
  }

  function ParseNode(s: string): (r: Option<NodeId>)
    ensures r == ParseU64(s)
  {
    match ParseU64(s)
    case Some(n) => Some(n)
    case None => None
  }

  lemma {:induction false} HexReadsBack(bytes: Spki)
    ensures HexPairs(Hex(bytes)) == Some(bytes)
    ensures forall i :: 0 <= i < |Hex(bytes)| ==> !IsWhitespace(Hex(bytes)[i]) && Hex(bytes)[i] != '/'
  {
    if bytes != [] {
      HexReadsBack(bytes[1..]);
      HexDigitReads(bytes[0] / 16);
      HexDigitReads(bytes[0] % 16);
      assert Hex(bytes)[2..] == Hex(bytes[1..]);
      assert bytes == [bytes[0]] + bytes[1..];
    }
  }

  ghost predicate Spells(c: char, d: int) {
    0 <= d < 16 && (c == "0123456789abcdef"[d] || c == "0123456789ABCDEF"[d])
  }

  /** Two characters that spell a byte: two digits in either case, or a plus sign and one. */
  ghost predicate SpellsByte(a: char, b: char, v: Byte) { Spells(b, v % 16) && (Spells(a, v / 16) || (a == '+' && v < 16)) }

  lemma HexValueIff(c: char, d: int)
    ensures HexValue(c) == Some(d) <==> Spells(c, d)
  {}

  lemma HexPairReads(a: char, b: char, v: Byte)
    ensures HexPair(a, b) == Some(v) <==>
              HexValue(b) == Some(v % 16) && (HexValue(a) == Some(v / 16) || (a == '+' && v < 16))
  {}

  lemma HexPairIff(a: char, b: char, v: Byte)
    ensures HexPair(a, b) == Some(v) <==> SpellsByte(a, b, v)
  {
    HexPairReads(a, b, v);
    HexValueIff(a, v / 16);
    HexValueIff(b, v % 16);
  }

  ghost predicate SpellsBytes(s: string, bytes: Spki) {
    |s| == 2 * |bytes| && forall i :: 0 <= i < |bytes| ==> SpellsByte(s[2 * i], s[2 * i + 1], bytes[i])
  }

  lemma SpellsHead(s: string, bytes: Spki)
    requires |s| >= 2 && bytes != []
    ensures SpellsBytes(s, bytes) <==> SpellsByte(s[0], s[1], bytes[0]) && SpellsBytes(s[2..], bytes[1..])
  {
    var rest, tail := s[2..], bytes[1..];
    if SpellsBytes(s, bytes) {
      forall i | 0 <= i < |tail| ensures SpellsByte(rest[2 * i], rest[2 * i + 1], tail[i]) {
        assert SpellsByte(s[2 * (i + 1)], s[2 * (i + 1) + 1], bytes[i + 1]);
      }
      assert SpellsByte(s[2 * 0], s[2 * 0 + 1], bytes[0]);
    }
    if SpellsByte(s[0], s[1], bytes[0]) && SpellsBytes(rest, tail) {
      forall i | 0 <= i < |bytes| ensures SpellsByte(s[2 * i], s[2 * i + 1], bytes[i]) {
        if i > 0 { assert SpellsByte(rest[2 * (i - 1)], rest[2 * (i - 1) + 1], tail[i - 1]); }
      }
    }
  }

  /** Read as bytes is exactly the text that spells them, two characters a byte. */
  lemma {:induction false} HexPairsIff(s: string, bytes: Spki)
    ensures HexPairs(s) == Some(bytes) <==> SpellsBytes(s, bytes)
  {
    if |s| >= 2 && bytes != [] {
      HexPairIff(s[0], s[1], bytes[0]);
      HexPairsIff(s[2..], bytes[1..]);
      SpellsHead(s, bytes);
      assert bytes == [bytes[0]] + bytes[1..];
    }
  }

  lemma HexDigitIsListed(d: int)
    requires 0 <= d < 16
    ensures HexDigit(d) == "0123456789abcdef"[d]
  {}

  /** Printed bytes are lower-case digits, two a byte, the high one first. */
  lemma {:induction false} HexIsLowerCase(bytes: Spki, i: nat)
    requires i < |bytes|
    ensures |Hex(bytes)| == 2 * |bytes|
    ensures Hex(bytes)[2 * i] == "0123456789abcdef"[bytes[i] / 16] && Hex(bytes)[2 * i + 1] == "0123456789abcdef"[bytes[i] % 16]
  {
    HexDigitIsListed(bytes[0] / 16);
    HexDigitIsListed(bytes[0] % 16);
    if |bytes| > 1 {
      var rest := bytes[1..];
      HexIsLowerCase(rest, if i == 0 then 0 else i - 1);
      assert i > 0 ==> Hex(bytes)[2 * i] == Hex(rest)[2 * (i - 1)] && Hex(bytes)[2 * i + 1] == Hex(rest)[2 * (i - 1) + 1];
    }
  }

  /** A trust key is the prefix, a number, a slash and hex text, and names what these read as. */
  ghost predicate NamesTrust(key: string, node: NodeId, spki: Spki) {
    exists digits, hex :: Written(key, digits, hex) && ParseU64(digits) == Some(node) && FromHex(hex) == Some(spki)
  }

  ghost predicate Written(key: string, digits: string, hex: string) {
    '/' !in digits && key == "mesh/trust/" + digits + "/" + hex
  }

  lemma WrittenSplits(key: string, digits: string, hex: string)
    requires Written(key, digits, hex)
    ensures TRUST_PREFIX <= key
    ensures var rest := key[|TRUST_PREFIX|..];
            FirstSlash(rest) == |digits| < |rest| && rest[..|digits|] == digits && rest[|digits| + 1..] == hex
  {
    var rest := key[|TRUST_PREFIX|..];
    assert rest == digits + "/" + hex;
    assert rest[|digits|] == '/' && forall i :: 0 <= i < |digits| ==> rest[i] == digits[i];
  }

  lemma SplitIsWritten(key: string)
    requires TRUST_PREFIX <= key && FirstSlash(key[|TRUST_PREFIX|..]) < |key| - |TRUST_PREFIX|
    ensures var rest := key[|TRUST_PREFIX|..]; var slash := FirstSlash(rest); Written(key, rest[..slash], rest[slash + 1..])
  {
    var rest := key[|TRUST_PREFIX|..];
    var slash := FirstSlash(rest);
    assert key == TRUST_PREFIX + rest;
    assert rest == rest[..slash] + "/" + rest[slash + 1..];
  }

  lemma NamedIsParsed(key: string, digits: string, hex: string)
    requires Written(key, digits, hex)
    ensures ParseTrustKey(key) ==
              match (ParseU64(digits), FromHex(hex)) case (Some(node), Some(spki)) => Some((node, spki)) case _ => None
  {
    WrittenSplits(key, digits, hex);
  }

  lemma ParseTrustKeyIff(key: string, node: NodeId, spki: Spki)
    ensures ParseTrustKey(key) == Some((node, spki)) <==> NamesTrust(key, node, spki)
  {
    if NamesTrust(key, node, spki) {
      var digits, hex :| Written(key, digits, hex) && ParseU64(digits) == Some(node) && FromHex(hex) == Some(spki);
      NamedIsParsed(key, digits, hex);
    } else if ParseTrustKey(key) == Some((node, spki)) {
      SplitIsWritten(key);
    }
  }

  lemma HexDigitReads(d: int)
    requires 0 <= d < 16
    ensures HexValue(HexDigit(d)) == Some(d) && !IsWhitespace(HexDigit(d)) && HexDigit(d) != '/'
  {}

  lemma DecimalParses(node: NodeId)
    ensures ParseU64(Decimal(node)) == Some(node) && '/' !in Decimal(node)
  {
    DecimalReadsBack(node);
  }

  /** The key that trusts a public key as spelled by whoever sent it. */
  function TrustKeyHex(node: NodeId, hex: string): string { TRUST_PREFIX + Decimal(node) + "/" + hex }

  /** Only the hex part of such a key can be spelled in several ways. */
  lemma TrustKeyHexParses(node: NodeId, hex: string)
    ensures ParseTrustKey(TrustKeyHex(node, hex)) == if FromHex(hex).Some? then Some((node, FromHex(hex).value)) else None
  {
    var digits, key := Decimal(node), TrustKeyHex(node, hex);
    DecimalParses(node);
    var rest := key[|TRUST_PREFIX|..];
    assert rest == digits + "/" + hex;
    assert FirstSlash(rest) == |digits| by { assert rest[|digits|] == '/'; }
    assert rest[..|digits|] == digits && rest[|digits| + 1..] == hex;
  }

  /** Parsing inverts printing, for every node id and every byte string. */
  lemma TrustKeyParsesBack(node: NodeId, spki: Spki)
    ensures ParseTrustKey(TrustKey(node, spki)) == Some((node, spki))
  {
    HexReadsBack(spki);
    assert Trim(Hex(spki)) == Hex(spki);
    TrustKeyHexParses(node, Hex(spki));
  }

  // ---- the trust set ----

  type Sets = map<NodeId, seq<Spki>>

  ghost function Pairs(sets: Sets): set<Trust> { set n, k | n in sets && k in sets[n] :: (n, k) }

  ghost predicate NoEmptyPeer(sets: Sets) { forall n :: n in sets ==> sets[n] != [] }

  function Without(keys: seq<Spki>, spki: Spki): (r: seq<Spki>)
    ensures forall k :: k in r <==> k in keys && k != spki
  {
    if keys == [] then [] else (if keys[0] != spki then [keys[0]] else []) + Without(keys[1..], spki)
  }

  class TrustSet {
    var sets: Sets

    constructor ()
      ensures sets == map[]
    {
      sets := map[];
    }

    method Contains(peer: NodeId, spki: Spki) returns (b: bool)
      ensures b <==> (peer, spki) in Pairs(sets)
    {
      b := peer in sets && spki in sets[peer];
    }

    method Insert(peer: NodeId, spki: Spki)
      requires NoEmptyPeer(sets)
      modifies this
      ensures NoEmptyPeer(sets) && Pairs(sets) == Pairs(old(sets)) + {(peer, spki)}
    {
      var keys := if peer in sets then sets[peer] else [];
      if spki !in keys {
        keys := keys + [spki];
      }
      sets := sets[peer := keys];
    }

    method RemoveKey(peer: NodeId, spki: Spki)
      requires NoEmptyPeer(sets)
      modifies this
      ensures NoEmptyPeer(sets) && Pairs(sets) == Pairs(old(sets)) - {(peer, spki)}
    {
      if peer in sets {
        var keys := Without(sets[peer], spki);
        sets := if keys == [] then sets - {peer} else sets[peer := keys];
      }
    }

    method ReplaceAll(sets: Sets)
      modifies this
      ensures this.sets == sets
    {
      this.sets := sets;
    }

    /** The observer's apply: mirror a batch of mutations. */
    method OnApply(ms: seq<Mutation>)
      requires NoEmptyPeer(sets)
      modifies this
      ensures NoEmptyPeer(sets) && Pairs(sets) == LiveAfter(Pairs(old(sets)), ms)
    {
      for i := 0 to |ms|
        invariant NoEmptyPeer(sets) && Pairs(sets) == LiveAfter(Pairs(old(sets)), ms[..i])
      {
        LiveSnoc(Pairs(old(sets)), ms, i);
        match ParseTrustKey(ms[i].key)
        case Some((node, spki)) =>
          if ms[i].Put? { Insert(node, spki); } else { RemoveKey(node, spki); }
        case None =>
      }
      assert ms[..|ms|] == ms;
    }

    /** The observer's reset, after a snapshot install. */
    method OnReset(data: Data)
      modifies this
      ensures NoEmptyPeer(sets) && Pairs(sets) == Trusted(data)
    {
      var fromKeys := TrustFromKeys(data);
      ReplaceAll(fromKeys);
    }
  }

  /** What the durable keys say. */
  ghost function Trusted(data: Data): set<Trust> {
    set key | key in data && ParseTrustKey(key).Some? :: ParseTrustKey(key).value
  }

  method TrustFromKeys(data: Data) returns (sets: Sets)
    ensures NoEmptyPeer(sets) && Pairs(sets) == Trusted(data)
    ensures sets == map[] <==> Trusted(data) == {}
  {
    sets := map[];
    var left := data.Keys;
    ghost var done: Data := map[];
    while left != {}
      invariant left <= data.Keys && done == data - left
      invariant NoEmptyPeer(sets) && Pairs(sets) == Trusted(done)
      decreases left
    {
      var key :| key in left;
      TrustedOneMore(done, key, data[key]);
      done := done[key := data[key]];
      match ParseTrustKey(key) {
        case Some((node, spki)) =>
          PairsOneMore(sets, node, spki);
          sets := sets[node := (if node in sets then sets[node] else []) + [spki]];
        case None =>
      }
      left := left - {key};
      assert done == data - left;
    }
    assert done == data;
    NoPairsNoPeers(sets);
  }

  lemma PairsOneMore(sets: Sets, node: NodeId, spki: Spki)
    ensures Pairs(sets[node := (if node in sets then sets[node] else []) + [spki]]) == Pairs(sets) + {(node, spki)}
  {}

  lemma NoPairsNoPeers(sets: Sets)
    requires NoEmptyPeer(sets)
    ensures sets == map[] <==> Pairs(sets) == {}
  {
    if sets != map[] {
      var n :| n in sets;
      assert sets[n][0] in sets[n];
      assert (n, sets[n][0]) in Pairs(sets);
    }
  }

  lemma TrustedOneMore(data: Data, key: string, value: string)
    ensures Trusted(data[key := value]) == Trusted(data) + (if ParseTrustKey(key).Some? then {ParseTrustKey(key).value} else {})
  {
    var more := data[key := value];
    forall t ensures t in Trusted(more) <==> t in Trusted(data) || ParseTrustKey(key) == Some(t) {
      if t in Trusted(data) {
        var k :| k in data && ParseTrustKey(k) == Some(t);
        assert k in more;
      }
      if ParseTrustKey(key) == Some(t) { assert key in more; }
    }
  }

  // ---- the mirror ----

  function LiveOne(live: set<Trust>, m: Mutation): set<Trust> {
    match ParseTrustKey(m.key)
    case Some(t) => if m.Put? then live + {t} else live - {t}
    case None => live
  }

  function LiveAfter(live: set<Trust>, ms: seq<Mutation>): set<Trust> {
    if ms == [] then live else LiveOne(LiveAfter(live, ms[..|ms| - 1]), ms[|ms| - 1])
  }

  lemma LiveSnoc(live: set<Trust>, ms: seq<Mutation>, i: nat)
    requires i < |ms|
    ensures LiveAfter(live, ms[..i + 1]) == LiveOne(LiveAfter(live, ms[..i]), ms[i])
  {
    assert ms[..i + 1][..i] == ms[..i];
  }

  /** A put keeps live and durable trust equal, whatever the key. */
  lemma PutKeepsMirror(data: Data, key: string, value: string)
    ensures LiveOne(Trusted(data), Put(key, value)) == Trusted(data[key := value])
  {
    TrustedOneMore(data, key, value);
  }

  /** A delete keeps them equal exactly if no other stored key spells the same trust. */
  lemma DeleteKeepsMirrorIff(data: Data, key: string)
    ensures LiveOne(Trusted(data), Delete(key)) == Trusted(data - {key}) <==>
              ParseTrustKey(key).None?
              || forall other :: other in data && other != key ==> ParseTrustKey(other) != ParseTrustKey(key)
  {
    var less := data - {key};
    if forall other :: other in data && other != key ==>
         ParseTrustKey(other).None? || ParseTrustKey(other) != ParseTrustKey(key) {
      forall t ensures t in Trusted(less) <==> t in Trusted(data) && ParseTrustKey(key) != Some(t) {
        if t in Trusted(data) && ParseTrustKey(key) != Some(t) {
          var k :| k in data && ParseTrustKey(k) == Some(t);
          assert k in less;
        }
      }
    } else if ParseTrustKey(key).Some? {
      var other :| other in data && other != key && ParseTrustKey(other) == ParseTrustKey(key);
      assert other in less;
      assert ParseTrustKey(key).value in Trusted(less);
    }
  }

  /** A key admitted in upper case: deleting the trust by its own spelling takes it away on
      every live node, while the stored key still grants it after a restart. */
  lemma SpellingsBreakMirror()
    ensures var data: Data := map[TrustKeyHex(1, "AB") := ""];
            LiveOne(Trusted(data), Delete(TrustKey(1, [0xAB]))) != Trusted(data - {TrustKey(1, [0xAB])})
  {
    var upper, lower := TrustKeyHex(1, "AB"), TrustKey(1, [0xAB]);
    UpperCaseReads();
    TrustKeyHexParses(1, "AB");
    TrustKeyParsesBack(1, [0xAB]);
    SpellingsDiffer(1, "AB", "ab");
    DeleteKeepsMirrorIff(map[upper := ""], lower);
  }

  lemma UpperCaseReads()
    ensures FromHex("AB") == Some([0xAB]) && Hex([0xAB]) == "ab"
  {
    assert "AB"[2..] == "" && [0xAB][1..] == [];
    assert Trim("AB") == "AB";
    assert HexPair('A', 'B') == Some(0xAB);
    assert HexPairs("AB"[2..]) == Some([]);
    var one: Spki := [0xAB];
    assert one + [] == one;
    assert HexPairs("AB") == Some(one + []);
  }

  lemma SpellingsDiffer(node: NodeId, a: string, b: string)
    requires a != b
    ensures TrustKeyHex(node, a) != TrustKeyHex(node, b)
  {
    var n := |TRUST_PREFIX| + |Decimal(node)| + 1;
    assert TrustKeyHex(node, a)[n..] == a && TrustKeyHex(node, b)[n..] == b;
  }

  /** Keys as `trust_key` spells them, or of another subsystem. */
  ghost predicate Proper(key: string) {
    ParseTrustKey(key).Some? ==> key == TrustKey(ParseTrustKey(key).value.0, ParseTrustKey(key).value.1)
  }

  ghost predicate ProperData(data: Data) { forall key :: key in data ==> Proper(key) }

  ghost predicate ProperKeys(ms: seq<Mutation>) { forall i :: 0 <= i < |ms| ==> Proper(ms[i].key) }

  /** Admission stores the joiner's own spelling: a proper key exactly if that is the plain
      lower-case one. */
  lemma AdmittedKeyIsProperIff(node: NodeId, hex: string)
    requires FromHex(hex).Some?
    ensures Proper(TrustKeyHex(node, hex)) <==> hex == Hex(FromHex(hex).value)
  {
    TrustKeyHexParses(node, hex);
    if hex != Hex(FromHex(hex).value) { SpellingsDiffer(node, hex, Hex(FromHex(hex).value)); }
  }

  /** Another stored key spells the same trust. */
  ghost predicate SpelledElsewhere(data: Data, key: string) {
    exists other :: other in data && other != key && ParseTrustKey(other) == ParseTrustKey(key)
  }

  /** The trust whose last delete left another spelling of it stored. */
  ghost function RespelledOne(respelled: set<Trust>, data: Data, m: Mutation): set<Trust> {
    match ParseTrustKey(m.key)
    case Some(t) => if m.Delete? && SpelledElsewhere(data, m.key) then respelled + {t} else respelled - {t}
    case None => respelled
  }

  ghost function Respelled(respelled: set<Trust>, data: Data, ms: seq<Mutation>): set<Trust> {
    if ms == [] then respelled
    else
      var front := ms[..|ms| - 1];
      RespelledOne(Respelled(respelled, data, front), Replay(data, front), ms[|ms| - 1])
  }

  /** Configured trust that no write has confirmed or withdrawn. */
  ghost function SeedOne(seed: set<Trust>, m: Mutation): set<Trust> {
    match ParseTrustKey(m.key)
    case Some(t) => seed - {t}
    case None => seed
  }

  ghost function SeedAfter(seed: set<Trust>, ms: seq<Mutation>): set<Trust> {
    if ms == [] then seed else SeedOne(SeedAfter(seed, ms[..|ms| - 1]), ms[|ms| - 1])
  }

  /** The live set is the durable trust, without what was deleted under another spelling,
      and with what only the configuration vouches for. */
  ghost predicate Tracks(data: Data, live: set<Trust>, respelled: set<Trust>, seed: set<Trust>) {
    respelled <= Trusted(data) && seed !! Trusted(data) && live == Trusted(data) - respelled + seed
  }

  lemma TrustedOneLess(data: Data, key: string)
    ensures forall t :: t in Trusted(data - {key}) <==>
              t in Trusted(data) && (ParseTrustKey(key) == Some(t) ==> SpelledElsewhere(data, key))
  {
    var less := data - {key};
    forall t
      ensures t in Trusted(less) <==> t in Trusted(data) && (ParseTrustKey(key) == Some(t) ==> SpelledElsewhere(data, key))
    {
      if t in Trusted(data) && (ParseTrustKey(key) == Some(t) ==> SpelledElsewhere(data, key)) {
        var k :| k in data && ParseTrustKey(k) == Some(t) && k != key;
        assert k in less;
      }
      if t in Trusted(less) {
        var k :| k in less && ParseTrustKey(k) == Some(t);
        assert k in data && k != key;
      }
    }
  }

  lemma OneTracks(data: Data, live: set<Trust>, respelled: set<Trust>, seed: set<Trust>, m: Mutation)
    requires Tracks(data, live, respelled, seed)
    ensures Tracks(WriteOne(data, m), LiveOne(live, m), RespelledOne(respelled, data, m), SeedOne(seed, m))
  {
    match m
    case Put(key, value) => TrustedOneMore(data, key, value);
    case Delete(key) => TrustedOneLess(data, key);
  }

  lemma {:induction false} ApplyTracks(data: Data, live: set<Trust>, respelled: set<Trust>, seed: set<Trust>, ms: seq<Mutation>)
    requires Tracks(data, live, respelled, seed)
    ensures Tracks(Replay(data, ms), LiveAfter(live, ms), Respelled(respelled, data, ms), SeedAfter(seed, ms))
  {
    if ms != [] {
      var front, m := ms[..|ms| - 1], ms[|ms| - 1];
      ApplyTracks(data, live, respelled, seed, front);
      OneTracks(Replay(data, front), LiveAfter(live, front), Respelled(respelled, data, front), SeedAfter(seed, front), m);
    }
  }

  /** From a faithful mirror, any batch whatever keeps it exactly if no trust's last delete in
      the batch left another spelling stored. */
  lemma ApplyKeepsMirrorIff(data: Data, ms: seq<Mutation>)
    ensures LiveAfter(Trusted(data), ms) == Trusted(Replay(data, ms)) <==> Respelled({}, data, ms) == {}
  {
    ApplyTracks(data, Trusted(data), {}, {}, ms);
    NoSeedStaysNone(ms);
  }

  lemma {:induction false} NoSeedStaysNone(ms: seq<Mutation>)
    ensures SeedAfter({}, ms) == {}
  {
    if ms != [] { NoSeedStaysNone(ms[..|ms| - 1]); }
  }

  /** Keys built by `trust_key` have one spelling each. */
  lemma {:induction false} ProperKeysNeverRespell(data: Data, ms: seq<Mutation>)
    requires ProperData(data) && ProperKeys(ms)
    ensures Respelled({}, data, ms) == {} && ProperData(Replay(data, ms))
  {
    if ms != [] { ProperKeysNeverRespell(data, ms[..|ms| - 1]); }
  }

  // ---- runs of a node ----

  /** `seed` and `respelled` are history: configured trust that nothing durable bears out yet,
      and trust whose last delete left another spelling of it stored. */
  datatype Node = Node(data: Data, live: set<Trust>, respelled: set<Trust>, seed: set<Trust>)

  datatype Event =
    | Apply(ms: seq<Mutation>)
    | Install(snapshot: Data)
    | Restart(seed: set<Trust>, genesis: bool)

  ghost function KeysOf(seed: set<Trust>): set<string> { set t | t in seed :: TrustKey(t.0, t.1) }

  ghost function TrustKeys(seed: set<Trust>): Data { map key | key in KeysOf(seed) :: "" }

  /** One event: a batch is applied, a snapshot replaces the state, or the process (re)starts
      with the trust its configuration or its join gave it and hydrates from disk. */
  ghost function Step(n: Node, e: Event): Node {
    match e
    case Apply(ms) =>
      Node(Replay(n.data, ms), LiveAfter(n.live, ms), Respelled(n.respelled, n.data, ms), SeedAfter(n.seed, ms))
    case Install(snapshot) => Node(snapshot, Trusted(snapshot), {}, {})
    case Restart(seed, genesis) =>
      if Trusted(n.data) != {} then Node(n.data, Trusted(n.data), {}, {})
      else if !genesis then Node(n.data + TrustKeys(seed), seed, {}, {})
      else Node(n.data, seed, {}, seed)
  }

  ghost function Run(events: seq<Event>): Node {
    if events == [] then Node(map[], {}, {}, {}) else Step(Run(events[..|events| - 1]), events[|events| - 1])
  }

  ghost predicate Mirrors(n: Node) { n.live == Trusted(n.data) }

  /** A restart leaves the node mirroring its durable keys exactly unless it is a founder that
      has none yet and starts from a configured seed. */
  lemma RestartMirrorsIff(n: Node, seed: set<Trust>, genesis: bool)
    ensures Mirrors(Step(n, Restart(seed, genesis))) <==> Trusted(n.data) != {} || !genesis || seed == {}
  {
    if Trusted(n.data) == {} && !genesis { SeedIsTrusted(n.data, seed); }
  }

  /** A (re)start goes by the durable trust if there is any. Otherwise it goes by what it was given,
      which a joiner stores, so that every later start goes by it too, and a founder does not. */
  lemma RestartServes(n: Node, seed: set<Trust>, genesis: bool, again: set<Trust>, founding: bool)
    ensures var after := Step(n, Restart(seed, genesis));
            && after.live == (if Trusted(n.data) == {} then seed else Trusted(n.data))
            && Trusted(after.data) == (if Trusted(n.data) == {} && !genesis then seed else Trusted(n.data))
            && (Trusted(after.data) != {} ==> Step(after, Restart(again, founding)) == after)
  {
    if Trusted(n.data) == {} { SeedIsTrusted(n.data, seed); }
  }

  /** A founder's first start: live trust without any durable trust. */
  lemma FounderStartsUnmirrored()
    ensures var n := Run([Restart({(1, [])}, true)]); n.live == {(1, [])} && Trusted(n.data) == {}
  {
    assert [Restart({(1, [])}, true)][..0] == [];
    assert Trusted(map[]) == {};
  }

  lemma StoredIsTrusted(data: Data, key: string)
    requires key in data && ParseTrustKey(key).Some?
    ensures ParseTrustKey(key).value in Trusted(data)
  {}

  lemma SeedIsTrusted(data: Data, seed: set<Trust>)
    requires Trusted(data) == {}
    ensures Trusted(data + TrustKeys(seed)) == seed
  {
    var all := data + TrustKeys(seed);
    forall t ensures t in Trusted(all) <==> t in seed {
      if t in Trusted(all) {
        var key :| key in all && ParseTrustKey(key) == Some(t);
        if key in TrustKeys(seed) {
          var s :| s in seed && TrustKey(s.0, s.1) == key;
          TrustKeyParsesBack(s.0, s.1);
        } else {
          StoredIsTrusted(data, key);
        }
      }
      if t in seed {
        TrustKeyParsesBack(t.0, t.1);
        assert TrustKey(t.0, t.1) in all;
      }
    }
  }

  /** In every run, whatever keys are written and whoever founded the cluster, the live trust
      is the durable trust, less what was last deleted under another spelling than a stored
      one, plus the configured seed that no write, install or hydration has superseded. So it
      mirrors the durable keys exactly if there is neither. */
  lemma {:induction false} LiveAlways(events: seq<Event>)
    ensures var n := Run(events);
            && n.live == Trusted(n.data) - n.respelled + n.seed && n.respelled <= Trusted(n.data) && n.seed !! Trusted(n.data)
            && (Mirrors(n) <==> n.respelled == {} && n.seed == {})
  {
    if events == [] {
      assert Trusted(map[]) == {};
    } else {
      var front, e := events[..|events| - 1], events[|events| - 1];
      var before := Run(front);
      LiveAlways(front);
      match e
      case Apply(ms) => ApplyTracks(before.data, before.live, before.respelled, before.seed, ms);
      case Install(_) =>
      case Restart(seed, genesis) =>
        if Trusted(before.data) == {} { SeedIsTrusted(before.data, seed); }
    }
  }

  ghost predicate ProperEvent(e: Event) {
    match e
    case Apply(ms) => ProperKeys(ms)
    case Install(snapshot) => ProperData(snapshot)
    case Restart(_, _) => true
  }

  lemma {:induction false} ProperRunNeverRespells(events: seq<Event>)
    requires forall e :: e in events ==> ProperEvent(e)
    ensures Run(events).respelled == {} && ProperData(Run(events).data)
  {
    if events != [] {
      var front, e := events[..|events| - 1], events[|events| - 1];
      ProperRunNeverRespells(front);
      assert ProperEvent(e);
      match e
      case Apply(ms) => ProperKeysNeverRespell(Run(front).data, ms);
      case Install(_) =>
      case Restart(seed, _) => SeedKeysAreProper(Run(front).data, seed);
    }
  }

  lemma SeedKeysAreProper(data: Data, seed: set<Trust>)
    requires ProperData(data)
    ensures ProperData(data + TrustKeys(seed))
  {
    forall key | key in TrustKeys(seed) ensures Proper(key) {
      var s :| s in seed && TrustKey(s.0, s.1) == key;
      TrustKeyParsesBack(s.0, s.1);
    }
  }

  /** Where every trust key is spelled as `trust_key` spells it, the live trust lies between
      the durable trust and that with the configured seed, and with no seed outstanding is
      the durable trust. */
  lemma MirrorAlways(events: seq<Event>)
    requires forall e :: e in events ==> ProperEvent(e)
    ensures var n := Run(events);
            Trusted(n.data) <= n.live <= Trusted(n.data) + n.seed && (n.seed == {} ==> Mirrors(n))
  {
    LiveAlways(events);
    ProperRunNeverRespells(events);
  }

  /** The founder's bootstrap batch writes every key of the seed, in whatever order. */
  ghost predicate Confirms(ms: seq<Mutation>, seed: set<Trust>) {
    forall t :: t in seed ==> exists i :: 0 <= i < |ms| && ms[i].key == TrustKey(t.0, t.1)
  }

  lemma {:induction false} SeedShrinks(seed: set<Trust>, ms: seq<Mutation>)
    ensures SeedAfter(seed, ms) <= seed
  {
    if ms != [] { SeedShrinks(seed, ms[..|ms| - 1]); }
  }

  lemma {:induction false} WrittenLeavesSeed(seed: set<Trust>, ms: seq<Mutation>, i: nat, t: Trust)
    requires i < |ms| && ParseTrustKey(ms[i].key) == Some(t)
    ensures t !in SeedAfter(seed, ms)
  {
    if i < |ms| - 1 { WrittenLeavesSeed(seed, ms[..|ms| - 1], i, t); }
  }

  /** Once the bootstrap batch is applied, a snapshot installed, or the trust hydrated from
      disk, no seed is outstanding. */
  lemma SeedIsSuperseded(n: Node, e: Event)
    requires match e
             case Apply(ms) => Confirms(ms, n.seed)
             case Install(_) => true
             case Restart(_, genesis) => !genesis || Trusted(n.data) != {}
    ensures Step(n, e).seed == {}
  {
    if e.Apply? {
      SeedShrinks(n.seed, e.ms);
      forall t | t in n.seed ensures t !in SeedAfter(n.seed, e.ms) {
        var i :| 0 <= i < |e.ms| && e.ms[i].key == TrustKey(t.0, t.1);
        TrustKeyParsesBack(t.0, t.1);
        WrittenLeavesSeed(n.seed, e.ms, i, t);
      }
    }
  }

  // ---- revocation ----

  function RevokedKey(hex: string): string { REVOKED_PREFIX + hex }

  function AddrKey(node: NodeId): string { ADDR_PREFIX + Decimal(node) }

  function NodePrefix(node: NodeId): string { TRUST_PREFIX + Decimal(node) + "/" }

  /** What follows the last slash. */
  function LastSegment(s: string): (r: string)
    ensures '/' !in s ==> r == s
  {
    if '/' !in s then s else LastSegment(s[FirstSlash(s) + 1..])
  }

  /** The batch that revokes a node, from the keys listed under its prefix. */
  method Revoke(node: NodeId, keys: seq<string>) returns (batch: seq<Mutation>)
    ensures batch == RevokeBatch(node, keys)
  {
    batch := [];
    for i := 0 to |keys|
      invariant batch == Retire(keys[..i])
    {
      assert keys[..i + 1][..i] == keys[..i];
      batch := batch + [Put(RevokedKey(LastSegment(keys[i])), "")];
      batch := batch + [Delete(keys[i])];
    }
    assert keys[..|keys|] == keys;
    batch := batch + [Delete(AddrKey(node))];
  }

  function Retire(keys: seq<string>): seq<Mutation> {
    if keys == [] then []
    else
      var last := keys[|keys| - 1];
      Retire(keys[..|keys| - 1]) + [Put(RevokedKey(LastSegment(last)), "")] + [Delete(last)]
  }

  function RevokeBatch(node: NodeId, keys: seq<string>): seq<Mutation> { Retire(keys) + [Delete(AddrKey(node))] }

  lemma RetireSnoc(data: Data, keys: seq<string>)
    requires keys != []
    ensures var last := keys[|keys| - 1];
            Replay(data, Retire(keys)) == Replay(data, Retire(keys[..|keys| - 1]))[RevokedKey(LastSegment(last)) := ""] - {last}
  {
    var front, last := Retire(keys[..|keys| - 1]), keys[|keys| - 1];
    var tomb: Mutation := Put(RevokedKey(LastSegment(last)), "");
    ReplaySnoc(data, front, tomb);
    ReplaySnoc(data, front + [tomb], Delete(last));
  }

  ghost predicate InTrustSpace(keys: seq<string>) { forall k :: k in keys ==> TRUST_PREFIX <= k }

  lemma {:induction false} RetireEffect(data: Data, keys: seq<string>)
    requires InTrustSpace(keys)
    ensures forall k :: TRUST_PREFIX <= k ==> (k in Replay(data, Retire(keys)) <==> k in data && k !in keys)
    ensures forall k :: k in keys ==> RevokedKey(LastSegment(k)) in Replay(data, Retire(keys))
  {
    if keys != [] {
      var front, last := keys[..|keys| - 1], keys[|keys| - 1];
      assert forall k :: k in keys <==> k in front || k == last by { assert keys == front + [last]; }
      RetireEffect(data, front);
      RetireSnoc(data, keys);
      TombstonesApart();
    }
  }

  lemma TombstonesApart()
    ensures forall hex :: !(TRUST_PREFIX <= RevokedKey(hex))
    ensures forall node :: !(TRUST_PREFIX <= AddrKey(node)) && !(REVOKED_PREFIX <= AddrKey(node))
  {
    forall hex ensures !(TRUST_PREFIX <= RevokedKey(hex)) { assert RevokedKey(hex)[5] == 'r'; }
    forall node ensures !(TRUST_PREFIX <= AddrKey(node)) && !(REVOKED_PREFIX <= AddrKey(node)) { assert AddrKey(node)[5] == 'a'; }
  }

  lemma {:induction false} SegmentAfterSlash(a: string, b: string)
    requires '/' !in b
    ensures LastSegment(a + "/" + b) == b
    decreases |a|
  {
    var s := a + "/" + b;
    var f := FirstSlash(s);
    assert s[|a|] == '/';
    if f == |a| {
      assert s[f + 1..] == b;
    } else {
      assert s[f + 1..] == a[f + 1..] + "/" + b;
      SegmentAfterSlash(a[f + 1..], b);
    }
  }

  lemma SegmentOfTrustKey(node: NodeId, spki: Spki)
    ensures LastSegment(TrustKey(node, spki)) == Hex(spki)
  {
    HexReadsBack(spki);
    SegmentAfterSlash(TRUST_PREFIX + Decimal(node), Hex(spki));
  }

  /** A key under the node's prefix can only trust that node. */
  lemma ListedKeyNamesNode(node: NodeId, key: string)
    requires NodePrefix(node) <= key
    ensures ParseTrustKey(key).Some? ==> ParseTrustKey(key).value.0 == node
    ensures TRUST_PREFIX <= key
  {
    var hex := key[|NodePrefix(node)|..];
    assert key == TrustKeyHex(node, hex);
    TrustKeyHexParses(node, hex);
  }

  /** Nothing else changes among the trust keys, and every listed key gets its tombstone. */
  lemma RevokeEffect(later: Data, node: NodeId, keys: seq<string>)
    requires InTrustSpace(keys)
    ensures var after := Replay(later, RevokeBatch(node, keys));
            && (forall k :: TRUST_PREFIX <= k ==> (k in after <==> k in later && k !in keys))
            && (forall k :: k in keys ==> RevokedKey(LastSegment(k)) in after)
  {
    RetireEffect(later, keys);
    ReplaySnoc(later, Retire(keys), Delete(AddrKey(node)));
    TombstonesApart();
  }

  lemma {:induction false} RetireSpares(data: Data, keys: seq<string>, key: string)
    requires key !in keys && !(REVOKED_PREFIX <= key)
    ensures var after := Replay(data, Retire(keys)); (key in after <==> key in data) && (key in data ==> after[key] == data[key])
  {
    if keys != [] {
      RetireSpares(data, keys[..|keys| - 1], key);
      RetireSnoc(data, keys);
      assert REVOKED_PREFIX <= RevokedKey(LastSegment(keys[|keys| - 1]));
    }
  }

  /** The node's address goes, and whatever is neither that nor listed nor a tombstone stays as it
      was. */
  lemma RevokeTouchesOnly(later: Data, node: NodeId, keys: seq<string>, key: string)
    ensures var after := Replay(later, RevokeBatch(node, keys));
            && "mesh/addr/" + Decimal(node) !in after
            && (key !in keys && !("mesh/revoked/" <= key) && key != "mesh/addr/" + Decimal(node) ==>
                  (key in after <==> key in later) && (key in later ==> after[key] == later[key]))
  {
    ReplaySnoc(later, Retire(keys), Delete(AddrKey(node)));
    if key !in keys && !(REVOKED_PREFIX <= key) { RetireSpares(later, keys, key); }
  }

  lemma SameTrustKeysSameTrust(a: Data, b: Data)
    requires forall k :: TRUST_PREFIX <= k ==> (k in a <==> k in b)
    ensures Trusted(a) == Trusted(b)
  {
    forall t | t in Trusted(a) ensures t in Trusted(b) { var k :| k in a && ParseTrustKey(k) == Some(t); assert k in b; }
    forall t | t in Trusted(b) ensures t in Trusted(a) { var k :| k in b && ParseTrustKey(k) == Some(t); assert k in a; }
  }

  /** Revocation, applied to whatever state the log has reached since its listing: trusted
      afterwards is what that state trusts outside the listed keys, so other nodes' trust is
      untouched and each listed key has its tombstone. */
  lemma RevokeRetiresListed(later: Data, node: NodeId, keys: seq<string>)
    requires forall k :: k in keys ==> NodePrefix(node) <= k
    ensures var after := Replay(later, RevokeBatch(node, keys));
            && Trusted(after) == Trusted(later - (set k | k in keys))
            && (forall t :: t in Trusted(after) && t.0 != node <==> t in Trusted(later) && t.0 != node)
            && (forall k :: k in keys ==> RevokedKey(LastSegment(k)) in after)
  {
    forall k | k in keys ensures TRUST_PREFIX <= k { ListedKeyNamesNode(node, k); }
    RevokeEffect(later, node, keys);
    var rest := later - (set k | k in keys);
    SameTrustKeysSameTrust(Replay(later, RevokeBatch(node, keys)), rest);
    forall t | t in Trusted(later) && t.0 != node ensures t in Trusted(rest) {
      var k :| k in later && ParseTrustKey(k) == Some(t);
      if k in keys { ListedKeyNamesNode(node, k); }
      assert k in rest;
    }
    forall t | t in Trusted(rest) ensures t in Trusted(later) {
      var k :| k in rest && ParseTrustKey(k) == Some(t);
      assert k in later;
    }
  }

  /** The node is cleared exactly if the listing had every key that trusts it when the batch
      is applied. */
  lemma RevokeClearsNodeIff(later: Data, node: NodeId, keys: seq<string>)
    requires forall k :: k in keys ==> NodePrefix(node) <= k
    ensures (forall t :: t in Trusted(Replay(later, RevokeBatch(node, keys))) ==> t.0 != node) <==>
              forall k :: k in later && ParseTrustKey(k).Some? && ParseTrustKey(k).value.0 == node ==> k in keys
  {
    var after, rest := Replay(later, RevokeBatch(node, keys)), later - (set k | k in keys);
    RevokeRetiresListed(later, node, keys);
    forall k | k in rest && ParseTrustKey(k).Some? ensures ParseTrustKey(k).value in Trusted(after) { StoredIsTrusted(rest, k); }
    forall t | t in Trusted(after) ensures exists k :: k in later && k !in keys && ParseTrustKey(k) == Some(t) {
      var k :| k in rest && ParseTrustKey(k) == Some(t);
    }
  }

  /** A key of the node put between the listing and the batch survives, as when the node
      rotates its key meanwhile. */
  lemma RevokeMissesLaterPut(spki: Spki)
    ensures (1, spki) in Trusted(Replay(map[TrustKey(1, spki) := ""], RevokeBatch(1, [])))
  {
    var later: Data := map[TrustKey(1, spki) := ""];
    TrustKeyParsesBack(1, spki);
    RevokeRetiresListed(later, 1, []);
    assert later - (set k | k in []) == later;
    StoredIsTrusted(later, TrustKey(1, spki));
  }

  /** Without such a race, and with proper keys, the node's trust is gone and each of its
      public keys has a tombstone under its plain spelling. */
  lemma RevokeClearsNode(data: Data, node: NodeId, keys: seq<string>)
    requires ProperData(data)
    requires forall k :: k in keys <==> k in data && NodePrefix(node) <= k
    ensures var after := Replay(data, RevokeBatch(node, keys));
            && (forall t :: t in Trusted(after) <==> t in Trusted(data) && t.0 != node)
            && (forall t :: t in Trusted(data) && t.0 == node ==> RevokedKey(Hex(t.1)) in after)
  {
    RevokeRetiresListed(data, node, keys);
    forall k | k in data && ParseTrustKey(k).Some? && ParseTrustKey(k).value.0 == node ensures k in keys { assert Proper(k); }
    RevokeClearsNodeIff(data, node, keys);
    forall t | t in Trusted(data) && t.0 == node ensures RevokedKey(Hex(t.1)) in Replay(data, RevokeBatch(node, keys)) {
      var k :| k in data && ParseTrustKey(k) == Some(t);
      assert Proper(k);
      SegmentOfTrustKey(t.0, t.1);
    }
  }

  // ---- admission after a revocation ----

  const JOIN_USED_PREFIX := "mesh/join/used/"

  datatype Outcome = Revoked | Spent | Admitted(writes: seq<Mutation>)

  /** Admit a joiner: refused if its key, as spelled, has a tombstone or the token is spent. */
  function MeshAdmit(data: Data, jti: string, node: NodeId, hex: string, addr: Option<string>): Outcome {
    if RevokedKey(hex) in data then Revoked
    else if JOIN_USED_PREFIX + jti in data then Spent
    else
      Admitted([Put(JOIN_USED_PREFIX + jti, ""), Put(TrustKeyHex(node, hex), "")]
               + match addr case Some(a) => [Put(AddrKey(node), a)] case None => [])
  }

  lemma {:induction false} RetireTombs(data: Data, keys: seq<string>, hex: string)
    requires InTrustSpace(keys)
    ensures RevokedKey(hex) in Replay(data, Retire(keys)) <==>
              RevokedKey(hex) in data || exists k :: k in keys && LastSegment(k) == hex
  {
    if keys != [] {
      var front, last := keys[..|keys| - 1], keys[|keys| - 1];
      assert forall k :: k in keys <==> k in front || k == last by { assert keys == front + [last]; }
      RetireTombs(data, front, hex);
      RetireSnoc(data, keys);
      TombstonesApart();
      if RevokedKey(hex) == RevokedKey(LastSegment(last)) { RevokedKeyInjective(hex, LastSegment(last)); }
      assert last in keys && TRUST_PREFIX <= last;
    }
  }

  lemma RevokedKeyInjective(a: string, b: string)
    requires RevokedKey(a) == RevokedKey(b)
    ensures a == b
  {
    var n := |REVOKED_PREFIX|;
    assert RevokedKey(a)[n..] == a && RevokedKey(b)[n..] == b;
  }

  /** After a revocation a key is barred exactly in the spellings that were listed, or had a
      tombstone before. */
  lemma ReadmissionBarredIff(later: Data, node: NodeId, keys: seq<string>,
                             jti: string, joiner: NodeId, hex: string, addr: Option<string>)
    requires forall k :: k in keys ==> NodePrefix(node) <= k
    ensures MeshAdmit(Replay(later, RevokeBatch(node, keys)), jti, joiner, hex, addr) == Revoked <==>
              RevokedKey(hex) in later || exists k :: k in keys && LastSegment(k) == hex
  {
    forall k | k in keys ensures TRUST_PREFIX <= k { ListedKeyNamesNode(node, k); }
    RevokeTombs(later, node, keys, hex);
  }

  lemma RevokeTombs(later: Data, node: NodeId, keys: seq<string>, hex: string)
    requires InTrustSpace(keys)
    ensures RevokedKey(hex) in Replay(later, RevokeBatch(node, keys)) <==>
              RevokedKey(hex) in later || exists k :: k in keys && LastSegment(k) == hex
  {
    RetireTombs(later, keys, hex);
    ReplaySnoc(later, Retire(keys), Delete(AddrKey(node)));
    assert RevokedKey(hex)[5] == 'r' && AddrKey(node)[5] == 'a';
  }

  /** Revoking a single stored key bars its own spelling and no other. */
  lemma OneSpellingBarred(node: NodeId, stored: string, jti: string, hex: string)
    requires '/' !in stored
    ensures var key := TrustKeyHex(node, stored);
            MeshAdmit(Replay(map[key := ""], RevokeBatch(node, [key])), jti, node, hex, None) == Revoked <==> hex == stored
  {
    var key := TrustKeyHex(node, stored);
    SegmentAfterSlash(TRUST_PREFIX + Decimal(node), stored);
    assert NodePrefix(node) <= key && key in [key];
    ReadmissionBarredIff(map[key := ""], node, [key], jti, node, hex, None);
    assert TRUST_PREFIX <= key;
    TombstonesApart();
  }

  /** A revocation spends no token. */
  lemma RevokeSpendsNothing(later: Data, node: NodeId, keys: seq<string>, jti: string)
    requires JOIN_USED_PREFIX + jti !in later && InTrustSpace(keys)
    ensures JOIN_USED_PREFIX + jti !in Replay(later, RevokeBatch(node, keys))
  {
    var used := JOIN_USED_PREFIX + jti;
    assert used[5] == 'j' && TRUST_PREFIX[5] == 't' && AddrKey(node)[5] == 'a';
    RevokeTouchesOnly(later, node, keys, used);
  }

  /** Revoking a single stored key leaves the way open to any other spelling, with any token. */
  lemma OtherSpellingAdmitted(node: NodeId, stored: string, jti: string, hex: string)
    requires '/' !in stored && hex != stored
    ensures var key := TrustKeyHex(node, stored);
            MeshAdmit(Replay(map[key := ""], RevokeBatch(node, [key])), jti, node, hex, None).Admitted?
  {
    var key := TrustKeyHex(node, stored);
    OneSpellingBarred(node, stored, jti, hex);
    assert key[5] == 't' && (JOIN_USED_PREFIX + jti)[5] == 'j';
    RevokeSpendsNothing(map[key := ""], node, [key], jti);
  }

  lemma LowerCaseReads()
    ensures FromHex("ab") == Some([0xAB])
  {
    UpperCaseReads();
    HexReadsBack([0xAB]);
    assert Trim("ab") == "ab";
  }

  /** So a key stored in upper case and revoked is admitted again in lower case, with any token. */
  lemma RespelledIsReadmitted(jti: string)
    ensures var after := Replay(map[TrustKeyHex(1, "AB") := ""], RevokeBatch(1, [TrustKeyHex(1, "AB")]));
            FromHex("AB") == FromHex("ab") == Some([0xAB]) && MeshAdmit(after, jti, 1, "ab", None).Admitted?
  {
    UpperCaseReads();
    LowerCaseReads();
    assert "AB"[0] == 'A' && "ab"[0] == 'a';
    OtherSpellingAdmitted(1, "AB", jti, "ab");
  }

  ghost predicate DeletedAfter(ms: seq<Mutation>, n: nat, key: string) { n < |ms| && Delete(key) in ms[n + 1..] }

  /** Some put of the key has no delete of it after. */
  ghost predicate LastPut(ms: seq<Mutation>, key: string) {
    exists n :: 0 <= n < |ms| && ms[n].Put? && ms[n].key == key && !DeletedAfter(ms, n, key)
  }

  lemma DeletedAfterSnoc(front: seq<Mutation>, m: Mutation, n: nat, key: string)
    requires n < |front|
    ensures DeletedAfter(front + [m], n, key) <==> DeletedAfter(front, n, key) || m == Delete(key)
  {
    assert (front + [m])[n + 1..] == front[n + 1..] + [m];
  }

  lemma LastPutSnoc(front: seq<Mutation>, m: Mutation, key: string)
    ensures LastPut(front + [m], key) <==> (if m.key == key then m.Put? else LastPut(front, key))
  {
    var ms := front + [m];
    forall n | 0 <= n < |front| ensures DeletedAfter(ms, n, key) <==> DeletedAfter(front, n, key) || m == Delete(key) {
      DeletedAfterSnoc(front, m, n, key);
    }
    assert ms[|front|] == m && ms[|front| + 1..] == [] && !DeletedAfter(ms, |front|, key);
    if LastPut(front, key) {
      var n :| 0 <= n < |front| && front[n].Put? && front[n].key == key && !DeletedAfter(front, n, key);
      assert ms[n] == front[n];
    }
    if LastPut(ms, key) {
      var n :| 0 <= n < |ms| && ms[n].Put? && ms[n].key == key && !DeletedAfter(ms, n, key);
      if n < |front| { assert front[n] == ms[n]; }
    }
  }

  lemma {:induction false} LastWriteDecides(data: Data, ms: seq<Mutation>, key: string)
    ensures key in Replay(data, ms) <==> LastPut(ms, key) || (key in data && Delete(key) !in ms)
  {
    if ms != [] {
      var front, m := ms[..|ms| - 1], ms[|ms| - 1];
      LastWriteDecides(data, front, key);
      assert ms == front + [m];
      LastPutSnoc(front, m, key);
    }
  }

  /** Whatever is applied after a revocation, a spelling is refused as revoked exactly if its
      tombstone was there, or put since, and not deleted after that. In particular what the
      revocation listed stays out until its tombstone is deleted. */
  lemma BarredUntilUnrevoked(later: Data, node: NodeId, keys: seq<string>, ms: seq<Mutation>,
                             jti: string, joiner: NodeId, hex: string, addr: Option<string>)
    requires forall k :: k in keys ==> NodePrefix(node) <= k
    ensures var now := Replay(Replay(later, RevokeBatch(node, keys)), ms);
            var barred := RevokedKey(hex) in later || exists k :: k in keys && LastSegment(k) == hex;
            MeshAdmit(now, jti, joiner, hex, addr) == Revoked <==>
              LastPut(ms, RevokedKey(hex)) || (barred && Delete(RevokedKey(hex)) !in ms)
  {
    ReadmissionBarredIff(later, node, keys, jti, joiner, hex, addr);
    LastWriteDecides(Replay(later, RevokeBatch(node, keys)), ms, RevokedKey(hex));
  }

  /** What an admission stores: the spent token, the trust as spelled and the address if there is
      one. Nothing else changes, and just that pair becomes trusted, if the spelling reads. */
  lemma AdmissionStores(data: Data, jti: string, node: NodeId, hex: string, addr: Option<string>, key: string)
    requires MeshAdmit(data, jti, node, hex, addr).Admitted?
    ensures var after := Replay(data, MeshAdmit(data, jti, node, hex, addr).writes);
            var added := "mesh/join/used/" + jti == key || "mesh/trust/" + Decimal(node) + "/" + hex == key;
            var moved := addr.Some? && "mesh/addr/" + Decimal(node) == key;
            && (key in after <==> key in data || added || moved)
            && (moved ==> after[key] == addr.value)
            && (key in data && !added && !moved ==> after[key] == data[key])
  {
    var used, trust, at := JOIN_USED_PREFIX + jti, TrustKeyHex(node, hex), AddrKey(node);
    AdmissionReplays(data, jti, node, hex, addr);
    AdmissionKeysDiffer(jti, node, hex);
    var two := data[used := ""][trust := ""];
    PutsAdd(data, used, "", trust, "", key);
    if addr.Some? { PutsAdd(two, at, addr.value, at, addr.value, key); }
  }

  lemma AdmissionKeysDiffer(jti: string, node: NodeId, hex: string)
    ensures JOIN_USED_PREFIX + jti != AddrKey(node) && TrustKeyHex(node, hex) != AddrKey(node)
  {
    assert (JOIN_USED_PREFIX + jti)[5] == 'j' && TrustKeyHex(node, hex)[5] == 't' && AddrKey(node)[5] == 'a';
  }

  lemma PutsAdd(data: Data, k1: string, v1: string, k2: string, v2: string, key: string)
    ensures var after := data[k1 := v1][k2 := v2];
            && (key in after <==> key in data || key == k1 || key == k2)
            && (key == k2 ==> after[key] == v2)
            && (key in data && key != k1 && key != k2 ==> after[key] == data[key])
  {}

  lemma AdmissionReplays(data: Data, jti: string, node: NodeId, hex: string, addr: Option<string>)
    requires MeshAdmit(data, jti, node, hex, addr).Admitted?
    ensures var two := data[JOIN_USED_PREFIX + jti := ""][TrustKeyHex(node, hex) := ""];
            Replay(data, MeshAdmit(data, jti, node, hex, addr).writes) ==
              match addr case Some(a) => two[AddrKey(node) := a] case None => two
  {
    var used: Mutation, trust: Mutation := Put(JOIN_USED_PREFIX + jti, ""), Put(TrustKeyHex(node, hex), "");
    assert [used] + [trust] == [used, trust] && [] + [used] == [used];
    ReplaySnoc(data, [], used);
    ReplaySnoc(data, [used], trust);
    match addr
    case Some(a) => ReplaySnoc(data, [used, trust], Put(AddrKey(node), a));
    case None => assert [used, trust] + [] == [used, trust];
  }

  lemma AdmissionTrusts(data: Data, jti: string, node: NodeId, hex: string, addr: Option<string>)
    requires MeshAdmit(data, jti, node, hex, addr).Admitted?
    ensures Trusted(Replay(data, MeshAdmit(data, jti, node, hex, addr).writes)) ==
              Trusted(data) + if FromHex(hex).Some? then {(node, FromHex(hex).value)} else {}
  {
    var used, trust := JOIN_USED_PREFIX + jti, TrustKeyHex(node, hex);
    AdmissionReplays(data, jti, node, hex, addr);
    TrustKeyHexParses(node, hex);
    OthersNameNoTrust(jti, node);
    TrustedOneMore(data, used, "");
    TrustedOneMore(data[used := ""], trust, "");
    if addr.Some? { TrustedOneMore(data[used := ""][trust := ""], AddrKey(node), addr.value); }
  }

  lemma OthersNameNoTrust(jti: string, node: NodeId)
    ensures ParseTrustKey(JOIN_USED_PREFIX + jti).None? && ParseTrustKey(AddrKey(node)).None?
  {
    assert (JOIN_USED_PREFIX + jti)[5] == 'j' && AddrKey(node)[5] == 'a';
  }

  /** Whatever was applied before, a token whose key is not revoked is refused as spent exactly if
      its use was recorded and the record not deleted after that, and is admitted otherwise. */
  lemma SpentIff(data: Data, ms: seq<Mutation>, jti: string, node: NodeId, hex: string, addr: Option<string>)
    ensures var used := "mesh/join/used/" + jti;
            var tomb := "mesh/revoked/" + hex;
            var spent := LastPut(ms, used) || (used in data && Delete(used) !in ms);
            var barred := LastPut(ms, tomb) || (tomb in data && Delete(tomb) !in ms);
            var outcome := MeshAdmit(Replay(data, ms), jti, node, hex, addr);
            (outcome == Spent <==> spent && !barred) && (outcome.Admitted? <==> !spent && !barred)
  {
    LastWriteDecides(data, ms, JOIN_USED_PREFIX + jti);
    LastWriteDecides(data, ms, RevokedKey(hex));
  }

  /** A token admits once: until its record is deleted, nobody else gets in with it, whatever
      spelling, node or address comes with it and whatever is applied in between. */
  lemma TokenAdmitsOnce(data: Data, jti: string, node: NodeId, hex: string, addr: Option<string>,
                        ms: seq<Mutation>, again: NodeId, hex': string, addr': Option<string>)
    requires MeshAdmit(data, jti, node, hex, addr).Admitted?
    ensures var now := Replay(Replay(data, MeshAdmit(data, jti, node, hex, addr).writes), ms);
            MeshAdmit(now, jti, again, hex', addr').Admitted? ==> Delete("mesh/join/used/" + jti) in ms
  {
    AdmissionStores(data, jti, node, hex, addr, JOIN_USED_PREFIX + jti);
    SpentIff(Replay(data, MeshAdmit(data, jti, node, hex, addr).writes), ms, jti, again, hex', addr');
  }

  /** What an event leaves stored: after a batch a key whose last write is a put, or that was there
      and is not deleted; after an install the snapshot; after a restart what was there, and what a
      joiner without trust was given. */
  ghost predicate Stores(n: Node, e: Event, key: string) {
    match e
    case Apply(ms) => LastPut(ms, key) || (key in n.data && Delete(key) !in ms)
    case Install(snapshot) => key in snapshot
    case Restart(seed, genesis) =>
      key in n.data || (Trusted(n.data) == {} && !genesis && exists t :: t in seed && key == TrustKey(t.0, t.1))
  }

  lemma StepStores(n: Node, e: Event, key: string)
    ensures key in Step(n, e).data <==> Stores(n, e, key)
  {
    match e
    case Apply(ms) => LastWriteDecides(n.data, ms, key);
    case Install(_) =>
    case Restart(seed, _) => assert key in KeysOf(seed) <==> exists t :: t in seed && key == TrustKey(t.0, t.1);
  }
}
