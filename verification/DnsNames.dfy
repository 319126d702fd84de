/** DNS owner names: their one canonical form, comparison, and the encoding of a name as one
    URL path segment. */
module DnsNames {
  import opened Text

  datatype Result<T, E> = Ok(value: T) | Err(error: E)

  // ---- labels ----

  function Extend(c: char, labels: seq<string>): (longer: seq<string>)
    requires |labels| >= 1
    ensures |longer| == |labels|
  {
    [[c] + labels[0]] + labels[1..]
  }

  function Split(name: string): (labels: seq<string>)
    ensures |labels| >= 1
  {
    if name == "" then [""]
    else if name[0] == '.' then [""] + Split(name[1..])
    else Extend(name[0], Split(name[1..]))
  }

  function Join(labels: seq<string>): string
    requires |labels| >= 1
  {
    if |labels| == 1 then labels[0] else labels[0] + "." + Join(labels[1..])
  }

  lemma JoinHead(c: char, labels: seq<string>)
    requires |labels| >= 1
    ensures Join(Extend(c, labels)) == [c] + Join(labels)
  {
    if |labels| > 1 {
      assert Extend(c, labels)[1..] == labels[1..];
      HeadOfDotted(c, labels[0], Join(labels[1..]));
    }
  }

  lemma HeadOfDotted(c: char, a: string, b: string)
    ensures ([c] + a) + "." + b == [c] + (a + "." + b)
  {}

  lemma {:induction false} JoinSplit(name: string)
    ensures Join(Split(name)) == name
  {
    if name != "" {
      var rest := Split(name[1..]);
      JoinSplit(name[1..]);
      assert name == [name[0]] + name[1..];
      if name[0] == '.' {
        assert ([""] + rest)[1..] == rest;
      } else {
        JoinHead(name[0], rest);
      }
    }
  }

  /** No label holds a dot, and together they have the name's other characters. */
  lemma {:induction false} LabelsOfName(name: string)
    ensures forall i :: 0 <= i < |Split(name)| ==> '.' !in Split(name)[i]
    ensures forall c :: c in name && c != '.' ==> exists i :: 0 <= i < |Split(name)| && c in Split(name)[i]
  {
    if name != "" {
      LabelsOfName(name[1..]);
      var rest, labels := Split(name[1..]), Split(name);
      forall c | c in name && c != '.' ensures exists i :: 0 <= i < |labels| && c in labels[i] {
        if c == name[0] {
          assert c in labels[0];
        } else {
          assert c in name[1..];
          var i :| 0 <= i < |rest| && c in rest[i];
          assert c in labels[if name[0] == '.' then i + 1 else i];
        }
      }
    }
  }

  lemma {:induction false} SingleLabel(name: string)
    requires '.' !in name
    ensures Split(name) == [name]
  {
    if name != "" {
      SingleLabel(name[1..]);
      assert name == [name[0]] + name[1..];
    }
  }

  lemma ExtendConcat(c: char, a: seq<string>, b: seq<string>)
    requires |a| >= 1
    ensures Extend(c, a + b) == Extend(c, a) + b
  {
    assert (a + b)[1..] == a[1..] + b;
  }

  /** A dot separates the labels before it from those after it. */
  lemma {:induction false} SplitAtDot(a: string, b: string)
    ensures Split(a + "." + b) == Split(a) + Split(b)
  {
    var whole := a + "." + b;
    if a == "" {
      assert whole[1..] == b;
    } else {
      var tail := a[1..] + "." + b;
      assert whole[0] == a[0] && whole[1..] == tail;
      SplitAtDot(a[1..], b);
      if a[0] == '.' {
        assert [""] + (Split(a[1..]) + Split(b)) == ([""] + Split(a[1..])) + Split(b);
      } else {
        ExtendConcat(a[0], Split(a[1..]), Split(b));
      }
    }
  }

  lemma {:induction false} JoinConcat(a: seq<string>, b: seq<string>)
    requires a != [] && b != []
    ensures Join(a + b) == Join(a) + "." + Join(b)
  {
    if |a| == 1 {
      assert (a + b)[1..] == b;
    } else {
      JoinConcat(a[1..], b);
      assert (a + b)[1..] == a[1..] + b;
    }
  }

  // ---- the canonical form ----

  predicate Ascii(s: string) { forall i :: 0 <= i < |s| ==> s[i] < 128 as char }

  function LowerChar(c: char): char {
    if 'A' <= c <= 'Z' then (c as int - 'A' as int + 'a' as int) as char else c
  }

  function Lower(s: string): (r: string)
    ensures |r| == |s|
  {
    seq(|s|, i requires 0 <= i < |s| => LowerChar(s[i]))
  }

  predicate EndsWithDot(s: string) { s != "" && s[|s| - 1] == '.' }

  function StripDot(s: string): string { if EndsWithDot(s) then s[..|s| - 1] else s }

  predicate LabelChar(c: char) {
    'a' <= c <= 'z' || 'A' <= c <= 'Z' || '0' <= c <= '9' || c == '-' || c == '_'
  }

  predicate LabelChars(part: string) { forall i :: 0 <= i < |part| ==> LabelChar(part[i]) }

  datatype Reason = NotAscii | EmptyName | NameTooLong | EmptyLabel | LabelTooLong | StrayWildcard | IllegalCharacter

  /** What is wrong with label i, if anything. */
  function LabelProblem(part: string, i: nat): Option<Reason> {
    if part == "" then Some(EmptyLabel)
    else if |part| > 63 then Some(LabelTooLong)
    else if part == "*" then (if i == 0 then None else Some(StrayWildcard))
    else if LabelChars(part) then None else Some(IllegalCharacter)
  }

  function FirstProblem(labels: seq<string>, i: nat): Option<Reason>
    requires i <= |labels|
    decreases |labels| - i
  {
    if i == |labels| then None
    else if LabelProblem(labels[i], i).Some? then LabelProblem(labels[i], i) else FirstProblem(labels, i + 1)
  }

  function Canonical(raw: string): Result<string, Reason> {
    var name := StripDot(Lower(raw));
    if !Ascii(raw) then Err(NotAscii)
    else if name == "" then Err(EmptyName)
    else if |name| > 253 then Err(NameTooLong)
    else
      match FirstProblem(Split(name), 0)
      case Some(reason) => Err(reason)
      case None => Ok(name)
  }

  method CanonicalizeOwnerName(raw: string) returns (r: Result<string, Reason>)
    ensures r == Canonical(raw)
  {
    if !Ascii(raw) { return Err(NotAscii); }
    var name := StripDot(Lower(raw));
    if name == "" { return Err(EmptyName); }
    if |name| > 253 { return Err(NameTooLong); }
    var labels := Split(name);
    for i := 0 to |labels|
      invariant FirstProblem(labels, 0) == FirstProblem(labels, i)
    {
      var part := labels[i];
      if part == "" { return Err(EmptyLabel); }
      if |part| > 63 { return Err(LabelTooLong); }
      if part == "*" {
        if i == 0 { continue; }
        return Err(StrayWildcard);
      }
      if !LabelChars(part) { return Err(IllegalCharacter); }
    }
    return Ok(name);
  }

  /** Letters, digits, hyphens and underscores. */
  ghost predicate PlainLabel(part: string) {
    forall i :: 0 <= i < |part| ==>
      'a' <= part[i] <= 'z' || 'A' <= part[i] <= 'Z' || '0' <= part[i] <= '9' || part[i] == '-' || part[i] == '_'
  }

  /** The limits of section 2.3.4 of RFC 1035, with underscores and one leading wildcard. */
  ghost predicate LegalLabel(part: string, i: nat) {
    1 <= |part| <= 63 && ((i == 0 && part == "*") || PlainLabel(part))
  }

  ghost predicate LegalName(name: string) {
    1 <= |name| <= 253 && forall i :: 0 <= i < |Split(name)| ==> LegalLabel(Split(name)[i], i)
  }

  lemma PlainIsLabelChars(part: string)
    ensures PlainLabel(part) <==> LabelChars(part)
  {}

  lemma ProblemIff(part: string, i: nat)
    ensures LabelProblem(part, i).None? <==> LegalLabel(part, i)
    ensures LabelProblem(part, i).Some? ==>
              match LabelProblem(part, i).value
              case EmptyLabel => part == ""
              case LabelTooLong => |part| > 63
              case StrayWildcard => part == "*" && i > 0
              case IllegalCharacter => 1 <= |part| <= 63 && part != "*" && !PlainLabel(part)
              case _ => false
  {
    PlainIsLabelChars(part);
    assert !PlainLabel("*") by { assert "*"[0] == '*'; }
  }

  lemma {:induction false} NoProblem(labels: seq<string>, i: nat)
    requires i <= |labels|
    ensures FirstProblem(labels, i).None? <==> forall k :: i <= k < |labels| ==> LabelProblem(labels[k], k).None?
    decreases |labels| - i
  {
    if i < |labels| { NoProblem(labels, i + 1); }
  }

  /** Exactly the names within the limits are accepted, as their lower-case form without the
      root dot. */
  lemma AcceptsExactly(raw: string, name: string)
    ensures Canonical(raw) == Ok(name) <==> Ascii(raw) && name == StripDot(Lower(raw)) && LegalName(name)
  {
    var labels := Split(StripDot(Lower(raw)));
    NoProblem(labels, 0);
    forall k | 0 <= k < |labels| ensures LabelProblem(labels[k], k).None? <==> LegalLabel(labels[k], k) {
      ProblemIff(labels[k], k);
    }
  }

  /** `name` is `raw` without one trailing dot, with capitals made small. */
  ghost predicate Lowered(raw: string, name: string) {
    && |name| == (if raw != "" && raw[|raw| - 1] == '.' then |raw| - 1 else |raw|)
    && forall i :: 0 <= i < |name| ==>
         name[i] as int == if 'A' <= raw[i] <= 'Z' then raw[i] as int + 32 else raw[i] as int
  }

  lemma LoweredIsStripped(raw: string, name: string)
    ensures Lowered(raw, name) <==> name == StripDot(Lower(raw))
  {
    var stripped := StripDot(Lower(raw));
    assert Lowered(raw, stripped);
    if Lowered(raw, name) { assert forall i :: 0 <= i < |name| ==> name[i] == stripped[i]; }
  }

  /** The same, letter by letter. */
  lemma AcceptsLetterByLetter(raw: string, name: string)
    ensures Canonical(raw) == Ok(name) <==>
              (forall i :: 0 <= i < |raw| ==> raw[i] as int < 128) && Lowered(raw, name) && LegalName(name)
  {
    AcceptsExactly(raw, name);
    LoweredIsStripped(raw, name);
  }

  /** Label i is the first that is not legal, and this is what is wrong with it. */
  ghost predicate FirstIllegal(labels: seq<string>, i: nat, reason: Reason) {
    && i < |labels| && (forall k :: 0 <= k < i ==> LegalLabel(labels[k], k))
    && match reason
       case EmptyLabel => labels[i] == ""
       case LabelTooLong => |labels[i]| > 63
       case StrayWildcard => labels[i] == "*" && i > 0
       case IllegalCharacter => 1 <= |labels[i]| <= 63 && labels[i] != "*" && !PlainLabel(labels[i])
       case _ => false
  }

  lemma {:induction false} FirstProblemIsFirst(labels: seq<string>, i: nat) returns (k: nat)
    requires i <= |labels| && FirstProblem(labels, i).Some? && forall j :: 0 <= j < i ==> LegalLabel(labels[j], j)
    ensures FirstIllegal(labels, k, FirstProblem(labels, i).value)
    decreases |labels| - i
  {
    ProblemIff(labels[i], i);
    if LabelProblem(labels[i], i).Some? { k := i; } else { k := FirstProblemIsFirst(labels, i + 1); }
  }

  /** A refused name is refused for the first thing wrong with it: its characters, its length, or
      its first illegal label. */
  lemma RefusedFor(raw: string, name: string)
    requires Canonical(raw).Err? && Lowered(raw, name)
    ensures match Canonical(raw).error
            case NotAscii => exists i :: 0 <= i < |raw| && raw[i] as int >= 128
            case EmptyName => Ascii(raw) && name == ""
            case NameTooLong => Ascii(raw) && |name| > 253
            case reason => Ascii(raw) && 1 <= |name| <= 253 && exists k :: FirstIllegal(Split(name), k, reason)
  {
    LoweredIsStripped(raw, name);
    if Ascii(raw) && 1 <= |name| <= 253 { var k := FirstProblemIsFirst(Split(name), 0); }
  }

  /** A legal name has legal characters only and does not end in a dot. */
  lemma LegalCharacters(name: string)
    requires LegalName(name)
    ensures forall i :: 0 <= i < |name| ==> LabelChar(name[i]) || name[i] == '.' || name[i] == '*'
    ensures !EndsWithDot(name)
  {
    LabelsOfName(name);
    forall k | 0 <= k < |name| ensures LabelChar(name[k]) || name[k] == '.' || name[k] == '*' {
      if name[k] != '.' {
        assert name[k] in name;
        var i :| 0 <= i < |Split(name)| && name[k] in Split(name)[i];
        assert LegalLabel(Split(name)[i], i);
      }
    }
    if EndsWithDot(name) { TrailingDotEmptiesLabel(name); }
  }

  lemma TrailingDotEmptiesLabel(name: string)
    requires EndsWithDot(name)
    ensures Split(name)[|Split(name)| - 1] == ""
  {
    var front := name[..|name| - 1];
    assert name == front + "." + "";
    SplitAtDot(front, "");
  }

  /** Canonicalizing again changes nothing. */
  lemma CanonicalIsFixed(raw: string)
    requires Canonical(raw).Ok?
    ensures Canonical(Canonical(raw).value) == Canonical(raw)
  {
    var name := Canonical(raw).value;
    AcceptsExactly(raw, name);
    LegalCharacters(name);
    assert Lower(name) == name;
    AcceptsExactly(name, name);
  }

  // ---- comparison ----

  function TrimDots(s: string): string {
    if EndsWithDot(s) then TrimDots(s[..|s| - 1]) else s
  }

  /** Same owner, ignoring case and trailing dots. */
  predicate NamesEqual(a: string, b: string) { Lower(TrimDots(a)) == Lower(TrimDots(b)) }

  lemma LowerKeepsDots(s: string)
    ensures EndsWithDot(Lower(s)) <==> EndsWithDot(s)
    ensures Lower(StripDot(s)) == StripDot(Lower(s))
  {}

  lemma TrimOfLegal(raw: string)
    requires Canonical(raw).Ok?
    ensures Lower(TrimDots(raw)) == Canonical(raw).value
  {
    var name := Canonical(raw).value;
    AcceptsExactly(raw, name);
    LegalCharacters(name);
    LowerKeepsDots(raw);
    LowerKeepsDots(StripDot(raw));
    assert TrimDots(raw) == StripDot(raw);
  }

  /** On accepted names, the comparison is equality of the canonical forms. */
  lemma EqualIffSameCanonical(a: string, b: string)
    requires Canonical(a).Ok? && Canonical(b).Ok?
    ensures NamesEqual(a, b) <==> Canonical(a) == Canonical(b)
  {
    TrimOfLegal(a);
    TrimOfLegal(b);
  }

  // ---- one URL path segment ----

  predicate Kept(b: Byte) {
    LabelChar(b as char) || b as char in {'.', '~', '*', '@'}
  }

  function UpperHex(d: int): char
    requires 0 <= d < 16
  {
    if d < 10 then ('0' as int + d) as char else ('A' as int + d - 10) as char
  }

  function EncodeByte(b: Byte): string {
    if Kept(b) then [b as char] else ['%', UpperHex(b / 16), UpperHex(b % 16)]
  }

  function Encode(bytes: seq<Byte>): string {
    if bytes == [] then "" else EncodeByte(bytes[0]) + Encode(bytes[1..])
  }

  lemma {:induction false} EncodeSnoc(bytes: seq<Byte>, b: Byte)
    ensures Encode(bytes + [b]) == Encode(bytes) + EncodeByte(b)
  {
    if bytes == [] {
      assert bytes + [b] == [b];
    } else {
      EncodeSnoc(bytes[1..], b);
      assert (bytes + [b])[1..] == bytes[1..] + [b];
    }
  }

  method EncodeNameSegment(bytes: seq<Byte>) returns (out: string)
    ensures out == Encode(bytes)
  {
    out := "";
    for i := 0 to |bytes|
      invariant out == Encode(bytes[..i])
    {
      var b := bytes[i];
      EncodeSnoc(bytes[..i], b);
      assert bytes[..i + 1] == bytes[..i] + [b];
      if Kept(b) {
        out := out + [b as char];
      } else {
        out := out + ['%', UpperHex(b / 16), UpperHex(b % 16)];
      }
    }
    assert bytes[..|bytes|] == bytes;
  }

  /** Percent-decoding, section 2.1 of RFC 3986. */
  function Decode(s: string): Option<seq<Byte>> {
    if s == "" then Some([])
    else if s[0] == '%' then
      if |s| < 3 || HexValue(s[1]).None? || HexValue(s[2]).None? then None
      else
        match Decode(s[3..])
        case Some(rest) => Some([(HexValue(s[1]).value * 16 + HexValue(s[2]).value) as Byte] + rest)
        case None => None
    else if s[0] as int >= 256 then None
    else
      match Decode(s[1..])
      case Some(rest) => Some([s[0] as int as Byte] + rest)
      case None => None
  }

  lemma UpperHexReads(d: int)
    requires 0 <= d < 16
    ensures HexValue(UpperHex(d)) == Some(d)
  {}

  /** Decoding undoes encoding, on every byte string. */
  lemma {:induction false} DecodeEncode(bytes: seq<Byte>)
    ensures Decode(Encode(bytes)) == Some(bytes)
  {
    if bytes != [] {
      var b, rest := bytes[0], Encode(bytes[1..]);
      DecodeEncode(bytes[1..]);
      assert bytes == [b] + bytes[1..];
      if Kept(b) {
        assert Encode(bytes)[1..] == rest;
      } else {
        UpperHexReads(b / 16);
        UpperHexReads(b % 16);
        assert Encode(bytes)[3..] == rest;
      }
    }
  }

  /** The encoding stays inside one path segment: it has letters, digits, `-._~*@` and percent
      signs, so no separator of a path, query, fragment or port, and no white space. */
  lemma {:induction false} EncodedIsOneSegment(bytes: seq<Byte>)
    ensures forall c :: c in Encode(bytes) ==>
              'A' <= c <= 'Z' || 'a' <= c <= 'z' || '0' <= c <= '9'
              || c == '-' || c == '.' || c == '_' || c == '~' || c == '*' || c == '@' || c == '%'
    ensures '/' !in Encode(bytes) && '?' !in Encode(bytes) && '#' !in Encode(bytes) && ':' !in Encode(bytes)
    ensures forall c :: c in Encode(bytes) ==> !IsWhitespace(c)
  {
    if bytes != [] { EncodedIsOneSegment(bytes[1..]); }
  }

  /** Byte by byte: a letter, a digit or one of `-._~*@` stands for itself, and every other byte is
      a percent sign and its two upper-case hexadecimal digits. */
  lemma EncodedByteByByte(b: Byte, bytes: seq<Byte>)
    ensures Encode([]) == ""
    ensures Encode([b] + bytes) ==
            (if 'A' as int <= b <= 'Z' as int || 'a' as int <= b <= 'z' as int || '0' as int <= b <= '9' as int
                || b == '-' as int || b == '.' as int || b == '_' as int || b == '~' as int || b == '*' as int || b == '@' as int
             then [b as char] else ['%', "0123456789ABCDEF"[b / 16], "0123456789ABCDEF"[b % 16]])
            + Encode(bytes)
  {
    assert ([b] + bytes)[1..] == bytes;
    UpperHexIsListed(b / 16);
    UpperHexIsListed(b % 16);
  }

  lemma UpperHexIsListed(d: int)
    requires 0 <= d < 16
    ensures UpperHex(d) == "0123456789ABCDEF"[d]
  {}

  /** The bytes of an ASCII string. */
  function Bytes(s: string): seq<Byte>
    requires Ascii(s)
  {
    seq(|s|, i requires 0 <= i < |s| => s[i] as int)
  }

  lemma {:induction false} KeptIsPlain(s: string)
    requires Ascii(s) && forall i :: 0 <= i < |s| ==> Kept(s[i] as int)
    ensures Encode(Bytes(s)) == s
  {
    if s != "" {
      KeptIsPlain(s[1..]);
      assert Bytes(s)[1..] == Bytes(s[1..]);
      assert s == [s[0]] + s[1..];
    }
  }

  /** A canonical name is its own encoding. */
  lemma CanonicalIsPlain(raw: string)
    requires Canonical(raw).Ok?
    ensures Ascii(Canonical(raw).value) && Encode(Bytes(Canonical(raw).value)) == Canonical(raw).value
  {
    var name := Canonical(raw).value;
    AcceptsExactly(raw, name);
    LegalCharacters(name);
    KeptIsPlain(name);
  }
}
