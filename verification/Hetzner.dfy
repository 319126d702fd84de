/** The Hetzner adapter's names and TXT values as text, and what undoes them. */
module Hetzner {
  import opened Text
  import opened DnsNames
  import opened Routing

  // ---- names relative to the zone ----

  function RelativeName(zone: string, fqdn: string): string {
    if fqdn == zone then "@"
    else if EndsWith(fqdn, "." + zone) then fqdn[..|fqdn| - |zone| - 1]
    else fqdn
  }

  function AbsoluteName(zone: string, relative: string): string {
    if relative == "@" then zone else relative + "." + zone
  }

  /** On all strings: the absolute name comes back exactly for the names of the zone, save the
      one spelled with a literal `@` label. */
  lemma RelativeRoundTripIff(zone: string, fqdn: string)
    ensures AbsoluteName(zone, RelativeName(zone, fqdn)) == fqdn <==>
              SuffixOnLabelBoundary(fqdn, zone) && fqdn != "@." + zone
  {
    var relative := RelativeName(zone, fqdn);
    if fqdn != zone && EndsWith(fqdn, "." + zone) {
      var n := |fqdn| - |zone| - 1;
      assert fqdn[n..] == "." + zone && fqdn[n..][1..] == zone;
      assert fqdn == relative + "." + zone;
      assert fqdn[n + 1..] == zone && fqdn[n] == '.';
      if relative == "@" { assert fqdn == "@." + zone; }
      if fqdn == "@." + zone { assert relative == "@"; }
    } else if fqdn != zone {
      NotDottedNotInside(zone, fqdn);
      assert |AbsoluteName(zone, relative)| != |fqdn| || relative == "@";
    }
  }

  lemma NotDottedNotInside(zone: string, fqdn: string)
    requires fqdn != zone && !EndsWith(fqdn, "." + zone)
    ensures !SuffixOnLabelBoundary(fqdn, zone)
  {}

  /** Canonical names of the zone round trip, so no two of them share a relative name. */
  lemma RelativeIsInvertible(zone: string, raw: string)
    requires Canonical(raw).Ok? && SuffixOnLabelBoundary(Canonical(raw).value, zone)
    ensures AbsoluteName(zone, RelativeName(zone, Canonical(raw).value)) == Canonical(raw).value
    ensures RelativeName(zone, Canonical(raw).value) == "@" <==> Canonical(raw).value == zone
  {
    var name := Canonical(raw).value;
    AcceptsExactly(raw, name);
    LegalCharacters(name);
    RelativeRoundTripIff(zone, name);
  }

  lemma RelativeIsInjective(zone: string, a: string, b: string)
    requires Canonical(a).Ok? && SuffixOnLabelBoundary(Canonical(a).value, zone)
    requires Canonical(b).Ok? && SuffixOnLabelBoundary(Canonical(b).value, zone)
    requires RelativeName(zone, Canonical(a).value) == RelativeName(zone, Canonical(b).value)
    ensures Canonical(a) == Canonical(b)
  {
    RelativeIsInvertible(zone, a);
    RelativeIsInvertible(zone, b);
  }

  /** The relative name of a canonical name is put into the URL as it is. */
  lemma RelativeIsPlain(zone: string, raw: string)
    requires Canonical(raw).Ok?
    ensures var relative := RelativeName(zone, Canonical(raw).value); Ascii(relative) && Encode(Bytes(relative)) == relative
  {
    var name := Canonical(raw).value;
    AcceptsExactly(raw, name);
    LegalCharacters(name);
    KeptIsPlain(RelativeName(zone, name));
  }

  /** The name a record ends up under: the adapter shortens it as it is spelled, and the zone is
      appended again. */
  function WrittenName(zone: string, fqdn: string): string { AbsoluteName(zone, RelativeName(zone, fqdn)) }

  lemma AcceptedIsShort(name: string)
    requires Canonical(name).Ok?
    ensures |name| - 1 <= |Canonical(name).value| <= |name|
  {
    AcceptsExactly(name, Canonical(name).value);
  }

  /** Whatever zone the adapter was configured with, and however that is spelled: a legal name is
      written as the name it is exactly if its own spelling ends in the configured zone, letter
      for letter and without a trailing dot (or no zone was configured), and unchanged exactly
      if it is canonical too. */
  lemma WrittenIsRoutedIff(zone: string, raw: string)
    requires Canonical(raw).Ok?
    ensures Canonical(WrittenName(zone, raw)) == Canonical(raw) <==> zone == "" || SuffixOnLabelBoundary(raw, zone)
    ensures WrittenName(zone, raw) == Canonical(raw).value <==> SuffixOnLabelBoundary(raw, zone) && raw == Canonical(raw).value
  {
    NoAtSign(raw);
    RelativeRoundTripIff(zone, raw);
    AcceptedIsShort(raw);
    if SuffixOnLabelBoundary(raw, zone) {
      assert '@' in "@." + zone by { assert ("@." + zone)[0] == '@'; }
      assert WrittenName(zone, raw) == raw;
    } else {
      OutsideIsAppended(zone, raw);
      if zone == "" {
        DotChangesNothing(raw);
      } else if Canonical(raw + "." + zone).Ok? {
        AcceptedIsShort(raw + "." + zone);
      }
    }
  }

  lemma DottedIsInside(zone: string, fqdn: string)
    requires EndsWith(fqdn, "." + zone)
    ensures SuffixOnLabelBoundary(fqdn, zone)
  {
    var n := |fqdn| - |zone| - 1;
    assert fqdn[n..][0] == '.' && fqdn[n..][1..] == zone;
    assert fqdn[n + 1..] == zone && fqdn[n] == '.';
  }

  lemma OutsideIsAppended(zone: string, raw: string)
    requires '@' !in raw && !SuffixOnLabelBoundary(raw, zone)
    ensures WrittenName(zone, raw) == raw + "." + zone
  {
    if EndsWith(raw, "." + zone) { DottedIsInside(zone, raw); }
  }

  lemma DotChangesNothing(raw: string)
    requires Canonical(raw).Ok? && !EndsWithDot(raw)
    ensures Canonical(raw + "." + "") == Canonical(raw)
  {
    var dotted := raw + "." + "";
    LowerKeepsDots(raw);
    assert StripDot(Lower(dotted)) == Lower(raw) == StripDot(Lower(raw));
    AcceptsExactly(raw, Canonical(raw).value);
    AcceptsExactly(dotted, Canonical(raw).value);
  }

  lemma NoAtSign(raw: string)
    requires Canonical(raw).Ok?
    ensures '@' !in raw
  {
    var name := Canonical(raw).value;
    AcceptsExactly(raw, name);
    LegalCharacters(name);
    forall i | 0 <= i < |raw| ensures raw[i] != '@' {
      if i < |name| {
        assert name[i] == LowerChar(raw[i]);
      } else {
        assert EndsWithDot(Lower(raw));
      }
    }
  }

  /** A capital in the zone's part of the name: routed to the zone, written below it. */
  lemma CapitalMissesApex()
    ensures Canonical("A.b") == Ok("a.b") && WrittenName("a.b", "A.b") == "A.b.a.b"
  {
    assert Lower("A.b") == "a.b";
    assert StripDot("a.b") == "a.b";
    SplitAtDot("a", "b");
    SingleLabel("a");
    SingleLabel("b");
    assert "a" + "." + "b" == "a.b";
    AcceptsExactly("A.b", "a.b");
    assert "A.b" != "a.b" by { assert "A.b"[0] == 'A'; }
  }

  /** So what dispatch hands to an adapter configured with `zone` is written under the name it was
      routed by exactly if its spelling ends in `zone` (or that is empty), whatever the routing
      entry's apex. */
  lemma DispatchedIsWrittenIff(zones: seq<Zone>, operation: Operation, record: Record, zone: string)
    requires Dispatch(zones, operation, record).Ok?
    ensures var sent := Dispatch(zones, operation, record).value.record;
            Canonical(WrittenName(zone, sent.name)) == Canonical(record.name) <==>
              zone == "" || SuffixOnLabelBoundary(record.name, zone)
  {
    WrittenIsRoutedIff(zone, record.name);
  }

  /** An adapter configured with its routing entry's canonical apex writes every canonical name
      routed to it under that name. */
  lemma CanonicalIsWritten(zones: seq<Zone>, operation: Operation, record: Record, z: Zone)
    requires Select(zones, record.name) == Some(z) && Canonical(record.name) == Ok(record.name)
    requires Dispatch(zones, operation, record).Ok?
    ensures WrittenName(z.root, record.name) == record.name
  {
    LongestIsBytewise(zones, record.name);
    WrittenIsRoutedIff(z.root, record.name);
  }

  // ---- TXT values ----

  function ReplaceChar(x: char, c: char, text: string): string { if x == c then text else [x] }

  /** `str::replace` of one character. */
  function Replace(s: string, c: char, text: string): string {
    if s == "" then "" else ReplaceChar(s[0], c, text) + Replace(s[1..], c, text)
  }

  function TxtChunk(s: string): string {
    "\"" + Replace(Replace(s, '\\', "\\\\"), '"', "\\\"") + "\""
  }

  function RecordValue(chunks: seq<string>): string {
    if chunks == [] then ""
    else if |chunks| == 1 then TxtChunk(chunks[0])
    else TxtChunk(chunks[0]) + " " + RecordValue(chunks[1..])
  }

  function EscapeChar(c: char): string { if c == '\\' || c == '"' then ['\\', c] else [c] }

  function Escape(s: string): string { if s == "" then "" else EscapeChar(s[0]) + Escape(s[1..]) }

  lemma {:induction false} ReplaceConcat(a: string, b: string, c: char, text: string)
    ensures Replace(a + b, c, text) == Replace(a, c, text) + Replace(b, c, text)
  {
    if a == "" {
      assert a + b == b;
    } else {
      ReplaceConcat(a[1..], b, c, text);
      var whole := a + b;
      assert whole[0] == a[0] && whole[1..] == a[1..] + b;
      ConcatAssociates(ReplaceChar(a[0], c, text), Replace(a[1..], c, text), Replace(b, c, text));
    }
  }

  lemma ConcatAssociates(a: string, b: string, c: string)
    ensures a + (b + c) == (a + b) + c
  {}

  /** The two replacements in this order are one pass that escapes each character. */
  lemma {:induction false} TwoPassesAreOne(s: string)
    ensures Replace(Replace(s, '\\', "\\\\"), '"', "\\\"") == Escape(s)
  {
    if s != "" {
      TwoPassesAreOne(s[1..]);
      var first := if s[0] == '\\' then "\\\\" else [s[0]];
      ReplaceConcat(first, Replace(s[1..], '\\', "\\\\"), '"', "\\\"");
      FirstCharEscapes(s[0]);
    }
  }

  lemma FirstCharEscapes(c: char)
    ensures Replace(if c == '\\' then "\\\\" else [c], '"', "\\\"") == EscapeChar(c)
  {
    if c == '\\' {
      var s := "\\\\";
      assert s[1..] == "\\" && s[1..][1..] == "";
    } else {
      assert [c][1..] == "";
    }
  }

  // ---- reading them, section 5.1 of RFC 1035 ----

  /** The characters up to the closing quote and what follows it: `\X` is X, `\DDD` is the
      octet of that decimal number. */
  function Unquote(s: string): (r: Option<(string, string)>)
    ensures r.Some? ==> |r.value.1| < |s|
    decreases |s|
  {
    if s == "" then None
    else if s[0] == '"' then Some(("", s[1..]))
    else if s[0] != '\\' then Prefixed([s[0]], Unquote(s[1..]))
    else if |s| < 2 then None
    else if !IsDigit(s[1]) then Prefixed([s[1]], Unquote(s[2..]))
    else if |s| < 4 || !IsDigit(s[2]) || !IsDigit(s[3]) || Value(s[1..4]) > 255 then None
    else Prefixed([Octet(s[1..4])], Unquote(s[4..]))
  }

  function Octet(digits: string): char {
    if 0 <= Value(digits) < 256 then Value(digits) as char else '\0'
  }

  function Prefixed(c: string, r: Option<(string, string)>): (p: Option<(string, string)>)
    ensures p.Some? <==> r.Some?
    ensures p.Some? ==> p.value == (c + r.value.0, r.value.1)
  {
    match r
    case Some((text, rest)) => Some((c + text, rest))
    case None => None
  }

  /** Quoted strings with one blank between them. */
  function ParseTxt(s: string): Option<seq<string>>
    decreases |s|
  {
    if s == "" then Some([])
    else if s[0] != '"' then None
    else
      match Unquote(s[1..])
      case None => None
      case Some((text, rest)) =>
        if rest == "" then Some([text])
        else if rest[0] != ' ' || |rest| == 1 then None
        else
          match ParseTxt(rest[1..])
          case None => None
          case Some(chunks) => Some([text] + chunks)
  }

  lemma {:induction false} UnquoteEscape(s: string, rest: string)
    ensures Unquote(Escape(s) + "\"" + rest) == Some((s, rest))
  {
    var whole := Escape(s) + "\"" + rest;
    if s == "" {
      assert whole[1..] == rest;
    } else {
      UnquoteEscape(s[1..], rest);
      var tail := Escape(s[1..]) + "\"" + rest;
      assert s == [s[0]] + s[1..];
      assert whole == EscapeChar(s[0]) + tail;
      if s[0] == '\\' || s[0] == '"' {
        assert whole[0] == '\\' && whole[1] == s[0] && whole[2..] == tail;
      } else {
        assert whole[0] == s[0] && whole[1..] == tail;
      }
    }
  }

  lemma ParseOneChunk(chunk: string, rest: string)
    ensures ParseTxt(TxtChunk(chunk)) == Some([chunk])
    ensures rest != "" ==>
              ParseTxt(TxtChunk(chunk) + " " + rest) ==
              match ParseTxt(rest) case None => None case Some(chunks) => Some([chunk] + chunks)
  {
    TwoPassesAreOne(chunk);
    UnquoteEscape(chunk, "");
    assert TxtChunk(chunk)[1..] == Escape(chunk) + "\"" + "";
    UnquoteEscape(chunk, " " + rest);
    assert (TxtChunk(chunk) + " " + rest)[1..] == Escape(chunk) + "\"" + (" " + rest);
    assert (" " + rest)[1..] == rest;
  }

  /** TXT printing is invertible: every list of strings is read back as it was. */
  lemma {:induction false} TxtRoundTrip(chunks: seq<string>)
    ensures ParseTxt(RecordValue(chunks)) == Some(chunks)
  {
    if |chunks| == 1 {
      ParseOneChunk(chunks[0], "");
      assert chunks == [chunks[0]];
    } else if |chunks| > 1 {
      TxtRoundTrip(chunks[1..]);
      ParseOneChunk(chunks[0], RecordValue(chunks[1..]));
      assert chunks == [chunks[0]] + chunks[1..];
    }
  }
}
