/** The legacy single read: up to five networks as one compact JSON value, against the 512 octets an
    attribute value may have (Bluetooth Core Specification, Vol 3, Part F, section 3.2.9). */
module LegacyRead {
  import opened Text
  import opened WifiScan
  import Utf8

  const LEGACY_READ_LIMIT := 5
  const ATTRIBUTE_LIMIT := 512

  // ---------- json.dumps(..., separators=(",", ":"), ensure_ascii=False) ----------

  const HEX := "0123456789abcdef"

  /** One character inside a JSON string (section 7 of RFC 8259, as Python escapes it). */
  function EscapeChar(c: char): string {
    if c == '"' then "\\\""
    else if c == '\\' then "\\\\"
    else if c == '\n' then "\\n"
    else if c == '\r' then "\\r"
    else if c == '\t' then "\\t"
    else if c as int == 8 then "\\b"
    else if c as int == 12 then "\\f"
    else if c as int < 0x20 then "\\u00" + [HEX[c as int / 16], HEX[c as int % 16]]
    else [c]
  }

  function EscapeText(s: string): string {
    if s == "" then "" else EscapeChar(s[0]) + EscapeText(s[1..])
  }

  function EncodeNetwork(n: Network): string {
    "{\"ssid\":\"" + EscapeText(n.ssid) + "\",\"signal\":" + SignedDecimal(n.signal)
    + ",\"security\":\"" + EscapeText(n.security) + "\",\"in_use\":" + (if n.inUse then "true" else "false") + "}"
  }

  /** Texts with a comma between any two. */
  function Joined(parts: seq<string>): string {
    if parts == [] then ""
    else
      var n := |parts| - 1;
      Joined(parts[..n]) + (if n > 0 then "," else "") + parts[n]
  }

  function Encodings(nets: seq<Network>): (r: seq<string>)
    ensures |r| == |nets| && forall i :: 0 <= i < |r| ==> r[i] == EncodeNetwork(nets[i])
  {
    seq(|nets|, i requires 0 <= i < |nets| => EncodeNetwork(nets[i]))
  }

  /** What the read returns: the encoded list. */
  function EncodeNetworks(nets: seq<Network>): string { "[" + Joined(Encodings(nets)) + "]" }

  // ---------- bytes ----------

  function CharBytes(c: char): nat {
    var n := c as int;
    if n < 0x80 then 1 else if n < 0x800 then 2 else if n < 0x10000 then 3 else 4
  }

  /** Length of the UTF-8 encoding. */
  function Bytes(s: string): nat {
    if s == "" then 0 else Bytes(s[..|s| - 1]) + CharBytes(s[|s| - 1])
  }

  /** `Bytes` counts the octets of the UTF-8 encoding, which decodes to the text again. */
  lemma {:induction false} BytesAreOctets(s: string)
    ensures Bytes(s) == |Utf8.Octets(s)|
    ensures Utf8.Decode(Utf8.Octets(s)) == Some(s)
  {
    Utf8.RoundTrip(s);
    if s != "" {
      BytesAreOctets(s[1..]);
      assert s == [s[0]] + s[1..] && [s[0]][..0] == "";
      BytesAppend([s[0]], s[1..]);
    }
  }

  lemma {:induction false} BytesAppend(a: string, b: string)
    ensures Bytes(a + b) == Bytes(a) + Bytes(b)
  {
    if b == "" {
      assert a + b == a;
    } else {
      assert (a + b)[..|a + b| - 1] == a + b[..|b| - 1];
      BytesAppend(a, b[..|b| - 1]);
    }
  }

  predicate Ascii(s: string) { forall i :: 0 <= i < |s| ==> s[i] as int < 0x80 }

  lemma {:induction false} AsciiBytes(s: string)
    requires Ascii(s)
    ensures Bytes(s) == |s|
  {
    if s != "" { AsciiBytes(s[..|s| - 1]); }
  }

  /** The variable part of one network's encoding: both strings as escaped, the digits, the flag. */
  function Payload(n: Network): nat {
    Bytes(EscapeText(n.ssid)) + Bytes(EscapeText(n.security)) + |SignedDecimal(n.signal)| + (if n.inUse then 4 else 5)
  }

  function Payloads(nets: seq<Network>): nat {
    if nets == [] then 0 else Payloads(nets[..|nets| - 1]) + Payload(nets[|nets| - 1])
  }

  lemma SignedDecimalAscii(n: int)
    ensures Bytes(SignedDecimal(n)) == |SignedDecimal(n)|
  {
    var s := SignedDecimal(n);
    assert Ascii(s) by {
      if n < 0 { assert forall i :: 0 < i < |s| ==> s[i] == Decimal(-n)[i - 1]; }
    }
    AsciiBytes(s);
  }

  lemma NetworkBytes(n: Network)
    ensures Bytes(EncodeNetwork(n)) == 45 + Payload(n)
  {
    var u := if n.inUse then "true" else "false";
    AsciiBytes("{\"ssid\":\"");
    AsciiBytes("\",\"signal\":");
    AsciiBytes(",\"security\":\"");
    AsciiBytes("\",\"in_use\":");
    AsciiBytes("}");
    AsciiBytes(u);
    PiecesBytes(n, "{\"ssid\":\"", "\",\"signal\":", ",\"security\":\"", "\",\"in_use\":", u, "}");
  }

  lemma PiecesBytes(n: Network, a: string, b: string, c: string, d: string, u: string, e: string)
    ensures
      Bytes(a + EscapeText(n.ssid) + b + SignedDecimal(n.signal) + c + EscapeText(n.security) + d + u + e)
      == Bytes(a) + Bytes(EscapeText(n.ssid)) + Bytes(b) + |SignedDecimal(n.signal)| + Bytes(c)
         + Bytes(EscapeText(n.security)) + Bytes(d) + Bytes(u) + Bytes(e)
  {
    var s, g, t := EscapeText(n.ssid), SignedDecimal(n.signal), EscapeText(n.security);
    SignedDecimalAscii(n.signal);
    BytesOfFive(a, s, b, g, c);
    BytesOfFive(a + s + b + g + c, t, d, u, e);
  }

  lemma BytesOfFive(a: string, b: string, c: string, d: string, e: string)
    ensures Bytes(a + b + c + d + e) == Bytes(a) + Bytes(b) + Bytes(c) + Bytes(d) + Bytes(e)
  {
    BytesAppend(a, b);
    BytesAppend(a + b, c);
    BytesAppend(a + b + c, d);
    BytesAppend(a + b + c + d, e);
  }

  function Total(parts: seq<string>): nat {
    if parts == [] then 0 else Total(parts[..|parts| - 1]) + Bytes(parts[|parts| - 1])
  }

  lemma {:induction false} JoinedBytes(parts: seq<string>)
    ensures Bytes(Joined(parts)) == Total(parts) + (if parts == [] then 0 else |parts| - 1)
  {
    if parts != [] {
      var n := |parts| - 1;
      var sep := if n > 0 then "," else "";
      JoinedBytes(parts[..n]);
      AsciiBytes(sep);
      BytesAppend(Joined(parts[..n]), sep);
      BytesAppend(Joined(parts[..n]) + sep, parts[n]);
    }
  }

  lemma {:induction false} EncodingsTotal(nets: seq<Network>)
    ensures Total(Encodings(nets)) == 45 * |nets| + Payloads(nets)
  {
    if nets != [] {
      var n := |nets| - 1;
      EncodingsTotal(nets[..n]);
      NetworkBytes(nets[n]);
      LastEncoding(nets);
    }
  }

  lemma LastEncoding(nets: seq<Network>)
    requires nets != []
    ensures Total(Encodings(nets)) == Total(Encodings(nets[..|nets| - 1])) + Bytes(EncodeNetwork(nets[|nets| - 1]))
  {
    assert Encodings(nets)[..|nets| - 1] == Encodings(nets[..|nets| - 1]);
  }

  lemma BracketBytes(s: string)
    ensures Bytes("[" + s + "]") == Bytes(s) + 2
  {
    AsciiBytes("[");
    AsciiBytes("]");
    BytesAppend("[", s);
    BytesAppend("[" + s, "]");
  }

  /** The exact size of the value, for any list. */
  lemma EncodedSize(nets: seq<Network>)
    ensures Bytes(EncodeNetworks(nets)) == 2 + 45 * |nets| + Payloads(nets) + (if nets == [] then 0 else |nets| - 1)
  {
    JoinedBytes(Encodings(nets));
    EncodingsTotal(nets);
    BracketBytes(Joined(Encodings(nets)));
  }

  /** A limit of five does not by itself keep the value within 512 octets; it does exactly when the
      escaped strings, digits and flags of the five take at most 512 less the fixed part: 281 for five. */
  lemma {:induction false} FitsIff(nets: seq<Network>)
    requires nets != []
    ensures Bytes(EncodeNetworks(nets)) <= ATTRIBUTE_LIMIT <==> Payloads(nets) <= ATTRIBUTE_LIMIT - 1 - 46 * |nets|
  {
    EncodedSize(nets);
  }

  // ---------- networks as Wi-Fi has them ----------

  /** Nothing to escape. */
  predicate EscapeFree(s: string) {
    forall i :: 0 <= i < |s| ==> s[i] != '"' && s[i] != '\\' && s[i] as int >= 0x20
  }

  lemma EscapeFreeChar(c: char)
    requires c != '"' && c != '\\' && c as int >= 0x20
    ensures EscapeChar(c) == [c]
  {
  }

  lemma {:induction false} EscapeFreeText(s: string)
    requires EscapeFree(s)
    ensures EscapeText(s) == s
  {
    if s != "" {
      EscapeFreeText(s[1..]);
      EscapeFreeChar(s[0]);
      assert s == [s[0]] + s[1..];
    }
  }

  /** SSIDs of at most 32 bytes (IEEE 802.11-2016, section 9.4.2.2), security names of at most 16, signal a
      percentage. */
  predicate Ordinary(n: Network) {
    && EscapeFree(n.ssid) && Bytes(n.ssid) <= 32
    && EscapeFree(n.security) && Bytes(n.security) <= 16
    && 0 <= n.signal <= 100
  }

  lemma OrdinaryPayload(n: Network)
    requires 0 <= n.signal <= 100
    ensures Payload(n) <= Bytes(EscapeText(n.ssid)) + Bytes(EscapeText(n.security)) + 8
    ensures Ordinary(n) ==> Payload(n) <= 56
  {
    assert n.signal >= 10 ==> Decimal(n.signal) == Decimal(n.signal / 10) + [DigitChar(n.signal % 10)];
    assert n.signal >= 100 ==> Decimal(10) == Decimal(1) + [DigitChar(0)];
    assert |SignedDecimal(n.signal)| <= 3;
    if Ordinary(n) {
      EscapeFreeText(n.ssid);
      EscapeFreeText(n.security);
    }
  }

  function StringBytes(nets: seq<Network>): nat {
    if nets == [] then 0
    else
      var n := nets[|nets| - 1];
      StringBytes(nets[..|nets| - 1]) + Bytes(EscapeText(n.ssid)) + Bytes(EscapeText(n.security))
  }

  lemma {:induction false} PayloadBound(nets: seq<Network>)
    requires forall i :: 0 <= i < |nets| ==> 0 <= nets[i].signal <= 100
    ensures Payloads(nets) <= StringBytes(nets) + 8 * |nets|
    ensures (forall i :: 0 <= i < |nets| ==> Ordinary(nets[i])) ==> Payloads(nets) <= 56 * |nets|
  {
    if nets != [] {
      PayloadBound(nets[..|nets| - 1]);
      OrdinaryPayload(nets[|nets| - 1]);
    }
  }

  /** Five ordinary networks take at most 511 bytes; with percentages as signals but any strings, at most
      271 bytes beside the escaped strings, so 241 bytes of those always fit. */
  lemma LegacyReadFits(out: string)
    ensures var nets := ScanNets(out, LEGACY_READ_LIMIT);
      (forall i :: 0 <= i < |nets| ==> 0 <= nets[i].signal <= 100) ==>
      && Bytes(EncodeNetworks(nets)) <= 271 + StringBytes(nets)
      && (StringBytes(nets) <= 241 ==> Bytes(EncodeNetworks(nets)) <= ATTRIBUTE_LIMIT)
      && ((forall i :: 0 <= i < |nets| ==> Ordinary(nets[i])) ==> Bytes(EncodeNetworks(nets)) <= 511)
  {
    var nets := ScanNets(out, LEGACY_READ_LIMIT);
    EncodedSize(nets);
    if forall i :: 0 <= i < |nets| ==> 0 <= nets[i].signal <= 100 { PayloadBound(nets); }
  }

  // ---------- the cap alone is not enough ----------

  function Repeat(c: char, n: nat): (s: string)
    ensures |s| == n && forall i :: 0 <= i < n ==> s[i] == c
  {
    seq(n, _ => c)
  }

  lemma {:induction false} QuotesDouble(n: nat)
    ensures Bytes(Repeat('"', n)) == n && Bytes(EscapeText(Repeat('"', n))) == 2 * n
  {
    var s := Repeat('"', n);
    AsciiBytes(s);
    if n > 0 {
      assert s[1..] == Repeat('"', n - 1);
      QuotesDouble(n - 1);
      AsciiBytes("\\\"");
      BytesAppend("\\\"", EscapeText(s[1..]));
    }
  }

  const SECURITY := "WPA2"

  function QuoteRow(k: nat, signal: string): Row { Row("", Repeat('"', k), signal, SECURITY) }

  function QuoteNet(k: nat): Network { Network(Repeat('"', k), 100, SECURITY, false) }

  /** Access points whose SSIDs are 28, 29, ... quotation marks. */
  function QuoteRows(n: nat, signal: string): (r: seq<Row>)
    ensures |r| == n && forall i :: 0 <= i < n ==> r[i] == QuoteRow(28 + i, signal)
  {
    seq(n, (i: nat) => QuoteRow(28 + i, signal))
  }

  function QuoteNets(n: nat): (r: seq<Network>)
    ensures |r| == n && forall i :: 0 <= i < n ==> r[i] == QuoteNet(28 + i)
  {
    seq(n, (i: nat) => QuoteNet(28 + i))
  }

  lemma QuoteRowReads(k: nat, signal: string)
    requires k > 0 && OneLine(signal) && ParseInt(signal) == Some(100)
    ensures OneLineRow(QuoteRow(k, signal))
    ensures Reading("", Repeat('"', k), signal, SECURITY) == Some(QuoteNet(k))
  {
    StripFixes("");
  }

  lemma {:induction false} QuoteNetsRead(n: nat, signal: string)
    requires OneLine(signal) && ParseInt(signal) == Some(100)
    ensures Readings(QuoteRows(n, signal)) == QuoteNets(n)
  {
    if n > 0 {
      QuoteNetsRead(n - 1, signal);
      QuoteRowReads(27 + n, signal);
      ReadingsSnoc(QuoteRows(n - 1, signal), QuoteRow(27 + n, signal), QuoteNet(27 + n));
      assert QuoteRows(n, signal) == QuoteRows(n - 1, signal) + [QuoteRow(27 + n, signal)];
      assert QuoteNets(n) == QuoteNets(n - 1) + [QuoteNet(27 + n)];
    }
  }

  lemma QuotePayload(k: nat)
    requires 28 <= k <= 32
    ensures Bytes(QuoteNet(k).ssid) <= 32 && Payload(QuoteNet(k)) >= 65
  {
    QuotesDouble(k);
    EscapeFreeText(SECURITY);
    AsciiBytes(SECURITY);
  }

  lemma {:induction false} QuotePayloads(n: nat)
    requires n <= 5
    ensures Payloads(QuoteNets(n)) >= 65 * n
  {
    if n > 0 {
      QuotePayloads(n - 1);
      QuotePayload(27 + n);
      assert QuoteNets(n)[..n - 1] == QuoteNets(n - 1);
    }
  }

  lemma QuotesDiffer(j: nat, k: nat)
    ensures QuoteNet(j).ssid == QuoteNet(k).ssid ==> j == k
  {
    assert |QuoteNet(j).ssid| == j && |QuoteNet(k).ssid| == k;
  }

  lemma QuoteListing(n: nat, signal: string)
    requires n <= LEGACY_READ_LIMIT && OneLine(signal) && ParseInt(signal) == Some(100)
    ensures ScanNets(Listing(QuoteRows(n, signal)), LEGACY_READ_LIMIT) == QuoteNets(n)
  {
    var rows, nets := QuoteRows(n, signal), QuoteNets(n);
    QuoteNetsRead(n, signal);
    forall i | 0 <= i < n ensures OneLineRow(rows[i]) { QuoteRowReads(28 + i, signal); }
    ListingReads(rows);
    forall i, j | 0 <= i < j < n ensures nets[i].ssid != nets[j].ssid && nets[i].signal >= nets[j].signal {
      QuotesDiffer(28 + i, 28 + j);
    }
    ReducedListingIsFixed(Listing(rows), LEGACY_READ_LIMIT);
  }

  /** A listing with five lawful SSIDs, of at most 32 bytes each, whose legacy read overruns the limit. */
  lemma FiveNetworksMayNotFit() returns (out: string)
    ensures |ScanNets(out, LEGACY_READ_LIMIT)| == 5
    ensures forall i :: 0 <= i < 5 ==> Bytes(ScanNets(out, LEGACY_READ_LIMIT)[i].ssid) <= 32
    ensures Bytes(EncodeNetworks(ScanNets(out, LEGACY_READ_LIMIT))) > ATTRIBUTE_LIMIT
  {
    var signal := SignedDecimal(100);
    ParseSignedDecimal(100);
    SignedDecimalOneLine(100);
    out := Listing(QuoteRows(5, signal));
    QuoteListing(5, signal);
    forall i | 0 <= i < 5 ensures Bytes(QuoteNets(5)[i].ssid) <= 32 { QuotePayload(28 + i); }
    QuotePayloads(5);
    EncodedSize(QuoteNets(5));
  }
}
