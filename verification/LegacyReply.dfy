/** The legacy read from end to end: what `_on_read_scan` returns, and what the page's `scanWifi` makes of it.
    The reader is JSON.parse (section 7 of RFC 8259 for strings) on the two shapes the read can have. */
module LegacyReply {
  import opened Text
  import opened WifiScan
  import opened LegacyRead
  import ScanService

  // ---------- the service's side ----------

  function ErrorReply(msg: string): string { "{\"error\":\"" + EscapeText(msg) + "\"}" }

  /** `_on_read_scan`, on the outcome of the scan's listing. */
  method OnReadScan(listing: ScanService.ScanListing) returns (text: string)
    ensures ReadReply(text) == Some(match listing
                                    case Listed(out) => Networks(ScanNets(out, 5))
                                    case Failed(msg) => Failure(msg))
  {
    match listing
    case Listed(out) =>
      var nets := Scan(out, LEGACY_READ_LIMIT);
      text := EncodeNetworks(nets);
      ListReads(nets);
    case Failed(msg) =>
      text := ErrorReply(msg);
      ErrorReads(msg);
  }

  // ---------- the page's side ----------

  datatype Reply = Networks(nets: seq<Network>) | Failure(msg: string)

  /** `scanWifi`: the list, or the error thrown; an empty read or an error without a text is an empty list. */
  method ScanWifi(text: string) returns (thrown: Option<string>, nets: seq<Network>)
    ensures text == "" ==> thrown == None && nets == []
    ensures text != "" && ReadReply(text).Some? ==>
      match ReadReply(text).value
      case Networks(list) => thrown == None && nets == list
      case Failure(msg) => nets == [] && thrown == if msg == "" then None else Some(msg)
  {
    thrown, nets := None, [];
    if text != "" {
      match ReadReply(text)
      case Some(Networks(list)) => nets := list;
      case Some(Failure(msg)) => if msg != "" { thrown := Some(msg); }
      case None =>
    }
  }

  // ---------- reading JSON ----------

  /** The rest of s after a fixed text. */
  function After(s: string, text: string): (r: Option<string>)
    ensures r.Some? ==> |r.value| == |s| - |text|
  {
    if text <= s then Some(s[|text|..]) else None
  }

  function HexValue(c: char): int {
    if '0' <= c <= '9' then c as int - '0' as int
    else if 'a' <= c <= 'f' then c as int - 'a' as int + 10
    else -1
  }

  /** What an escape stands for, and how long it is; None if it is none. Only the escapes below U+0100 are
      written by the service. */
  function Unescaped(s: string): (r: Option<(char, nat)>)
    ensures r.Some? ==> 2 <= r.value.1 <= |s|
  {
    if |s| < 2 || s[0] != '\\' then None
    else if s[1] == '"' || s[1] == '\\' || s[1] == '/' then Some((s[1], 2))
    else if s[1] == 'n' then Some(('\n', 2))
    else if s[1] == 'r' then Some(('\r', 2))
    else if s[1] == 't' then Some(('\t', 2))
    else if s[1] == 'b' then Some((8 as char, 2))
    else if s[1] == 'f' then Some((12 as char, 2))
    else if s[1] == 'u' && |s| >= 6 && s[2] == '0' && s[3] == '0' && HexValue(s[4]) >= 0 && HexValue(s[5]) >= 0
    then Some(((16 * HexValue(s[4]) + HexValue(s[5])) as char, 6))
    else None
  }

  /** A string, up to and without its closing quote, and what follows that. */
  function ReadText(s: string): (r: Option<(string, string)>)
    ensures r.Some? ==> |r.value.1| < |s|
  {
    if s == "" || s[0] as int < 0x20 then None
    else if s[0] == '"' then Some(("", s[1..]))
    else
      var (c, k) := if s[0] == '\\' then
                      match Unescaped(s) case Some(p) => p case None => ('\0', 0)
                    else (s[0], 1);
      if k == 0 then None
      else match ReadText(s[k..]) case Some(p) => Some(([c] + p.0, p.1)) case None => None
  }

  /** The length of the number s starts with. */
  function NumberLength(s: string): (k: nat)
    ensures k <= |s|
  {
    if s != "" && (IsDigit(s[0]) || s[0] == '-') then 1 + NumberLength(s[1..]) else 0
  }

  function ReadBool(s: string): (r: Option<(bool, string)>)
    ensures r.Some? ==> |r.value.1| < |s|
  {
    if After(s, "true").Some? then Some((true, After(s, "true").value))
    else if After(s, "false").Some? then Some((false, After(s, "false").value))
    else None
  }

  /** The four members of a network, in the order the service writes them. */
  function ReadNetwork(s: string): (r: Option<(Network, string)>)
    ensures r.Some? ==> |r.value.1| + 1 < |s|
  {
    match After(s, "{\"ssid\":\"") case None => None case Some(s1) =>
    match ReadText(s1) case None => None case Some(ssid) =>
    match After(ssid.1, ",\"signal\":") case None => None case Some(s2) =>
    var k := NumberLength(s2);
    match ParseInt(s2[..k]) case None => None case Some(signal) =>
    match After(s2[k..], ",\"security\":\"") case None => None case Some(s3) =>
    match ReadText(s3) case None => None case Some(security) =>
    match After(security.1, ",\"in_use\":") case None => None case Some(s4) =>
    match ReadBool(s4) case None => None case Some(inUse) =>
    match After(inUse.1, "}") case None => None case Some(s5) =>
    Some((Network(ssid.0, signal, security.0, inUse.0), s5))
  }

  /** The rest of a list after an element. */
  function ReadMore(s: string): Option<seq<Network>>
    decreases |s|
  {
    if s == "]" then Some([])
    else
      match After(s, ",") case None => None case Some(s1) =>
      match ReadNetwork(s1) case None => None case Some(p) =>
      match ReadMore(p.1) case None => None case Some(nets) => Some([p.0] + nets)
  }

  function ReadReply(s: string): Option<Reply> {
    if s == "[]" then Some(Networks([]))
    else if After(s, "[").Some? then
      match ReadNetwork(s[1..]) case None => None case Some(p) =>
      match ReadMore(p.1) case None => None case Some(nets) => Some(Networks([p.0] + nets))
    else
      match After(s, "{\"error\":\"") case None => None case Some(s1) =>
      match ReadText(s1) case None => None case Some(p) =>
      if p.1 == "}" then Some(Failure(p.0)) else None
  }

  // ---------- strings survive ----------

  lemma SkipsText(text: string, rest: string)
    ensures After(text + rest, text) == Some(rest)
  {
    assert (text + rest)[|text|..] == rest;
  }

  lemma HexDigit(d: nat)
    requires d < 16
    ensures HexValue(HEX[d]) == d
  {
  }

  /** The escape of a character stands for it, and is read as such. */
  lemma EscapeReads(c: char, tail: string)
    requires EscapeChar(c) != [c]
    ensures Unescaped(EscapeChar(c) + tail) == Some((c, |EscapeChar(c)|))
  {
    var s := EscapeChar(c) + tail;
    if |EscapeChar(c)| == 6 {
      var n := c as int;
      HexDigit(n / 16);
      HexDigit(n % 16);
      assert s[2] == '0' && s[3] == '0' && s[4] == HEX[n / 16] && s[5] == HEX[n % 16];
    }
  }

  lemma EscapeStarts(c: char)
    ensures EscapeChar(c) != "" && EscapeChar(c)[0] as int >= 0x20 && EscapeChar(c)[0] != '"'
    ensures EscapeChar(c)[0] == '\\' <==> EscapeChar(c) != [c]
  {
  }

  lemma CharReads(c: char, tail: string)
    ensures ReadText(EscapeChar(c) + tail) ==
      match ReadText(tail) case Some(p) => Some(([c] + p.0, p.1)) case None => None
  {
    var e := EscapeChar(c);
    EscapeStarts(c);
    assert (e + tail)[|e|..] == tail;
    if e != [c] { EscapeReads(c, tail); }
  }

  /** What is written between quotes is read back. */
  lemma {:induction false} TextReads(s: string, rest: string)
    ensures ReadText(EscapeText(s) + "\"" + rest) == Some((s, rest))
  {
    if s == "" {
      assert (EscapeText(s) + "\"" + rest)[1..] == rest;
    } else {
      var tail := EscapeText(s[1..]) + "\"" + rest;
      assert EscapeText(s) + "\"" + rest == EscapeChar(s[0]) + tail;
      CharReads(s[0], tail);
      TextReads(s[1..], rest);
      assert [s[0]] + s[1..] == s;
    }
  }

  // ---------- so do networks ----------

  lemma {:induction false} NumberEnds(digits: string, rest: string)
    requires forall i :: 0 <= i < |digits| ==> IsDigit(digits[i]) || digits[i] == '-'
    requires rest == "" || !(IsDigit(rest[0]) || rest[0] == '-')
    ensures NumberLength(digits + rest) == |digits|
  {
    if digits == "" {
      assert digits + rest == rest;
    } else {
      assert (digits + rest)[1..] == digits[1..] + rest;
      NumberEnds(digits[1..], rest);
    }
  }

  lemma NumberReads(n: int, rest: string)
    requires rest != "" && rest[0] == ','
    ensures var s := SignedDecimal(n) + rest;
      NumberLength(s) == |SignedDecimal(n)| && ParseInt(s[..NumberLength(s)]) == Some(n) && s[NumberLength(s)..] == rest
  {
    var d := SignedDecimal(n);
    assert forall i :: 0 <= i < |d| ==> IsDigit(d[i]) || d[i] == '-' by {
      if n < 0 { assert forall i :: 0 < i < |d| ==> d[i] == Decimal(-n)[i - 1]; }
    }
    NumberEnds(d, rest);
    assert (d + rest)[..|d|] == d && (d + rest)[|d|..] == rest;
    ParseSignedDecimal(n);
  }

  lemma BoolReads(b: bool, rest: string)
    ensures ReadBool((if b then "true" else "false") + rest) == Some((b, rest))
  {
    SkipsText(if b then "true" else "false", rest);
    if !b { assert ("false" + rest)[0] == 'f' && "true"[0] == 't'; }
  }

  function Flag(b: bool): string { if b then "true" else "false" }

  /** The encoding of a network followed by more, piece by piece from the end. */
  function Piece4(n: Network, rest: string): string { ",\"in_use\":" + (Flag(n.inUse) + ("}" + rest)) }
  function Piece3(n: Network, rest: string): string {
    ",\"security\":\"" + (EscapeText(n.security) + "\"" + Piece4(n, rest))
  }
  function Piece2(n: Network, rest: string): string { ",\"signal\":" + (SignedDecimal(n.signal) + Piece3(n, rest)) }
  function Piece1(n: Network, rest: string): string { "{\"ssid\":\"" + (EscapeText(n.ssid) + "\"" + Piece2(n, rest)) }

  lemma PiecesJoin(n: Network, rest: string)
    ensures EncodeNetwork(n) + rest == Piece1(n, rest)
  {
    Join(",\"security\":\"", EscapeText(n.security), "\"", ",\"in_use\":", Flag(n.inUse), "}", rest);
    Join6("{\"ssid\":\"", EscapeText(n.ssid), "\"", ",\"signal\":", SignedDecimal(n.signal),
          ",\"security\":\"" + EscapeText(n.security) + "\"" + ",\"in_use\":" + Flag(n.inUse) + "}", rest,
          Piece3(n, rest));
    Quotes("{\"ssid\":\"" , EscapeText(n.ssid), SignedDecimal(n.signal), EscapeText(n.security), Flag(n.inUse));
  }

  lemma Join(a: string, b: string, c: string, d: string, e: string, f: string, g: string)
    ensures a + b + c + d + e + f + g == a + (b + c + (d + (e + (f + g))))
  {
  }

  lemma Join6(a: string, b: string, c: string, d: string, e: string, f: string, g: string, fg: string)
    requires f + g == fg
    ensures a + b + c + d + e + f + g == a + (b + c + (d + (e + fg)))
  {
  }

  /** The quotes belong to the literals around them. */
  lemma Quotes(a: string, s: string, g: string, t: string, u: string)
    ensures a + s + "\",\"signal\":" + g + ",\"security\":\"" + t + "\",\"in_use\":" + u + "}"
         == a + s + "\"" + ",\"signal\":" + g + (",\"security\":\"" + t + "\"" + ",\"in_use\":" + u + "}")
  {
    assert "\",\"signal\":" == "\"" + ",\"signal\":";
    assert "\",\"in_use\":" == "\"" + ",\"in_use\":";
  }

  lemma NetworkReads(n: Network, rest: string)
    ensures ReadNetwork(EncodeNetwork(n) + rest) == Some((n, rest))
  {
    PiecesJoin(n, rest);
    SkipsText("{\"ssid\":\"", EscapeText(n.ssid) + "\"" + Piece2(n, rest));
    TextReads(n.ssid, Piece2(n, rest));
    SkipsText(",\"signal\":", SignedDecimal(n.signal) + Piece3(n, rest));
    NumberReads(n.signal, Piece3(n, rest));
    SkipsText(",\"security\":\"", EscapeText(n.security) + "\"" + Piece4(n, rest));
    TextReads(n.security, Piece4(n, rest));
    SkipsText(",\"in_use\":", Flag(n.inUse) + ("}" + rest));
    BoolReads(n.inUse, "}" + rest);
    SkipsText("}", rest);
  }

  // ---------- and lists ----------

  /** The parts after the first, each with its comma, and the closing bracket. */
  function More(parts: seq<string>): string {
    if parts == [] then "]" else "," + (parts[0] + More(parts[1..]))
  }

  lemma {:induction false} JoinedIsMore(parts: seq<string>, k: nat)
    requires 0 < k <= |parts|
    ensures Joined(parts[..k]) + More(parts[k..]) == Joined(parts) + "]"
    decreases |parts| - k
  {
    if k == |parts| {
      assert parts[..k] == parts;
    } else {
      JoinedIsMore(parts, k + 1);
      assert parts[..k + 1][..k] == parts[..k] && parts[k..][1..] == parts[k + 1..];
      CommaMoves(Joined(parts[..k]), parts[k], More(parts[k + 1..]));
    }
  }

  lemma CommaMoves(a: string, b: string, c: string)
    ensures a + "," + b + c == a + ("," + (b + c))
  {
  }

  lemma FirstPart(parts: seq<string>)
    requires parts != []
    ensures "[" + Joined(parts) + "]" == "[" + (parts[0] + More(parts[1..]))
  {
    JoinedIsMore(parts, 1);
    assert parts[..1][..0] == [] && Joined([]) == "";
    assert "" + "" + parts[0] == parts[0];
    assert "[" + Joined(parts) + "]" == "[" + (Joined(parts) + "]");
  }

  lemma OneMore(s1: string, n: Network, tail: string, nets: seq<Network>)
    requires ReadNetwork(s1) == Some((n, tail)) && ReadMore(tail) == Some(nets)
    ensures ReadMore("," + s1) == Some([n] + nets)
  {
    SkipsText(",", s1);
    assert ("," + s1)[0] == ',';
  }

  lemma {:induction false} MoreReads(nets: seq<Network>)
    ensures ReadMore(More(Encodings(nets))) == Some(nets)
  {
    if nets != [] {
      MoreReads(nets[1..]);
      NextReads(nets[0], nets[1..]);
      assert Encodings(nets)[1..] == Encodings(nets[1..]);
      assert [nets[0]] + nets[1..] == nets;
    }
  }

  lemma NextReads(n: Network, nets: seq<Network>)
    requires ReadMore(More(Encodings(nets))) == Some(nets)
    ensures ReadMore("," + (EncodeNetwork(n) + More(Encodings(nets)))) == Some([n] + nets)
  {
    var rest := More(Encodings(nets));
    NetworkReads(n, rest);
    OneMore(EncodeNetwork(n) + rest, n, rest, nets);
  }

  lemma ListStarts(s1: string, n: Network, tail: string, nets: seq<Network>)
    requires ReadNetwork(s1) == Some((n, tail)) && ReadMore(tail) == Some(nets)
    ensures ReadReply("[" + s1) == Some(Networks([n] + nets))
  {
    SkipsText("[", s1);
    assert ("[" + s1)[1..] == s1;
    assert |"[" + s1| > 2;
  }

  lemma ListReads(nets: seq<Network>)
    ensures ReadReply(EncodeNetworks(nets)) == Some(Networks(nets))
  {
    if nets == [] {
      assert EncodeNetworks(nets) == "[]";
    } else {
      SomeRead(nets[0], nets[1..]);
      FirstEncoding(nets);
      assert [nets[0]] + nets[1..] == nets;
    }
  }

  lemma SomeRead(n: Network, nets: seq<Network>)
    ensures ReadReply("[" + (EncodeNetwork(n) + More(Encodings(nets)))) == Some(Networks([n] + nets))
  {
    var rest := More(Encodings(nets));
    MoreReads(nets);
    NetworkReads(n, rest);
    ListStarts(EncodeNetwork(n) + rest, n, rest, nets);
  }

  lemma FirstEncoding(nets: seq<Network>)
    requires nets != []
    ensures EncodeNetworks(nets) == "[" + (EncodeNetwork(nets[0]) + More(Encodings(nets[1..])))
  {
    FirstPart(Encodings(nets));
    assert Encodings(nets)[1..] == Encodings(nets[1..]);
  }

  lemma ErrorReads(msg: string)
    ensures ReadReply(ErrorReply(msg)) == Some(Failure(msg))
  {
    var rest := EscapeText(msg) + "\"" + "}";
    assert "\"}" == "\"" + "}";
    assert ErrorReply(msg) == "{\"error\":\"" + rest;
    SkipsText("{\"error\":\"", rest);
    TextReads(msg, "}");
    assert ErrorReply(msg)[0] == '{';
  }
}
