/** UTF-8 (RFC 3629), as `str.encode` writes it. */
module Utf8 {
  import opened Text

  function CharOctets(c: char): (r: seq<nat>)
    ensures 1 <= |r| <= 4 && forall i :: 0 <= i < |r| ==> r[i] < 256
  {
    var n := c as int;
    if n < 0x80 then [n]
    else if n < 0x800 then [0xC0 + n / 64, 0x80 + n % 64]
    else if n < 0x1_0000 then [0xE0 + n / 4096, 0x80 + n / 64 % 64, 0x80 + n % 64]
    else [0xF0 + n / 262144, 0x80 + n / 4096 % 64, 0x80 + n / 64 % 64, 0x80 + n % 64]
  }

  function Octets(s: string): seq<nat> {
    if s == "" then [] else CharOctets(s[0]) + Octets(s[1..])
  }

  // ---------- decoding ----------

  function Tail(b: nat): int { if 0x80 <= b < 0xC0 then b - 0x80 else -1 }

  /** The length the first octet announces; 0 if it can start nothing. */
  function Announced(b: nat): nat {
    if b < 0x80 then 1 else if 0xC0 <= b < 0xE0 then 2 else if 0xE0 <= b < 0xF0 then 3
    else if 0xF0 <= b < 0xF8 then 4 else 0
  }

  /** The number an octet sequence of the announced length stands for, or -1. */
  function Number(o: seq<nat>): int
    requires |o| >= 1
  {
    if |o| == 1 then o[0]
    else if exists i :: 1 <= i < |o| && Tail(o[i]) < 0 then -1
    else if |o| == 2 then (o[0] - 0xC0) * 64 + Tail(o[1])
    else if |o| == 3 then (o[0] - 0xE0) * 4096 + Tail(o[1]) * 64 + Tail(o[2])
    else if |o| == 4 then (o[0] - 0xF0) * 262144 + Tail(o[1]) * 4096 + Tail(o[2]) * 64 + Tail(o[3])
    else -1
  }

  predicate IsScalar(n: int) { 0 <= n < 0xD800 || 0xE000 <= n < 0x11_0000 }

  function Decode(o: seq<nat>): Option<string> {
    if o == [] then Some("")
    else
      var k := Announced(o[0]);
      if k == 0 || k > |o| || !IsScalar(Number(o[..k])) then None
      else match Decode(o[k..]) case Some(s) => Some([Number(o[..k]) as char] + s) case None => None
  }

  lemma CharDecodes(c: char)
    ensures Announced(CharOctets(c)[0]) == |CharOctets(c)| && Number(CharOctets(c)) == c as int
  {
    var n := c as int;
    assert 0 <= n < 0x11_0000;
    if 0x800 <= n < 0x1_0000 {
      Digits64(n);
    } else if n >= 0x1_0000 {
      Digits64(n);
      Digits64(n / 64);
    }
  }

  lemma Digits64(n: nat)
    ensures n == n / 4096 * 4096 + n / 64 % 64 * 64 + n % 64
    ensures n / 64 / 64 == n / 4096 && n / 64 / 4096 == n / 262144
  {
  }

  /** Every text decodes from its own octets. */
  lemma {:induction false} RoundTrip(s: string)
    ensures Decode(Octets(s)) == Some(s)
  {
    if s != "" {
      var head, rest := CharOctets(s[0]), Octets(s[1..]);
      CharDecodes(s[0]);
      RoundTrip(s[1..]);
      assert (head + rest)[..|head|] == head && (head + rest)[|head|..] == rest;
      assert (head + rest)[0] == head[0];
      assert [s[0]] + s[1..] == s;
    }
  }
}
