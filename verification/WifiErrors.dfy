/** The message a failed `wifi.connect` carries: nmcli's text, put in the user's terms where it is known. */
module WifiErrors {
  import opened Text
  import opened WifiConnect

  /** A text nmcli is known to write, and what it means to a user. */
  datatype Known = Known(needle: string, friendly: string)

  function Friendly(): seq<Known> {
    [Known("Secrets were required, but not provided", "Wrong password."),
     Known("802-11-wireless-security.psk: property is invalid", BadPsk()),
     Known("psk has to be between", BadPsk()),
     Known("No network with SSID", NotVisible()),
     Known("not found", NotVisible()),
     Known("802-11-wireless-security.key-mgmt",
           "Stale Wi-Fi profile blocked activation. Retry \U{2014} the next attempt clears it."),
     Known("Operation timed out", "Timed out joining the network \U{2014} weak signal or wrong password."),
     Known("Connection activation failed", "Could not associate with the network.")]
  }

  function BadPsk(): string { "Password is invalid (8\U{2013}63 characters required for WPA-PSK)." }

  function NotVisible(): string { "Network not visible. If it's hidden, tick \"Hidden network\"." }

  predicate OccursAt(s: string, needle: string, i: nat) {
    i + |needle| <= |s| && s[i..i + |needle|] == needle
  }

  predicate Contains(s: string, needle: string) {
    exists i: nat :: i <= |s| && OccursAt(s, needle, i)
  }

  /** The meaning of the first known text that occurs in s. */
  function FirstKnown(s: string, known: seq<Known>): Option<string> {
    if known == [] then None
    else if Contains(s, known[0].needle) then Some(known[0].friendly)
    else FirstKnown(s, known[1..])
  }

  function WithoutPrefix(s: string, prefix: string): string {
    if prefix <= s then s[|prefix|..] else s
  }

  /** `_translate_nmcli_error`, over any table. */
  function Translated(raw: string, known: seq<Known>): string {
    var s := WithoutPrefix(Strip(raw), "Error: ");
    match FirstKnown(s, known)
    case Some(friendly) => if |s| < 200 then friendly + " (" + s + ")" else friendly
    case None => if s == "" then "Unknown error." else s
  }

  /** The text of the WifiError that `connect` raises, but for a timeout, which quotes the command. */
  function Message(why: Why): Option<string> {
    match why
    case SsidRequired => Some("ssid is required")
    case BadPassword => Some(BadPsk())
    case AddFailed(raw) => Some(Translated(raw, Friendly()))
    case UpFailed(raw) => Some(Translated(raw, Friendly()))
    case CommandTimedOut => None
  }

  /** The first entry of the table decides, and only when none occurs is the text left as it is. */
  lemma {:induction false} FirstKnownIff(s: string, known: seq<Known>, i: nat)
    requires i <= |known| && forall j :: 0 <= j < i ==> !Contains(s, known[j].needle)
    requires i < |known| ==> Contains(s, known[i].needle)
    ensures FirstKnown(s, known) == if i < |known| then Some(known[i].friendly) else None
  {
    if i > 0 {
      assert forall j :: 0 <= j < |known[1..]| ==> known[1..][j] == known[j + 1];
      FirstKnownIff(s, known[1..], i - 1);
    }
  }

  /** Translating hides nothing short: a message of fewer than 200 characters is still in the text shown. */
  lemma ShortTextIsShown(raw: string, known: seq<Known>)
    ensures var s := WithoutPrefix(Strip(raw), "Error: ");
      s != "" && |s| < 200 ==> Contains(Translated(raw, known), s)
  {
    var s := WithoutPrefix(Strip(raw), "Error: ");
    match FirstKnown(s, known)
    case Some(friendly) => InTheMiddle(friendly + " (", s, ")");
    case None => InTheMiddle("", s, "");
  }

  /** A known text is shown by what it means, followed by the text itself in brackets if that is short. */
  lemma KnownTextIsExplained(raw: string, known: seq<Known>, i: nat)
    requires i < |known| && Contains(WithoutPrefix(Strip(raw), "Error: "), known[i].needle)
    requires forall j :: 0 <= j < i ==> !Contains(WithoutPrefix(Strip(raw), "Error: "), known[j].needle)
    ensures var s, shown := WithoutPrefix(Strip(raw), "Error: "), Translated(raw, known);
      && known[i].friendly <= shown
      && |shown| == |known[i].friendly| + (if |s| < 200 then |s| + 3 else 0)
  {
    FirstKnownIff(WithoutPrefix(Strip(raw), "Error: "), known, i);
  }

  /** An unknown text is shown as it is, without the prefix nmcli puts before it. */
  lemma UnknownTextIsKept(text: string, known: seq<Known>)
    requires text != "" && Trimmed(text) && forall j :: 0 <= j < |known| ==> !Contains(text, known[j].needle)
    ensures Translated("Error: " + text, known) == text
    ensures !("Error: " <= text) ==> Translated(text, known) == text
  {
    var raw := "Error: " + text;
    assert raw[0] == 'E' && raw[|raw| - 1] == text[|text| - 1] && raw[|"Error: "|..] == text;
    StripFixes(raw);
    StripFixes(text);
    FirstKnownIff(text, known, |known|);
  }

  /** No text at all, with or without the prefix, is an unknown error. */
  lemma EmptyTextIsUnknown(raw: string, known: seq<Known>)
    requires WithoutPrefix(Strip(raw), "Error: ") == ""
    requires forall j :: 0 <= j < |known| ==> known[j].needle != ""
    ensures Translated(raw, known) == "Unknown error."
  {
    FirstKnownIff("", known, |known|);
  }

  lemma InTheMiddle(a: string, s: string, b: string)
    ensures Contains(a + s + b, s)
    ensures a == b == "" ==> a + s + b == s
  {
    assert OccursAt(a + s + b, s, |a|);
  }
}
