/** The two strings that clients sign, and why neither can be read in two ways. */
module Canonical {
  import Decimal
  import Hex

  /** Per-message signature: group, hex text, hex nonce and key version. */
  function MessageString(group: string, text: string, nonce: string, keyVersion: int): string {
    group + ":" + text + ":" + nonce + ":" + Decimal.Format(keyVersion)
  }

  /** Requests without a body: timestamp, sender and group. */
  function RequestString(timestamp: int, sender: string, group: string): string {
    Decimal.Format(timestamp) + ":" + sender + ":" + group
  }

  /** A colon-free tail is determined by the whole string. */
  lemma LastColonSplits(a: string, b: string, a': string, b': string)
    requires a + ":" + b == a' + ":" + b'
    requires ':' !in b && ':' !in b'
    ensures a == a' && b == b'
  {
    var s := a + ":" + b;
    assert forall i :: |a| < i < |s| ==> s[i] == b[i - |a| - 1];
    assert forall i :: |a'| < i < |s| ==> s[i] == b'[i - |a'| - 1];
    assert s[|a|] == ':' && s[|a'|] == ':';
    assert a == s[..|a|] && a' == s[..|a'|];
    assert b == s[|a| + 1..] && b' == s[|a'| + 1..];
  }

  /** A colon-free head is determined by the whole string. */
  lemma FirstColonSplits(a: string, b: string, a': string, b': string)
    requires a + ":" + b == a' + ":" + b'
    requires ':' !in a && ':' !in a'
    ensures a == a' && b == b'
  {
    var s := a + ":" + b;
    assert s == a' + ":" + b';
    assert s[|a|] == ':' && s[|a'|] == ':';
    assert forall i :: 0 <= i < |a| ==> s[i] == a[i];
    assert forall i :: 0 <= i < |a'| ==> s[i] == a'[i];
    assert a == s[..|a|] && a' == s[..|a'|];
    assert b == s[|a| + 1..] && b' == s[|a'| + 1..];
  }

  lemma HexHasNoColon(s: string)
    requires Hex.Decode(s).Some?
    ensures ':' !in s
  {
    Hex.DecodesIff(s);
  }

  lemma VersionsAgree(n: int, n': int)
    requires Decimal.InI64(n) && Decimal.InI64(n')
    requires Decimal.Format(n) == Decimal.Format(n')
    ensures n == n'
  {
    Decimal.ParseFormat(n);
    Decimal.ParseFormat(n');
  }

  /** Two accepted messages with the same signed string are the same message:
      the group id is unrestricted, colons included. */
  lemma MessageStringInjective(
      group: string, text: string, nonce: string, version: int,
      group': string, text': string, nonce': string, version': int)
    requires Hex.Decode(text).Some? && Hex.Decode(nonce).Some? && Decimal.InI64(version)
    requires Hex.Decode(text').Some? && Hex.Decode(nonce').Some? && Decimal.InI64(version')
    requires MessageString(group, text, nonce, version) == MessageString(group', text', nonce', version')
    ensures group == group' && text == text' && nonce == nonce' && version == version'
  {
    HexHasNoColon(text);
    HexHasNoColon(text');
    HexHasNoColon(nonce);
    HexHasNoColon(nonce');
    Decimal.FormatHasNoColon(version);
    Decimal.FormatHasNoColon(version');
    LastColonSplits(group + ":" + text + ":" + nonce, Decimal.Format(version),
                    group' + ":" + text' + ":" + nonce', Decimal.Format(version'));
    LastColonSplits(group + ":" + text, nonce, group' + ":" + text', nonce');
    LastColonSplits(group, text, group', text');
    VersionsAgree(version, version');
  }

  /** A sender address that middleware accepts: "0x" and lower-case hex. */
  predicate IsAddress(s: string) {
    |s| >= 2 && s[..2] == "0x" && Hex.Decode(s[2..]).Some?
  }

  lemma AddressHasNoColon(s: string)
    requires IsAddress(s)
    ensures ':' !in s
  {
    HexHasNoColon(s[2..]);
    assert s == s[..2] + s[2..];
  }

  lemma RequestStringInjective(
      timestamp: int, sender: string, group: string,
      timestamp': int, sender': string, group': string)
    requires Decimal.InI64(timestamp) && Decimal.InI64(timestamp')
    requires IsAddress(sender) && IsAddress(sender')
    requires RequestString(timestamp, sender, group) == RequestString(timestamp', sender', group')
    ensures timestamp == timestamp' && sender == sender' && group == group'
  {
    Decimal.FormatHasNoColon(timestamp);
    Decimal.FormatHasNoColon(timestamp');
    AddressHasNoColon(sender);
    AddressHasNoColon(sender');
    var t, t' := Decimal.Format(timestamp), Decimal.Format(timestamp');
    assert RequestString(timestamp, sender, group) == t + ":" + (sender + ":" + group);
    assert RequestString(timestamp', sender', group') == t' + ":" + (sender' + ":" + group');
    FirstColonSplits(t, sender + ":" + group, t', sender' + ":" + group');
    FirstColonSplits(sender, group, sender', group');
    VersionsAgree(timestamp, timestamp');
  }
}
