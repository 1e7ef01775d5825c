/**
 Opaque cursors: a version tag and a lower-case hexadecimal number.  The event
 stream uses the tag "evt1_", the process output pager "out1_".
 */
module Cursors {
  import opened Common

  const MAX_DIGITS: nat := 16

  function HexChar(d: nat): (c: char)
    requires d < 16
  {
    "0123456789abcdef"[d]
  }

  predicate IsHex(c: char) {
    '0' <= c <= '9' || 'a' <= c <= 'f'
  }

  function HexValue(c: char): (d: nat)
    requires IsHex(c)
    ensures d < 16
  {
    if '0' <= c <= '9' then c as int - '0' as int else c as int - 'a' as int + 10
  }

  /** The format specifier x. */
  function Hex(n: nat): (s: string)
    ensures s != [] && forall i :: 0 <= i < |s| ==> IsHex(s[i])
  {
    if n < 16 then [HexChar(n)] else Hex(n / 16) + [HexChar(n % 16)]
  }

  /** int(text, 16). */
  function ParseHex(s: string): nat
    requires forall i :: 0 <= i < |s| ==> IsHex(s[i])
  {
    if s == [] then 0 else 16 * ParseHex(s[..|s| - 1]) + HexValue(s[|s| - 1])
  }

  function Encode(tag: string, id: nat): string {
    tag + Hex(id)
  }

  /** The pattern tag([0-9a-f]{1,16}), matched against the whole text. */
  predicate WellFormed(tag: string, cursor: string) {
    && |tag| < |cursor| <= |tag| + MAX_DIGITS
    && cursor[..|tag|] == tag
    && forall i :: |tag| <= i < |cursor| ==> IsHex(cursor[i])
  }

  function Decode(tag: string, cursor: string): Option<nat> {
    if WellFormed(tag, cursor) then Some(ParseHex(cursor[|tag|..])) else None
  }

  function Power16(k: nat): (r: nat)
    ensures r >= 1
  {
    if k == 0 then 1 else 16 * Power16(k - 1)
  }

  lemma HexChars(c: char)
    ensures IsHex(c) <==> c in "0123456789abcdef"
  {
    var all := "0123456789abcdef";
    if '0' <= c <= '9' {
      assert all[c as int - '0' as int] == c;
    } else if 'a' <= c <= 'f' {
      assert all[10 + (c as int - 'a' as int)] == c;
    }
  }

  lemma HexDigits(d: nat)
    requires d < 16
    ensures IsHex(HexChar(d)) && HexValue(HexChar(d)) == d
  {
  }

  lemma {:induction false} ParseOfHex(n: nat)
    ensures ParseHex(Hex(n)) == n
  {
    var s := Hex(n);
    HexDigits(n % 16);
    if n >= 16 {
      ParseOfHex(n / 16);
      assert s[..|s| - 1] == Hex(n / 16) && s[|s| - 1] == HexChar(n % 16);
    } else {
      assert s[..|s| - 1] == [] && s[0] == HexChar(n);
    }
  }

  /** A number has at most k digits exactly when it is below 16 to the k. */
  lemma {:induction false} HexWidth(n: nat, k: nat)
    requires k > 0
    ensures |Hex(n)| <= k <==> n < Power16(k)
  {
    assert Power16(k) == 16 * Power16(k - 1);
    assert k == 1 ==> Power16(k - 1) == 1;
    if n >= 16 && k > 1 {
      HexWidth(n / 16, k - 1);
    }
  }

  /**
   Decoding undoes encoding exactly for the ids below 16 to the 16; a larger id
   encodes to a text that decoding rejects.
   */
  lemma RoundTrip(tag: string, id: nat)
    ensures Decode(tag, Encode(tag, id)) == Some(id) <==> id < Power16(MAX_DIGITS)
    ensures Decode(tag, Encode(tag, id)).None? <==> id >= Power16(MAX_DIGITS)
  {
    var cursor := Encode(tag, id);
    assert cursor[|tag|..] == Hex(id);
    assert forall i :: |tag| <= i < |cursor| ==> cursor[i] == Hex(id)[i - |tag|];
    ParseOfHex(id);
    HexWidth(id, MAX_DIGITS);
  }

  /** No superfluous leading zero. */
  predicate Canonical(digits: string) {
    |digits| == 1 || (|digits| > 1 && digits[0] != '0')
  }

  lemma {:induction false} HexCanonical(n: nat)
    ensures Canonical(Hex(n)) && (n > 0 ==> Hex(n)[0] != '0')
  {
    if n >= 16 { HexCanonical(n / 16); }
  }

  lemma {:induction false} HexOfParse(s: string)
    requires s != [] && forall i :: 0 <= i < |s| ==> IsHex(s[i])
    requires Canonical(s)
    ensures Hex(ParseHex(s)) == s
    ensures s[0] != '0' ==> ParseHex(s) > 0
  {
    var front, last := s[..|s| - 1], s[|s| - 1];
    assert HexChar(HexValue(last)) == last;
    if front != [] {
      HexOfParse(front);
      assert ParseHex(s) >= 16;
      assert ParseHex(s) / 16 == ParseHex(front) && ParseHex(s) % 16 == HexValue(last);
    } else {
      assert ParseHex(front) == 0;
    }
    assert s == front + [last];
  }

  /** Encoding undoes decoding exactly for the cursors without superfluous zeros. */
  lemma CanonicalCursor(tag: string, cursor: string)
    requires Decode(tag, cursor).Some?
    ensures Encode(tag, Decode(tag, cursor).value) == cursor <==> Canonical(cursor[|tag|..])
  {
    var digits := cursor[|tag|..];
    assert cursor == tag + digits;
    HexCanonical(ParseHex(digits));
    assert Encode(tag, ParseHex(digits))[|tag|..] == Hex(ParseHex(digits));
    if Canonical(digits) {
      HexOfParse(digits);
    }
  }
}
