/** Percent-encoding of URL paths, as far as the cover URLs need it: the
    encoding a public object URL applies to the object's path (`encodeURI`)
    and the decoding that gives the path back (`decodeURIComponent`).
    Characters outside ASCII are not encoded here (see the README). */
module PercentEncoding {
  import opened Types

  /** The ASCII characters `encodeURI` writes as they are. */
  predicate Unescaped(c: char) {
    ('a' <= c <= 'z') || ('A' <= c <= 'Z') || ('0' <= c <= '9') || c in ";,/?:@&=+$-_.!~*'()#"
  }

  /** An ASCII character that `encodeURI` writes as `%` and two hex digits. */
  predicate Escaped(c: char) {
    c as int < 128 && !Unescaped(c)
  }

  function HexDigit(n: nat): (c: char)
    requires n < 16
    ensures ('0' <= c <= '9') || ('A' <= c <= 'F')
  {
    if n < 10 then ('0' as int + n) as char else ('A' as int + n - 10) as char
  }

  /** The value of a hex digit of either case. */
  function HexValue(c: char): (r: Option<nat>)
    ensures r.Some? <==> ('0' <= c <= '9') || ('A' <= c <= 'F') || ('a' <= c <= 'f')
    ensures r.Some? ==> r.value < 16
  {
    if '0' <= c <= '9' then Some(c as int - '0' as int)
    else if 'A' <= c <= 'F' then Some(c as int - 'A' as int + 10)
    else if 'a' <= c <= 'f' then Some(c as int - 'a' as int + 10)
    else None
  }

  lemma HexRoundTrip(n: nat)
    requires n < 16
    ensures HexValue(HexDigit(n)) == Some(n)
  {
  }

  /** One character as `encodeURI` writes it. */
  function EscapeChar(c: char): (e: string)
    ensures Escaped(c) ==> |e| == 3 && e[0] == '%'
    ensures !Escaped(c) ==> e == [c]
  {
    if Escaped(c) then ['%', HexDigit(c as int / 16), HexDigit(c as int % 16)] else [c]
  }

  function Encode(s: string): (r: string)
    ensures |r| >= |s|
    ensures (exists i :: 0 <= i < |s| && Escaped(s[i])) ==> |r| > |s|
    ensures (forall i :: 0 <= i < |s| ==> !Escaped(s[i])) ==> r == s
  {
    if s == [] then []
    else
      var rest := Encode(s[1..]);
      if Escaped(s[0]) then EscapeChar(s[0]) + rest
      else
        assert forall i :: 1 <= i < |s| ==> s[i] == s[1..][i - 1];
        [s[0]] + rest
  }

  /** `decodeURIComponent` on ASCII escapes: `%` and two hex digits of a value
      below 128 become that character; any other text is kept. */
  function Decode(s: string): (r: string)
    ensures s != [] ==> r != []
    decreases |s|
  {
    if s == [] then []
    else if |s| >= 3 && s[0] == '%' && HexValue(s[1]).Some? && HexValue(s[2]).Some?
            && HexValue(s[1]).value * 16 + HexValue(s[2]).value < 128 then
      [(HexValue(s[1]).value * 16 + HexValue(s[2]).value) as char] + Decode(s[3..])
    else
      [s[0]] + Decode(s[1..])
  }

  /** The encoding of a non-empty string is its first character's escape
      followed by the encoding of the rest. */
  lemma EncodeCons(s: string)
    requires s != []
    ensures Encode(s) == EscapeChar(s[0]) + Encode(s[1..])
  {
  }

  /** Decoding reads an escape back as the character it stands for. */
  lemma DecodeEscapeChar(c: char, rest: string)
    ensures Decode(EscapeChar(c) + rest) == [c] + Decode(rest)
  {
    var e := EscapeChar(c);
    if Escaped(c) {
      HexRoundTrip(c as int / 16);
      HexRoundTrip(c as int % 16);
      assert (e + rest)[3..] == rest;
    } else {
      assert c != '%';
      assert (e + rest)[1..] == rest;
    }
  }

  /** Decoding undoes the encoding. */
  lemma {:induction false} DecodeEncode(s: string)
    ensures Decode(Encode(s)) == s
  {
    if s != [] {
      EncodeCons(s);
      DecodeEscapeChar(s[0], Encode(s[1..]));
      DecodeEncode(s[1..]);
      assert s == [s[0]] + s[1..];
    }
  }

  /** A space in a file name becomes `%20`. */
  lemma SpaceIsEscaped(s: string)
    requires s == "a b"
    ensures Encode(s) == "a%20b"
  {
    assert s[1..] == " b" && s[2..] == "b";
    assert Encode("b") == "b";
    assert EscapeChar(' ') == "%20";
  }
}
