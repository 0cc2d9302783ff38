/** `encodeURIComponent` and `decodeURIComponent` (section 19.2.6 of ECMA-262) on strings without lone surrogates. */
module UriComponent {
  import opened Options

  // UTF-8.

  predicate IsScalar(n: int) {
    0 <= n < 0xD800 || 0xE000 <= n < 0x110000
  }

  predicate AreOctets(s: seq<int>) {
    forall i :: 0 <= i < |s| ==> 0 <= s[i] < 256
  }

  function Utf8(c: char): (octets: seq<int>)
    ensures 1 <= |octets| <= 4 && AreOctets(octets)
  {
    var n := c as int;
    if n < 0x80 then [n]
    else if n < 0x800 then [0xC0 + n / 64, 0x80 + n % 64]
    else if n < 0x10000 then [0xE0 + n / 4096, 0x80 + n / 64 % 64, 0x80 + n % 64]
    else [0xF0 + n / 262144, 0x80 + n / 4096 % 64, 0x80 + n / 64 % 64, 0x80 + n % 64]
  }

  /** How many octets the first one announces: its leading one bits. */
  function Announced(first: int): nat {
    if first < 0x80 then 1 else if 0xC0 <= first < 0xE0 then 2 else if 0xE0 <= first < 0xF0 then 3
    else if 0xF0 <= first < 0xF8 then 4 else 0
  }

  predicate Continues(octet: int) {
    0x80 <= octet < 0xC0
  }

  function Scalar(n: int, least: int): Option<char> {
    if least <= n && IsScalar(n) then Some(n as char) else None
  }

  /** The character that these octets encode: no stray continuation, no overlong form, no surrogate. */
  function FromUtf8(o: seq<int>): Option<char>
    requires AreOctets(o)
  {
    if o == [] || |o| != Announced(o[0]) || exists i :: 1 <= i < |o| && !Continues(o[i]) then None
    else if |o| == 1 then Scalar(o[0], 0)
    else if |o| == 2 then Scalar((o[0] - 0xC0) * 64 + o[1] - 0x80, 0x80)
    else if |o| == 3 then Scalar((o[0] - 0xE0) * 4096 + (o[1] - 0x80) * 64 + o[2] - 0x80, 0x800)
    else Scalar((o[0] - 0xF0) * 262144 + (o[1] - 0x80) * 4096 + (o[2] - 0x80) * 64 + o[3] - 0x80, 0x10000)
  }

  lemma Utf8IsRead(c: char)
    ensures FromUtf8(Utf8(c)) == Some(c)
  {
    var (n, o) := (c as int, Utf8(c));
    assert n == n / 64 * 64 + n % 64;
    assert n / 64 == n / 64 / 64 * 64 + n / 64 % 64 && n / 64 / 64 == n / 4096;
    assert n / 4096 == n / 4096 / 64 * 64 + n / 4096 % 64 && n / 4096 / 64 == n / 262144;
    assert forall i :: 1 <= i < |o| ==> Continues(o[i]);
  }

  lemma Digits(q: int, r: int)
    requires 0 <= r < 64
    ensures (q * 64 + r) / 64 == q && (q * 64 + r) % 64 == r
  {
  }

  lemma ReadTwo(o: seq<int>)
    requires AreOctets(o) && |o| == 2 && FromUtf8(o).Some?
    ensures o == Utf8(FromUtf8(o).value)
  {
    assert Continues(o[1]);
    Digits(o[0] - 0xC0, o[1] - 0x80);
  }

  lemma ReadThree(o: seq<int>)
    requires AreOctets(o) && |o| == 3 && FromUtf8(o).Some?
    ensures o == Utf8(FromUtf8(o).value)
  {
    assert Continues(o[1]) && Continues(o[2]);
    var (n, high) := (FromUtf8(o).value as int, (o[0] - 0xE0) * 64 + o[1] - 0x80);
    Digits(high, o[2] - 0x80);
    Digits(o[0] - 0xE0, o[1] - 0x80);
    assert n / 64 == high && n / 4096 == high / 64;
  }

  lemma ReadFour(o: seq<int>)
    requires AreOctets(o) && |o| == 4 && FromUtf8(o).Some?
    ensures o == Utf8(FromUtf8(o).value)
  {
    assert Continues(o[1]) && Continues(o[2]) && Continues(o[3]);
    var (n, top) := (FromUtf8(o).value as int, (o[0] - 0xF0) * 64 + o[1] - 0x80);
    var high := top * 64 + o[2] - 0x80;
    Digits(high, o[3] - 0x80);
    Digits(top, o[2] - 0x80);
    Digits(o[0] - 0xF0, o[1] - 0x80);
    assert n / 64 == high && n / 4096 == top && n / 262144 == top / 64;
  }

  lemma ReadIsUtf8(o: seq<int>)
    requires AreOctets(o) && FromUtf8(o).Some?
    ensures o == Utf8(FromUtf8(o).value)
  {
    hide Utf8;
    assert |o| == Announced(o[0]);
    if |o| == 1 {
      OctetIsItself(o[0]);
    } else if |o| == 2 {
      ReadTwo(o);
    } else if |o| == 3 {
      ReadThree(o);
    } else {
      ReadFour(o);
    }
  }

  lemma OctetIsItself(octet: int)
    requires 0 <= octet < 0x80
    ensures Utf8(octet as char) == [octet]
  {
  }

  /** Only the encoding itself reads as a character: decoding accepts nothing else. */
  lemma Utf8IsExact(o: seq<int>, c: char)
    requires AreOctets(o)
    ensures FromUtf8(o) == Some(c) <==> o == Utf8(c)
  {
    hide FromUtf8, Utf8;
    Utf8IsRead(c);
    if FromUtf8(o) == Some(c) {
      ReadIsUtf8(o);
    }
  }

  // Escapes.

  function HexDigit(v: int): char
    requires 0 <= v < 16
  {
    if v < 10 then ('0' as int + v) as char else ('A' as int + v - 10) as char
  }

  function HexValue(c: char): Option<int> {
    if '0' <= c <= '9' then Some(c as int - '0' as int)
    else if 'A' <= c <= 'F' then Some(c as int - 'A' as int + 10)
    else if 'a' <= c <= 'f' then Some(c as int - 'a' as int + 10)
    else None
  }

  function Escape(octet: int): string
    requires 0 <= octet < 256
  {
    ['%', HexDigit(octet / 16), HexDigit(octet % 16)]
  }

  function Escapes(octets: seq<int>): string
    requires AreOctets(octets)
  {
    if octets == [] then "" else Escape(octets[0]) + Escapes(octets[1..])
  }

  /** The octet of the escape that the text starts with. */
  function FirstEscape(s: string): (octet: Option<int>)
    ensures octet.Some? ==> |s| >= 3 && 0 <= octet.value < 256
  {
    if |s| < 3 || s[0] != '%' || HexValue(s[1]).None? || HexValue(s[2]).None? then None
    else Some(16 * HexValue(s[1]).value + HexValue(s[2]).value)
  }

  /** The octets of the first `n` escapes. */
  function FirstEscapes(s: string, n: nat): (octets: Option<seq<int>>)
    ensures octets.Some? ==> |s| >= 3 * n && |octets.value| == n && AreOctets(octets.value)
    decreases n
  {
    if n == 0 then Some([])
    else if FirstEscape(s).None? then None
    else
      var rest := FirstEscapes(s[3..], n - 1);
      if rest.None? then None else Some([FirstEscape(s).value] + rest.value)
  }

  predicate IsUnreserved(c: char) {
    'A' <= c <= 'Z' || 'a' <= c <= 'z' || '0' <= c <= '9' || c in "-_.!~*'()"
  }

  function EncodeChar(c: char): string {
    if IsUnreserved(c) then [c] else Escapes(Utf8(c))
  }

  function Encode(s: string): string {
    if s == "" then "" else EncodeChar(s[0]) + Encode(s[1..])
  }

  /** The first character of an encoded text and the length of its encoding; `None` is a `URIError`. */
  function FirstChar(s: string): (read: Option<(char, nat)>)
    requires s != ""
    ensures read.Some? ==> 1 <= read.value.1 <= |s|
  {
    if s[0] != '%' then Some((s[0], 1))
    else if FirstEscape(s).None? || Announced(FirstEscape(s).value) == 0 then None
    else
      var n := Announced(FirstEscape(s).value);
      var octets := FirstEscapes(s, n);
      if octets.None? || FromUtf8(octets.value).None? then None
      else Some((FromUtf8(octets.value).value, 3 * n))
  }

  function Decode(s: string): Option<string>
    decreases |s|
  {
    if s == "" then Some("")
    else if FirstChar(s).None? then None
    else
      var (c, n) := FirstChar(s).value;
      var rest := Decode(s[n..]);
      if rest.None? then None else Some([c] + rest.value)
  }

  lemma EscapeIsRead(octet: int, rest: string)
    requires 0 <= octet < 256
    ensures |Escape(octet)| == 3 && FirstEscape(Escape(octet) + rest) == Some(octet)
    ensures (Escape(octet) + rest)[3..] == rest
  {
  }

  lemma OneMoreEscape(s: string, first: int, octets: seq<int>)
    requires FirstEscape(s) == Some(first) && FirstEscapes(s[3..], |octets|) == Some(octets)
    ensures FirstEscapes(s, |octets| + 1) == Some([first] + octets)
  {
    hide FirstEscape;
  }

  lemma Regroup(a: string, b: string, c: string)
    ensures a + b + c == a + (b + c)
  {
  }

  lemma DropTwice(s: string, m: nat, n: nat)
    requires m + n <= |s|
    ensures s[m..][n..] == s[m + n..]
  {
  }

  /** The first escape is read, and the others are behind it. */
  lemma EscapesUnfold(octets: seq<int>, rest: string)
    requires AreOctets(octets) && octets != []
    ensures var s := Escapes(octets) + rest;
      FirstEscape(s) == Some(octets[0]) && s[3..] == Escapes(octets[1..]) + rest && |Escapes(octets)| == 3 + |Escapes(octets[1..])|
  {
    hide FirstEscape, Escape;
    EscapeIsRead(octets[0], Escapes(octets[1..]) + rest);
    Regroup(Escape(octets[0]), Escapes(octets[1..]), rest);
  }

  lemma {:induction false} EscapesAreRead(octets: seq<int>, rest: string)
    requires AreOctets(octets)
    ensures |Escapes(octets)| == 3 * |octets|
    ensures FirstEscapes(Escapes(octets) + rest, |octets|) == Some(octets)
    ensures (Escapes(octets) + rest)[3 * |octets|..] == rest
  {
    if octets == [] {
      assert Escapes(octets) + rest == rest;
    } else {
      hide FirstEscape, FirstEscapes, Escapes;
      var s := Escapes(octets) + rest;
      EscapesAreRead(octets[1..], rest);
      EscapesUnfold(octets, rest);
      OneMoreEscape(s, octets[0], octets[1..]);
      assert octets == [octets[0]] + octets[1..];
      DropTwice(s, 3, 3 * |octets[1..]|);
    }
  }

  lemma FirstCharIs(s: string, octets: seq<int>, c: char)
    requires s != "" && s[0] == '%' && octets != [] && AreOctets(octets)
    requires FirstEscape(s) == Some(octets[0]) && Announced(octets[0]) == |octets|
    requires FirstEscapes(s, |octets|) == Some(octets) && FromUtf8(octets) == Some(c)
    ensures FirstChar(s) == Some((c, 3 * |octets|))
  {
    hide FirstEscape, FirstEscapes, FromUtf8, Announced;
  }

  lemma FirstAnnouncesAll(c: char)
    ensures Announced(Utf8(c)[0]) == |Utf8(c)|
  {
  }

  lemma StartsWithPercent(s: string)
    requires FirstEscape(s).Some?
    ensures s != "" && s[0] == '%'
  {
  }

  lemma EscapedIsRead(c: char, rest: string)
    ensures var (s, n) := (Escapes(Utf8(c)) + rest, |Escapes(Utf8(c))|);
      s != "" && FirstChar(s) == Some((c, n)) && s[n..] == rest
  {
    hide Utf8, Escapes, FirstEscape, FirstEscapes, FromUtf8, FirstChar;
    EscapesAreRead(Utf8(c), rest);
    EscapesUnfold(Utf8(c), rest);
    assert FirstEscape(Escapes(Utf8(c)) + rest).Some?;
    StartsWithPercent(Escapes(Utf8(c)) + rest);
    FirstAnnouncesAll(c);
    Utf8IsRead(c);
    FirstCharIs(Escapes(Utf8(c)) + rest, Utf8(c), c);
  }

  lemma CharIsRead(c: char, rest: string)
    ensures var s := EncodeChar(c) + rest;
      s != "" && FirstChar(s) == Some((c, |EncodeChar(c)|)) && s[|EncodeChar(c)|..] == rest
  {
    hide Escapes, Utf8, FirstEscape, FirstEscapes, FromUtf8;
    EscapedIsRead(c, rest);
    assert IsUnreserved(c) ==> c != '%';
  }

  /** Decoding undoes encoding, on every string. */
  lemma {:induction false} DecodeUndoesEncode(s: string)
    ensures Decode(Encode(s)) == Some(s)
  {
    hide EncodeChar, FirstChar;
    if s != "" {
      DecodeUndoesEncode(s[1..]);
      CharIsRead(s[0], Encode(s[1..]));
      assert s == [s[0]] + s[1..];
    }
  }

  /** What encoding leaves in a text: unreserved characters and percent signs. */
  predicate IsPlain(c: char) {
    IsUnreserved(c) || c == '%'
  }

  lemma {:induction false} EscapesArePlain(octets: seq<int>)
    requires AreOctets(octets)
    ensures forall c <- Escapes(octets) :: IsPlain(c)
  {
    if octets != [] {
      EscapesArePlain(octets[1..]);
    }
  }

  lemma {:induction false} EncodedIsPlain(s: string)
    ensures forall c <- Encode(s) :: IsPlain(c)
  {
    if s != "" {
      EscapesArePlain(Utf8(s[0]));
      EncodedIsPlain(s[1..]);
    }
  }
}
