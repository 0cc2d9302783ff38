/** Which texts spell a string, and that decoding accepts exactly those and encoding picks one. */
module UriSpelling {
  import opened Options
  import opened UriComponent

  /** The characters that need no escape: ASCII letters and digits, and nine marks. */
  predicate StandsForItself(c: char) {
    || 'a' <= c <= 'z' || 'A' <= c <= 'Z' || '0' <= c <= '9'
    || c in {'-', '_', '.', '!', '~', '*', '\'', '(', ')'}
  }

  /** The hexadecimal digit of this value, in either case. */
  predicate IsDigit(c: char, v: int) {
    0 <= v < 16 && (c == "0123456789ABCDEF"[v] || c == "0123456789abcdef"[v])
  }

  /** `%` and two digits. */
  predicate SpellsOctet(s: string, octet: int) {
    |s| == 3 && s[0] == '%' && IsDigit(s[1], octet / 16) && IsDigit(s[2], octet % 16)
  }

  predicate SpellsOctets(s: string, octets: seq<int>) {
    |s| == 3 * |octets| && forall i :: 0 <= i < |octets| ==> SpellsOctet(s[3 * i..3 * i + 3], octets[i])
  }

  /** A character stands for itself, unless it is a percent sign, or as the octets of its UTF-8 encoding. */
  predicate SpellsChar(s: string, c: char) {
    (s == [c] && c != '%') || SpellsOctets(s, Utf8(c))
  }

  predicate Spells(s: string, t: string)
    decreases |t|
  {
    if t == "" then s == "" else exists n :: 1 <= n <= |s| && SpellsFirst(s, n, t[0]) && Spells(s[n..], t[1..])
  }

  predicate SpellsFirst(s: string, n: int, c: char) {
    0 <= n <= |s| && SpellsChar(s[..n], c)
  }

  // Escapes.

  lemma DigitIsRead(c: char, v: int)
    ensures HexValue(c) == Some(v) <==> IsDigit(c, v)
  {
  }

  lemma OctetIsRead(s: string, octet: int)
    requires |s| >= 3
    ensures FirstEscape(s) == Some(octet) <==> SpellsOctet(s[..3], octet)
  {
    hide HexValue, IsDigit;
    var p := s[..3];
    assert p[0] == s[0] && p[1] == s[1] && p[2] == s[2];
    DigitIsRead(s[1], octet / 16);
    DigitIsRead(s[2], octet % 16);
    if FirstEscape(s) == Some(octet) {
      DigitIsRead(s[1], HexValue(s[1]).value);
      DigitIsRead(s[2], HexValue(s[2]).value);
      DigitIsSmall(s[1], HexValue(s[1]).value);
      DigitIsSmall(s[2], HexValue(s[2]).value);
    }
  }

  lemma DigitIsSmall(c: char, v: int)
    requires IsDigit(c, v)
    ensures 0 <= v < 16
  {
  }

  lemma OctetsSplit(s: string, octets: seq<int>)
    requires octets != [] && |s| >= 3
    ensures SpellsOctets(s, octets) <==> SpellsOctet(s[..3], octets[0]) && SpellsOctets(s[3..], octets[1..])
  {
    var (rest, more) := (s[3..], octets[1..]);
    if |s| == 3 * |octets| {
      assert s[3 * 0..3 * 0 + 3] == s[..3];
      forall i | 0 <= i < |more| ensures rest[3 * i..3 * i + 3] == s[3 * (i + 1)..3 * (i + 1) + 3] && more[i] == octets[i + 1] {
      }
      hide SpellsOctet;
      if SpellsOctets(s, octets) {
        assert SpellsOctet(s[3 * 0..3 * 0 + 3], octets[0]);
        forall i | 0 <= i < |more| ensures SpellsOctet(rest[3 * i..3 * i + 3], more[i]) {
          assert SpellsOctet(s[3 * (i + 1)..3 * (i + 1) + 3], octets[i + 1]);
        }
      }
      if SpellsOctet(s[..3], octets[0]) && SpellsOctets(rest, more) {
        forall i | 0 <= i < |octets| ensures SpellsOctet(s[3 * i..3 * i + 3], octets[i]) {
          if i > 0 {
            assert SpellsOctet(rest[3 * (i - 1)..3 * (i - 1) + 3], more[i - 1]);
          }
        }
      }
    }
  }

  /** Reading as many escapes as there are octets gives exactly the octets that are spelled. */
  lemma {:induction false} OctetsAreRead(s: string, octets: seq<int>)
    ensures FirstEscapes(s, |octets|) == Some(octets) <==> |s| >= 3 * |octets| && SpellsOctets(s[..3 * |octets|], octets)
    decreases |octets|
  {
    hide FirstEscape, SpellsOctet;
    if octets == [] {
      assert s[..0] == "";
    } else if |s| >= 3 {
      hide SpellsOctets;
      OctetsAreRead(s[3..], octets[1..]);
      OctetIsRead(s, octets[0]);
      EscapesStep(s, octets);
      if |s| >= 3 * |octets| {
        var front := s[..3 * |octets|];
        assert front[..3] == s[..3] && front[3..] == s[3..][..3 * |octets[1..]|];
        OctetsSplit(front, octets);
      }
    } else {
      NoEscape(s);
    }
  }

  lemma NoEscape(s: string)
    requires |s| < 3
    ensures FirstEscape(s).None?
  {
  }

  lemma EscapesStep(s: string, octets: seq<int>)
    requires octets != [] && |s| >= 3
    ensures FirstEscapes(s, |octets|) == Some(octets) <==>
      FirstEscape(s) == Some(octets[0]) && FirstEscapes(s[3..], |octets[1..]|) == Some(octets[1..])
  {
    hide FirstEscape;
    assert |octets[1..]| == |octets| - 1 && octets == [octets[0]] + octets[1..];
    if FirstEscapes(s, |octets|) == Some(octets) {
      var rest := FirstEscapes(s[3..], |octets| - 1);
      assert octets == [FirstEscape(s).value] + rest.value;
      assert octets[1..] == rest.value;
    }
  }

  // Characters.

  /** The first character is read, with this length, exactly when the text starts with one of its spellings. */
  lemma FirstIsRead(s: string, n: int, c: char)
    requires s != "" && 1 <= n <= |s|
    ensures FirstChar(s) == Some((c, n)) <==> SpellsFirst(s, n, c)
  {
    hide Utf8, FirstEscape, FirstEscapes, FromUtf8, Announced, SpellsOctets;
    var (p, octets) := (s[..n], Utf8(c));
    FirstAnnouncesAll(c);
    if s[0] == '%' {
      if FirstChar(s) == Some((c, n)) {
        var o := FirstEscapes(s, Announced(FirstEscape(s).value)).value;
        Utf8IsExact(o, c);
        OctetsAreRead(s, o);
      }
      if SpellsOctets(p, octets) {
        LengthOfSpelling(p, octets);
        OctetsAreRead(s, octets);
        FirstOfEscapes(s, |octets|);
        Utf8IsRead(c);
      }
    } else if SpellsOctets(p, octets) {
      SpellingStarts(p, octets);
    }
  }

  lemma LengthOfSpelling(s: string, octets: seq<int>)
    requires SpellsOctets(s, octets)
    ensures |s| == 3 * |octets|
  {
  }

  lemma SpellingStarts(s: string, octets: seq<int>)
    requires SpellsOctets(s, octets) && octets != []
    ensures s[0] == '%'
  {
    assert SpellsOctet(s[3 * 0..3 * 0 + 3], octets[0]);
  }

  lemma FirstOfEscapes(s: string, n: nat)
    requires n > 0 && FirstEscapes(s, n).Some?
    ensures FirstEscape(s) == Some(FirstEscapes(s, n).value[0])
  {
    hide FirstEscape;
  }

  /** Decoding gives exactly the string that the text spells; a text that spells no string is an error. */
  lemma {:induction false} DecodeIsExact(s: string, t: string)
    ensures Decode(s) == Some(t) <==> Spells(s, t)
    decreases |s|
  {
    hide FirstChar, SpellsFirst;
    if s != "" {
      var read := FirstChar(s);
      if read.Some? {
        var (c, n) := read.value;
        FirstIsRead(s, n, c);
        if t != "" && c == t[0] {
          DecodeIsExact(s[n..], t[1..]);
          assert t == [c] + t[1..];
        }
        if Decode(s) == Some(t) {
          DecodeIsExact(s[n..], Decode(s[n..]).value);
          assert t[1..] == Decode(s[n..]).value;
        }
      }
      if t != "" && Spells(s, t) {
        var n :| 1 <= n <= |s| && SpellsFirst(s, n, t[0]) && Spells(s[n..], t[1..]);
        FirstIsRead(s, n, t[0]);
        DecodeIsExact(s[n..], t[1..]);
      }
    }
  }

  /** A text is malformed exactly when it spells no string. */
  lemma NothingIsSpelled(s: string)
    ensures Decode(s).None? <==> forall t: string :: !Spells(s, t)
  {
    hide Decode, Spells;
    if Decode(s).Some? {
      DecodeIsExact(s, Decode(s).value);
    }
    forall t: string | Spells(s, t) ensures Decode(s).Some? {
      DecodeIsExact(s, t);
    }
  }

  // Encoding.

  /** Unreserved characters stand for themselves, every other one as upper-case escapes of its octets. */
  lemma EncodeCharIsExact(c: char)
    ensures StandsForItself(c) ==> EncodeChar(c) == [c]
    ensures !StandsForItself(c) ==> SpellsOctets(EncodeChar(c), Utf8(c)) && forall d <- EncodeChar(c) :: d in "%0123456789ABCDEF"
  {
    hide Utf8, Escapes, SpellsOctets;
    if !StandsForItself(c) {
      EscapesAreRead(Utf8(c), "");
      assert Escapes(Utf8(c)) + "" == Escapes(Utf8(c));
      OctetsAreRead(Escapes(Utf8(c)), Utf8(c));
      assert Escapes(Utf8(c))[..3 * |Utf8(c)|] == Escapes(Utf8(c));
      EscapesAreUpperCase(Utf8(c));
    }
  }

  lemma {:induction false} EscapesAreUpperCase(octets: seq<int>)
    requires AreOctets(octets)
    ensures forall d <- Escapes(octets) :: d in "%0123456789ABCDEF"
  {
    if octets != [] {
      EscapesAreUpperCase(octets[1..]);
    }
  }

  lemma {:induction false} EncodeJoins(a: string, b: string)
    ensures Encode(a + b) == Encode(a) + Encode(b)
  {
    hide EncodeChar;
    if a == "" {
      assert a + b == b;
    } else {
      EncodeJoins(a[1..], b);
      assert (a + b)[1..] == a[1..] + b;
      Regroup(EncodeChar(a[0]), Encode(a[1..]), Encode(b));
    }
  }

  /** What the encoder writes spells its string: characters that need no escape, the others in upper-case escapes. */
  lemma EncodeIsExact(front: string, c: char, back: string)
    ensures Spells(Encode(front + [c] + back), front + [c] + back)
    ensures Encode(front + [c] + back) == Encode(front) + Encode([c]) + Encode(back)
    ensures StandsForItself(c) ==> Encode([c]) == [c]
    ensures !StandsForItself(c) ==> SpellsOctets(Encode([c]), Utf8(c)) && forall d <- Encode([c]) :: d in "%0123456789ABCDEF"
  {
    hide Utf8, EncodeChar, Spells, SpellsOctets;
    DecodeUndoesEncode(front + [c] + back);
    DecodeIsExact(Encode(front + [c] + back), front + [c] + back);
    EncodeJoins(front + [c], back);
    EncodeJoins(front, [c]);
    assert [c][1..] == "" && Encode([c]) == EncodeChar(c);
    EncodeCharIsExact(c);
  }
}
