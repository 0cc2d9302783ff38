/** The parts of JavaScript's string library that the server relies on (section 22.1.3 of ECMA-262). */
module JsText {
  /** WhiteSpace and LineTerminator. */
  predicate IsSpace(c: char) {
    || '\t' <= c <= '\r' || c == ' ' || c == '\U{00A0}' || c == '\U{1680}'
    || '\U{2000}' <= c <= '\U{200A}' || c == '\U{2028}' || c == '\U{2029}' || c == '\U{202F}'
    || c == '\U{205F}' || c == '\U{3000}' || c == '\U{FEFF}'
  }

  function TrimStart(s: string): string {
    if s != "" && IsSpace(s[0]) then TrimStart(s[1..]) else s
  }

  function TrimEnd(s: string): string {
    if s != "" && IsSpace(s[|s| - 1]) then TrimEnd(s[..|s| - 1]) else s
  }

  function Trim(s: string): string {
    TrimEnd(TrimStart(s))
  }

  /** Neither end is white space. */
  predicate Trimmed(s: string) {
    s != "" ==> !IsSpace(s[0]) && !IsSpace(s[|s| - 1])
  }

  lemma {:induction false} TrimStartStarts(s: string)
    ensures TrimStart(s) != "" ==> !IsSpace(TrimStart(s)[0])
    ensures TrimStart(s) == s || |TrimStart(s)| < |s|
  {
    if s != "" && IsSpace(s[0]) {
      TrimStartStarts(s[1..]);
    }
  }

  lemma {:induction false} TrimEndEnds(s: string)
    ensures TrimEnd(s) <= s
    ensures TrimEnd(s) != "" ==> !IsSpace(TrimEnd(s)[|TrimEnd(s)| - 1])
  {
    if s != "" && IsSpace(s[|s| - 1]) {
      TrimEndEnds(s[..|s| - 1]);
    }
  }

  lemma TrimTrims(s: string)
    ensures Trimmed(Trim(s))
  {
    TrimStartStarts(s);
    TrimEndEnds(TrimStart(s));
  }

  lemma TrimShortens(s: string)
    ensures Trim(s) == s || |Trim(s)| < |s|
  {
    TrimStartStarts(s);
    TrimEndEnds(TrimStart(s));
  }

  /** A string is its own trim exactly when neither end is white space. */
  lemma TrimFixes(s: string)
    ensures Trim(s) == s <==> Trimmed(s)
  {
    TrimTrims(s);
  }

  /** The white space and line terminators of ECMA-262, section 12, by their code points. */
  lemma SpacesAre(c: char)
    ensures IsSpace(c) <==>
      var n := c as int;
      n in {9, 10, 11, 12, 13, 32, 160, 5760, 8232, 8233, 8239, 8287, 12288, 65279} || 8192 <= n <= 8202
  {
  }

  predicate AllSpace(s: string) {
    forall i :: 0 <= i < |s| ==> IsSpace(s[i])
  }

  lemma {:induction false} TrimStartDrops(s: string) returns (front: string)
    ensures s == front + TrimStart(s) && AllSpace(front)
  {
    front := "";
    if s != "" && IsSpace(s[0]) {
      var rest := TrimStartDrops(s[1..]);
      front := [s[0]] + rest;
      assert s == [s[0]] + s[1..];
    }
  }

  lemma {:induction false} TrimEndDrops(s: string) returns (back: string)
    ensures s == TrimEnd(s) + back && AllSpace(back)
  {
    back := "";
    if s != "" && IsSpace(s[|s| - 1]) {
      var rest := TrimEndDrops(s[..|s| - 1]);
      back := rest + [s[|s| - 1]];
      assert s == s[..|s| - 1] + [s[|s| - 1]];
    }
  }

  /** Trimming drops white space from both ends, and all of it. */
  lemma TrimIsExact(s: string) returns (front: string, back: string)
    ensures s == front + Trim(s) + back && AllSpace(front) && AllSpace(back) && Trimmed(Trim(s))
  {
    front := TrimStartDrops(s);
    back := TrimEndDrops(TrimStart(s));
    TrimTrims(s);
  }

  // Lengths are counted in UTF-16 code units, of which a character has one or two.

  function Width(c: char): nat {
    if c as int < 0x10000 then 1 else 2
  }

  /** `s.length`. */
  function Length(s: string): nat {
    if s == "" then 0 else Width(s[0]) + Length(s[1..])
  }

  /** `s.slice(0, n)`; half a character, if the cut leaves one, stands here as U+FFFD. */
  function Prefix(s: string, n: nat): string {
    if s == "" || n == 0 then ""
    else if Width(s[0]) > n then "\U{FFFD}"
    else [s[0]] + Prefix(s[1..], n - Width(s[0]))
  }

  lemma {:induction false} PrefixFits(s: string, n: nat)
    ensures Length(Prefix(s, n)) <= n && |Prefix(s, n)| <= |s|
    ensures Length(s) <= n ==> Prefix(s, n) == s
  {
    if s != "" && 0 < n && Width(s[0]) <= n {
      PrefixFits(s[1..], n - Width(s[0]));
      assert ([s[0]] + Prefix(s[1..], n - Width(s[0])))[1..] == Prefix(s[1..], n - Width(s[0]));
    }
  }

  /** The cut kept all of the text, or something other than white space at its end. */
  predicate CutsCleanly(s: string, n: nat) {
    Length(s) <= n || Prefix(s, n) == "" || !IsSpace(Prefix(s, n)[|Prefix(s, n)| - 1])
  }

  /** A prefix of a trimmed string is trimmed unless the cut falls behind white space. */
  lemma TrimmedPrefix(s: string, n: nat)
    requires Trimmed(s)
    ensures Trimmed(Prefix(s, n)) <==> CutsCleanly(s, n)
    ensures s != "" && n > 0 ==> Prefix(s, n) != ""
  {
    PrefixFits(s, n);
    assert s != "" && Width(s[0]) <= n ==> Prefix(s, n)[0] == s[0];
  }

  lemma {:induction false} LengthAdds(s: string, t: string)
    ensures Length(s + t) == Length(s) + Length(t)
  {
    if s == "" {
      assert s + t == t;
    } else {
      LengthAdds(s[1..], t);
      assert (s + t)[1..] == s[1..] + t;
    }
  }

  /** A character beyond the basic plane counts twice. */
  lemma LengthOfOne(c: char)
    ensures Length([c]) == if c as int >= 65536 then 2 else 1
  {
    assert [c][1..] == "";
  }

  /** A longer text is cut to exactly `n` code units: its first characters, and half of the next if that is split. */
  lemma {:induction false} PrefixIsExact(s: string, n: nat) returns (k: nat)
    requires Length(s) >= n
    ensures Length(Prefix(s, n)) == n && k <= |s|
    ensures Prefix(s, n) == s[..k] || (Prefix(s, n) == s[..k] + "\U{FFFD}" && k < |s| && Length(s[..k]) == n - 1)
  {
    k := 0;
    if s != "" && n > 0 {
      if Width(s[0]) <= n {
        var m := PrefixIsExact(s[1..], n - Width(s[0]));
        k := m + 1;
        assert s[..k] == [s[0]] + s[1..][..m];
        assert ([s[0]] + Prefix(s[1..], n - Width(s[0])))[1..] == Prefix(s[1..], n - Width(s[0]));
      } else {
        assert "\U{FFFD}"[1..] == "";
        assert s[..0] + "\U{FFFD}" == "\U{FFFD}";
      }
    }
  }
}
