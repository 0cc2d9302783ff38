/** The session cookie: what the server prints, what a browser sends back and what the server reads from it. */
module Cookies {
  import opened Options
  import opened JsText
  import opened UriComponent
  import opened UriSpelling

  const AUTH_SESSION_COOKIE := "stanza_session"

  // Splitting and joining.

  function Before(s: string, mark: char): string {
    if s == "" || s[0] == mark then "" else [s[0]] + Before(s[1..], mark)
  }

  /** What stands behind the first mark, if there is one. */
  function After(s: string, mark: char): string {
    if s == "" then "" else if s[0] == mark then s[1..] else After(s[1..], mark)
  }

  lemma {:induction false} AtFirstMark(front: string, mark: char, back: string)
    requires mark !in front
    ensures Before(front + [mark] + back, mark) == front
    ensures After(front + [mark] + back, mark) == back
  {
    if front != "" {
      AtFirstMark(front[1..], mark, back);
      assert (front + [mark] + back)[1..] == front[1..] + [mark] + back;
    }
  }

  lemma {:induction false} WithoutMark(s: string, mark: char)
    requires mark !in s
    ensures Before(s, mark) == s && After(s, mark) == ""
  {
    if s != "" {
      WithoutMark(s[1..], mark);
    }
  }

  lemma {:induction false} AfterIsShorter(s: string, mark: char)
    requires mark in s
    ensures |After(s, mark)| < |s| && s == Before(s, mark) + [mark] + After(s, mark)
  {
    if s[0] != mark {
      AfterIsShorter(s[1..], mark);
    }
  }

  /** `s.split(mark)`. */
  function Split(s: string, mark: char): (parts: seq<string>)
    ensures parts != []
    decreases |s|
  {
    if mark !in s then [s]
    else
      AfterIsShorter(s, mark);
      [Before(s, mark)] + Split(After(s, mark), mark)
  }

  lemma SplitAtFirst(front: string, mark: char, back: string)
    requires mark !in front
    ensures Split(front + [mark] + back, mark) == [front] + Split(back, mark)
  {
    AtFirstMark(front, mark, back);
    assert (front + [mark] + back)[|front|] == mark;
  }

  lemma SplitWhole(s: string, mark: char)
    requires mark !in s
    ensures Split(s, mark) == [s]
  {
  }

  function Join(parts: seq<string>, glue: string): string {
    if parts == [] then "" else if |parts| == 1 then parts[0] else parts[0] + glue + Join(parts[1..], glue)
  }

  lemma {:induction false} JoinUndoesSplit(s: string, mark: char)
    ensures Join(Split(s, mark), [mark]) == s
    decreases |s|
  {
    if mark in s {
      AfterIsShorter(s, mark);
      JoinUndoesSplit(After(s, mark), mark);
    }
  }

  /** Splitting cuts at every mark: no part has one, and joining the parts gives the text again. */
  lemma {:induction false} SplitIsExact(s: string, mark: char)
    ensures Join(Split(s, mark), [mark]) == s
    ensures forall i :: 0 <= i < |Split(s, mark)| ==> mark !in Split(s, mark)[i]
    decreases |s|
  {
    JoinUndoesSplit(s, mark);
    if mark in s {
      AfterIsShorter(s, mark);
      BeforeHasNoMark(s, mark);
      SplitIsExact(After(s, mark), mark);
    }
  }

  lemma {:induction false} BeforeHasNoMark(s: string, mark: char)
    ensures mark !in Before(s, mark)
  {
    if s != "" && s[0] != mark {
      BeforeHasNoMark(s[1..], mark);
    }
  }

  // The server.

  /** The value behind the name; `None` is the source's null. */
  function FindCookie(parts: seq<string>, name: string): Option<string> {
    if parts == [] then None
    else
      var pieces := Split(Trim(parts[0]), '=');
      if pieces[0] == name then Decode(Join(pieces[1..], "=")) else FindCookie(parts[1..], name)
  }

  function GetCookie(header: Option<string>, name: string): Option<string> {
    FindCookie(Split(if header.Some? then header.value else "", ';'), name)
  }

  function Directive(text: string): string {
    "; " + text
  }

  function Attributes(secure: bool): string {
    Directive("HttpOnly") + (if secure then Directive("Secure") else "")
    + Directive("SameSite=Lax") + Directive("Path=/") + Directive("Max-Age=43200")
  }

  function SetCookieHeader(token: string, secure: bool): string {
    AUTH_SESSION_COOKIE + "=" + Encode(token) + Attributes(secure)
  }

  /** The text is the name alone or the name with a value. */
  predicate ReadsAs(text: string, name: string) {
    text == name || name + "=" <= text
  }

  /** What stands behind the name and its equals sign. */
  function ValueIn(text: string, name: string): string {
    if |name| < |text| then text[|name| + 1..] else ""
  }

  lemma PiecesAreRead(text: string, name: string)
    requires '=' !in name
    ensures var pieces := Split(text, '=');
      (pieces[0] == name <==> ReadsAs(text, name)) && (pieces[0] == name ==> Join(pieces[1..], "=") == ValueIn(text, name))
  {
    if name + "=" <= text {
      assert (name + "=")[|name|] == '=' == text[|name|];
      assert text == name + ['='] + text[|name| + 1..];
      AtFirstMark(name, '=', text[|name| + 1..]);
      JoinUndoesSplit(text[|name| + 1..], '=');
    } else if '=' in text {
      AfterIsShorter(text, '=');
      assert Split(text, '=')[0] == Before(text, '=') && text == Before(text, '=') + "=" + After(text, '=');
    }
  }

  lemma {:induction false} PartsAreSearched(parts: seq<string>, name: string) returns (n: nat)
    requires '=' !in name
    ensures n <= |parts| && forall i :: 0 <= i < n ==> !ReadsAs(Trim(parts[i]), name)
    ensures if n == |parts| then FindCookie(parts, name) == None
            else ReadsAs(Trim(parts[n]), name) && FindCookie(parts, name) == Decode(ValueIn(Trim(parts[n]), name))
  {
    hide Split, Join, Trim, Decode, ReadsAs, ValueIn;
    n := 0;
    if parts != [] {
      PiecesAreRead(Trim(parts[0]), name);
      if !ReadsAs(Trim(parts[0]), name) {
        var m := PartsAreSearched(parts[1..], name);
        n := m + 1;
      }
    }
  }

  /**
    In any header at all, the first part that is this name, with or without a value, decides: the cookie is the string
    that its value spells, and there is none if it spells nothing, whatever stands behind.
   */
  lemma AnyHeaderIsRead(header: string, name: string, value: string) returns (n: nat)
    requires '=' !in name
    ensures var parts := Split(header, ';');
      && n <= |parts| && (forall i :: 0 <= i < n ==> !ReadsAs(Trim(parts[i]), name))
      && (n < |parts| ==> ReadsAs(Trim(parts[n]), name))
      && (GetCookie(Some(header), name) == Some(value) <==> n < |parts| && Spells(ValueIn(Trim(parts[n]), name), value))
  {
    hide Split, FindCookie, Trim, Decode, Spells, ReadsAs, ValueIn;
    n := PartsAreSearched(Split(header, ';'), name);
    if n < |Split(header, ';')| {
      DecodeIsExact(ValueIn(Trim(Split(header, ';')[n]), name), value);
    }
  }

  // The browser (sections 5.2 and 5.4 of RFC 6265).

  datatype Cookie = Cookie(name: string, value: string)

  predicate IsBlank(c: char) {
    c == ' ' || c == '\t'
  }

  function DropBlanks(s: string): string {
    if s != "" && IsBlank(s[0]) then DropBlanks(s[1..])
    else if s != "" && IsBlank(s[|s| - 1]) then DropBlanks(s[..|s| - 1])
    else s
  }

  /** The pair that a browser takes from a `Set-Cookie` header, if it has one. */
  function StoredPair(header: string): Option<Cookie> {
    var pair := Before(header, ';');
    if '=' !in pair || DropBlanks(Before(pair, '=')) == "" then None
    else Some(Cookie(DropBlanks(Before(pair, '=')), DropBlanks(After(pair, '='))))
  }

  function Pair(c: Cookie): string {
    c.name + "=" + c.value
  }

  function Pairs(jar: seq<Cookie>): seq<string> {
    if jar == [] then [] else [Pair(jar[0])] + Pairs(jar[1..])
  }

  /** The `Cookie` header for the cookies in the browser's order; there is none without cookies. */
  function CookieHeader(jar: seq<Cookie>): Option<string> {
    if jar == [] then None else Some(Join(Pairs(jar), "; "))
  }

  /** A stored cookie: no semicolon anywhere, no equals sign in the name. */
  predicate IsStorable(c: Cookie) {
    ';' !in c.name && '=' !in c.name && ';' !in c.value
  }

  ghost predicate AllStorable(jar: seq<Cookie>) {
    forall i :: 0 <= i < |jar| ==> IsStorable(jar[i])
  }

  /** What the server should find: the first cookie whose name, without leading white space, is this one. */
  function Lookup(jar: seq<Cookie>, name: string): Option<string> {
    if jar == [] then None
    else if TrimStart(jar[0].name) == name then Decode(TrimEnd(jar[0].value))
    else Lookup(jar[1..], name)
  }

  lemma {:induction false} TrimStartOfPair(front: string, back: string)
    ensures TrimStart(front + "=" + back) == TrimStart(front) + "=" + back
  {
    if front != "" && IsSpace(front[0]) {
      TrimStartOfPair(front[1..], back);
      assert (front + "=" + back)[1..] == front[1..] + "=" + back;
    }
  }

  lemma {:induction false} TrimEndOfPair(front: string, back: string)
    ensures TrimEnd(front + "=" + back) == front + "=" + TrimEnd(back)
  {
    var s := front + "=" + back;
    if back != "" {
      assert s[|s| - 1] == back[|back| - 1];
      if IsSpace(back[|back| - 1]) {
        TrimEndOfPair(front, back[..|back| - 1]);
        assert s[..|s| - 1] == front + "=" + back[..|back| - 1];
      }
    } else {
      assert s[|s| - 1] == '=';
    }
  }

  lemma {:induction false} TrimStartShortens(s: string, c: char)
    requires c !in s
    ensures c !in TrimStart(s)
  {
    if s != "" && IsSpace(s[0]) {
      TrimStartShortens(s[1..], c);
    }
  }

  /** How one part of the header is read, with the blank that the browser puts before it or without. */
  lemma PartIsRead(c: Cookie, blank: string)
    requires IsStorable(c) && (blank == "" || blank == " ")
    ensures var pieces := Split(Trim(blank + Pair(c)), '=');
      pieces[0] == TrimStart(c.name) && Join(pieces[1..], "=") == TrimEnd(c.value)
  {
    var front := blank + c.name;
    assert blank + Pair(c) == front + "=" + c.value;
    TrimStartOfPair(front, c.value);
    assert TrimStart(front) == TrimStart(c.name) by {
      assert blank == " " ==> front[1..] == c.name;
      assert blank == "" ==> front == c.name;
    }
    TrimEndOfPair(TrimStart(c.name), c.value);
    var text := TrimStart(c.name) + "=" + TrimEnd(c.value);
    TrimStartShortens(c.name, '=');
    AtFirstMark(TrimStart(c.name), '=', TrimEnd(c.value));
    assert text[|TrimStart(c.name)|] == '=';
    JoinUndoesSplit(TrimEnd(c.value), '=');
  }

  lemma FirstPartIsRead(c: Cookie, blank: string, parts: seq<string>, name: string)
    requires IsStorable(c) && (blank == "" || blank == " ")
    ensures FindCookie([blank + Pair(c)] + parts, name) ==
      if TrimStart(c.name) == name then Decode(TrimEnd(c.value)) else FindCookie(parts, name)
  {
    hide Trim, Split, Join, Decode, Pair, TrimStart, TrimEnd;
    PartIsRead(c, blank);
    var all := [blank + Pair(c)] + parts;
    assert all[0] == blank + Pair(c) && all[1..] == parts;
  }

  lemma PairHasNoSemicolon(c: Cookie, blank: string)
    requires IsStorable(c) && (blank == "" || blank == " ")
    ensures ';' !in blank + Pair(c)
  {
  }

  lemma Regroup(blank: string, pair: string, rest: string)
    ensures blank + (pair + "; " + rest) == blank + pair + [';'] + (" " + rest)
  {
    assert "; " + rest == [';'] + (" " + rest);
    assert pair + "; " + rest == pair + ("; " + rest);
  }

  lemma JoinPairs(jar: seq<Cookie>)
    requires jar != []
    ensures Join(Pairs(jar), "; ") ==
      if |jar| == 1 then Pair(jar[0]) else Pair(jar[0]) + "; " + Join(Pairs(jar[1..]), "; ")
  {
    hide Pair;
    if |jar| > 1 {
      assert Pairs(jar)[1..] == Pairs(jar[1..]) && |Pairs(jar[1..])| > 0;
    }
  }

  lemma {:induction false} PartsAreRead(jar: seq<Cookie>, blank: string, name: string)
    requires jar != [] && AllStorable(jar) && (blank == "" || blank == " ")
    ensures FindCookie(Split(blank + Join(Pairs(jar), "; "), ';'), name) == Lookup(jar, name)
    decreases jar
  {
    hide Split, Join, Pairs, Pair, FindCookie, Decode, IsStorable, TrimStart, TrimEnd;
    var (c, rest) := (jar[0], jar[1..]);
    assert IsStorable(c);
    PairHasNoSemicolon(c, blank);
    JoinPairs(jar);
    if rest == [] {
      SplitWhole(blank + Pair(c), ';');
      FirstPartIsRead(c, blank, [], name);
      assert [blank + Pair(c)] + [] == [blank + Pair(c)];
      NoCookieInNothing(name);
    } else {
      assert forall i :: 0 <= i < |rest| ==> rest[i] == jar[i + 1];
      PartsAreRead(rest, " ", name);
      var others := " " + Join(Pairs(rest), "; ");
      Regroup(blank, Pair(c), Join(Pairs(rest), "; "));
      SplitAtFirst(blank + Pair(c), ';', others);
      FirstPartIsRead(c, blank, Split(others, ';'), name);
    }
  }

  lemma NoCookieInNothing(name: string)
    ensures FindCookie([], name) == None
    ensures name != "" ==> FindCookie([""], name) == None
  {
    SplitWhole("", '=');
  }

  /** In any header a browser builds, the first cookie that reads as this name decides, whatever comes behind it. */
  lemma FirstMatchDecides(jar: seq<Cookie>, name: string)
    requires AllStorable(jar) && name != ""
    ensures GetCookie(CookieHeader(jar), name) == Lookup(jar, name)
  {
    hide FindCookie, Split, Join, Pairs;
    if jar != [] {
      PartsAreRead(jar, "", name);
      assert "" + Join(Pairs(jar), "; ") == Join(Pairs(jar), "; ");
    } else {
      SplitWhole("", ';');
      NoCookieInNothing(name);
    }
  }

  lemma {:induction false} LookupPasses(before: seq<Cookie>, after: seq<Cookie>, name: string)
    requires forall c <- before :: TrimStart(c.name) != name
    ensures Lookup(before + after, name) == Lookup(after, name)
  {
    if before != [] {
      LookupPasses(before[1..], after, name);
      assert (before + after)[1..] == before[1..] + after;
    } else {
      assert before + after == after;
    }
  }

  lemma EncodedStandsAlone(s: string)
    ensures ';' !in Encode(s) && DropBlanks(Encode(s)) == Encode(s) && TrimEnd(Encode(s)) == Encode(s)
  {
    hide Encode;
    EncodedIsPlain(s);
    var text := Encode(s);
    forall c <- text ensures !IsSpace(c) && !IsBlank(c) && c != ';' {
      PlainIsVisible(c);
    }
    if text != "" {
      assert text[0] in text && text[|text| - 1] in text;
    }
  }

  lemma PlainIsVisible(c: char)
    requires IsPlain(c)
    ensures !IsSpace(c) && !IsBlank(c) && c != ';'
  {
  }

  lemma PairIsStored(name: string, value: string, attributes: string)
    requires name != "" && '=' !in name && DropBlanks(name) == name && DropBlanks(value) == value
    requires ';' !in name && ';' !in value && attributes != "" && attributes[0] == ';'
    ensures StoredPair(name + "=" + value + attributes) == Some(Cookie(name, value))
  {
    hide DropBlanks, Before, After;
    var pair := name + "=" + value;
    assert pair + attributes == pair + [';'] + attributes[1..];
    AtFirstMark(pair, ';', attributes[1..]);
    assert pair == name + ['='] + value && pair[|name|] == '=';
    AtFirstMark(name, '=', value);
  }

  /** A browser takes the pair from the printed header, and no attribute. */
  lemma HeaderIsStored(token: string, secure: bool)
    ensures StoredPair(SetCookieHeader(token, secure)) == Some(Cookie(AUTH_SESSION_COOKIE, Encode(token)))
  {
    hide Encode, StoredPair;
    EncodedStandsAlone(token);
    PairIsStored(AUTH_SESSION_COOKIE, Encode(token), Attributes(secure));
  }

  /** The server reads the token back from what a browser keeps of its header, among these other cookies. */
  predicate ReadsBack(token: string, secure: bool, before: seq<Cookie>, after: seq<Cookie>) {
    var stored := StoredPair(SetCookieHeader(token, secure));
    stored.Some? && GetCookie(CookieHeader(before + [stored.value] + after), AUTH_SESSION_COOKIE) == Some(token)
  }

  /** No cookie in front reads as the session cookie. */
  predicate NothingInFront(before: seq<Cookie>) {
    forall c <- before :: TrimStart(c.name) != AUTH_SESSION_COOKIE
  }

  lemma JarIsLookedUp(token: string, secure: bool, before: seq<Cookie>, after: seq<Cookie>)
    requires AllStorable(before) && AllStorable(after)
    ensures ReadsBack(token, secure, before, after) <==>
      Lookup(before + ([Cookie(AUTH_SESSION_COOKIE, Encode(token))] + after), AUTH_SESSION_COOKIE) == Some(token)
  {
    hide GetCookie, CookieHeader, SetCookieHeader, StoredPair, Encode, Lookup;
    HeaderIsStored(token, secure);
    EncodedStandsAlone(token);
    NameIsTrimmed();
    var session := Cookie(AUTH_SESSION_COOKIE, Encode(token));
    var jar := before + [session] + after;
    assert jar == before + ([session] + after);
    forall i | 0 <= i < |jar| ensures IsStorable(jar[i]) {
      assert i > |before| ==> jar[i] == after[i - |before| - 1];
    }
    FirstMatchDecides(jar, AUTH_SESSION_COOKIE);
  }

  lemma OwnIsLookedUp(token: string, after: seq<Cookie>)
    ensures Lookup([Cookie(AUTH_SESSION_COOKIE, Encode(token))] + after, AUTH_SESSION_COOKIE) == Some(token)
  {
    hide Encode, Decode, TrimStart, TrimEnd;
    EncodedStandsAlone(token);
    DecodeUndoesEncode(token);
    NameIsTrimmed();
  }

  /** Among any other cookies the server reads back every token it printed, if none in front reads as its cookie. */
  lemma SessionCookieRoundTrip(token: string, secure: bool, before: seq<Cookie>, after: seq<Cookie>)
    requires AllStorable(before) && AllStorable(after) && NothingInFront(before)
    ensures ReadsBack(token, secure, before, after)
  {
    hide ReadsBack, Encode, Lookup, TrimStart;
    JarIsLookedUp(token, secure, before, after);
    OwnIsLookedUp(token, after);
    LookupPasses(before, [Cookie(AUTH_SESSION_COOKIE, Encode(token))] + after, AUTH_SESSION_COOKIE);
  }

  lemma {:induction false} FrontIsLookedUp(before: seq<Cookie>, rest: seq<Cookie>, name: string)
    requires exists c <- before :: TrimStart(c.name) == name
    ensures Lookup(before + rest, name) == Lookup(before, name)
  {
    hide TrimStart, TrimEnd, Decode;
    if TrimStart(before[0].name) != name {
      var c :| c in before && TrimStart(c.name) == name;
      assert c in before[1..];
      FrontIsLookedUp(before[1..], rest, name);
      assert (before + rest)[1..] == before[1..] + rest;
    }
  }

  /** A cookie in front that reads as the session cookie decides: a token is read back only if it is what that one holds. */
  lemma FrontDecides(token: string, secure: bool, before: seq<Cookie>, after: seq<Cookie>)
    requires AllStorable(before) && AllStorable(after) && !NothingInFront(before)
    ensures ReadsBack(token, secure, before, after) <==> Lookup(before, AUTH_SESSION_COOKIE) == Some(token)
  {
    hide ReadsBack, Encode, Lookup, TrimStart;
    JarIsLookedUp(token, secure, before, after);
    FrontIsLookedUp(before, [Cookie(AUTH_SESSION_COOKIE, Encode(token))] + after, AUTH_SESSION_COOKIE);
  }

  /** The server reads back every token it prints exactly when no cookie in front reads as the session cookie. */
  lemma RoundTripExactly(secure: bool, before: seq<Cookie>, after: seq<Cookie>)
    requires AllStorable(before) && AllStorable(after)
    ensures (forall token: string :: ReadsBack(token, secure, before, after)) <==> NothingInFront(before)
  {
    hide ReadsBack, NothingInFront, AllStorable;
    if NothingInFront(before) {
      forall token: string ensures ReadsBack(token, secure, before, after) {
        SessionCookieRoundTrip(token, secure, before, after);
      }
    } else {
      FrontDecides("a", secure, before, after);
      FrontDecides("b", secure, before, after);
    }
  }

  lemma NameIsTrimmed()
    ensures TrimStart(AUTH_SESSION_COOKIE) == AUTH_SESSION_COOKIE
    ensures IsStorable(Cookie(AUTH_SESSION_COOKIE, ""))
  {
  }

  /**
    A different name is not enough: one that starts with white space of the script, but not of a browser,
    reads as the session cookie and decides in its place.
   */
  lemma LookalikeDecides(token: string, value: string)
    requires ';' !in value
    ensures var lookalike := Cookie("\U{00A0}" + AUTH_SESSION_COOKIE, value);
      && DropBlanks(lookalike.name) == lookalike.name
      && GetCookie(CookieHeader([lookalike, Cookie(AUTH_SESSION_COOKIE, Encode(token))]), AUTH_SESSION_COOKIE)
           == Decode(TrimEnd(value))
  {
    hide GetCookie, CookieHeader, Encode, Decode;
    var lookalike := Cookie("\U{00A0}" + AUTH_SESSION_COOKIE, value);
    NameIsTrimmed();
    assert lookalike.name[1..] == AUTH_SESSION_COOKIE;
    EncodedStandsAlone(token);
    FirstMatchDecides([lookalike, Cookie(AUTH_SESSION_COOKIE, Encode(token))], AUTH_SESSION_COOKIE);
  }
}
