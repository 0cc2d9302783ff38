/** The printed cookie header: what a browser takes from any header, and which directives this one has. */
module CookieHeaders {
  import opened Options
  import opened Cookies
  import opened UriComponent

  // What a browser takes.

  predicate AllBlank(s: string) {
    forall c <- s :: c == ' ' || c == '\t'
  }

  lemma BlankIn(s: string)
    requires |s| == 1
    ensures AllBlank(s) <==> IsBlank(s[0])
  {
    assert s[0] in s;
  }

  lemma BlankAround(s: string, blank: char)
    requires AllBlank(s) && IsBlank(blank)
    ensures AllBlank([blank] + s) && AllBlank(s + [blank])
  {
  }

  lemma BlanksUnfold(s: string)
    ensures DropBlanks(s) ==
      if s != "" && IsBlank(s[0]) then DropBlanks(s[1..])
      else if s != "" && IsBlank(s[|s| - 1]) then DropBlanks(s[..|s| - 1]) else s
  {
  }

  lemma GlueFront(c: char, front: string, middle: string, back: string)
    ensures [c] + (front + middle + back) == ([c] + front) + middle + back
  {
  }

  lemma GlueBack(front: string, middle: string, back: string, c: char)
    ensures (front + middle + back) + [c] == front + middle + (back + [c])
  {
  }

  /** Only blanks are dropped, from both ends, and all of them. */
  lemma {:induction false} BlanksAreDropped(s: string) returns (front: string, back: string)
    ensures s == front + DropBlanks(s) + back && AllBlank(front) && AllBlank(back)
    ensures DropBlanks(s) != "" ==> !AllBlank(DropBlanks(s)[..1]) && !AllBlank(DropBlanks(s)[|DropBlanks(s)| - 1..])
    decreases |s|
  {
    hide AllBlank, IsBlank, DropBlanks;
    BlanksUnfold(s);
    if s != "" && IsBlank(s[0]) {
      var f, b := BlanksAreDropped(s[1..]);
      BlankAround(f, s[0]);
      GlueFront(s[0], f, DropBlanks(s), b);
      front, back := [s[0]] + f, b;
      assert s == [s[0]] + s[1..];
    } else if s != "" && IsBlank(s[|s| - 1]) {
      var f, b := BlanksAreDropped(s[..|s| - 1]);
      BlankAround(b, s[|s| - 1]);
      GlueBack(f, DropBlanks(s), b, s[|s| - 1]);
      front, back := f, b + [s[|s| - 1]];
      assert s == s[..|s| - 1] + [s[|s| - 1]];
    } else {
      front, back := "", "";
      NothingIsBlank();
      if s != "" {
        BlankIn(s[..1]);
        BlankIn(s[|s| - 1..]);
      }
    }
  }

  lemma NothingIsBlank()
    ensures AllBlank("")
  {
  }

  /**
    Of any header a browser takes the text before the first semicolon, cut at its first equals sign, and drops the blanks
    around name and value; it takes nothing without an equals sign or without a name.
   */
  lemma PairIsTaken(header: string)
    ensures var pair := Split(header, ';')[0];
      match StoredPair(header)
      case None => '=' !in pair || exists name, value :: pair == name + "=" + value && '=' !in name && DropBlanks(name) == ""
      case Some(c) => exists name, value ::
        pair == name + "=" + value && '=' !in name && c == Cookie(DropBlanks(name), DropBlanks(value)) && c.name != ""
  {
    hide DropBlanks;
    var pair := Before(header, ';');
    assert Split(header, ';')[0] == pair by {
      if ';' !in header {
        WithoutMark(header, ';');
      }
    }
    if '=' in pair {
      AfterIsShorter(pair, '=');
      BeforeHasNoMark(pair, '=');
      assert pair == Before(pair, '=') + "=" + After(pair, '=');
    }
  }

  // The directives.

  predicate HasDirective(header: string, directive: string) {
    exists i :: 1 <= i < |Split(header, ';')| && Split(header, ';')[i] == " " + directive
  }

  lemma DirectiveSplits(text: string, directive: string, rest: string)
    requires ';' !in text && ';' !in directive
    ensures Split(text + (Directive(directive) + rest), ';') == [text] + Split(" " + directive + rest, ';')
  {
    assert text + (Directive(directive) + rest) == text + [';'] + (" " + directive + rest);
    SplitAtFirst(text, ';', " " + directive + rest);
  }

  lemma DirectivesSplit(text: string, a: string, b: string, c: string)
    requires ';' !in text && ';' !in a && ';' !in b && ';' !in c
    ensures Split(text + (Directive(a) + (Directive(b) + Directive(c))), ';') == [text, " " + a, " " + b, " " + c]
  {
    hide Split, Directive;
    assert Directive(c) + "" == Directive(c) && " " + c + "" == " " + c;
    DirectiveSplits(text, a, Directive(b) + Directive(c));
    DirectiveSplits(" " + a, b, Directive(c));
    DirectiveSplits(" " + b, c, "");
    SplitWhole(" " + c, ';');
  }

  function DirectiveParts(secure: bool, first: string, optional: string, a: string, b: string, c: string): seq<string> {
    [" " + first] + (if secure then [" " + optional] else []) + [" " + a, " " + b, " " + c]
  }

  lemma AllSplit(pair: string, secure: bool, first: string, optional: string, a: string, b: string, c: string)
    requires ';' !in pair && ';' !in first && ';' !in optional && ';' !in a && ';' !in b && ';' !in c
    ensures var directives := Directive(first) + (if secure then Directive(optional) else "")
                              + Directive(a) + Directive(b) + Directive(c);
      Split(pair + directives, ';') == [pair] + DirectiveParts(secure, first, optional, a, b, c)
  {
    hide Split, Directive;
    var end := Directive(a) + (Directive(b) + Directive(c));
    var directives := Directive(first) + (if secure then Directive(optional) else "") + Directive(a) + Directive(b) + Directive(c);
    if secure {
      assert pair + directives == pair + (Directive(first) + (Directive(optional) + end));
      DirectiveSplits(pair, first, Directive(optional) + end);
      DirectiveSplits(" " + first, optional, end);
      DirectivesSplit(" " + optional, a, b, c);
    } else {
      assert pair + directives == pair + (Directive(first) + end);
      DirectiveSplits(pair, first, end);
      DirectivesSplit(" " + first, a, b, c);
    }
  }

  lemma DirectivesAre(pair: string, secure: bool, first: string, optional: string, a: string, b: string, c: string, d: string)
    ensures var parts := [pair] + DirectiveParts(secure, first, optional, a, b, c);
      (exists i :: 1 <= i < |parts| && parts[i] == " " + d) <==> d in {first, a, b, c} || (secure && d == optional)
  {
    var parts := [pair] + DirectiveParts(secure, first, optional, a, b, c);
    forall e: string ensures " " + d == " " + e <==> d == e {
      assert (" " + d)[1..] == d && (" " + e)[1..] == e;
    }
    assert parts[1] == " " + first && parts[|parts| - 1] == " " + c && parts[|parts| - 2] == " " + b;
    assert parts[|parts| - 3] == " " + a && (secure ==> parts[2] == " " + optional);
  }

  lemma DirectivesHaveNoSemicolon()
    ensures ';' !in "HttpOnly" && ';' !in "Secure" && ';' !in "SameSite=Lax" && ';' !in "Path=/" && ';' !in "Max-Age=43200"
  {
  }

  /**
    The header holds the session's name and the encoded token, then exactly these directives: scripts cannot read the
    cookie, other sites do not send it along, it lasts as long as the session, and it is Secure exactly where asked for.
   */
  lemma HeaderIsProtected(token: string, secure: bool, directive: string)
    ensures Split(SetCookieHeader(token, secure), ';')[0] == "stanza_session=" + Encode(token)
    ensures HasDirective(SetCookieHeader(token, secure), directive) <==>
      directive in {"HttpOnly", "SameSite=Lax", "Path=/", "Max-Age=43200"} || (secure && directive == "Secure")
  {
    hide Encode, Split, Directive, DirectiveParts;
    EncodedStandsAlone(token);
    var pair := AUTH_SESSION_COOKIE + "=" + Encode(token);
    DirectivesHaveNoSemicolon();
    AllSplit(pair, secure, "HttpOnly", "Secure", "SameSite=Lax", "Path=/", "Max-Age=43200");
    DirectivesAre(pair, secure, "HttpOnly", "Secure", "SameSite=Lax", "Path=/", "Max-Age=43200", directive);
  }
}
