/**
 * `Irc._parseMsg`: one protocol line of the form `[:prefix ]command[ params][ :trailing]`
 * (section 2.3.1 of RFC 1459) broken into the sender's nick and hostmask, the command and
 * its arguments. Every exception the Python code can raise is an `Err`.
 */
module Parser {
  import opened Wrappers
  import opened Text

  datatype ParseError =
    | EmptyLine            // `raise` on an empty line
    | PrefixWithoutSpace   // `prefix, s = s[1:].split(' ', 1)` finds a single piece
    | NoCommand            // `args.pop(0)` on an empty list
    | PrefixUnpack         // `nick, hostmask = prefix.split('!')` finds more than two pieces

  datatype Parsed = Parsed(nick: string, hostmask: string, command: string, args: seq<string>)

  /** The prefix and the rest of a line: a leading ':' makes the text up to the first space the prefix. */
  function SplitPrefix(s: string): (r: Result<(string, string), ParseError>)
    requires s != []
    ensures r.Err? <==> s[0] == ':' && ' ' !in s
    ensures r.Err? ==> r.error == PrefixWithoutSpace
    ensures r.Ok? && s[0] == ':' ==> ' ' !in r.value.0 && s == ":" + r.value.0 + " " + r.value.1
    ensures s[0] != ':' ==> r == Ok(("", s))
  {
    if s[0] == ':' then
      var parts := SplitOnce(s[1..], " ");
      PrefixPieces(s, parts);
      if |parts| == 2 then Ok((parts[0], parts[1])) else Err(PrefixWithoutSpace)
    else Ok(("", s))
  }

  lemma PrefixPieces(s: string, parts: seq<string>)
    requires s != [] && s[0] == ':' && parts == SplitOnce(s[1..], " ")
    ensures |parts| == 2 <==> ' ' in s
    ensures |parts| == 2 ==> ' ' !in parts[0] && s == ":" + parts[0] + " " + parts[1]
  {
    ContainsChar(s[1..], ' ');
    SpaceAfterColon(s);
    if |parts| == 2 {
      ContainsChar(parts[0], ' ');
      PrefixRejoin(s, parts[0], parts[1]);
    }
  }

  lemma SpaceAfterColon(s: string)
    requires s != [] && s[0] == ':'
    ensures ' ' in s <==> ' ' in s[1..]
  {
    assert s == [s[0]] + s[1..];
  }

  lemma PrefixRejoin(s: string, a: string, b: string)
    requires s != [] && s[0] == ':' && s[1..] == a + " " + b
    ensures s == ":" + a + " " + b
  {
    assert s == [s[0]] + s[1..];
  }

  /**
   * The argument list, command first: when the text contains " :", everything after its first
   * occurrence is one last argument, kept verbatim; the text before it, or the whole text when
   * there is none, is split on whitespace.
   */
  function Tokens(rest: string): (ts: seq<string>)
  {
    if Find(rest, " :") != -1 then
      var parts := SplitOnce(rest, " :");
      Words(parts[0]) + [parts[1]]
    else Words(rest)
  }

  /** The nick and hostmask: split at a single '!', the prefix itself for both when there is none. */
  function SplitNick(prefix: string): (r: Result<(string, string), ParseError>)
    ensures r.Err? <==> Count(prefix, '!') >= 2
    ensures r.Err? ==> r.error == PrefixUnpack
    ensures r.Ok? && '!' !in prefix ==> r.value == (prefix, prefix)
    ensures r.Ok? && '!' in prefix ==>
      prefix == r.value.0 + "!" + r.value.1 && '!' !in r.value.0 && '!' !in r.value.1
  {
    if '!' !in prefix then Ok((prefix, prefix))
    else
      var parts := Split(prefix, '!');
      if |parts| == 2 then
        assert JoinWith("!", parts) == parts[0] + "!" + parts[1] by {
          assert parts[1..] == [parts[1]];
        }
        Ok((parts[0], parts[1]))
      else Err(PrefixUnpack)
  }

  /** `Irc._parseMsg(s)`. */
  function ParseMsg(s: string): (r: Result<Parsed, ParseError>)
    ensures r == Err(EmptyLine) <==> s == []
    ensures r == Err(PrefixWithoutSpace) <==> s != [] && s[0] == ':' && ' ' !in s
    ensures r.Ok? ==> ' ' !in r.value.nick && ' ' !in r.value.hostmask && '!' !in r.value.nick
    ensures r.Ok? && s[0] != ':' ==> r.value.nick == [] && r.value.hostmask == []
  {
    if s == [] then Err(EmptyLine)
    else
      var split := SplitPrefix(s);
      if split.Err? then Err(split.error)
      else
        var (prefix, rest) := split.value;
        var ts := Tokens(rest);
        if ts == [] then Err(NoCommand)
        else
          var who := SplitNick(prefix);
          if who.Err? then Err(who.error)
          else
            var (nick, hostmask) := who.value;
            NickFields(prefix, nick, hostmask);
            Ok(Parsed(nick, hostmask, ts[0], ts[1..]))
  }

  lemma NickFields(prefix: string, nick: string, hostmask: string)
    requires ' ' !in prefix && SplitNick(prefix) == Ok((nick, hostmask))
    ensures ' ' !in nick && ' ' !in hostmask && '!' !in nick
  {
    if '!' in prefix {
      assert prefix == nick + "!" + hostmask;
      assert forall i :: 0 <= i < |hostmask| ==> hostmask[i] == prefix[|nick| + 1 + i];
      assert forall i :: 0 <= i < |nick| ==> nick[i] == prefix[i];
    }
  }

  /** Everything after the FIRST " :" is the last argument, spaces and further " :" included. */
  lemma TokensTrailing(x: string, t: string)
    requires !Contains(x, " :")
    ensures Tokens(x + " :" + t) == Words(x) + [t]
  {
    var s := x + " :" + t;
    FindAfter(x, " :", t);
    assert s[..|x|] == x && s[|x| + 2..] == t;
  }

  /**
   * Without " :" every token is a non-empty, whitespace-free word. With " :" there is at least
   * one token, and every token but the last is such a word.
   */
  lemma TokensShape(rest: string)
    ensures !Contains(rest, " :") ==> forall i :: 0 <= i < |Tokens(rest)| ==> IsWord(Tokens(rest)[i])
    ensures Contains(rest, " :") ==>
      Tokens(rest) != [] && forall i :: 0 <= i < |Tokens(rest)| - 1 ==> IsWord(Tokens(rest)[i])
  {
    if Contains(rest, " :") {
      var parts := SplitOnce(rest, " :");
      var ws := Words(parts[0]);
      assert Tokens(rest) == ws + [parts[1]];
      assert forall i :: 0 <= i < |ws| ==> Tokens(rest)[i] == ws[i];
    }
  }

  /** Without " :" the arguments are the whitespace-separated words of the text. */
  lemma TokensPlain(x: string)
    requires !Contains(x, " :")
    ensures Tokens(x) == Words(x)
  {
  }

  /** A line with no prefix: nick and hostmask are empty, the tokens give command and arguments. */
  lemma ParseWithoutPrefix(s: string)
    requires s != [] && s[0] != ':'
    ensures Tokens(s) == [] ==> ParseMsg(s) == Err(NoCommand)
    ensures Tokens(s) != [] ==> ParseMsg(s) == Ok(Parsed([], [], Tokens(s)[0], Tokens(s)[1..]))
  {
  }

  /** A line with a prefix: the prefix is the text between ':' and the first space. */
  lemma ParseWithPrefix(p: string, rest: string)
    requires ' ' !in p
    ensures Tokens(rest) == [] ==> ParseMsg(":" + p + " " + rest) == Err(NoCommand)
    ensures Tokens(rest) != [] && '!' !in p ==>
      ParseMsg(":" + p + " " + rest) == Ok(Parsed(p, p, Tokens(rest)[0], Tokens(rest)[1..]))
    ensures Tokens(rest) != [] && Count(p, '!') >= 2 ==>
      ParseMsg(":" + p + " " + rest) == Err(PrefixUnpack)
    ensures Tokens(rest) != [] && SplitNick(p).Ok? ==>
      ParseMsg(":" + p + " " + rest) ==
      Ok(Parsed(SplitNick(p).value.0, SplitNick(p).value.1, Tokens(rest)[0], Tokens(rest)[1..]))
  {
    SplitPrefixOf(p, rest);
  }

  lemma SplitPrefixOf(p: string, rest: string)
    requires ' ' !in p
    ensures SplitPrefix(":" + p + " " + rest) == Ok((p, rest))
  {
    var s := ":" + p + " " + rest;
    var t := s[1..];
    assert t == p + [' '] + rest;
    FindChar(p, ' ', rest);
    assert t[..|p|] == p && t[|p| + 1..] == rest;
    assert SplitOnce(t, " ") == [p, rest];
  }

  /** A prefix `nick!hostmask` with a single '!' gives that nick and that hostmask. */
  lemma ParseWithUserPrefix(nick: string, hostmask: string, rest: string)
    requires ' ' !in nick && ' ' !in hostmask && '!' !in nick && '!' !in hostmask
    requires Tokens(rest) != []
    ensures ParseMsg(":" + nick + "!" + hostmask + " " + rest) ==
      Ok(Parsed(nick, hostmask, Tokens(rest)[0], Tokens(rest)[1..]))
  {
    var p := nick + "!" + hostmask;
    assert ":" + nick + "!" + hostmask + " " + rest == ":" + p + " " + rest;
    assert ' ' !in p;
    assert Count(p, '!') == 1 by {
      assert p == nick + ("!" + hostmask);
      CountAppend(nick, "!" + hostmask, '!');
      CountAppend("!", hostmask, '!');
      assert Count("!", '!') == 1 by { assert "!"[1..] == []; }
    }
    var r := SplitNick(p);
    SplitAtBang(nick, hostmask, r.value.0, r.value.1);
    ParseWithPrefix(p, rest);
  }

  lemma {:induction false} CountAppend(a: string, b: string, c: char)
    ensures Count(a + b, c) == Count(a, c) + Count(b, c)
  {
    if a != [] {
      assert (a + b)[1..] == a[1..] + b;
      CountAppend(a[1..], b, c);
    } else {
      assert a + b == b;
    }
  }

  /** Two ways of writing a text around its only '!' are the same way. */
  lemma SplitAtBang(a: string, b: string, a': string, b': string)
    requires '!' !in a && '!' !in b && '!' !in a' && '!' !in b'
    requires a + "!" + b == a' + "!" + b'
    ensures a == a' && b == b'
  {
    var s := a + "!" + b;
    FindChar(a, '!', b);
    FindChar(a', '!', b');
    assert a == s[..|a|] == a';
    assert b == s[|a| + 1..] == b';
  }

  /** The sender part of a prefix: a bare server name, or `nick!hostmask`. */
  datatype Origin = Server(name: string) | User(nick: string, host: string)

  /** A protocol message before it is written out as a line. */
  datatype Message = Message(origin: Option<Origin>, command: string, params: seq<string>, trailing: Option<string>)

  predicate PrefixSafe(x: string) {
    ' ' !in x && '!' !in x
  }

  /** The messages the grammar can write unambiguously: the trailing text may hold anything. */
  predicate WellFormed(m: Message) {
    IsMiddle(m.command)
    && (forall i :: 0 <= i < |m.params| ==> IsMiddle(m.params[i]))
    && match m.origin
       case None => true
       case Some(Server(n)) => PrefixSafe(n)
       case Some(User(n, h)) => PrefixSafe(n) && PrefixSafe(h)
  }

  function OriginText(o: Origin): string {
    match o
    case Server(n) => n
    case User(n, h) => n + "!" + h
  }

  /** `[:prefix ]command[ params][ :trailing]`. */
  function Format(m: Message): string {
    OriginPart(m.origin) + Body(m)
  }

  /** The prefix as written: empty, or `":"`, the origin and a space. */
  function OriginPart(origin: Option<Origin>): string {
    match origin case None => "" case Some(o) => ":" + OriginText(o) + " "
  }

  /** The text after the prefix: the command and parameters joined by spaces, then the trailing part. */
  function Body(m: Message): string {
    JoinWith(" ", [m.command] + m.params) + TrailingText(m.trailing)
  }

  /** What the bot should read back from a written message. */
  function Expected(m: Message): Parsed {
    var args := m.params + TrailingArgs(m.trailing);
    match m.origin
    case None => Parsed("", "", m.command, args)
    case Some(Server(n)) => Parsed(n, n, m.command, args)
    case Some(User(n, h)) => Parsed(n, h, m.command, args)
  }

  /** The trailing text as an argument list: empty, or the one trailing argument. */
  function TrailingArgs(trailing: Option<string>): seq<string> {
    match trailing case None => [] case Some(t) => [t]
  }

  /** The trailing text as written: empty, or `" :"` and the text. */
  function TrailingText(trailing: Option<string>): string {
    match trailing case None => "" case Some(t) => " :" + t
  }

  /** The tokens of the text after the prefix are the command, the parameters and the trailing text. */
  lemma TokensOfBody(m: Message)
    requires WellFormed(m)
    ensures Tokens(Body(m)) == [m.command] + m.params + TrailingArgs(m.trailing)
  {
    var ws := [m.command] + m.params;
    assert forall i :: 0 <= i < |ws| ==> IsMiddle(ws[i]) by {
      forall i | 0 <= i < |ws| ensures IsMiddle(ws[i]) {
        if i > 0 { assert ws[i] == m.params[i - 1]; }
      }
    }
    var j := JoinWith(" ", ws);
    JoinedMiddles(ws, j);
    match m.trailing
    case None =>
      assert Body(m) == j;
      TokensPlain(j);
    case Some(t) =>
      Reassociate(j, " :", t, j + " :");
      TokensTrailing(j, t);
  }

  /** Middle parameters joined by spaces hold no `" :"` and split back into themselves. */
  lemma JoinedMiddles(ws: seq<string>, j: string)
    requires ws != [] && forall i :: 0 <= i < |ws| ==> IsMiddle(ws[i])
    requires j == JoinWith(" ", ws)
    ensures !Contains(j, " :") && Words(j) == ws && j != [] && j[0] != ':'
  {
    JoinMiddles(ws);
    SpaceColonFreeNotContains(j);
    WordsOfJoin(ws);
  }

  /** Round trip: reading back a well-formed message gives its sender, command and arguments. */
  lemma FormatRoundTrip(m: Message)
    requires WellFormed(m)
    ensures ParseMsg(Format(m)) == Ok(Expected(m))
  {
    var body := Body(m);
    TokensOfBody(m);
    assert Tokens(body)[0] == m.command;
    assert Tokens(body)[1..] == m.params + TrailingArgs(m.trailing);
    match m.origin
    case None => RoundTripBare(m, body);
    case Some(Server(n)) => RoundTripServer(m, n, body);
    case Some(User(n, h)) => RoundTripUser(m, n, h, body);
  }

  lemma RoundTripBare(m: Message, body: string)
    requires WellFormed(m) && m.origin == None && body == Body(m)
    requires Tokens(body) != [] && Tokens(body)[0] == m.command
    requires Tokens(body)[1..] == m.params + TrailingArgs(m.trailing)
    ensures ParseMsg(Format(m)) == Ok(Expected(m))
  {
    assert Format(m) == body;
    var j := JoinWith(" ", [m.command] + m.params);
    JoinMiddles([m.command] + m.params);
    assert body == j + TrailingText(m.trailing) && body[0] == j[0];
    ParseWithoutPrefix(body);
  }

  lemma RoundTripServer(m: Message, n: string, body: string)
    requires WellFormed(m) && m.origin == Some(Server(n)) && body == Body(m)
    requires Tokens(body) != [] && Tokens(body)[0] == m.command
    requires Tokens(body)[1..] == m.params + TrailingArgs(m.trailing)
    ensures ParseMsg(Format(m)) == Ok(Expected(m))
  {
    assert Format(m) == ":" + n + " " + body;
    ParseWithPrefix(n, body);
  }

  lemma RoundTripUser(m: Message, n: string, h: string, body: string)
    requires WellFormed(m) && m.origin == Some(User(n, h)) && body == Body(m)
    requires Tokens(body) != [] && Tokens(body)[0] == m.command
    requires Tokens(body)[1..] == m.params + TrailingArgs(m.trailing)
    ensures ParseMsg(Format(m)) == Ok(Expected(m))
  {
    UserPrefixText(n, h, OriginPart(m.origin));
    assert Format(m) == ":" + n + "!" + h + " " + body;
    ParseWithUserPrefix(n, h, body);
  }

  lemma UserPrefixText(n: string, h: string, p: string)
    requires p == ":" + (n + "!" + h) + " "
    ensures p == ":" + n + "!" + h + " "
  {
  }

  function PrivmsgExample(): Message {
    Message(Some(User("nick", "user@host")), "PRIVMSG", ["#chan"], Some("hello world"))
  }

  lemma PrivmsgExampleWellFormed()
    ensures WellFormed(PrivmsgExample())
  {
    assert IsMiddle("PRIVMSG") && IsMiddle("#chan");
    assert PrefixSafe("nick") && PrefixSafe("user@host");
  }

  lemma PrivmsgExampleWritten()
    ensures Format(PrivmsgExample()) == ":nick!user@host PRIVMSG #chan :hello world"
  {
    var m := PrivmsgExample();
    var p, b := ":nick!user@host ", "PRIVMSG #chan :hello world";
    ExampleOrigin(m.origin, p);
    ExampleBody(m, b);
    ExampleLine(p, b);
  }

  lemma ExampleOrigin(o: Option<Origin>, p: string)
    requires o == PrivmsgExample().origin && p == ":nick!user@host "
    ensures OriginPart(o) == p
  {
    assert OriginText(o.value) == "nick!user@host";
  }

  lemma ExampleBody(m: Message, b: string)
    requires m == PrivmsgExample() && b == "PRIVMSG #chan :hello world"
    ensures Body(m) == b
  {
    ExampleJoin();
    assert TrailingText(m.trailing) == " :hello world";
  }

  lemma ExampleJoin()
    ensures JoinWith(" ", ["PRIVMSG", "#chan"]) == "PRIVMSG #chan"
  {
    JoinWithCons(" ", "PRIVMSG", ["#chan"]);
  }

  lemma ExampleLine(p: string, b: string)
    requires p == ":nick!user@host " && b == "PRIVMSG #chan :hello world"
    ensures p + b == ":nick!user@host PRIVMSG #chan :hello world"
  {
  }

  lemma PrivmsgExampleExpected()
    ensures Expected(PrivmsgExample()) == Parsed("nick", "user@host", "PRIVMSG", ["#chan", "hello world"])
  {
    assert ["#chan"] + TrailingArgs(Some("hello world")) == ["#chan", "hello world"];
  }

  /** The line `:nick!user@host PRIVMSG #chan :hello world`. */
  lemma ParsePrivmsgExample(line: string)
    requires line == ":nick!user@host PRIVMSG #chan :hello world"
    ensures ParseMsg(line) == Ok(Parsed("nick", "user@host", "PRIVMSG", ["#chan", "hello world"]))
  {
    PrivmsgExampleWellFormed();
    PrivmsgExampleWritten();
    FormatRoundTrip(PrivmsgExample());
    PrivmsgExampleExpected();
  }

  /** The line `PING :server.example`, sent without a prefix. */
  lemma ParsePingExample()
    ensures ParseMsg("PING :server.example") == Ok(Parsed("", "", "PING", ["server.example"]))
  {
    var m := Message(None, "PING", [], Some("server.example"));
    assert WellFormed(m) by {
      assert IsMiddle("PING");
    }
    assert Format(m) == "PING :server.example" by {
      assert JoinWith(" ", ["PING"]) == "PING";
    }
    FormatRoundTrip(m);
    assert Expected(m) == Parsed("", "", "PING", ["server.example"]);
  }
}
