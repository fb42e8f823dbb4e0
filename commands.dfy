/**
 * The outbound commands of `Irc`: `cmd` and the helpers built on it (`msg`, `reply`,
 * `_set_nick`, `_join_chans`, the registration lines of `_connect`, and the `PONG` answer of the
 * event loop), as the text each one puts on the outbound queue.
 */
module Commands {
  import opened Wrappers
  import opened Text
  import opened Parser

  /**
   * `cmd(command, args, prefix)`: the prefix, when one is given and is not empty, is written
   * directly before the command; the arguments are joined with no separator at all.
   */
  function CmdLine(command: string, args: seq<string>, prefix: Option<string>): (line: string)
    ensures line == (if prefix.Some? then prefix.value else "") + command + " " + Concat(args)
    ensures |line| > |command|
  {
    if prefix.Some? && prefix.value != [] then prefix.value + command + " " + Concat(args)
    else command + " " + Concat(args)
  }

  /** `msg(target, text)`. */
  function MsgLine(target: string, text: string): (line: string)
    ensures line == "PRIVMSG " + target + " :" + text
  {
    assert Concat([target + " :" + text]) == target + " :" + text;
    CmdLine("PRIVMSG", [target + " :" + text], None)
  }

  /** `_set_nick(nick)`. */
  function NickLine(nick: string): (line: string)
    ensures line == "NICK " + nick
  {
    assert Concat([nick]) == nick;
    CmdLine("NICK", [nick], None)
  }

  /** `_join_chans(channels)`: one `JOIN` per channel, in the order given. */
  function JoinLines(channels: seq<string>): (lines: seq<string>)
    ensures |lines| == |channels|
    ensures forall i :: 0 <= i < |channels| ==> lines[i] == CmdLine("JOIN", [channels[i]], None)
  {
    if channels == [] then [] else [CmdLine("JOIN", [channels[0]], None)] + JoinLines(channels[1..])
  }

  /** The nick a `reply` goes to: everything before the first `!` of the prefix. */
  function ReplyTarget(prefix: string): (target: string)
    ensures '!' !in target
    ensures target <= prefix
    ensures |target| == |prefix| <==> '!' !in prefix
    ensures |target| < |prefix| ==> prefix[|target|] == '!'
  {
    var parts := Split(prefix, '!');
    ReplyTargetPieces(prefix, parts);
    parts[0]
  }

  lemma ReplyTargetPieces(prefix: string, parts: seq<string>)
    requires parts == Split(prefix, '!')
    ensures parts[0] <= prefix
    ensures |parts[0]| == |prefix| <==> '!' !in prefix
    ensures |parts[0]| < |prefix| ==> prefix[|parts[0]|] == '!'
  {
    var head := parts[0];
    assert '!' !in head;
    if |parts| == 1 {
      assert JoinWith("!", parts) == head;
    } else {
      var tail := JoinWith("!", parts[1..]);
      assert JoinWith("!", parts) == head + "!" + tail;
      BeforeBang(prefix, head, tail);
    }
  }

  lemma BeforeBang(s: string, head: string, tail: string)
    requires s == head + "!" + tail && '!' !in head
    ensures head <= s && |head| < |s| && s[|head|] == '!'
  {
    assert s[..|head|] == head;
  }

  /** `reply(prefix, text)`. */
  function ReplyLine(prefix: string, text: string): (line: string)
    ensures line == "PRIVMSG " + ReplyTarget(prefix) + " :" + text
  {
    MsgLine(ReplyTarget(prefix), text)
  }

  /** The `USER` line of `_connect`: the nick three times, then the real name as trailing text. */
  function UserLine(nick: string, realname: string): (line: string)
    ensures line == "USER " + nick + " " + nick + " " + nick + " :" + realname
  {
    var arg := JoinWith(" ", [nick, nick, nick, ":" + realname]);
    assert arg == nick + " " + nick + " " + nick + " :" + realname by {
      UserArgument(nick, ":" + realname);
      JoinWithCons(" ", nick, [nick, nick]);
      JoinWithCons(" ", nick, [nick]);
    }
    assert Concat([arg]) == arg;
    CmdLine("USER", [arg], None)
  }

  /** What `_connect` queues: `USER`, then `NICK`. */
  function RegistrationLines(nick: string, realname: string): seq<string> {
    [UserLine(nick, realname), NickLine(nick)]
  }

  /** The answer of the event loop to `PING`: `cmd('PONG', args)` with the parsed arguments. */
  function PongLine(args: seq<string>): (line: string)
    ensures line == "PONG " + Concat(args)
  {
    CmdLine("PONG", args, None)
  }

  /**
   * `cmd` with a single argument made of middle parameters and an optional trailing text writes
   * exactly the line the grammar would, so the parser reads back those parameters and that text.
   */
  lemma CmdLineReadsBack(command: string, params: seq<string>, trailing: Option<string>, arg: string)
    requires params != [] && WellFormed(Message(None, command, params, trailing))
    requires arg == JoinWith(" ", params) + TrailingText(trailing)
    ensures ParseMsg(CmdLine(command, [arg], None)) == Ok(Expected(Message(None, command, params, trailing)))
  {
    var m := Message(None, command, params, trailing);
    var tt := TrailingText(trailing);
    var j := JoinWith(" ", params);
    JoinWithCons(" ", command, params);
    assert Format(m) == (command + " " + j) + tt;
    assert Concat([arg]) == arg;
    assert CmdLine(command, [arg], None) == (command + " ") + (j + tt);
    Reassociate(command + " ", j, tt, command + " " + j);
    FormatRoundTrip(m);
  }

  /** A message to a single-word target reads back as `PRIVMSG` with the target and the whole text. */
  lemma MsgLineParses(target: string, text: string)
    requires IsMiddle(target)
    ensures ParseMsg(MsgLine(target, text)) == Ok(Parsed("", "", "PRIVMSG", [target, text]))
  {
    var m := Message(None, "PRIVMSG", [target], Some(text));
    assert IsMiddle("PRIVMSG");
    assert JoinWith(" ", [target]) == target;
    CmdLineReadsBack("PRIVMSG", [target], Some(text), target + " :" + text);
    assert Expected(m) == Parsed("", "", "PRIVMSG", [target, text]);
  }

  /** A reply goes to the nick of a `nick!hostmask` prefix, the same nick the parser reports. */
  lemma ReplyGoesToNick(prefix: string, text: string)
    requires SplitNick(prefix).Ok?
    ensures ReplyTarget(prefix) == SplitNick(prefix).value.0
    ensures ReplyLine(prefix, text) == MsgLine(SplitNick(prefix).value.0, text)
  {
    var t := ReplyTarget(prefix);
    var n := SplitNick(prefix).value.0;
    if '!' in prefix {
      var h := SplitNick(prefix).value.1;
      assert prefix == n + "!" + h;
      assert |n| < |prefix| && prefix[|n|] == '!';
      assert prefix[..|n|] == n;
      assert t == prefix[..|t|];
      assert |t| == |n|;
    }
  }

  /** A `NICK` line for a single-word nick reads back with that nick as its only argument. */
  lemma NickLineParses(nick: string)
    requires IsMiddle(nick)
    ensures ParseMsg(NickLine(nick)) == Ok(Parsed("", "", "NICK", [nick]))
  {
    var m := Message(None, "NICK", [nick], None);
    assert IsMiddle("NICK");
    assert JoinWith(" ", [nick]) + "" == nick;
    CmdLineReadsBack("NICK", [nick], None, nick);
    assert Expected(m) == Parsed("", "", "NICK", [nick]);
  }

  /** Each `JOIN` line for a single-word channel reads back with that channel as its argument. */
  lemma JoinLinesParse(channels: seq<string>)
    requires forall i :: 0 <= i < |channels| ==> IsMiddle(channels[i])
    ensures forall i :: 0 <= i < |channels| ==>
      ParseMsg(JoinLines(channels)[i]) == Ok(Parsed("", "", "JOIN", [channels[i]]))
  {
    forall i | 0 <= i < |channels|
      ensures ParseMsg(JoinLines(channels)[i]) == Ok(Parsed("", "", "JOIN", [channels[i]]))
    {
      JoinLineParses(channels[i]);
    }
  }

  lemma JoinLineParses(channel: string)
    requires IsMiddle(channel)
    ensures ParseMsg(CmdLine("JOIN", [channel], None)) == Ok(Parsed("", "", "JOIN", [channel]))
  {
    var m := Message(None, "JOIN", [channel], None);
    assert IsMiddle("JOIN");
    assert JoinWith(" ", [channel]) + "" == channel;
    CmdLineReadsBack("JOIN", [channel], None, channel);
    assert Expected(m) == Parsed("", "", "JOIN", [channel]);
  }

  /**
   * The `USER` line reads back as the nick three times and the real name, whatever the real name
   * holds (spaces included).
   */
  lemma UserLineParses(nick: string, realname: string)
    requires IsMiddle(nick)
    ensures ParseMsg(UserLine(nick, realname)) == Ok(Parsed("", "", "USER", [nick, nick, nick, realname]))
  {
    var m := Message(None, "USER", [nick, nick, nick], Some(realname));
    assert IsMiddle("USER");
    var arg := JoinWith(" ", [nick, nick, nick, ":" + realname]);
    assert arg == JoinWith(" ", [nick, nick, nick]) + " :" + realname by {
      UserArgument(nick, ":" + realname);
    }
    CmdLineReadsBack("USER", [nick, nick, nick], Some(realname), arg);
    assert Expected(m) == Parsed("", "", "USER", [nick, nick, nick, realname]);
  }

  lemma UserArgument(n: string, last: string)
    ensures JoinWith(" ", [n, n, n, last]) == JoinWith(" ", [n, n, n]) + " " + last
  {
    JoinWithCons(" ", n, [n, n, last]);
    JoinWithCons(" ", n, [n, last]);
    JoinWithCons(" ", n, [last]);
    JoinWithCons(" ", n, [n, n]);
    JoinWithCons(" ", n, [n]);
  }

  /** A server's `PING :token` is answered with `PONG token`, whatever the token holds. */
  lemma PingAnswered(token: string)
    ensures ParseMsg("PING :" + token) == Ok(Parsed("", "", "PING", [token]))
    ensures PongLine(ParseMsg("PING :" + token).value.args) == "PONG " + token
  {
    var m := Message(None, "PING", [], Some(token));
    assert IsMiddle("PING");
    assert WellFormed(m);
    assert Format(m) == "PING :" + token by {
      assert JoinWith(" ", ["PING"]) == "PING";
    }
    FormatRoundTrip(m);
    assert Expected(m).args == [token];
    assert Concat([token]) == token;
  }

  /**
   * A `PING` with a middle parameter and a trailing one is answered with the two run together,
   * because `cmd` joins its arguments with no separator.
   */
  lemma PingArgumentsRunTogether(a: string, b: string, line: string)
    requires IsMiddle(a)
    requires line == "PING " + a + " :" + b
    ensures ParseMsg(line) == Ok(Parsed("", "", "PING", [a, b]))
    ensures PongLine([a, b]) == "PONG " + a + b
  {
    var m := Message(None, "PING", [a], Some(b));
    assert IsMiddle("PING");
    assert WellFormed(m);
    assert Format(m) == ("PING" + " " + a) + " :" + b by {
      JoinWithCons(" ", "PING", [a]);
    }
    assert line == ("PING" + " " + a) + " :" + b;
    FormatRoundTrip(m);
    assert Expected(m) == Parsed("", "", "PING", [a, b]);
    assert Concat([a, b]) == a + b by {
      assert [a, b][1..] == [b];
      assert Concat([b]) == b;
    }
  }
}
