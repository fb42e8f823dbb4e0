/**
 * `Irc`: the bot object. Its constructor does what `__init__` does up to `_connect`; the event
 * loop that `__init__` then enters for ever is `Step`, one pass at a time, and a plugin's run
 * loop is `PluginStep`, one inbox item at a time. The one plugin, `HelloPlugin`, is represented
 * by its inbox; the outbound queue is the connection's `outQueue`.
 */
module Bot {
  import opened Wrappers
  import opened Text
  import opened Parser
  import opened Transport
  import opened Commands
  import opened Plugins
  import opened EventLoop

  /** The settings dictionary; `altNick` is `None` when the key is absent. */
  datatype Settings = Settings(
    server: string, port: int, ssl: bool, nick: string, altNick: Option<string>,
    realname: string, channels: seq<string>)

  /** The timeout `_connect` leaves at its default. */
  const DefaultTimeout: int := 300

  datatype StepOutcome =
    | Waiting               // `inQueue.get()` blocks: nothing queued yet
    | Handled               // one line went through the loop
    | Failed(error: ParseError)  // `_parseMsg` raised, which ends the loop

  datatype PluginOutcome =
    | Idle        // `inbox.get()` blocks
    | Processed   // one item was processed
    | Faulted     // `process` raised on the item

  class Irc {
    const server: string
    const port: int
    const ssl: bool
    const altNick: Option<string>
    const realname: string
    const channels: seq<string>
    const conn: Connection
    var nick: string
    var lines: seq<Event>
    var inboxes: seq<seq<InboxItem>>
    var timestamp: int

    /** The state the event loop works on. */
    function State(): Core
      reads this, conn
    {
      Core(nick, lines, inboxes, conn.outQueue)
    }

    /** `__init__` up to and including `_connect`: registration is queued, `USER` before `NICK`. */
    constructor (settings: Settings, now: int)
      ensures server == settings.server && port == settings.port && ssl == settings.ssl
      ensures altNick == settings.altNick && realname == settings.realname && channels == settings.channels
      ensures fresh(conn) && conn.Valid() && conn.inQueue == [] && conn.written == []
      ensures conn.inBuffer == [] && conn.outBuffer == [] && conn.ssl == settings.ssl
      ensures conn.host == settings.server && conn.port == settings.port && conn.timeout == DefaultTimeout
      ensures State() == Core(settings.nick, [], [[]], RegistrationLines(settings.nick, settings.realname))
      ensures timestamp == now
    {
      server, port, ssl := settings.server, settings.port, settings.ssl;
      altNick, realname, channels := settings.altNick, settings.realname, settings.channels;
      nick := settings.nick;
      lines, inboxes := [], [[]];
      timestamp := now;
      conn := new Connection(settings.server, settings.port, settings.ssl, DefaultTimeout);
      new;
      Cmd("USER", [JoinWith(" ", [nick, nick, nick, ":" + realname])], None);
      SetNick(nick);
    }

    /** `_send`: append to the outbound queue. */
    method Send(s: string)
      modifies conn`outQueue
      ensures conn.outQueue == old(conn.outQueue) + [s]
    {
      conn.outQueue := conn.outQueue + [s];
    }

    method Cmd(command: string, args: seq<string>, prefix: Option<string>)
      modifies conn`outQueue
      ensures conn.outQueue == old(conn.outQueue) + [CmdLine(command, args, prefix)]
    {
      if prefix.Some? && prefix.value != [] {
        Send(prefix.value + command + " " + Concat(args));
      } else {
        Send(command + " " + Concat(args));
      }
    }

    method Msg(target: string, text: string)
      modifies conn`outQueue
      ensures conn.outQueue == old(conn.outQueue) + [MsgLine(target, text)]
    {
      Cmd("PRIVMSG", [target + " :" + text], None);
    }

    method Reply(prefix: string, text: string)
      modifies conn`outQueue
      ensures conn.outQueue == old(conn.outQueue) + [ReplyLine(prefix, text)]
    {
      Msg(Split(prefix, '!')[0], text);
    }

    /** `_set_nick` only sends `NICK`; it does not change `nick`. */
    method SetNick(n: string)
      modifies conn`outQueue
      ensures conn.outQueue == old(conn.outQueue) + [NickLine(n)]
    {
      Cmd("NICK", [n], None);
    }

    method JoinChans(cs: seq<string>)
      modifies conn`outQueue
      ensures conn.outQueue == old(conn.outQueue) + JoinLines(cs)
    {
      for i := 0 to |cs|
        invariant conn.outQueue == old(conn.outQueue) + JoinLines(cs[..i])
      {
        JoinLinesSnoc(cs, i);
        Cmd("JOIN", [cs[i]], None);
      }
      assert cs[..|cs|] == cs;
    }

    /** One pass of `_eventLoop` over a dequeued `line`, at time `now`. */
    method HandleLine(line: string, now: int) returns (ok: bool)
      modifies this`nick, this`lines, this`inboxes, this`timestamp, conn`outQueue
      ensures timestamp == now
      ensures ok <==> Next(old(State()), altNick, channels, line, now).Ok?
      ensures ok ==> State() == Next(old(State()), altNick, channels, line, now).value
      ensures !ok ==> State() == old(State())
    {
      timestamp := now;
      var item: InboxItem;
      if |line| > 0 {
        var parsed := ParseMsg(line);
        if parsed.Err? {
          return false;
        }
        var p := parsed.value;
        var e := Event(timestamp, p.nick, p.hostmask, p.command, p.args);
        if p.nick != nick {
          lines := lines + [e];
        }
        React(p.command, p.args);
        item := Arrived(e);
        NextParsed(old(State()), altNick, channels, line, now);
      } else {
        item := Blank;
        NextBlank(old(State()), altNick, channels, now);
      }
      Deliver(item);
      ok := true;
    }

    /** The three tests of the loop on the parsed command, in order. */
    method React(command: string, args: seq<string>)
      modifies this`nick, conn`outQueue
      ensures nick == NickAfter(command, old(nick), altNick)
      ensures conn.outQueue == old(conn.outQueue) + Reactions(command, args, nick, channels)
    {
      if command == "433" {
        if altNick.Some? && altNick.value != [] {
          nick := altNick.value;
        } else {
          nick := nick + "_";
        }
        SetNick(nick);
      }
      ghost var q1 := conn.outQueue;
      if command == "PING" {
        Cmd("PONG", args, None);
      }
      ghost var q2 := conn.outQueue;
      if command == "001" {
        JoinChans(channels);
      }
      ReactionsInOrder(old(conn.outQueue), q1, q2, conn.outQueue, command, args, nick, channels);
    }

    /** `inbox.put(line)` for every plugin, in order. */
    method Deliver(item: InboxItem)
      modifies this`inboxes
      ensures inboxes == Broadcast(old(inboxes), item)
    {
      var i := 0;
      while i < |inboxes|
        invariant 0 <= i <= |inboxes| == |old(inboxes)|
        invariant forall j :: 0 <= j < i ==> inboxes[j] == old(inboxes)[j] + [item]
        invariant forall j :: i <= j < |inboxes| ==> inboxes[j] == old(inboxes)[j]
      {
        inboxes := inboxes[i := inboxes[i] + [item]];
        i := i + 1;
      }
    }

    /** One pass of `_eventLoop`: take the next received line, if there is one, and handle it. */
    method Step(now: int) returns (outcome: StepOutcome)
      modifies this`nick, this`lines, this`inboxes, this`timestamp, conn`inQueue, conn`outQueue
      ensures old(conn.inQueue) == [] ==> outcome == Waiting && conn.inQueue == [] && State() == old(State())
      ensures old(conn.inQueue) != [] ==> conn.inQueue == old(conn.inQueue)[1..]
      ensures old(conn.inQueue) != [] ==>
        var r := Next(old(State()), altNick, channels, old(conn.inQueue)[0], now);
        (r.Ok? ==> outcome == Handled && State() == r.value) &&
        (r.Err? ==> outcome == Failed(r.error) && State() == old(State()))
    ensures old(conn.inQueue) == [] ==> timestamp == old(timestamp)
    ensures old(conn.inQueue) != [] ==> timestamp == now
    {
      if conn.inQueue == [] {
        return Waiting;
      }
      var line := conn.inQueue[0];
      conn.inQueue := conn.inQueue[1..];
      var ok := HandleLine(line, now);
      if ok {
        outcome := Handled;
      } else {
        outcome := Failed(ParseMsg(line).error);
      }
    }

    /** One pass of plugin `i`'s run loop: process the oldest item of its inbox. */
    method PluginStep(i: nat) returns (outcome: PluginOutcome)
      requires i < |inboxes|
      modifies this`inboxes, conn`outQueue
      ensures |inboxes| == |old(inboxes)|
      ensures forall j :: 0 <= j < |inboxes| && j != i ==> inboxes[j] == old(inboxes)[j]
      ensures old(inboxes)[i] == [] ==> outcome == Idle && inboxes == old(inboxes) && conn.outQueue == old(conn.outQueue)
      ensures old(inboxes)[i] != [] ==>
        var r := HelloProcess(old(inboxes)[i][0], nick);
        inboxes[i] == old(inboxes)[i][1..] &&
        (r.Err? ==> outcome == Faulted && conn.outQueue == old(conn.outQueue)) &&
        (r.Ok? ==>
           outcome == Processed &&
           conn.outQueue == old(conn.outQueue) + (if r.value.Some? then [r.value.value] else []))
    {
      if inboxes[i] == [] {
        return Idle;
      }
      var item := inboxes[i][0];
      inboxes := inboxes[i := inboxes[i][1..]];
      var r := HelloProcess(item, nick);
      if r.Err? {
        return Faulted;
      }
      if r.value.Some? {
        Msg(Channel, "Hello " + item.event.nick + ".");
      } else {
        assert conn.outQueue == old(conn.outQueue) + [];
      }
      outcome := Processed;
    }
  }

  lemma ReactionsInOrder(q0: seq<string>, q1: seq<string>, q2: seq<string>, q3: seq<string>,
                         command: string, args: seq<string>, nick: string, channels: seq<string>)
    requires q1 == q0 + (if command == "433" then [NickLine(nick)] else [])
    requires q2 == q1 + (if command == "PING" then [PongLine(args)] else [])
    requires q3 == q2 + (if command == "001" then JoinLines(channels) else [])
    ensures q3 == q0 + Reactions(command, args, nick, channels)
  {
    var a := if command == "433" then [NickLine(nick)] else [];
    var b := if command == "PING" then [PongLine(args)] else [];
    var c := if command == "001" then JoinLines(channels) else [];
    assert Reactions(command, args, nick, channels) == (a + b) + c;
    QueueAssoc(q0, a, b, c, q1, q2, q3);
  }

  lemma QueueAssoc(q0: seq<string>, a: seq<string>, b: seq<string>, c: seq<string>,
                   q1: seq<string>, q2: seq<string>, q3: seq<string>)
    requires q1 == q0 + a && q2 == q1 + b && q3 == q2 + c
    ensures q3 == q0 + ((a + b) + c)
  {
  }

  /** A pass over a line that parses, spelled out. */
  lemma NextParsed(c: Core, altNick: Option<string>, channels: seq<string>, line: string, now: int)
    requires line != [] && ParseMsg(line).Ok?
    ensures var e := EventOf(line, now);
      var nick := NickAfter(e.command, c.nick, altNick);
      Next(c, altNick, channels, line, now) == Ok(Core(
        nick,
        if e.nick != c.nick then c.lines + [e] else c.lines,
        Broadcast(c.inboxes, Arrived(e)),
        c.outbox + Reactions(e.command, e.args, nick, channels)))
  {
  }

  /** A pass over the empty line, spelled out. */
  lemma NextBlank(c: Core, altNick: Option<string>, channels: seq<string>, now: int)
    ensures Next(c, altNick, channels, [], now) == Ok(c.(inboxes := Broadcast(c.inboxes, Blank)))
  {
  }

  lemma JoinLinesSnoc(cs: seq<string>, i: nat)
    requires i < |cs|
    ensures JoinLines(cs[..i + 1]) == JoinLines(cs[..i]) + [CmdLine("JOIN", [cs[i]], None)]
  {
    var a := JoinLines(cs[..i + 1]);
    var b := JoinLines(cs[..i]) + [CmdLine("JOIN", [cs[i]], None)];
    assert |a| == |b|;
    forall j | 0 <= j < |a| ensures a[j] == b[j] {
      if j < i {
        assert cs[..i + 1][j] == cs[..i][j];
      }
    }
  }
}
