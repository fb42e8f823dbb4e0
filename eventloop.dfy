/**
 * One pass of `Irc._eventLoop` as a transition on the state it touches: the current nick,
 * `self.lines`, the plugin inboxes and the outbound queue.
 */
module EventLoop {
  import opened Wrappers
  import opened Text
  import opened Parser
  import opened Framing
  import opened Commands
  import opened Plugins

  /** The part of the bot one pass of the event loop reads and writes. */
  datatype Core = Core(nick: string, lines: seq<Event>, inboxes: seq<seq<InboxItem>>, outbox: seq<string>)

  /** Python truthiness of `altNick`: absent (`None`) and `''` are both false. */
  predicate IsSet(altNick: Option<string>) {
    altNick.Some? && altNick.value != []
  }

  /** The nick after a reply with `command`: only `433` (nick in use) changes it. */
  function NickAfter(command: string, nick: string, altNick: Option<string>): string {
    if command != "433" then nick
    else if IsSet(altNick) then altNick.value
    else nick + "_"
  }

  /** The lines queued in answer to `command`, in the order the three tests run. */
  function Reactions(command: string, args: seq<string>, nick: string, channels: seq<string>): seq<string> {
    (if command == "433" then [NickLine(nick)] else [])
    + (if command == "PING" then [PongLine(args)] else [])
    + (if command == "001" then JoinLines(channels) else [])
  }

  /**
   * The nick changes exactly on a `433`, unless it already is the `altNick` the bot falls back
   * to; after a `433` it is never empty.
   */
  lemma NickChanges(command: string, nick: string, altNick: Option<string>)
    ensures NickAfter(command, nick, altNick) == nick <==>
      command != "433" || (IsSet(altNick) && altNick.value == nick)
    ensures command == "433" ==> NickAfter(command, nick, altNick) != []
  {
    if command == "433" && !IsSet(altNick) {
      assert |nick + "_"| != |nick|;
    }
  }

  /** A pass queues nothing exactly for commands other than the three, and for `001` with no channels. */
  lemma ReactionsQuiet(command: string, args: seq<string>, nick: string, channels: seq<string>)
    ensures Reactions(command, args, nick, channels) == [] <==>
      command !in {"433", "PING", "001"} || (command == "001" && channels == [])
  {
  }

  /** What every inbox receives for a dequeued line: the raw empty line, or the parsed event. */
  function Arrival(line: string, now: int): (r: Result<InboxItem, ParseError>)
    ensures r.Err? <==> line != [] && ParseMsg(line).Err?
    ensures r.Ok? ==> (r.value.Blank? <==> line == [])
    ensures r.Ok? && line != [] ==>
      var p := ParseMsg(line).value;
      r.value == Arrived(Event(now, p.nick, p.hostmask, p.command, p.args))
  {
    if line == [] then Ok(Blank)
    else match ParseMsg(line)
      case Err(e) => Err(e)
      case Ok(p) => Ok(Arrived(Event(now, p.nick, p.hostmask, p.command, p.args)))
  }

  function Broadcast(inboxes: seq<seq<InboxItem>>, item: InboxItem): seq<seq<InboxItem>> {
    seq(|inboxes|, i requires 0 <= i < |inboxes| => inboxes[i] + [item])
  }

  /**
   * One pass of the loop over the dequeued `line` at time `now`; an error is the exception
   * `_parseMsg` raises, which ends the loop.
   */
  function Next(c: Core, altNick: Option<string>, channels: seq<string>, line: string, now: int): (r: Result<Core, ParseError>)
    ensures r.Err? <==> line != [] && ParseMsg(line).Err?
    ensures r.Err? ==> r.error == ParseMsg(line).error
    ensures r.Ok? ==> |r.value.inboxes| == |c.inboxes|
    ensures r.Ok? ==>
      forall i :: 0 <= i < |c.inboxes| ==> r.value.inboxes[i] == c.inboxes[i] + [Arrival(line, now).value]
    ensures r.Ok? ==> c.outbox <= r.value.outbox && c.lines <= r.value.lines && |r.value.lines| <= |c.lines| + 1
    ensures r.Ok? && line != [] ==>
      (r.value.lines == c.lines + [Arrival(line, now).value.event] <==> ParseMsg(line).value.nick != c.nick)
    ensures r.Ok? && line != [] && ParseMsg(line).value.nick == c.nick ==> r.value.lines == c.lines
    ensures r.Ok? && r.value.nick != c.nick ==> line != [] && ParseMsg(line).value.command == "433"
    ensures line == [] ==> r.Ok? && r.value.nick == c.nick && r.value.lines == c.lines && r.value.outbox == c.outbox
  {
    match Arrival(line, now)
    case Err(e) => Err(e)
    case Ok(Blank) => Ok(c.(inboxes := Broadcast(c.inboxes, Blank)))
    case Ok(Arrived(e)) =>
      var nick := NickAfter(e.command, c.nick, altNick);
      Ok(Core(nick,
              if e.nick != c.nick then c.lines + [e] else c.lines,
              Broadcast(c.inboxes, Arrived(e)),
              c.outbox + Reactions(e.command, e.args, nick, channels)))
  }

  /** The event a line that parses becomes. */
  function EventOf(line: string, now: int): Event
    requires ParseMsg(line).Ok?
  {
    var p := ParseMsg(line).value;
    Event(now, p.nick, p.hostmask, p.command, p.args)
  }

  /**
   * On `433` the nick becomes `altNick` when that is set and otherwise gains a `_`, and the new
   * nick is sent with `NICK`.
   */
  lemma NickInUse(c: Core, altNick: Option<string>, channels: seq<string>, line: string, now: int)
    requires line != [] && ParseMsg(line).Ok? && ParseMsg(line).value.command == "433"
    ensures Next(c, altNick, channels, line, now).Ok?
    ensures var r := Next(c, altNick, channels, line, now).value;
      r.nick == (if IsSet(altNick) then altNick.value else c.nick + "_") &&
      r.outbox == c.outbox + [NickLine(r.nick)]
  {
    var r := Next(c, altNick, channels, line, now).value;
    assert Reactions("433", ParseMsg(line).value.args, r.nick, channels) == [NickLine(r.nick)];
  }

  /** A server's `PING :token` is answered with `PONG token`; the nick stays. */
  lemma PingPong(c: Core, altNick: Option<string>, channels: seq<string>, token: string, now: int)
    ensures Next(c, altNick, channels, "PING :" + token, now).Ok?
    ensures var r := Next(c, altNick, channels, "PING :" + token, now).value;
      r.nick == c.nick && r.outbox == c.outbox + ["PONG " + token]
  {
    PingAnswered(token);
    var line := "PING :" + token;
    assert Reactions("PING", [token], c.nick, channels) == [PongLine([token])];
  }

  /**
   * Any line that parses with command `PING`, with or without a prefix and whatever its
   * arguments, is answered with `cmd('PONG', args)`; the nick stays.
   */
  lemma PingAnswer(c: Core, altNick: Option<string>, channels: seq<string>, line: string, now: int)
    requires line != [] && ParseMsg(line).Ok? && ParseMsg(line).value.command == "PING"
    ensures Next(c, altNick, channels, line, now).Ok?
    ensures var r := Next(c, altNick, channels, line, now).value;
      r.nick == c.nick && r.outbox == c.outbox + [PongLine(ParseMsg(line).value.args)]
  {
    var p := ParseMsg(line).value;
    assert Reactions("PING", p.args, c.nick, channels) == [PongLine(p.args)];
  }

  /** On `001` one `JOIN` per configured channel is queued, in configuration order. */
  lemma Welcome(c: Core, altNick: Option<string>, channels: seq<string>, line: string, now: int)
    requires line != [] && ParseMsg(line).Ok? && ParseMsg(line).value.command == "001"
    ensures Next(c, altNick, channels, line, now).Ok?
    ensures var r := Next(c, altNick, channels, line, now).value;
      r.nick == c.nick && r.outbox == c.outbox + JoinLines(channels)
  {
    var p := ParseMsg(line).value;
    assert Reactions("001", p.args, c.nick, channels) == JoinLines(channels);
  }

  /** Any other command changes neither the nick nor the outbound queue. */
  lemma OtherCommandsQuiet(c: Core, altNick: Option<string>, channels: seq<string>, line: string, now: int)
    requires line != [] && ParseMsg(line).Ok?
    requires ParseMsg(line).value.command !in {"433", "PING", "001"}
    ensures Next(c, altNick, channels, line, now).Ok?
    ensures var r := Next(c, altNick, channels, line, now).value;
      r.nick == c.nick && r.outbox == c.outbox
  {
    var p := ParseMsg(line).value;
    assert Reactions(p.command, p.args, c.nick, channels) == [];
  }

  /**
   * Successive passes of the loop over `ls`, up to the first that raises. Pass `j` reads the
   * clock once, as `times[j]`.
   */
  function Run(c: Core, altNick: Option<string>, channels: seq<string>, ls: seq<string>, times: seq<int>): Result<Core, ParseError>
    requires |times| == |ls|
    decreases |ls|
  {
    if ls == [] then Ok(c)
    else match Next(c, altNick, channels, ls[0], times[0])
      case Err(e) => Err(e)
      case Ok(c') => Run(c', altNick, channels, ls[1..], times[1..])
  }

  function Repeat<T>(x: T, k: nat): (r: seq<T>)
    ensures |r| == k && forall i :: 0 <= i < k ==> r[i] == x
  {
    if k == 0 then [] else [x] + Repeat(x, k - 1)
  }

  lemma RunRepeat(c: Core, altNick: Option<string>, channels: seq<string>, line: string, times: seq<int>, k: nat)
    requires k > 0 && |times| == k && Next(c, altNick, channels, line, times[0]).Ok?
    ensures Run(c, altNick, channels, Repeat(line, k), times)
      == Run(Next(c, altNick, channels, line, times[0]).value, altNick, channels, Repeat(line, k - 1), times[1..])
  {
    assert Repeat(line, k)[1..] == Repeat(line, k - 1);
  }

  /** The nicks tried after `k` collisions with no `altNick`: one more `_` each time. */
  function NickRetries(nick: string, k: nat): seq<string>
    decreases k
  {
    if k == 0 then [] else [NickLine(nick + "_")] + NickRetries(nick + "_", k - 1)
  }

  /**
   * With no `altNick`, `k` successive `433` replies, whenever they arrive, leave the nick with `k`
   * underscores appended and queue one `NICK` per attempt; nothing bounds `k`.
   */
  lemma {:induction false} RetryWithoutAlt(c: Core, altNick: Option<string>, channels: seq<string>, line: string, times: seq<int>, k: nat)
    requires !IsSet(altNick) && |times| == k
    requires line != [] && ParseMsg(line).Ok? && ParseMsg(line).value.command == "433"
    ensures Run(c, altNick, channels, Repeat(line, k), times).Ok?
    ensures var r := Run(c, altNick, channels, Repeat(line, k), times).value;
      r.nick == c.nick + Repeat('_', k) && r.outbox == c.outbox + NickRetries(c.nick, k)
    decreases k
  {
    if k == 0 {
      assert c.nick + Repeat('_', 0) == c.nick;
      assert c.outbox + NickRetries(c.nick, 0) == c.outbox;
    } else {
      var t1 := times[1..];
      assert |t1| == k - 1;
      NickInUse(c, altNick, channels, line, times[0]);
      var c1 := Next(c, altNick, channels, line, times[0]).value;
      RunRepeat(c, altNick, channels, line, times, k);
      RetryWithoutAlt(c1, altNick, channels, line, t1, k - 1);
      var r := Run(c1, altNick, channels, Repeat(line, k - 1), t1).value;
      RetryNick(c.nick, c1.nick, r.nick, k);
      RetryOutbox(c.outbox, c1.outbox, r.outbox, c.nick, k);
    }
  }

  lemma RetryNick(n: string, n1: string, n2: string, k: nat)
    requires k > 0 && n1 == n + "_" && n2 == n1 + Repeat('_', k - 1)
    ensures n2 == n + Repeat('_', k)
  {
    assert Repeat('_', k) == "_" + Repeat('_', k - 1);
    Reassociate(n, "_", Repeat('_', k - 1), n1);
  }

  lemma RetryOutbox(o: seq<string>, o1: seq<string>, o2: seq<string>, nick: string, k: nat)
    requires k > 0 && o1 == o + [NickLine(nick + "_")] && o2 == o1 + NickRetries(nick + "_", k - 1)
    ensures o2 == o + NickRetries(nick, k)
  {
    var x := NickLine(nick + "_");
    assert (o + [x]) + NickRetries(nick + "_", k - 1) == o + ([x] + NickRetries(nick + "_", k - 1));
  }

  /**
   * With `altNick` set, every `433` after the first, whenever it arrives, asks for `altNick`
   * again: the nick is stuck on it and no other nick is ever tried.
   */
  lemma {:induction false} RetryWithAlt(c: Core, altNick: Option<string>, channels: seq<string>, line: string, times: seq<int>, k: nat)
    requires IsSet(altNick) && |times| == k
    requires line != [] && ParseMsg(line).Ok? && ParseMsg(line).value.command == "433"
    ensures Run(c, altNick, channels, Repeat(line, k), times).Ok?
    ensures var r := Run(c, altNick, channels, Repeat(line, k), times).value;
      r.nick == (if k == 0 then c.nick else altNick.value) &&
      r.outbox == c.outbox + Repeat(NickLine(altNick.value), k)
    decreases k
  {
    if k == 0 {
      assert c.outbox + Repeat(NickLine(altNick.value), 0) == c.outbox;
    } else {
      var t1 := times[1..];
      assert |t1| == k - 1;
      NickInUse(c, altNick, channels, line, times[0]);
      var c1 := Next(c, altNick, channels, line, times[0]).value;
      RunRepeat(c, altNick, channels, line, times, k);
      RetryWithAlt(c1, altNick, channels, line, t1, k - 1);
      var r := Run(c1, altNick, channels, Repeat(line, k - 1), t1).value;
      RetryAltOutbox(c.outbox, c1.outbox, r.outbox, NickLine(altNick.value), k);
    }
  }

  lemma RetryAltOutbox(o: seq<string>, o1: seq<string>, o2: seq<string>, n: string, k: nat)
    requires k > 0 && o1 == o + [n] && o2 == o1 + Repeat(n, k - 1)
    ensures o2 == o + Repeat(n, k)
  {
    assert (o + [n]) + Repeat(n, k - 1) == o + ([n] + Repeat(n, k - 1));
  }

  /**
   * Every inbox item of a run of lines that all parse (or are empty), in arrival order, each
   * stamped with the time of its own pass.
   */
  function Arrivals(ls: seq<string>, times: seq<int>): (items: seq<InboxItem>)
    requires |times| == |ls|
    requires forall j :: 0 <= j < |ls| ==> Arrival(ls[j], times[j]).Ok?
    ensures |items| == |ls|
    ensures forall j :: 0 <= j < |ls| ==> items[j] == Arrival(ls[j], times[j]).value
  {
    if ls == [] then []
    else
      assert forall j :: 1 <= j < |ls| ==> ls[1..][j - 1] == ls[j] && times[1..][j - 1] == times[j];
      [Arrival(ls[0], times[0]).value] + Arrivals(ls[1..], times[1..])
  }

  /**
   * Fan-out: over a run of lines every inbox receives the same items, one per line, in arrival
   * order and stamped with the time of their pass, whoever sent them.
   */
  lemma {:induction false} FanOutInOrder(c: Core, altNick: Option<string>, channels: seq<string>, ls: seq<string>, times: seq<int>)
    requires |times| == |ls|
    requires forall j :: 0 <= j < |ls| ==> Arrival(ls[j], times[j]).Ok?
    ensures Run(c, altNick, channels, ls, times).Ok?
    ensures |Run(c, altNick, channels, ls, times).value.inboxes| == |c.inboxes|
    ensures forall i :: 0 <= i < |c.inboxes| ==>
      Run(c, altNick, channels, ls, times).value.inboxes[i] == c.inboxes[i] + Arrivals(ls, times)
    decreases |ls|
  {
    if ls == [] {
      forall i | 0 <= i < |c.inboxes| ensures c.inboxes[i] == c.inboxes[i] + Arrivals(ls, times) {
        assert Arrivals(ls, times) == [];
      }
    } else {
      var c1 := Next(c, altNick, channels, ls[0], times[0]).value;
      assert forall j :: 1 <= j < |ls| ==> ls[1..][j - 1] == ls[j] && times[1..][j - 1] == times[j];
      FanOutInOrder(c1, altNick, channels, ls[1..], times[1..]);
      var r := Run(c1, altNick, channels, ls[1..], times[1..]).value;
      assert Run(c, altNick, channels, ls, times) == Ok(r);
      var a := Arrival(ls[0], times[0]).value;
      assert Arrivals(ls, times) == [a] + Arrivals(ls[1..], times[1..]);
      FanOutStep(c.inboxes, c1.inboxes, r.inboxes, a, Arrivals(ls[1..], times[1..]));
    }
  }

  lemma FanOutStep(b0: seq<seq<InboxItem>>, b1: seq<seq<InboxItem>>, b2: seq<seq<InboxItem>>,
                   a: InboxItem, later: seq<InboxItem>)
    requires |b1| == |b0| && forall i :: 0 <= i < |b0| ==> b1[i] == b0[i] + [a]
    requires |b2| == |b1| && forall i :: 0 <= i < |b1| ==> b2[i] == b1[i] + later
    ensures |b2| == |b0| && forall i :: 0 <= i < |b0| ==> b2[i] == b0[i] + ([a] + later)
  {
    forall i | 0 <= i < |b0| ensures b2[i] == b0[i] + ([a] + later) {
      assert b2[i] == (b0[i] + [a]) + later;
    }
  }

  /** Every line one pass queues is non-empty. */
  lemma ReactionsNonEmpty(command: string, args: seq<string>, nick: string, channels: seq<string>)
    ensures [] !in Reactions(command, args, nick, channels)
  {
    var a := if command == "433" then [NickLine(nick)] else [];
    var b := if command == "PING" then [PongLine(args)] else [];
    var c := if command == "001" then JoinLines(channels) else [];
    assert [] !in a && [] !in b;
    assert [] !in c by {
      forall i | 0 <= i < |c| ensures c[i] != [] {
        assert |c[i]| > |"JOIN"|;
      }
    }
    assert Reactions(command, args, nick, channels) == a + b + c;
  }

  /**
   * The loop never queues an empty text, so the send loop, which raises on one, never stops on
   * anything the loop queued.
   */
  lemma {:induction false} OutboxNeverEmptyText(c: Core, altNick: Option<string>, channels: seq<string>, ls: seq<string>, times: seq<int>)
    requires [] !in c.outbox && |times| == |ls|
    requires Run(c, altNick, channels, ls, times).Ok?
    ensures [] !in Run(c, altNick, channels, ls, times).value.outbox
    ensures !Drain(Run(c, altNick, channels, ls, times).value.outbox).crashed
    decreases |ls|
  {
    if ls != [] {
      var c1 := Next(c, altNick, channels, ls[0], times[0]).value;
      if ls[0] != [] {
        var p := ParseMsg(ls[0]).value;
        ReactionsNonEmpty(p.command, p.args, NickAfter(p.command, c.nick, altNick), channels);
      }
      assert [] !in c1.outbox;
      OutboxNeverEmptyText(c1, altNick, channels, ls[1..], times[1..]);
    }
  }

  /**
   * End to end: whoever says `hello <nick>` to `#botbus` is, once the plugin takes the event from
   * its inbox, greeted by the nick they used.
   */
  lemma Greeted(c: Core, altNick: Option<string>, channels: seq<string>, sender: string, host: string, now: int)
    requires PrefixSafe(sender) && PrefixSafe(host) && c.inboxes != []
    ensures var line := Format(Message(Some(User(sender, host)), "PRIVMSG", [Channel], Some("hello " + c.nick)));
      Next(c, altNick, channels, line, now).Ok? &&
      var r := Next(c, altNick, channels, line, now).value;
      var item := r.inboxes[0][|r.inboxes[0]| - 1];
      HelloProcess(item, r.nick) == Ok(Some(Greeting(sender)))
  {
    var line := Format(Message(Some(User(sender, host)), "PRIVMSG", [Channel], Some("hello " + c.nick)));
    HelloLine(sender, host, c.nick, line);
    var e := EventOf(line, now);
    var r := Next(c, altNick, channels, line, now).value;
    assert r.nick == c.nick;
    assert r.inboxes[0] == c.inboxes[0] + [Arrived(e)];
    assert e.args[1] == "hello " + c.nick;
  }

  /** The line someone sends to say `hello <nick>` on `#botbus` reads back as just that. */
  lemma HelloLine(sender: string, host: string, nick: string, line: string)
    requires PrefixSafe(sender) && PrefixSafe(host)
    requires line == Format(Message(Some(User(sender, host)), "PRIVMSG", [Channel], Some("hello " + nick)))
    ensures line != [] && ParseMsg(line) == Ok(Parsed(sender, host, "PRIVMSG", [Channel, "hello " + nick]))
  {
    var m := Message(Some(User(sender, host)), "PRIVMSG", [Channel], Some("hello " + nick));
    assert IsMiddle("PRIVMSG");
    assert IsMiddle(Channel) by {
      assert Channel[0] == '#';
    }
    assert WellFormed(m);
    FormatRoundTrip(m);
    assert Expected(m) == Parsed(sender, host, "PRIVMSG", [Channel, "hello " + nick]);
  }
}
