/**
 * What the event loop hands to plugins, and `HelloPlugin.process`: greet on `#botbus` whoever
 * says `hello <bot nick>`.
 */
module Plugins {
  import opened Wrappers
  import opened Text
  import opened Parser
  import opened Commands

  /** The dictionary the event loop builds from a parsed line. */
  datatype Event = Event(timestamp: int, nick: string, hostmask: string, command: string, args: seq<string>)

  /**
   * What a plugin inbox holds: a parsed event, or the raw empty line, which the event loop passes
   * on unparsed.
   */
  datatype InboxItem = Blank | Arrived(event: Event)

  /** `process` indexes its argument by `'args'`; on the empty line this raises. */
  datatype PluginFault = NotAnEvent

  const Channel: string := "#botbus"

  /** The greeting `process` sends for a sender. */
  function Greeting(sender: string): string {
    MsgLine(Channel, "Hello " + sender + ".")
  }

  /**
   * `HelloPlugin.process(line)` while the bot's nick is `myNick`: the line it queues, if any.
   * The test is exact and case-sensitive: one whole argument must equal `hello <myNick>`.
   */
  function HelloProcess(item: InboxItem, myNick: string): (r: Result<Option<string>, PluginFault>)
    ensures r.Err? <==> item.Blank?
    ensures r.Ok? && r.value.Some? <==>
      item.Arrived? && item.event.command == "PRIVMSG" &&
      exists i :: 0 <= i < |item.event.args| && item.event.args[i] == "hello " + myNick
    ensures r.Ok? && r.value.Some? ==> r.value.value == Greeting(item.event.nick)
  {
    match item
    case Blank => Err(NotAnEvent)
    case Arrived(e) =>
      if e.command == "PRIVMSG" && "hello " + myNick in e.args then Ok(Some(Greeting(e.nick)))
      else Ok(None)
  }

  /** The greeting reads back as a message to `#botbus` whose text names the sender. */
  lemma GreetingParses(sender: string)
    ensures ParseMsg(Greeting(sender)) == Ok(Parsed("", "", "PRIVMSG", [Channel, "Hello " + sender + "."]))
  {
    assert IsMiddle(Channel) by {
      assert Channel[0] == '#';
    }
    MsgLineParses(Channel, "Hello " + sender + ".");
  }

  /**
   * Only the exact text triggers a greeting: a different case or any extra character inside the
   * same argument does not.
   */
  lemma HelloIsExact(e: Event, myNick: string, said: string)
    requires e.command == "PRIVMSG" && e.args == [Channel, said]
    ensures HelloProcess(Arrived(e), myNick) == Ok(Some(Greeting(e.nick))) <==> said == "hello " + myNick
  {
    assert Channel != "hello " + myNick by {
      assert Channel[0] != ("hello " + myNick)[0];
    }
    if said == "hello " + myNick {
      assert e.args[1] == "hello " + myNick;
    }
  }
}
