# A verified model of the pybot IRC client core

This project models the core of a minimal IRC bot written in Python 2 with gevent (`ircbot.py`). It covers five parts:

- **Parser.** `Irc._parseMsg` reads one protocol line, `[:prefix ]command[ params][ :trailing]` (section 2.3.1 of RFC 1459), into nick, hostmask, command and arguments. Each exception it can raise is an error value.
- **Framing.** `Connection._recvLoop` cuts received text into `\r\n`-terminated lines. `Connection._sendLoop` shapes a queued text into its first line, truncated to 500 characters, plus `\r\n`, and writes it with partial `send`s.
- **Commands.** The outbound commands `cmd`, `msg`, `reply`, `_set_nick`, `_join_chans` and the registration of `_connect` are modelled as the text each one queues.
- **Event loop.** One pass of `_eventLoop` does three things:
  - It keeps events whose sender is not the bot in `self.lines`.
  - It reacts to `433` (nick in use), `PING` and `001` (welcome).
  - It fans every line out to every plugin inbox.
- **The one plugin.** `HelloPlugin.process` greets whoever says `hello <nick>`.

Modules, one per file:

- `wrappers.dfy`: `Option` and `Result`.
- `text.dfy`: the Python string operations the code uses: `find`, `in`, `split(sep, 1)`, `split(sep)`, `split()`, `sep.join` and `''.join`.
- `parser.dfy`: `_parseMsg`, plus a writer for well-formed messages that the parser provably reads back.
- `framing.dfy`: inbound framing and outbound line shaping, as functions.
- `transport.dfy`: class `Connection` with its buffers and queues. Its methods are proved against the framing functions.
- `commands.dfy`: the text `cmd` and its helpers queue.
- `plugins.dfy`: events, inbox items and `HelloPlugin.process`.
- `eventloop.dfy`: one pass of the event loop as a transition `Next` on a `Core` state, and runs of passes.
- `bot.dfy`: class `Irc`. Its `HandleLine` method is proved to perform exactly `Next`.

The model follows what the code does, including where that differs from what its docstrings, its comments or RFC 1459 would lead a reader to expect:

- **The prefix split.** The docstring of `_parseMsg` promises a nick and a hostmask for every message. But the prefix is split with `split('!')`, with no limit, so two or more `!` make the unpack fail (`PrefixUnpack`); the prefix is not split at the first `!`.
- **The `PONG` answer.** Section 4.6.2 of RFC 1459 asks a client to answer `PING` at once with a `PONG` to the server that sent it. The code answers with `cmd('PONG', args)`, and `cmd` joins its arguments with `''.join`. So `PING a :b` is answered `PONG ab`, not with the arguments repeated as they arrived (`PingArgumentsRunTogether`).
- **The empty line.** It is never parsed, but it is still put, as the raw `''`, on every plugin inbox. `HelloPlugin.process` then fails on it, because it indexes `''` by `'args'`.
- **The 500 limit.** Section 2.3 of RFC 1459 limits a message to 512 characters, the closing `\r\n` included. The code cuts every text to 500 before sending. Every text the program queues is a Python 2 byte string, so the cut counts bytes. Encoding either keeps those bytes or raises on one of 0x80 or above (see **Encoding** below). So a written line is at most 502 bytes, well within the limit (`WireLineBound`).
- **The event queue.** The docstring of `_eventLoop` says parsed events go to `self.events`. The code puts them in `self.lines`, and the model follows the code.
- **Self-echo filtering.** Only `self.lines` filters out the bot's own lines, and the filter compares against the nick held before any `433` update of the same pass. Plugin inboxes receive every line.
- **Nick retries.** Nothing bounds the retry. With an `altNick`, the bot asks for the same `altNick` again after every further `433`.

Python truthiness is modelled explicitly: an absent or empty `altNick`, and an absent or empty `prefix` of `cmd`, both count as unset. `str.split()` treats the six ASCII whitespace characters as spaces, and `splitlines()` treats `\r` and `\n` as line breaks.

## Model

| member | source | states |
|---|---|---|
| Parser.SplitPrefix | ircbot.py:147-152 | Fails with `PrefixWithoutSpace` exactly when the line starts with `:` and has no space. Otherwise the prefix is the space-free text between `:` and the first space, and the line is `":" + prefix + " " + rest`. Without `:` the prefix is empty. |
| Parser.SplitNick | ircbot.py:161-165 | Fails with `PrefixUnpack` exactly when the prefix holds two or more `!`. With none, nick and hostmask are both the prefix. With one, the prefix is `nick + "!" + hostmask` and neither part holds a `!`. |
| Parser.ParseMsg | ircbot.py:141-167 | Fails with `EmptyLine` exactly on the empty line, and with `PrefixWithoutSpace` exactly on a `:` line without a space. A parsed nick and hostmask hold no space, and the nick holds no `!`. Both are empty when the line has no prefix. |
| Parser.TokensTrailing | ircbot.py:153-156 | When the text has a `" :"`, everything after its first occurrence is one last argument, verbatim. The text before it is split on whitespace. |
| Parser.TokensShape | ircbot.py:153-158 | The argument list of `Tokens`: every token but a trailing one is a non-empty, whitespace-free word. When the text holds `" :"` the list is not empty and every token but the last is such a word; `TokensTrailing` gives the last token's content. |
| Parser.TokensPlain | ircbot.py:157-158 | Without `" :"` the arguments are the whitespace-separated words of the text. |
| Parser.ParseWithoutPrefix | ircbot.py:147-163 | On a line without a prefix, nick and hostmask are `""`. The first token is the command and the rest are the arguments. With no token it fails with `NoCommand`. |
| Parser.ParseWithPrefix | ircbot.py:151-165 | On `":" + p + " " + rest`, the prefix is `p`. `NoCommand` comes when no token remains, and `PrefixUnpack` when `p` has two or more `!`. Nick and hostmask are `p` itself when `p` has no `!`, and otherwise the parts of `SplitNick`. |
| Parser.ParseWithUserPrefix | ircbot.py:161-165 | A `nick!hostmask` prefix with a single `!` gives exactly that nick and that hostmask. |
| Parser.FormatRoundTrip | ircbot.py:141-167 | Every well-formed message written as `[:prefix ]command params[ :trailing]` parses back to its origin, command, parameters and trailing text. |
| Parser.ParsePrivmsgExample | ircbot.py:141-167 | `:nick!user@host PRIVMSG #chan :hello world` gives nick `nick`, hostmask `user@host`, command `PRIVMSG` and args `["#chan", "hello world"]`. |
| Parser.ParsePingExample | ircbot.py:147-167 | `PING :server.example` gives empty nick and hostmask, command `PING` and args `["server.example"]`. |
| Text.Find | ircbot.py:153 | `find` gives the first index where the pattern occurs, or -1 when it occurs nowhere. |
| Text.SplitOnce | ircbot.py:152-154 | `split(sep, 1)` gives one piece exactly when `sep` is absent. Otherwise it gives the text before the first `sep` and the text after it, which rejoin to the input. |
| Text.Split | ircbot.py:165 | `split(c)` gives one more piece than there are `c`. No piece holds `c`, and the pieces rejoined with `c` give back the text. |
| Text.Words | ircbot.py:155-158 | `split()` gives non-empty, whitespace-free words, and none exactly when the text is all whitespace. |
| Text.WordsLayout | ircbot.py:155-158 | Every text is the words of `split()`, in order, with whitespace gaps before, between and after them. The gaps between two words are never empty. |
| Text.LayoutWords | ircbot.py:155-158 | Conversely, a text made of words with such gaps splits into exactly those words. |
| Text.WordsCharacterised | ircbot.py:155-158 | `split()` of a text is `ws` exactly when the text is `ws` laid out with whitespace gaps, so `split()` gives the maximal runs of non-whitespace, in order. |
| Text.WordsOfJoin | ircbot.py:155-158 | Splitting space-joined words on whitespace gives back exactly those words. |
| Framing.FrameWaits | ircbot.py:44-46 | `Frame`, the inner loop, splits off no line exactly when the buffer holds no `\r\n`, and then keeps the buffer whole. |
| Framing.FrameSound | ircbot.py:44-46 | The split-off lines, each followed by `\r\n`, plus the remaining buffer, are exactly the input. No line and not the rest holds `\r\n`. |
| Framing.FrameUnique | ircbot.py:44-46 | Terminated lines plus a rest free of `\r\n` frame back into exactly those lines and that rest. |
| Framing.FrameAppend | ircbot.py:41-46 | Framing does not depend on chunk boundaries: framing `a + b` gives the lines of `a`, then the lines of `a`'s leftover followed by `b`. |
| Framing.FirstLine | ircbot.py:50 | `splitlines()[0]` is a prefix of the text with no line break, ending at the end or at a line break. |
| Framing.Payload | ircbot.py:50 | Fails exactly on the empty text. Otherwise the payload is a prefix of the text, at most 500 characters, with no line break, and ends at 500, at the end or at a line break. |
| Framing.Drain | ircbot.py:48-55 | The send loop over a queue writes each text's payload in order. It stops exactly at the first empty text, with the texts after it left queued. |
| Framing.DrainReadBack | ircbot.py:50-55 | What the send loop writes frames back into exactly the payloads it took, with nothing left over. |
| Framing.WireLineBound | ircbot.py:50-51 | One written line is at most 502 characters and frames back as a single line. |
| Transport.Connection.constructor | ircbot.py:10-18 | Empty buffers and queues, with the given host, port and timeout. |
| Transport.Connection.Receive | ircbot.py:41-46 | After a received chunk, `inQueue` has the framed lines of old buffer plus chunk appended, and the buffer is the rest, which holds no `\r\n`. |
| Transport.Connection.ReceiveAll | ircbot.py:39-46 | Over a sequence of chunks, `inQueue` and the buffer equal the framing of old buffer plus all the chunks. |
| Transport.Connection.SendStep | ircbot.py:49-55 | On an empty queue it blocks. On an empty text it dequeues it and crashes, writing nothing. Otherwise it dequeues the text, writes exactly its payload plus `\r\n`, and leaves the send buffer empty. |
| Transport.Connection.SendAll | ircbot.py:48-55 | Writes exactly the terminated payloads of `Drain` of the queue, leaves `Drain`'s leftover queued, and crashes exactly when `Drain` does. |
| Commands.CmdLine | ircbot.py:226-231 | `cmd` queues the prefix (if given), then the command, one space, and the arguments with no separator; it is never empty. |
| Commands.MsgLine | ircbot.py:223-224 | `msg(target, text)` queues exactly `PRIVMSG target :text`. |
| Commands.NickLine | ircbot.py:214-215 | `_set_nick(n)` queues exactly `NICK n`. |
| Commands.ReplyLine | ircbot.py:220-221 | `reply(prefix, text)` queues exactly `PRIVMSG <reply target> :text`. |
| Commands.UserLine | ircbot.py:126 | The registration queues exactly `USER n n n :realname`. |
| Commands.PongLine | ircbot.py:200-201 | The answer to `PING` is `PONG ` followed by the parsed arguments run together. |
| Commands.JoinLines | ircbot.py:217-218 | One `JOIN` line per channel, in configuration order. |
| Commands.ReplyTarget | ircbot.py:220-221 | The reply target is the text before the first `!`, and the whole prefix when there is none. |
| Commands.CmdLineReadsBack | ircbot.py:226-231 | `cmd` with one argument of middle parameters and a trailing text writes a line the parser reads back as those parameters and that text. |
| Commands.MsgLineParses | ircbot.py:223-224 | `msg(target, text)` reads back as `PRIVMSG` with args `[target, text]`. |
| Commands.ReplyGoesToNick | ircbot.py:220-221 | A reply goes to the same nick the parser takes from the prefix. |
| Commands.NickLineParses | ircbot.py:214-215 | `_set_nick(n)` reads back as `NICK` with args `[n]`. |
| Commands.JoinLinesParse | ircbot.py:217-218 | Each `JOIN` line reads back with its channel as the only argument. |
| Commands.UserLineParses | ircbot.py:126 | The `USER` line reads back as the nick three times and the whole real name. |
| Commands.PingAnswered | ircbot.py:200-201 | `PING :token` parses to args `[token]`, and the answer is exactly `PONG token`. |
| Commands.PingArgumentsRunTogether | ircbot.py:229-231 | `PING a :b` parses to args `[a, b]` and is answered `PONG ab`: the arguments are run together. |
| Plugins.HelloProcess | ircbot.py:86-90 | Fails exactly on the empty line. Greets exactly on `PRIVMSG` with an argument equal to `hello <current nick>`, and the greeting is `Hello <sender>.` to `#botbus`. |
| Plugins.GreetingParses | ircbot.py:89 | The greeting reads back as `PRIVMSG` to `#botbus` naming the sender. |
| Plugins.HelloIsExact | ircbot.py:87-88 | The test is an exact, case-sensitive match of a whole argument. |
| EventLoop.Arrival | ircbot.py:184-187 | The inbox item fails exactly when a non-empty line fails to parse. It is the raw empty line exactly for the empty line. Otherwise it is the parsed nick, hostmask, command and arguments, stamped with `now`. |
| EventLoop.Next | ircbot.py:177-210 | Fails exactly on a non-empty line that fails to parse, with the parser's error. Otherwise every inbox gains the line's item, `self.lines` gains the event exactly when its sender differs from the nick held before the pass and is left as it was otherwise, the outbound queue only grows, the nick changes only on `433`, and the empty line changes nothing else. |
| EventLoop.NickChanges | ircbot.py:193-198 | `NickAfter`: the nick changes exactly on `433`, unless it already is the set `altNick`. After a `433` it is never empty. |
| EventLoop.ReactionsQuiet | ircbot.py:192-205 | `Reactions`: nothing is queued exactly when the command is none of `433`, `PING` and `001`, or is `001` with no channels configured. |
| EventLoop.NickInUse | ircbot.py:193-198 | On `433` the nick becomes `altNick` if set, else `nick + "_"`, and `NICK <new nick>` is queued. |
| EventLoop.PingAnswer | ircbot.py:200-201 | Any line that parses with command `PING`, with a prefix or not and with any arguments, queues exactly `PongLine` of its arguments and keeps the nick. |
| EventLoop.PingPong | ircbot.py:200-201 | `PING :token` queues exactly `PONG token` and keeps the nick. |
| EventLoop.Welcome | ircbot.py:203-205 | `001` queues one `JOIN` per channel, in order, and keeps the nick. |
| EventLoop.OtherCommandsQuiet | ircbot.py:192-205 | Any other command changes neither the nick nor the outbound queue. |
| EventLoop.RetryWithoutAlt | ircbot.py:193-198 | Without `altNick`, `k` successive `433`s, each on its own pass with its own timestamp, give nick plus `k` underscores and one `NICK` per attempt, for every `k`. |
| EventLoop.RetryWithAlt | ircbot.py:193-198 | With `altNick`, `k` successive `433`s, each on its own pass with its own timestamp, leave the nick on `altNick` and queue `NICK altNick` `k` times. |
| EventLoop.FanOutInOrder | ircbot.py:177-208 | Over a run of lines, each pass reading the clock anew, every inbox receives the same items, one per line, in arrival order, each event stamped with the time of its own pass. |
| EventLoop.ReactionsNonEmpty | ircbot.py:193-205 | No reaction queues an empty text. |
| EventLoop.OutboxNeverEmptyText | ircbot.py:177-210 | Over any run, at any timestamps, the outbound queue never holds an empty text, so the send loop never stops on one. |
| EventLoop.Greeted | ircbot.py:86-90 | Whoever says `hello <nick>` to `#botbus` is greeted by the nick they used, once the plugin processes the event. |
| Bot.Irc.constructor | ircbot.py:100-127 | Stores the settings with no events, a single empty plugin inbox, and exactly `USER n n n :realname` then `NICK n` queued. The new connection has empty buffers, nothing received or written, and the given server, port and SSL setting. |
| Bot.Irc.Send | ircbot.py:233-235 | `_send` appends the text to the outbound queue and changes nothing else. |
| Bot.Irc.Cmd | ircbot.py:226-231 | Appends exactly `CmdLine` to the outbound queue. |
| Bot.Irc.Msg | ircbot.py:223-224 | Appends exactly the `PRIVMSG` line. |
| Bot.Irc.Reply | ircbot.py:220-221 | Appends the `PRIVMSG` line to the nick before the first `!`. |
| Bot.Irc.SetNick | ircbot.py:214-215 | Appends `NICK n`; the nick field does not change. |
| Bot.Irc.JoinChans | ircbot.py:217-218 | Appends the `JOIN` lines of the channels, in order. |
| Bot.Irc.HandleLine | ircbot.py:182-210 | Performs exactly one `Next` on the bot's state. It succeeds exactly when `Next` does, leaves the state unchanged when the parse raises, and always records the timestamp. |
| Bot.Irc.React | ircbot.py:193-205 | The nick becomes `NickAfter`, and exactly the reactions, in order, are queued. |
| Bot.Irc.Deliver | ircbot.py:207-208 | Every inbox receives the item, in plugin order. |
| Bot.Irc.Step | ircbot.py:178-210 | With nothing received it waits and changes nothing, the timestamp included. Otherwise it dequeues the oldest received line, sets the timestamp to `now`, and performs `Next` on it, or reports the parse error. |
| Bot.Irc.PluginStep | ircbot.py:72-79 | The plugin takes its oldest inbox item and queues exactly the greeting `HelloProcess` decides. A fault queues nothing, and the other inboxes are untouched. |

## Left out

- **Networking.** Sockets, SSL wrapping, `connect`/`disconnect` and `_createSocket` (ircbot.py:20-37) are I/O. `recv` is the argument of `Receive`, and `send` is a non-deterministic count `0 < sent <= |buffer|`. A `recv` returning no data is a chunk `""`, as the code has no case for it.
- **Concurrency.** Greenlet scheduling (`gevent.spawn`, `joinall`, `killall`, `Greenlet.start`, `gevent.sleep`) is not modelled. Each loop body is one atomic method call. The endless loops are runs of those calls: `ReceiveAll`, `SendAll`, `Step`, `PluginStep`, and `Run` on the pure side.
- **Plugins.** `Plugin.run` is modelled only as `PluginStep`. There is a single plugin, `HelloPlugin`, represented by its inbox in `Irc.inboxes`. `_loadPlugins` (ircbot.py:132-137) prints, points each plugin's `master` at the bot and starts greenlets. `PluginStep` takes the place of `master`: it uses the bot's own nick and outbound queue.
- **Faults.** When `process` raises, the plugin's greenlet ends. `PluginStep` reports `Faulted`, but the model does not stop later calls for that inbox.
- **Send loop crash.** `_sendLoop` raises `IndexError` on an empty text (ircbot.py:50), which ends the send loop for good. `SendStep` reports `Crashed`, and `SendAll` stops there, but the model does not forbid later calls of `SendStep`.
- **Parse errors.** When `_parseMsg` raises, the exception ends the event loop. `Step` reports `Failed`, but the model does not forbid later steps.
- **The constructor.** `Irc.constructor` stops after `_connect`. The unending `_eventLoop` that `__init__` then enters is `Step`.
- **Time.** `time.time()` (ircbot.py:182) is read once per pass. It is the integer parameter `now` of `Next` and `Step`, and a run of passes takes one timestamp per line, `times[j]` for line `j`. `time.ctime` is only printed. The `print` logging and `Message` (ircbot.py:92-94), which is unused, are left out.
- **Encoding.** `encode('utf-8', 'replace')` is the identity, so characters stand for bytes. `Framing.Payload` truncates to 500 characters. Python 2's `str.encode` first decodes the byte string as ASCII, so a text holding a byte of 0x80 or above raises `UnicodeDecodeError` at ircbot.py:51 and ends the send loop; that crash path is not modelled.
- **Unused state.** The `gevent.queue.Empty` branches cannot be reached, because `get()` blocks. The unused `self.line` dictionary and the unused lower-cased list on ircbot.py:87 are left out.
- **Startup glue.** `init.py` is process bootstrap and signal handling. It is not part of this model.
- **Character classes.** `str.split()` and `splitlines()` use the fixed sets Python 2 applies to byte strings: six whitespace characters, and the breaks `\r` and `\n`. The wider Unicode sets are not modelled.
