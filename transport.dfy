/**
 * `Connection`: the receive and send halves of the transport. The socket itself is not part of
 * the model: `recv` is the `data` argument of `Receive`, and `send` accepts a non-deterministic,
 * non-zero number of the characters offered; `written` records everything it accepted.
 */
module Transport {
  import opened Wrappers
  import opened Text
  import opened Framing

  datatype SendOutcome =
    | Blocked   // the outbound queue is empty, so `get` waits
    | Sent      // one line was written in full
    | Crashed   // the queued text was empty and `splitlines()[0]` raised

  class Connection {
    const host: string
    const port: int
    const ssl: bool
    const timeout: int
    var inBuffer: string
    var outBuffer: string
    var inQueue: seq<string>
    var outQueue: seq<string>
    var written: string

    /** Between two loop passes the receive buffer holds no terminator and the send buffer is empty. */
    ghost predicate Valid()
      reads this
    {
      NoCRLF(inBuffer) && outBuffer == []
    }

    constructor (host: string, port: int, ssl: bool, timeout: int)
      ensures Valid()
      ensures this.host == host && this.port == port && this.ssl == ssl && this.timeout == timeout
      ensures inBuffer == [] && outBuffer == [] && inQueue == [] && outQueue == [] && written == []
    {
      this.host, this.port, this.ssl, this.timeout := host, port, ssl, timeout;
      inBuffer, outBuffer := [], [];
      inQueue, outQueue := [], [];
      written := [];
    }

    /** One pass of `_recvLoop` after `recv` returned `data`. */
    method Receive(data: string)
      modifies this`inBuffer, this`inQueue
      ensures inQueue == old(inQueue) + Frame(old(inBuffer) + data).lines
      ensures inBuffer == Frame(old(inBuffer) + data).rest
      ensures NoCRLF(inBuffer)
    {
      inBuffer := inBuffer + data;
      ghost var total := inBuffer;
      ghost var produced: seq<string> := [];
      while Contains(inBuffer, CRLF)
        invariant inQueue == old(inQueue) + produced
        invariant Frame(total) == Framed(produced + Frame(inBuffer).lines, Frame(inBuffer).rest)
        decreases |inBuffer|
      {
        var parts := SplitOnce(inBuffer, CRLF);
        var line := parts[0];
        ReceiveLoopStep(total, produced, inBuffer);
        inBuffer := parts[1];
        inQueue := inQueue + [line];
        produced := produced + [line];
      }
      ReceiveLoopDone(total, produced, inBuffer);
      FrameSound(total);
    }

    /** `_recvLoop` over the successive results of `recv`. */
    method ReceiveAll(chunks: seq<string>)
      requires Valid()
      modifies this`inBuffer, this`inQueue
      ensures Valid()
      ensures inQueue == old(inQueue) + Frame(old(inBuffer) + Concat(chunks)).lines
      ensures inBuffer == Frame(old(inBuffer) + Concat(chunks)).rest
    {
      ghost var start := inBuffer;
      assert Frame(start) == Framed([], start);
      assert start + Concat(chunks[..0]) == start by {
        assert chunks[..0] == [];
      }
      var k := 0;
      while k < |chunks|
        invariant 0 <= k <= |chunks|
        invariant Valid()
        invariant inQueue == old(inQueue) + Frame(start + Concat(chunks[..k])).lines
        invariant inBuffer == Frame(start + Concat(chunks[..k])).rest
      {
        ghost var q := inQueue;
        Receive(chunks[k]);
        ReceiveAllStep(old(inQueue), q, inQueue, inBuffer, start, chunks, k);
        k := k + 1;
      }
      assert chunks[..k] == chunks;
    }

    /** One pass of `_sendLoop`: take one queued text, write its payload and a terminator in full. */
    method SendStep() returns (outcome: SendOutcome)
      requires Valid()
      modifies this`outBuffer, this`outQueue, this`written
      ensures Valid()
      ensures old(outQueue) == [] ==> outcome == Blocked && outQueue == [] && written == old(written)
      ensures old(outQueue) != [] ==> outQueue == old(outQueue)[1..]
      ensures old(outQueue) != [] && old(outQueue)[0] == [] ==> outcome == Crashed && written == old(written)
      ensures old(outQueue) != [] && old(outQueue)[0] != [] ==>
        outcome == Sent && written == old(written) + Payload(old(outQueue)[0]).value + CRLF
    {
      if outQueue == [] {
        return Blocked;
      }
      var text := outQueue[0];
      outQueue := outQueue[1..];
      var payload := Payload(text);
      if payload.None? {
        return Crashed;
      }
      outBuffer := outBuffer + payload.value + CRLF;
      while outBuffer != []
        invariant written + outBuffer == old(written) + payload.value + CRLF
        invariant outQueue == old(outQueue)[1..]
        decreases |outBuffer|
      {
        var sent :| 0 < sent <= |outBuffer|;
        assert outBuffer[..sent] + outBuffer[sent..] == outBuffer;
        written := written + outBuffer[..sent];
        outBuffer := outBuffer[sent..];
      }
      assert written + [] == written;
      outcome := Sent;
    }

    /** `_sendLoop` until the queue is empty or an empty text ends it. */
    method SendAll() returns (crashed: bool)
      requires Valid()
      modifies this`outBuffer, this`outQueue, this`written
      ensures Valid()
      ensures written == old(written) + Terminated(Drain(old(outQueue)).lines)
      ensures outQueue == Drain(old(outQueue)).left
      ensures crashed == Drain(old(outQueue)).crashed
    {
      ghost var q := outQueue;
      ghost var sentLines: seq<string> := [];
      crashed := false;
      while outQueue != [] && !crashed
        invariant Valid()
        invariant written == old(written) + Terminated(sentLines)
        invariant !crashed ==> Drain(q) == Drained(sentLines + Drain(outQueue).lines, Drain(outQueue).left, Drain(outQueue).crashed)
        invariant crashed ==> Drain(q) == Drained(sentLines, outQueue, true)
        decreases |outQueue|
      {
        ghost var before, w := outQueue, written;
        var outcome := SendStep();
        if outcome == Crashed {
          SendAllCrash(q, sentLines, before);
          crashed := true;
        } else {
          ghost var p := Payload(before[0]).value;
          SendAllStep(q, sentLines, before);
          TerminatedSnoc(sentLines, p);
          WrittenSnoc(old(written), Terminated(sentLines), p, w, written);
          sentLines := sentLines + [p];
        }
      }
      if !crashed {
        assert sentLines + [] == sentLines;
      }
    }
  }

  lemma ReceiveLoopStep(total: string, produced: seq<string>, buf: string)
    requires Contains(buf, CRLF)
    requires Frame(total) == Framed(produced + Frame(buf).lines, Frame(buf).rest)
    ensures var parts := SplitOnce(buf, CRLF);
      |parts| == 2 && |parts[1]| < |buf| &&
      Frame(total) == Framed((produced + [parts[0]]) + Frame(parts[1]).lines, Frame(parts[1]).rest)
  {
    var parts := SplitOnce(buf, CRLF);
    assert Frame(buf) == Framed([parts[0]] + Frame(parts[1]).lines, Frame(parts[1]).rest);
    assert (produced + [parts[0]]) + Frame(parts[1]).lines == produced + ([parts[0]] + Frame(parts[1]).lines);
  }

  /** One more chunk received keeps the queue and the buffer equal to the framing of everything so far. */
  lemma ReceiveAllStep(q0: seq<string>, q: seq<string>, q': seq<string>, buf': string,
                       start: string, chunks: seq<string>, k: nat)
    requires k < |chunks|
    requires q == q0 + Frame(start + Concat(chunks[..k])).lines
    requires var step := Frame(Frame(start + Concat(chunks[..k])).rest + chunks[k]);
      q' == q + step.lines && buf' == step.rest
    ensures q' == q0 + Frame(start + Concat(chunks[..k + 1])).lines
    ensures buf' == Frame(start + Concat(chunks[..k + 1])).rest
  {
    var before := start + Concat(chunks[..k]);
    var next := start + Concat(chunks[..k + 1]);
    ChunksSnoc(start, chunks, k, before, next);
    FrameAppend(before, chunks[k]);
    QueueStep(q0, q, q', buf', Frame(before), Frame(Frame(before).rest + chunks[k]), Frame(next));
  }

  lemma ChunksSnoc(start: string, chunks: seq<string>, k: nat, before: string, next: string)
    requires k < |chunks|
    requires before == start + Concat(chunks[..k])
    requires next == start + Concat(chunks[..k + 1])
    ensures next == before + chunks[k]
  {
    ConcatSnoc(chunks, k);
    Reassociate(start, Concat(chunks[..k]), chunks[k], before);
  }

  lemma QueueStep(q0: seq<string>, q: seq<string>, q': seq<string>, buf': string,
                  f: Framed, step: Framed, whole: Framed)
    requires whole == Framed(f.lines + step.lines, step.rest)
    requires q == q0 + f.lines
    requires q' == q + step.lines && buf' == step.rest
    ensures q' == q0 + whole.lines && buf' == whole.rest
  {
    assert (q0 + f.lines) + step.lines == q0 + (f.lines + step.lines);
  }

  lemma ReceiveLoopDone(total: string, produced: seq<string>, buf: string)
    requires !Contains(buf, CRLF)
    requires Frame(total) == Framed(produced + Frame(buf).lines, Frame(buf).rest)
    ensures Frame(total) == Framed(produced, buf)
  {
    assert Frame(buf) == Framed([], buf);
    assert produced + [] == produced;
  }

  lemma SendAllStep(q: seq<string>, sentLines: seq<string>, before: seq<string>)
    requires before != [] && before[0] != []
    requires Drain(q) == Drained(sentLines + Drain(before).lines, Drain(before).left, Drain(before).crashed)
    ensures var after := before[1..];
      Drain(q) == Drained((sentLines + [Payload(before[0]).value]) + Drain(after).lines, Drain(after).left, Drain(after).crashed)
  {
    var p := Payload(before[0]).value;
    var after := Drain(before[1..]);
    DrainStep(before);
    LinesSnoc(sentLines, p, after.lines);
  }

  lemma LinesSnoc(a: seq<string>, p: string, b: seq<string>)
    ensures (a + [p]) + b == a + ([p] + b)
  {
  }

  lemma WrittenSnoc(w0: string, t: string, p: string, w: string, w': string)
    requires w == w0 + t && w' == w + p + CRLF
    ensures w' == w0 + (t + p + CRLF)
  {
  }

  lemma SendAllCrash(q: seq<string>, sentLines: seq<string>, before: seq<string>)
    requires before != [] && before[0] == []
    requires Drain(q) == Drained(sentLines + Drain(before).lines, Drain(before).left, Drain(before).crashed)
    ensures Drain(q) == Drained(sentLines, before[1..], true)
  {
    DrainStep(before);
    assert sentLines + [] == sentLines;
  }

  lemma DrainStep(q: seq<string>)
    requires q != []
    ensures q[0] == [] ==> Drain(q) == Drained([], q[1..], true)
    ensures q[0] != [] ==>
      Drain(q) == Drained([Payload(q[0]).value] + Drain(q[1..]).lines, Drain(q[1..]).left, Drain(q[1..]).crashed)
  {
  }

  lemma TerminatedSnoc(lines: seq<string>, p: string)
    ensures Terminated(lines + [p]) == Terminated(lines) + p + CRLF
  {
    TerminatedAppend(lines, [p]);
    assert Terminated([p]) == p + CRLF by {
      assert [p][1..] == [];
    }
  }

  lemma ConcatSnoc(chunks: seq<string>, k: nat)
    requires k < |chunks|
    ensures Concat(chunks[..k + 1]) == Concat(chunks[..k]) + chunks[k]
  {
    ConcatAppend(chunks[..k], [chunks[k]]);
    assert chunks[..k + 1] == chunks[..k] + [chunks[k]];
    assert Concat([chunks[k]]) == chunks[k] by {
      assert [chunks[k]][1..] == [];
    }
  }

  lemma {:induction false} ConcatAppend(a: seq<string>, b: seq<string>)
    ensures Concat(a + b) == Concat(a) + Concat(b)
  {
    if a != [] {
      assert (a + b)[1..] == a[1..] + b;
      ConcatAppend(a[1..], b);
    } else {
      assert a + b == b;
    }
  }
}
