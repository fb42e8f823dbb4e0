/**
 * The line framing of `Connection`, as functions on text: how a receive buffer is cut into
 * complete `\r\n`-terminated lines, and how one queued outbound text becomes the bytes that are
 * written (its first line, at most 500 characters, then `\r\n`).
 */
module Framing {
  import opened Wrappers
  import opened Text

  const CRLF: string := "\r\n"

  /** The protocol's limit on the payload of one outbound line; the terminator makes it 502. */
  const MaxPayload: nat := 500

  predicate NoCRLF(s: string) {
    !Contains(s, CRLF)
  }

  /** Complete lines, in order, and the partial text after the last terminator. */
  datatype Framed = Framed(lines: seq<string>, rest: string)

  /** Each line followed by its terminator. */
  function Terminated(lines: seq<string>): string {
    if lines == [] then [] else lines[0] + CRLF + Terminated(lines[1..])
  }

  lemma {:induction false} TerminatedAppend(a: seq<string>, b: seq<string>)
    ensures Terminated(a + b) == Terminated(a) + Terminated(b)
  {
    if a != [] {
      assert (a + b)[1..] == a[1..] + b;
      TerminatedAppend(a[1..], b);
    } else {
      assert a + b == b;
    }
  }

  /**
   * What `while '\r\n' in buf: line, buf = buf.split('\r\n', 1)` does to `buf`: the lines split
   * off, in order, and the text left in the buffer.
   */
  function Frame(s: string): Framed
    decreases |s|
  {
    if !Contains(s, CRLF) then Framed([], s)
    else
      var parts := SplitOnce(s, CRLF);
      var f := Frame(parts[1]);
      Framed([parts[0]] + f.lines, f.rest)
  }

  /**
   * The loop splits off no line exactly when the buffer holds no `\r\n`; the buffer is then kept
   * whole, waiting for more data.
   */
  lemma FrameWaits(s: string)
    ensures Frame(s).lines == [] <==> NoCRLF(s)
    ensures NoCRLF(s) ==> Frame(s).rest == s
  {
  }

  /** The lines and the rest put back together are the text; no terminator is left in any of them. */
  lemma {:induction false} FrameSound(s: string)
    ensures Terminated(Frame(s).lines) + Frame(s).rest == s
    ensures NoCRLF(Frame(s).rest)
    ensures forall i :: 0 <= i < |Frame(s).lines| ==> NoCRLF(Frame(s).lines[i])
    decreases |s|
  {
    if Contains(s, CRLF) {
      var parts := SplitOnce(s, CRLF);
      var f := Frame(parts[1]);
      FrameSound(parts[1]);
      var lines := [parts[0]] + f.lines;
      assert Frame(s) == Framed(lines, f.rest);
      assert lines[1..] == f.lines;
      var head := parts[0] + CRLF;
      assert Terminated(lines) == head + Terminated(f.lines);
      Reassociate(head, Terminated(f.lines), f.rest, Terminated(lines));
      assert Terminated(lines) + f.rest == head + parts[1];
      assert forall i :: 1 <= i < |lines| ==> lines[i] == f.lines[i - 1];
    }
  }

  /** A text written as terminated lines and a rest is framed back into exactly those lines and that rest. */
  lemma {:induction false} FrameUnique(lines: seq<string>, rest: string)
    requires forall i :: 0 <= i < |lines| ==> NoCRLF(lines[i])
    requires NoCRLF(rest)
    ensures Frame(Terminated(lines) + rest) == Framed(lines, rest)
  {
    if lines == [] {
      assert Terminated(lines) + rest == rest;
    } else {
      var tail := Terminated(lines[1..]) + rest;
      var s := Terminated(lines) + rest;
      assert s == lines[0] + CRLF + tail;
      FindAfter(lines[0], CRLF, tail);
      assert s[..|lines[0]|] == lines[0] && s[|lines[0]| + 2..] == tail;
      assert SplitOnce(s, CRLF) == [lines[0], tail];
      FrameUnique(lines[1..], rest);
      assert lines == [lines[0]] + lines[1..];
    }
  }

  /**
   * Framing does not depend on where a chunk boundary falls: framing `a + b` yields the lines of
   * `a`, then the lines of what `a` left over followed by `b`.
   */
  lemma FrameAppend(a: string, b: string)
    ensures Frame(a + b) ==
      Framed(Frame(a).lines + Frame(Frame(a).rest + b).lines, Frame(Frame(a).rest + b).rest)
  {
    var f := Frame(a);
    var g := Frame(f.rest + b);
    FrameSound(a);
    FrameSound(f.rest + b);
    TerminatedAppend(f.lines, g.lines);
    assert a + b == Terminated(f.lines + g.lines) + g.rest by {
      Reassociate(Terminated(f.lines), f.rest, b, a);
      Reassociate(Terminated(f.lines), Terminated(g.lines), g.rest, Terminated(f.lines) + Terminated(g.lines));
    }
    AllNoCRLF(f.lines, g.lines);
    FrameUnique(f.lines + g.lines, g.rest);
  }

  lemma AllNoCRLF(a: seq<string>, b: seq<string>)
    requires forall i :: 0 <= i < |a| ==> NoCRLF(a[i])
    requires forall i :: 0 <= i < |b| ==> NoCRLF(b[i])
    ensures forall i :: 0 <= i < |a + b| ==> NoCRLF((a + b)[i])
  {
    forall i | 0 <= i < |a + b| ensures NoCRLF((a + b)[i]) {
      if i >= |a| { assert (a + b)[i] == b[i - |a|]; }
    }
  }

  predicate IsLineBreak(c: char) {
    c == '\r' || c == '\n'
  }

  predicate NoLineBreak(s: string) {
    forall i :: 0 <= i < |s| ==> !IsLineBreak(s[i])
  }

  lemma NoLineBreakNoCRLF(s: string)
    requires NoLineBreak(s)
    ensures NoCRLF(s)
  {
    forall j | 0 <= j ensures !OccursAt(s, CRLF, j) {
      if j + 2 <= |s| {
        assert !IsLineBreak(s[j]);
        assert s[j..j + 2][0] == s[j];
      }
    }
  }

  /** The text before the first line break: what `splitlines()[0]` is for a non-empty text. */
  function FirstLine(s: string): (r: string)
    ensures r <= s && NoLineBreak(r)
    ensures |r| == |s| || IsLineBreak(s[|r|])
  {
    if s == [] || IsLineBreak(s[0]) then []
    else [s[0]] + FirstLine(s[1..])
  }

  /**
   * `s.splitlines()[0][:500]`, or `None` for the empty text, on which `splitlines()` is empty
   * and the indexing raises.
   */
  function Payload(s: string): (r: Option<string>)
    ensures r.None? <==> s == []
    ensures r.Some? ==> r.value <= s && |r.value| <= MaxPayload && NoLineBreak(r.value)
    ensures r.Some? ==> |r.value| == MaxPayload || |r.value| == |s| || IsLineBreak(s[|r.value|])
  {
    if s == [] then None
    else
      var first := FirstLine(s);
      if |first| <= MaxPayload then Some(first) else Some(first[..MaxPayload])
  }

  /** What a run of the send loop over a queue writes, and where it stops. */
  datatype Drained = Drained(lines: seq<string>, left: seq<string>, crashed: bool)

  /**
   * The send loop over `q` until `get` would block: each text is written as its payload and a
   * terminator; an empty text stops the loop with the exception `splitlines()[0]` raises.
   */
  function Drain(q: seq<string>): (d: Drained)
    ensures |d.lines| <= |q|
    ensures forall i :: 0 <= i < |d.lines| ==> Payload(q[i]) == Some(d.lines[i])
    ensures d.crashed <==> [] in q
    ensures d.crashed ==> |d.lines| < |q|
    ensures d.crashed ==> q[|d.lines|] == [] && d.left == q[|d.lines| + 1..]
    ensures !d.crashed ==> |d.lines| == |q| && d.left == []
  {
    if q == [] then Drained([], [], false)
    else match Payload(q[0])
      case None => Drained([], q[1..], true)
      case Some(p) =>
        var d := Drain(q[1..]);
        assert [] in q <==> [] in q[1..] by {
          assert q == [q[0]] + q[1..];
        }
        Drained([p] + d.lines, d.left, d.crashed)
  }

  /**
   * Read back by the receiving framing, the bytes the send loop writes are exactly the payloads
   * it took from the queue, in order, with nothing left over.
   */
  lemma DrainReadBack(q: seq<string>)
    ensures Frame(Terminated(Drain(q).lines)) == Framed(Drain(q).lines, [])
  {
    var lines := Drain(q).lines;
    forall i | 0 <= i < |lines| ensures NoCRLF(lines[i]) {
      NoLineBreakNoCRLF(lines[i]);
    }
    assert Terminated(lines) + [] == Terminated(lines);
    FrameUnique(lines, []);
  }

  /** One written line is at most 502 characters and holds no line break but its terminator. */
  lemma WireLineBound(s: string)
    requires s != []
    ensures var w := Payload(s).value + CRLF;
      |w| <= MaxPayload + 2 && Frame(w) == Framed([Payload(s).value], [])
  {
    var p := Payload(s).value;
    NoLineBreakNoCRLF(p);
    assert Terminated([p]) + [] == p + CRLF;
    FrameUnique([p], []);
  }
}
