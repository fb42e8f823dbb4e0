/**
 * The handful of Python 2 string operations the bot is built from:
 * `find`, `in`, `split(sep, 1)`, `split(sep)`, `split()`, `sep.join(...)`
 * and `''.join(...)`, on strings as sequences of characters.
 */
module Text {

  /** The characters Python 2's argument-less `str.split()` treats as whitespace. */
  predicate IsSpace(c: char) {
    c == ' ' || c == '\t' || c == '\n' || c == '\r' || c == '\U{0B}' || c == '\U{0C}'
  }

  predicate NoSpace(w: string) {
    forall i :: 0 <= i < |w| ==> !IsSpace(w[i])
  }

  predicate AllSpace(w: string) {
    forall i :: 0 <= i < |w| ==> IsSpace(w[i])
  }

  /** A token of `str.split()`: non-empty and free of whitespace. */
  predicate IsWord(w: string) {
    |w| > 0 && NoSpace(w)
  }

  /** `pat` occurs in `s` starting at index `i`. */
  predicate OccursAt(s: string, pat: string, i: int) {
    0 <= i && i + |pat| <= |s| && s[i..i + |pat|] == pat
  }

  lemma OccursAtTail(s: string, pat: string, j: int)
    requires |s| > 0 && j >= 1
    ensures OccursAt(s, pat, j) <==> OccursAt(s[1..], pat, j - 1)
  {
    if j + |pat| <= |s| {
      assert s[1..][j - 1..j - 1 + |pat|] == s[j..j + |pat|];
    }
  }

  /** Python's `s.find(pat)`: the first index where `pat` occurs, or -1. */
  function Find(s: string, pat: string): (r: int)
    ensures -1 <= r
    ensures r >= 0 ==> OccursAt(s, pat, r)
    ensures forall j :: 0 <= j && (r < 0 || j < r) ==> !OccursAt(s, pat, j)
    decreases |s|
  {
    if |s| < |pat| then -1
    else if s[..|pat|] == pat then 0
    else
      var k := Find(s[1..], pat);
      assert forall j :: 1 <= j ==> (OccursAt(s, pat, j) <==> OccursAt(s[1..], pat, j - 1)) by {
        forall j | 1 <= j { OccursAtTail(s, pat, j); }
      }
      if k < 0 then -1 else k + 1
  }

  /** The first occurrence of `pat` is at `i` exactly when `pat` occurs there and nowhere before. */
  lemma FindIs(s: string, pat: string, i: nat)
    requires OccursAt(s, pat, i)
    requires forall j :: 0 <= j < i ==> !OccursAt(s, pat, j)
    ensures Find(s, pat) == i
  {
  }

  /** Python's `pat in s`. */
  predicate Contains(s: string, pat: string) {
    Find(s, pat) >= 0
  }

  lemma ContainsChar(s: string, c: char)
    ensures Contains(s, [c]) <==> c in s
  {
    if c in s {
      var i :| 0 <= i < |s| && s[i] == c;
      assert OccursAt(s, [c], i);
    }
    if Contains(s, [c]) {
      var r := Find(s, [c]);
      assert s[r..r + 1] == [c];
      assert s[r] == c;
    }
  }

  /** Python's `s.split(sep, 1)` (a non-empty separator; Python rejects an empty one). */
  function SplitOnce(s: string, sep: string): (parts: seq<string>)
    requires sep != []
    ensures |parts| == 1 || |parts| == 2
    ensures |parts| == 1 <==> !Contains(s, sep)
    ensures |parts| == 1 ==> parts[0] == s
    ensures |parts| == 2 ==> parts[0] + sep + parts[1] == s && !Contains(parts[0], sep)
  {
    var i := Find(s, sep);
    if i < 0 then [s]
    else
      assert s[..i] + sep + s[i + |sep|..] == s by {
        assert s[i..i + |sep|] == sep;
        assert s == s[..i] + s[i..i + |sep|] + s[i + |sep|..];
      }
      assert forall j :: 0 <= j ==> OccursAt(s[..i], sep, j) ==> OccursAt(s, sep, j) by {
        forall j | 0 <= j && OccursAt(s[..i], sep, j) ensures OccursAt(s, sep, j) {
          assert s[..i][j..j + |sep|] == s[j..j + |sep|];
        }
      }
      [s[..i], s[i + |sep|..]]
  }

  /** Regrouping a concatenation whose left part is already known as `xy`. */
  lemma Reassociate(x: string, y: string, z: string, xy: string)
    requires xy == x + y
    ensures xy + z == x + (y + z)
  {
  }

  /** Python's `''.join(ss)`. */
  function Concat(ss: seq<string>): string {
    if ss == [] then [] else ss[0] + Concat(ss[1..])
  }

  /** Python's `sep.join(ss)`. */
  function JoinWith(sep: string, ss: seq<string>): string {
    if |ss| == 0 then []
    else if |ss| == 1 then ss[0]
    else ss[0] + sep + JoinWith(sep, ss[1..])
  }

  lemma JoinWithCons(sep: string, w: string, ws: seq<string>)
    requires ws != []
    ensures JoinWith(sep, [w] + ws) == w + sep + JoinWith(sep, ws)
  {
    assert ([w] + ws)[1..] == ws;
  }

  /** The number of occurrences of the character `c` in `s`. */
  function Count(s: string, c: char): (n: nat)
    ensures n == 0 <==> c !in s
  {
    if s == [] then 0 else (if s[0] == c then 1 else 0) + Count(s[1..], c)
  }

  /** Python's `s.split(sep)` for a one-character separator: every piece between separators. */
  function Split(s: string, sep: char): (parts: seq<string>)
    ensures |parts| == Count(s, sep) + 1
    ensures forall i :: 0 <= i < |parts| ==> sep !in parts[i]
    ensures JoinWith([sep], parts) == s
  {
    if s == [] then [[]]
    else
      var rest := Split(s[1..], sep);
      var parts := SplitCons(s[0], sep, rest);
      SplitConsCount(s, sep, rest);
      SplitConsFree(s[0], sep, rest);
      SplitConsJoin(s, sep, rest);
      parts
  }

  /** The pieces of `[c] + t` from the pieces of `t`. */
  function SplitCons(c: char, sep: char, rest: seq<string>): seq<string>
    requires rest != []
  {
    if c == sep then [[]] + rest else [[c] + rest[0]] + rest[1..]
  }

  lemma SplitConsCount(s: string, sep: char, rest: seq<string>)
    requires s != [] && |rest| == Count(s[1..], sep) + 1
    ensures |SplitCons(s[0], sep, rest)| == Count(s, sep) + 1
  {
  }

  lemma SplitConsFree(c: char, sep: char, rest: seq<string>)
    requires rest != [] && forall i :: 0 <= i < |rest| ==> sep !in rest[i]
    ensures forall i :: 0 <= i < |SplitCons(c, sep, rest)| ==> sep !in SplitCons(c, sep, rest)[i]
  {
    var parts := SplitCons(c, sep, rest);
    forall i | 0 <= i < |parts| ensures sep !in parts[i] {
      if i > 0 {
        assert parts[i] == rest[if c == sep then i - 1 else i];
      }
    }
  }

  lemma SplitConsJoin(s: string, sep: char, rest: seq<string>)
    requires s != [] && rest != [] && JoinWith([sep], rest) == s[1..]
    ensures JoinWith([sep], SplitCons(s[0], sep, rest)) == s
  {
    assert s == [s[0]] + s[1..];
    if s[0] == sep {
      JoinWithCons([sep], [], rest);
    } else if |rest| > 1 {
      JoinWithCons([sep], [s[0]] + rest[0], rest[1..]);
      JoinWithCons([sep], rest[0], rest[1..]);
      assert rest == [rest[0]] + rest[1..];
    }
  }

  /** The length of the leading run of non-whitespace characters of `s`. */
  function TokenEnd(s: string): (n: nat)
    ensures n <= |s| && NoSpace(s[..n]) && (n == |s| || IsSpace(s[n]))
  {
    if s == [] || IsSpace(s[0]) then 0
    else
      var n := 1 + TokenEnd(s[1..]);
      assert s[..n] == [s[0]] + s[1..][..n - 1];
      n
  }

  /** Python 2's `s.split()`: the maximal runs of non-whitespace characters, in order. */
  function Words(s: string): (ws: seq<string>)
    ensures forall i :: 0 <= i < |ws| ==> IsWord(ws[i])
    ensures ws == [] <==> AllSpace(s)
    decreases |s|
  {
    if s == [] then []
    else if IsSpace(s[0]) then
      var ws := Words(s[1..]);
      assert AllSpace(s) <==> AllSpace(s[1..]) by {
        assert forall i :: 1 <= i < |s| ==> s[i] == s[1..][i - 1];
      }
      ws
    else
      var n := TokenEnd(s);
      [s[..n]] + Words(s[n..])
  }

  /** `g[0] + ws[0] + g[1] + ... + ws[n-1] + g[n]`: words with the gaps around and between them. */
  function Interleave(g: seq<string>, ws: seq<string>): string
    requires |g| == |ws| + 1
    decreases |ws|
  {
    if ws == [] then g[0] else g[0] + ws[0] + Interleave(g[1..], ws[1..])
  }

  /**
   * `s` is the words `ws` separated by the gaps `g`: every gap is whitespace, the gaps between
   * two words are not empty, and the first and the last gap may be.
   */
  ghost predicate Layout(s: string, g: seq<string>, ws: seq<string>) {
    |g| == |ws| + 1 &&
    (forall i :: 0 <= i < |ws| ==> IsWord(ws[i])) &&
    (forall i :: 0 <= i < |g| ==> AllSpace(g[i])) &&
    (forall i :: 0 < i < |ws| ==> g[i] != []) &&
    s == Interleave(g, ws)
  }

  /** The gaps of `s` around the words of `s.split()`. */
  function Gaps(s: string): (g: seq<string>)
    ensures |g| == |Words(s)| + 1
    decreases |s|
  {
    if s == [] then [[]]
    else if IsSpace(s[0]) then
      var g := Gaps(s[1..]);
      [[s[0]] + g[0]] + g[1..]
    else
      var n := TokenEnd(s);
      [[]] + Gaps(s[n..])
  }

  /** Leading whitespace does not change `split()`. */
  lemma {:induction false} WordsAfterSpace(x: string, y: string)
    requires AllSpace(x)
    ensures Words(x + y) == Words(y)
    decreases |x|
  {
    if x != [] {
      assert (x + y)[0] == x[0];
      assert (x + y)[1..] == x[1..] + y;
      WordsAfterSpace(x[1..], y);
    } else {
      assert x + y == y;
    }
  }

  /** Every text is laid out as the words of `split()` with whitespace gaps around them. */
  lemma {:induction false} WordsLayout(s: string)
    ensures Layout(s, Gaps(s), Words(s))
    ensures Gaps(s)[0] == [] <==> s == [] || !IsSpace(s[0])
    decreases |s|
  {
    if s == [] {
    } else if IsSpace(s[0]) {
      WordsLayout(s[1..]);
      WordsLayoutSpace(s);
    } else {
      WordsLayout(s[TokenEnd(s)..]);
      WordsLayoutWord(s);
    }
  }

  /** The step of `WordsLayout` for a leading whitespace character. */
  lemma WordsLayoutSpace(s: string)
    requires s != [] && IsSpace(s[0])
    requires Layout(s[1..], Gaps(s[1..]), Words(s[1..]))
    ensures Layout(s, Gaps(s), Words(s)) && Gaps(s)[0] != []
  {
    var x, t := s[0], s[1..];
    HeadTail(s);
    var g, ws, g' := Gaps(t), Words(t), Gaps(s);
    assert g' == [[x] + g[0]] + g[1..];
    assert Words(s) == ws;
    LayoutSpace(x, t, g, ws, s, g', Words(s));
  }

  /** The step of `WordsLayout` for a leading word. */
  lemma WordsLayoutWord(s: string)
    requires s != [] && !IsSpace(s[0])
    requires var t := s[TokenEnd(s)..];
      Layout(t, Gaps(t), Words(t)) && (Gaps(t)[0] == [] <==> t == [] || !IsSpace(t[0]))
    ensures Layout(s, Gaps(s), Words(s)) && Gaps(s)[0] == []
  {
    var n := TokenEnd(s);
    var w, t := s[..n], s[n..];
    var g, ws, g', ws' := Gaps(t), Words(t), Gaps(s), Words(s);
    assert IsWord(w) && ws' == [w] + ws by { LeadingWord(s); }
    assert g' == [[]] + g by { LeadingGap(s); }
    TakeDrop(s, n);
    LayoutWord(w, t, g, ws, s, g', ws');
  }

  lemma HeadTail(s: string)
    requires s != []
    ensures s == [s[0]] + s[1..]
  {
  }

  lemma TakeDrop(s: string, n: nat)
    requires n <= |s|
    ensures s == s[..n] + s[n..]
  {
  }

  /** A text that starts with a word splits into that word and the words of the rest. */
  lemma LeadingWord(s: string)
    requires s != [] && !IsSpace(s[0])
    ensures var n := TokenEnd(s); IsWord(s[..n]) && Words(s) == [s[..n]] + Words(s[n..])
  {
    var n := TokenEnd(s);
    assert n > 0 && s[..n][0] == s[0];
  }

  /** A text that starts with a word has an empty first gap. */
  lemma LeadingGap(s: string)
    requires s != [] && !IsSpace(s[0])
    ensures Gaps(s) == [[]] + Gaps(s[TokenEnd(s)..])
  {
  }

  /** A leading whitespace character joins the first gap. */
  lemma LayoutSpace(x: char, t: string, g: seq<string>, ws: seq<string>,
                    s: string, g': seq<string>, ws': seq<string>)
    requires IsSpace(x) && Layout(t, g, ws)
    requires s == [x] + t && g' == [[x] + g[0]] + g[1..] && ws' == ws
    ensures Layout(s, g', ws') && g'[0] != []
  {
    forall i | 0 <= i < |g'| ensures AllSpace(g'[i]) {
      if i == 0 {
        assert forall k :: 0 < k < |g'[0]| ==> g'[0][k] == g[0][k - 1];
      } else {
        assert g'[i] == g[i];
      }
    }
    forall i | 0 < i < |ws| ensures g'[i] != [] {
      assert g'[i] == g[i];
    }
    InterleaveHead(x, g, ws, g');
  }

  lemma InterleaveHead(x: char, g: seq<string>, ws: seq<string>, g': seq<string>)
    requires |g| == |ws| + 1 && g' == [[x] + g[0]] + g[1..]
    ensures Interleave(g', ws) == [x] + Interleave(g, ws)
  {
    assert g'[0] == [x] + g[0];
    assert g'[1..] == g[1..];
    if ws != [] {
      var rest := Interleave(g[1..], ws[1..]);
      assert Interleave(g', ws) == g'[0] + ws[0] + rest;
      assert Interleave(g, ws) == g[0] + ws[0] + rest;
      ConsAssoc(x, g[0], ws[0], rest);
    }
  }

  lemma ConsAssoc(x: char, a: string, b: string, c: string)
    ensures [x] + a + b + c == [x] + (a + b + c)
  {
  }

  /** A leading word comes after an empty first gap. */
  lemma LayoutWord(w: string, t: string, g: seq<string>, ws: seq<string>,
                   s: string, g': seq<string>, ws': seq<string>)
    requires IsWord(w) && Layout(t, g, ws) && (g[0] == [] ==> t == [] || !IsSpace(t[0]))
    requires t == [] || IsSpace(t[0])
    requires s == w + t && g' == [[]] + g && ws' == [w] + ws
    ensures Layout(s, g', ws')
  {
    assert g'[1..] == g && ws'[1..] == ws;
    forall i | 0 <= i < |ws'| ensures IsWord(ws'[i]) {
      if i > 0 { assert ws'[i] == ws[i - 1]; }
    }
    forall i | 0 <= i < |g'| ensures AllSpace(g'[i]) {
      if i > 0 { assert g'[i] == g[i - 1]; }
    }
    forall i | 0 < i < |ws'| ensures g'[i] != [] {
      assert g'[i] == g[i - 1];
    }
    assert Interleave(g', ws') == [] + w + Interleave(g, ws);
  }

  /** Conversely, a text laid out as words and gaps splits back into exactly those words. */
  lemma {:induction false} LayoutWords(s: string, g: seq<string>, ws: seq<string>)
    requires Layout(s, g, ws)
    ensures Words(s) == ws
    decreases |ws|
  {
    if ws == [] {
      WordsAfterSpace(g[0], []);
      assert g[0] + [] == g[0];
    } else {
      var rest := Interleave(g[1..], ws[1..]);
      assert s == g[0] + (ws[0] + rest);
      WordsAfterSpace(g[0], ws[0] + rest);
      LayoutTail(g, ws, rest);
      WordsCons(ws[0], rest);
      LayoutWords(rest, g[1..], ws[1..]);
    }
  }

  lemma LayoutTail(g: seq<string>, ws: seq<string>, rest: string)
    requires |g| == |ws| + 1 && ws != []
    requires forall i :: 0 <= i < |ws| ==> IsWord(ws[i])
    requires forall i :: 0 <= i < |g| ==> AllSpace(g[i])
    requires forall i :: 0 < i < |ws| ==> g[i] != []
    requires rest == Interleave(g[1..], ws[1..])
    ensures Layout(rest, g[1..], ws[1..])
    ensures rest == [] || IsSpace(rest[0])
  {
    var g1, ws1 := g[1..], ws[1..];
    assert forall i :: 0 <= i < |ws1| ==> ws1[i] == ws[i + 1];
    assert forall i :: 0 <= i < |g1| ==> g1[i] == g[i + 1];
    if ws1 != [] {
      assert g1[0] == g[1] && g[1] != [];
      assert rest == g1[0] + ws1[0] + Interleave(g1[1..], ws1[1..]);
      assert rest[0] == g1[0][0];
    } else {
      assert rest == g1[0];
    }
  }

  /** `s.split() == ws` exactly when `s` is `ws` laid out with whitespace gaps. */
  lemma WordsCharacterised(s: string, ws: seq<string>)
    ensures Words(s) == ws <==> exists g :: Layout(s, g, ws)
  {
    WordsLayout(s);
    if exists g :: Layout(s, g, ws) {
      var g :| Layout(s, g, ws);
      LayoutWords(s, g, ws);
    }
  }

  /** A single character is found at the first place it occurs. */
  lemma FindChar(x: string, c: char, y: string)
    requires c !in x
    ensures Find(x + [c] + y, [c]) == |x|
  {
    var s := x + [c] + y;
    assert s[|x|..|x| + 1] == [c];
    forall j | 0 <= j < |x| ensures !OccursAt(s, [c], j) {
      assert s[j..j + 1] == [x[j]];
    }
    FindIs(s, [c], |x|);
  }

  /** Where " :" occurs, the text has a space followed by a colon. */
  lemma SpaceColonAt(s: string, j: int)
    requires OccursAt(s, " :", j)
    ensures s[j] == ' ' && s[j + 1] == ':'
  {
    assert s[j..j + 2] == " :";
    assert s[j] == s[j..j + 2][0] && s[j + 1] == s[j..j + 2][1];
  }

  /** No space in `s` is immediately followed by a colon. */
  predicate SpaceColonFree(s: string) {
    forall j :: 0 <= j < |s| - 1 ==> !(s[j] == ' ' && s[j + 1] == ':')
  }

  lemma SpaceColonFreeNotContains(s: string)
    requires SpaceColonFree(s)
    ensures !Contains(s, " :")
  {
    if Contains(s, " :") {
      SpaceColonAt(s, Find(s, " :"));
    }
  }

  /** The token of `str.split()` that starts `w + y` is `w` when `w` ends where whitespace or the text does. */
  lemma {:induction false} TokenEndOf(w: string, y: string)
    requires NoSpace(w)
    requires y == [] || IsSpace(y[0])
    ensures TokenEnd(w + y) == |w|
  {
    if w != [] {
      assert (w + y)[1..] == w[1..] + y;
      TokenEndOf(w[1..], y);
    } else {
      assert w + y == y;
    }
  }

  lemma WordsCons(w: string, y: string)
    requires IsWord(w)
    requires y == [] || IsSpace(y[0])
    ensures Words(w + y) == [w] + Words(y)
  {
    TokenEndOf(w, y);
    assert (w + y)[..|w|] == w;
    assert (w + y)[|w|..] == y;
  }

  /** Round trip: `' '.join(ws).split() == ws` for any list of whitespace-free, non-empty words. */
  lemma {:induction false} WordsOfJoin(ws: seq<string>)
    requires forall i :: 0 <= i < |ws| ==> IsWord(ws[i])
    ensures Words(JoinWith(" ", ws)) == ws
  {
    if |ws| == 1 {
      WordsCons(ws[0], []);
      assert ws[0] + [] == ws[0];
    } else if |ws| > 1 {
      var rest := JoinWith(" ", ws[1..]);
      assert JoinWith(" ", ws) == ws[0] + (" " + rest);
      WordsCons(ws[0], " " + rest);
      assert (" " + rest)[1..] == rest;
      WordsOfJoin(ws[1..]);
      assert ws == [ws[0]] + ws[1..];
    }
  }

  /** A word of the IRC grammar's middle parameters: a token that does not start with a colon. */
  predicate IsMiddle(w: string) {
    IsWord(w) && w[0] != ':'
  }

  lemma {:induction false} JoinMiddles(ws: seq<string>)
    requires ws != []
    requires forall i :: 0 <= i < |ws| ==> IsMiddle(ws[i])
    ensures IsMiddle(ws[0]) && JoinWith(" ", ws) != [] && JoinWith(" ", ws)[0] == ws[0][0]
    ensures SpaceColonFree(JoinWith(" ", ws))
  {
    if |ws| > 1 {
      var w := ws[0];
      var rest := JoinWith(" ", ws[1..]);
      JoinMiddles(ws[1..]);
      var s := w + " " + rest;
      assert JoinWith(" ", ws) == s;
      forall j | 0 <= j < |s| - 1 ensures !(s[j] == ' ' && s[j + 1] == ':') {
        if j < |w| {
          assert s[j] == w[j];
        } else if j == |w| {
          assert s[j + 1] == rest[0];
        } else {
          assert s[j] == rest[j - |w| - 1] && s[j + 1] == rest[j - |w|];
        }
      }
    }
  }

  /**
   * A two-character pattern whose characters differ is found right after a text that does not
   * contain it: no occurrence can straddle the boundary.
   */
  lemma FindAfter(x: string, pat: string, y: string)
    requires |pat| == 2 && pat[0] != pat[1]
    requires !Contains(x, pat)
    ensures Find(x + pat + y, pat) == |x|
  {
    var s := x + pat + y;
    assert s[|x|..|x| + 2] == pat;
    forall j | 0 <= j < |x| ensures !OccursAt(s, pat, j) {
      if j + 2 <= |x| {
        assert s[j..j + 2] == x[j..j + 2];
        assert !OccursAt(x, pat, j);
      }
    }
    FindIs(s, pat, |x|);
  }
}
