/** The standard library's text scanning, as the tools use it. */
module Scan {

  /** Unicode White_Space, which `trim` and `split_whitespace` go by. */
  predicate IsSpace(c: char) {
    var n := c as int;
    || 0x09 <= n <= 0x0D || n == 0x20 || n == 0x85 || n == 0xA0 || n == 0x1680
    || 0x2000 <= n <= 0x200A || n == 0x2028 || n == 0x2029 || n == 0x202F || n == 0x205F || n == 0x3000
  }

  /** `is_ascii_whitespace`: no vertical tab. */
  predicate IsAsciiSpace(c: char) {
    c in {' ', '\t', '\n', '\r', '\U{000C}'}
  }

  function TrimLeft(s: string): string {
    if s != [] && IsSpace(s[0]) then TrimLeft(s[1..]) else s
  }

  function TrimRight(s: string): string {
    if s != [] && IsSpace(s[|s| - 1]) then TrimRight(s[..|s| - 1]) else s
  }

  function Trim(s: string): string {
    TrimRight(TrimLeft(s))
  }

  /** Everything before the first `c`. */
  function Before(s: string, c: char): string {
    if s == [] || s[0] == c then [] else [s[0]] + Before(s[1..], c)
  }

  /** Everything after the first `c`, which must be there. */
  function After(s: string, c: char): (r: string)
    requires c in s
    ensures |r| < |s|
  {
    if s[0] == c then s[1..] else After(s[1..], c)
  }

  function StripReturn(line: string): string {
    if line != [] && line[|line| - 1] == '\r' then line[..|line| - 1] else line
  }

  /** `lines`: split after each newline, without the line ending. */
  function Lines(text: string): seq<string>
    decreases |text|
  {
    if text == [] then []
    else if '\n' in text then [StripReturn(Before(text, '\n'))] + Lines(After(text, '\n'))
    else [text]
  }

  // ----- words

  /** The non-space characters at the front. */
  function Word(s: string): (r: string)
    ensures |r| <= |s| && (s != [] && !IsSpace(s[0]) ==> |r| > 0)
  {
    if s == [] || IsSpace(s[0]) then [] else [s[0]] + Word(s[1..])
  }

  /** `split_whitespace`. */
  function Tokens(s: string): seq<string>
    decreases |s|
  {
    if s == [] then []
    else if IsSpace(s[0]) then Tokens(s[1..])
    else [Word(s)] + Tokens(s[|Word(s)|..])
  }

  predicate IsWord(w: string) {
    w != [] && forall i :: 0 <= i < |w| ==> !IsSpace(w[i])
  }

  function JoinWords(ws: seq<string>): string {
    if ws == [] then [] else ws[0] + " " + JoinWords(ws[1..])
  }

  lemma {:induction false} WordIsWhole(w: string, rest: string)
    requires forall i :: 0 <= i < |w| ==> !IsSpace(w[i])
    requires rest == [] || IsSpace(rest[0])
    ensures Word(w + rest) == w
  {
    if w == [] {
      assert w + rest == rest;
    } else {
      assert (w + rest)[1..] == w[1..] + rest;
      WordIsWhole(w[1..], rest);
    }
  }

  // Words written with a space after each are the tokens of the result.
  lemma {:induction false} JoinedWordsAreTokens(ws: seq<string>)
    requires forall i :: 0 <= i < |ws| ==> IsWord(ws[i])
    ensures Tokens(JoinWords(ws)) == ws
  {
    if ws != [] {
      var w, more := ws[0], " " + JoinWords(ws[1..]);
      assert IsWord(w);
      assert JoinWords(ws) == w + more;
      WordIsWhole(w, more);
      assert (w + more)[0] == w[0] && (w + more)[|w|..] == more;
      assert more[1..] == JoinWords(ws[1..]);
      assert forall i :: 0 <= i < |ws[1..]| ==> ws[1..][i] == ws[i + 1];
      JoinedWordsAreTokens(ws[1..]);
    }
  }
}
