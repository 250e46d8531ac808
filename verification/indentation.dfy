/** `text.replace(/^/gm, '    ')`: with the `m` flag, `^` matches at the
    start of the text and right after every line terminator, and the `g`
    flag replaces every such (empty) match, so four spaces are inserted at
    each of those positions, including the end of a text that ends with a
    terminator. JavaScript's line terminators are LF, CR, U+2028 and U+2029;
    a CR LF pair therefore counts as two terminators. */
module Indentation {

  const Pad: string := "    "

  predicate IsLineTerminator(c: char) {
    c == '\n' || c == '\r' || c == '\U{2028}' || c == '\U{2029}'
  }

  /** Copies `s`, inserting the pad after every line terminator. */
  function PadAfterTerminators(s: string): string
    decreases |s|
  {
    if |s| == 0 then ""
    else [s[0]] + (if IsLineTerminator(s[0]) then Pad else "") + PadAfterTerminators(s[1..])
  }

  /** The replacement: a match at position 0 and after every terminator. */
  function Indent(s: string): string {
    Pad + PadAfterTerminators(s)
  }

  /** The lines of `s` as the multiline `^` sees them: each terminator ends
      its line (and stays with it); the text after the last terminator,
      possibly empty, is the final line. */
  function Lines(s: string): (ls: seq<string>)
    ensures |ls| >= 1
    decreases |s|
  {
    if |s| == 0 then [""]
    else
      var rest := Lines(s[1..]);
      if IsLineTerminator(s[0]) then [[s[0]]] + rest
      else [[s[0]] + rest[0]] + rest[1..]
  }

  function Concat(ls: seq<string>): string
    decreases |ls|
  {
    if |ls| == 0 then "" else ls[0] + Concat(ls[1..])
  }

  function PadEach(ls: seq<string>): (r: seq<string>)
    ensures |r| == |ls|
    ensures forall i :: 0 <= i < |ls| ==> r[i] == Pad + ls[i]
  {
    seq(|ls|, i requires 0 <= i < |ls| => Pad + ls[i])
  }

  lemma PadEachFirst(ls: seq<string>)
    requires |ls| >= 1
    ensures PadEach(ls) == [Pad + ls[0]] + PadEach(ls[1..])
  {
  }

  /** Splitting into lines loses nothing. */
  lemma {:induction false} ConcatLines(s: string)
    ensures Concat(Lines(s)) == s
    decreases |s|
  {
    if |s| > 0 {
      ConcatLines(s[1..]);
      var rest := Lines(s[1..]);
      assert Concat(rest) == rest[0] + Concat(rest[1..]);
      assert [s[0]] + s[1..] == s;
    }
  }

  /** Text without terminators in front of `t` just lengthens the first line. */
  lemma {:induction false} LinesAfterPlainPrefix(p: string, t: string)
    requires forall i :: 0 <= i < |p| ==> !IsLineTerminator(p[i])
    ensures Lines(p + t) == [p + Lines(t)[0]] + Lines(t)[1..]
    decreases |p|
  {
    if |p| == 0 {
      assert p + t == t;
      assert p + Lines(t)[0] == Lines(t)[0];
      assert Lines(t) == [Lines(t)[0]] + Lines(t)[1..];
    } else {
      var s := p + t;
      assert s[0] == p[0] && !IsLineTerminator(s[0]);
      assert s[1..] == p[1..] + t;
      LinesAfterPlainPrefix(p[1..], t);
      var r := Lines(s[1..]);
      assert r == [p[1..] + Lines(t)[0]] + Lines(t)[1..];
      assert Lines(s) == [[s[0]] + r[0]] + r[1..];
      assert r[0] == p[1..] + Lines(t)[0];
      assert r[1..] == Lines(t)[1..];
      assert [p[0]] + (p[1..] + Lines(t)[0]) == p + Lines(t)[0];
    }
  }

  /** How one leading character extends the lines of the rest. */
  lemma LinesCons(c: char, t: string)
    ensures IsLineTerminator(c) ==> Lines([c] + t) == [[c]] + Lines(t)
    ensures !IsLineTerminator(c) ==> Lines([c] + t) == [[c] + Lines(t)[0]] + Lines(t)[1..]
  {
    assert ([c] + t)[0] == c;
    assert ([c] + t)[1..] == t;
  }

  lemma {:induction false} LinesOfPadded(s: string)
    ensures Lines(PadAfterTerminators(s)) == [Lines(s)[0]] + PadEach(Lines(s)[1..])
    decreases |s|
  {
    if |s| > 0 {
      var c := s[0];
      var t := PadAfterTerminators(s[1..]);
      var rest := Lines(s[1..]);
      LinesOfPadded(s[1..]);
      LinesCons(c, s[1..]);
      assert s == [c] + s[1..];
      if IsLineTerminator(c) {
        assert PadAfterTerminators(s) == [c] + (Pad + t);
        LinesCons(c, Pad + t);
        LinesAfterPlainPrefix(Pad, t);
        PadEachFirst(rest);
      } else {
        assert PadAfterTerminators(s) == [c] + t;
        LinesCons(c, t);
      }
    }
  }

  /** Indenting keeps the number of lines and turns every line L, the empty
      one after a trailing terminator included, into four spaces + L. */
  lemma IndentLines(s: string)
    ensures Lines(Indent(s)) == PadEach(Lines(s))
    ensures |Lines(Indent(s))| == |Lines(s)|
  {
    var t := PadAfterTerminators(s);
    var ls := Lines(s);
    LinesOfPadded(s);
    assert Lines(t) == [ls[0]] + PadEach(ls[1..]);
    LinesAfterPlainPrefix(Pad, t);
    assert Indent(s) == Pad + t;
    assert Lines(Pad + t) == [Pad + ls[0]] + PadEach(ls[1..]);
    PadEachFirst(ls);
  }

  /** A text ending in a terminator has an empty final line after it. */
  lemma {:induction false} LastLineAfterTerminator(s: string)
    requires |s| > 0 && IsLineTerminator(s[|s| - 1])
    ensures |Lines(s)| >= 2 && Lines(s)[|Lines(s)| - 1] == ""
    decreases |s|
  {
    var t := s[1..];
    assert s == [s[0]] + t;
    LinesCons(s[0], t);
    if |s| == 1 {
      assert t == "";
    } else {
      assert t[|t| - 1] == s[|s| - 1];
      LastLineAfterTerminator(t);
    }
  }

  /** Indenting a text that ends in a terminator leaves a final line of
      just the pad. */
  lemma TrailingTerminatorIndented(s: string)
    requires |s| > 0 && IsLineTerminator(s[|s| - 1])
    ensures Lines(Indent(s))[|Lines(Indent(s))| - 1] == Pad
  {
    IndentLines(s);
    LastLineAfterTerminator(s);
  }

  /** An instance: "MIT" followed by a newline. */
  lemma TrailingNewlineIndented()
    ensures Indent("MIT\n") == "    MIT\n    "
  {
  }
}
