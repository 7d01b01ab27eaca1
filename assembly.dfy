/**
 * Script assembly: the candidate texts of the completion response, each
 * trimmed and followed by a line break, joined in response order.
 */
module Assembly {
  import opened Wrappers
  import opened GoStrings

  /** The ways the completion call itself can fail; each is passed on as is. */
  datatype ApiError =
    | RequestEncodingFailed
    | RequestConstructionFailed
    | TransportFailed
    | BodyReadFailed
    | ResponseDecodingFailed

  /** What one choice contributes to the script: its trimmed text and a line break. */
  function Piece(text: string): string {
    TrimSpace(text) + "\n"
  }

  /** Reference definition of the script: the pieces of all choices, in order. */
  function Assemble(choices: seq<string>): string {
    if choices == [] then "" else Piece(choices[0]) + Assemble(choices[1..])
  }

  /** Assembly distributes over concatenation of the choice list. */
  lemma {:induction false} AssembleAppend(a: seq<string>, b: seq<string>)
    ensures Assemble(a + b) == Assemble(a) + Assemble(b)
  {
    if a != [] {
      assert (a + b)[1..] == a[1..] + b;
      AssembleAppend(a[1..], b);
    } else {
      assert a + b == b;
    }
  }

  // The small lemmas below state facts about sequences that Dafny proves on
  // its own; they are called as hints, so that the proofs about strings
  // built from choices need not rediscover them.

  lemma TakeSnoc<T>(s: seq<T>, i: nat)
    requires i < |s|
    ensures s[..i + 1] == s[..i] + [s[i]]
  {
  }

  lemma AppendAssoc(a: string, b: string, c: string)
    ensures (a + b) + c == a + (b + c)
  {
  }

  /** Appending one choice appends its piece. */
  lemma AssembleSnoc(choices: seq<string>, text: string)
    ensures Assemble(choices + [text]) == Assemble(choices) + Piece(text)
  {
    AssembleAppend(choices, [text]);
    AssembleSingle(text);
  }

  /** A single choice contributes its piece and nothing more. */
  lemma AssembleSingle(text: string)
    ensures Assemble([text]) == Piece(text)
  {
    DropFirst([text]);
    AppendEmpty(Piece(text));
  }

  // Hints, like TakeSnoc: dropping the only element, and appending nothing.
  lemma DropFirst<T>(s: seq<T>)
    requires |s| == 1
    ensures s[1..] == []
  {
  }

  lemma AppendEmpty<T>(s: seq<T>)
    ensures s + [] == s
  {
  }

  /** The builder after the two writes for choice `i` holds the pieces of the first `i + 1` choices. */
  lemma AssembleStep(choices: seq<string>, i: nat, code: string)
    requires i < |choices| && code == Assemble(choices[..i])
    ensures (code + TrimSpace(choices[i])) + "\n" == Assemble(choices[..i + 1])
  {
    var c := choices[i];
    TakeSnoc(choices, i);
    AssembleSnoc(choices[..i], c);
    assert Piece(c) == TrimSpace(c) + "\n";
    AppendAssoc(code, TrimSpace(c), "\n");
  }

  /**
   * `generateScript`: a failed completion call is passed on with an empty
   * script; otherwise the choices' pieces are appended to a builder one by one.
   */
  method GenerateScript(response: Result<seq<string>, ApiError>) returns (script: string, err: Option<ApiError>)
    ensures response.Failure? ==> script == "" && err == Some(response.error)
    ensures response.Success? ==> err == None && script == Assemble(response.value)
  {
    if response.Failure? {
      return "", Some(response.error);
    }
    var choices := response.value;
    var code := "";
    var i := 0;
    while i < |choices|
      invariant 0 <= i <= |choices|
      invariant code == Assemble(choices[..i])
    {
      AssembleStep(choices, i, code);
      code := code + TrimSpace(choices[i]);
      code := code + "\n";
      i := i + 1;
    }
    assert choices[..i] == choices;
    return code, None;
  }

  // ---------------------------------------------------------------------------
  // Line breaks
  // ---------------------------------------------------------------------------

  /** The number of occurrences of rune `c` in `s`. */
  function CountRune(s: string, c: char): nat {
    if s == [] then 0 else (if s[0] == c then 1 else 0) + CountRune(s[1..], c)
  }

  lemma {:induction false} CountRuneAppend(a: string, b: string, c: char)
    ensures CountRune(a + b, c) == CountRune(a, c) + CountRune(b, c)
  {
    if a != [] {
      assert (a + b)[0] == a[0] && (a + b)[1..] == a[1..] + b;
      CountRuneAppend(a[1..], b, c);
    } else {
      assert a + b == b;
    }
  }

  /** The line breaks inside the trimmed texts of the choices. */
  function InnerLineBreaks(choices: seq<string>): nat {
    if choices == [] then 0 else CountRune(TrimSpace(choices[0]), '\n') + InnerLineBreaks(choices[1..])
  }

  /** The script holds one line break per choice beyond those inside the trimmed texts. */
  lemma {:induction false} AssembleLineBreaks(choices: seq<string>)
    ensures CountRune(Assemble(choices), '\n') == |choices| + InnerLineBreaks(choices)
  {
    if choices != [] {
      AssembleLineBreaks(choices[1..]);
      CountRuneAppend(TrimSpace(choices[0]), "\n", '\n');
      CountRuneAppend(Piece(choices[0]), Assemble(choices[1..]), '\n');
    }
  }

  /** An empty response yields an empty script; a non-empty one ends with a line break. */
  lemma AssembleEnds(choices: seq<string>)
    ensures choices == [] <==> Assemble(choices) == ""
    ensures choices != [] ==> Assemble(choices)[|Assemble(choices)| - 1] == '\n'
  {
    if choices != [] {
      var n := |choices| - 1;
      SplitLast(choices);
      AssembleSnoc(choices[..n], choices[n]);
      EndsWithLineBreak(Assemble(choices[..n]), TrimSpace(choices[n]));
    }
  }

  // A hint, like TakeSnoc: a non-empty sequence is its front plus its last element.
  lemma SplitLast<T>(s: seq<T>)
    requires |s| > 0
    ensures s == s[..|s| - 1] + [s[|s| - 1]]
  {
  }

  // A hint: a string followed by a line break ends with that line break.
  lemma EndsWithLineBreak(x: string, t: string)
    ensures var s := x + (t + "\n"); s[|s| - 1] == '\n'
  {
  }

  // ---------------------------------------------------------------------------
  // Splitting the script back into lines
  // ---------------------------------------------------------------------------

  /** Index of the first line break of `s`, or `|s|` when there is none. */
  function LineEnd(s: string): (k: nat)
    ensures k <= |s|
    ensures k < |s| ==> s[k] == '\n'
    ensures forall j :: 0 <= j < k ==> s[j] != '\n'
  {
    if s == [] || s[0] == '\n' then 0 else 1 + LineEnd(s[1..])
  }

  /** The lines of `s`, each without its terminating line break. */
  function SplitLines(s: string): seq<string>
    decreases |s|
  {
    if s == [] then []
    else
      var k := LineEnd(s);
      if k == |s| then [s] else [s[..k]] + SplitLines(s[k + 1..])
  }

  /** A line without a break, followed by a break, is split off as the first line. */
  lemma SplitLinesCons(line: string, rest: string)
    requires '\n' !in line
    ensures SplitLines(line + "\n" + rest) == [line] + SplitLines(rest)
  {
    var s := line + "\n" + rest;
    assert s[|line|] == '\n';
    assert forall j :: 0 <= j < |line| ==> s[j] == line[j];
    assert LineEnd(s) == |line|;
    assert s[..|line|] == line;
    assert s[|line| + 1..] == rest;
  }

  /** The trimmed texts of the choices, in order. */
  function TrimmedTexts(choices: seq<string>): (r: seq<string>)
    ensures |r| == |choices|
    ensures forall i :: 0 <= i < |choices| ==> r[i] == TrimSpace(choices[i])
  {
    if choices == [] then [] else [TrimSpace(choices[0])] + TrimmedTexts(choices[1..])
  }

  /**
   * When no trimmed text holds a line break, splitting the script at its line
   * breaks recovers exactly the trimmed texts, in response order.
   */
  lemma {:induction false} SplitAssemble(choices: seq<string>)
    requires forall i :: 0 <= i < |choices| ==> '\n' !in TrimSpace(choices[i])
    ensures SplitLines(Assemble(choices)) == TrimmedTexts(choices)
  {
    if choices != [] {
      SplitAssemble(choices[1..]);
      SplitLinesCons(TrimSpace(choices[0]), Assemble(choices[1..]));
    }
  }

  // ---------------------------------------------------------------------------
  // Worked cases
  // ---------------------------------------------------------------------------

  /** Trimming the first documented choice drops two spaces on each side. */
  lemma TrimExample(text: string)
    requires text == "  print(1)  "
    ensures TrimSpace(text) == "print(1)"
  {
    assert text[2..10] == "print(1)" by {
      assert forall k :: 0 <= k < 8 ==> text[2..10][k] == "print(1)"[k];
    }
    assert TrimBounds(text, 2, 10);
    TrimSpaceIsTheTrim(text, "print(1)");
  }

  /** The documented example: `["  print(1)  ", "print(2)"]` gives `"print(1)\nprint(2)\n"`. */
  lemma AssembleExample(choices: seq<string>)
    requires choices == ["  print(1)  ", "print(2)"]
    ensures Assemble(choices) == "print(1)\nprint(2)\n"
  {
    var a, b := choices[0], choices[1];
    var x, y := TrimSpace(a), TrimSpace(b);
    assert x == "print(1)" by {
      TrimExample(a);
    }
    assert y == "print(2)" by {
      TrimUnchanged(b);
    }
    assert Assemble(choices) == Piece(a) + Piece(b) by {
      SplitPair(choices);
      AssembleAppend([a], [b]);
      AssembleSingle(a);
      AssembleSingle(b);
    }
    assert Piece(a) + Piece(b) == (x + "\n") + (y + "\n");
    ConcatExample(x, y);
  }

  /** The single choice `"ls -la"` gives the script `"ls -la\n"`. */
  lemma SingleChoiceExample(choices: seq<string>)
    requires choices == ["ls -la"]
    ensures Assemble(choices) == "ls -la\n"
  {
    var t := choices[0];
    assert Assemble(choices) == t + "\n" by {
      TrimUnchanged(t);
      SplitSingle(choices);
      AssembleSingle(t);
    }
  }

  // Hints, like TakeSnoc: sequences of two and one elements written out.
  lemma SplitPair<T>(s: seq<T>)
    requires |s| == 2
    ensures s == [s[0]] + [s[1]]
  {
  }

  lemma SplitSingle<T>(s: seq<T>)
    requires |s| == 1
    ensures s == [s[0]]
  {
  }

  // A hint: the concatenation of the two documented lines, on literals.
  lemma ConcatExample(x: string, y: string)
    requires x == "print(1)" && y == "print(2)"
    ensures (x + "\n") + (y + "\n") == "print(1)\nprint(2)\n"
  {
  }
}
