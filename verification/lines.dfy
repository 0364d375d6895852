/** A generated file as the sequence of its lines: every `write` in the
    handler emits one line followed by a newline character. */
module Lines {

  predicate NoNewline(line: string) {
    forall i :: 0 <= i < |line| ==> line[i] != '\n'
  }

  /** The text written to the file: each line followed by "\n". */
  function Render(lines: seq<string>): (text: string)
    ensures |lines| > 0 ==> |text| > 0 && text[|text| - 1] == '\n'
  {
    if |lines| == 0 then "" else lines[0] + "\n" + Render(lines[1..])
  }

  /** Index of the first newline in `t`, or `|t|` when there is none. */
  function FirstNewline(t: string): (k: nat)
    ensures k <= |t|
    ensures k < |t| ==> t[k] == '\n'
    ensures NoNewline(t[..k])
  {
    if |t| == 0 || t[0] == '\n' then 0 else 1 + FirstNewline(t[1..])
  }

  /** Reads a text back as lines, each terminated by "\n" (a final line
      without a terminator is kept as well). */
  function SplitLines(t: string): seq<string>
    decreases |t|
  {
    if |t| == 0 then []
    else
      var k := FirstNewline(t);
      if k == |t| then [t] else [t[..k]] + SplitLines(t[k + 1..])
  }

  lemma {:induction false} FirstNewlineOf(line: string, rest: string)
    requires NoNewline(line)
    ensures FirstNewline(line + "\n" + rest) == |line|
    decreases |line|
  {
    var t := line + "\n" + rest;
    if |line| > 0 {
      assert t[0] == line[0];
      assert t[1..] == line[1..] + "\n" + rest;
      FirstNewlineOf(line[1..], rest);
    } else {
      assert t[0] == '\n';
    }
  }

  /** Splitting a text that starts with a terminated line yields that
      line first. */
  lemma SplitLinesCons(line: string, rest: string)
    requires NoNewline(line)
    ensures SplitLines(line + "\n" + rest) == [line] + SplitLines(rest)
  {
    var t := line + "\n" + rest;
    var k := |line|;
    FirstNewlineOf(line, rest);
    assert t[..k] == line;
    assert t[k + 1..] == rest;
  }

  /** Reading the written file back line by line recovers the lines, as
      long as no line carries a newline of its own. */
  lemma {:induction false} SplitRender(lines: seq<string>)
    requires forall j :: 0 <= j < |lines| ==> NoNewline(lines[j])
    ensures SplitLines(Render(lines)) == lines
    decreases |lines|
  {
    if |lines| > 0 {
      SplitLinesCons(lines[0], Render(lines[1..]));
      SplitRender(lines[1..]);
      assert lines == [lines[0]] + lines[1..];
    }
  }
}
