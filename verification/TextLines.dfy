/** Lines of a text: splitting at line feeds, counting them, and normalising line endings. */
module TextLines {

  function SplitLines(s: string): (r: seq<string>)
    ensures |r| >= 1
  {
    if s == "" then [""]
    else
      var r := SplitLines(s[1..]);
      if s[0] == '\n' then [""] + r else [[s[0]] + r[0]] + r[1..]
  }

  function CountLineBreaks(s: string): nat {
    if s == "" then 0 else CountLineBreaks(s[1..]) + if s[0] == '\n' then 1 else 0
  }

  lemma {:induction false} LinesAndBreaks(s: string)
    ensures |SplitLines(s)| == CountLineBreaks(s) + 1
  {
    if s != "" {
      LinesAndBreaks(s[1..]);
    }
  }

  function JoinLines(lines: seq<string>): string
    requires lines != []
  {
    if |lines| == 1 then lines[0] else lines[0] + "\n" + JoinLines(lines[1..])
  }

  /** The lines, put together with line feeds, are the text, and no line holds one. */
  lemma {:induction false} LinesSpellText(s: string)
    ensures JoinLines(SplitLines(s)) == s
    ensures forall i :: 0 <= i < |SplitLines(s)| ==> '\n' !in SplitLines(s)[i]
  {
    if s != "" {
      LinesSpellText(s[1..]);
      JoinOfFront(s[0], SplitLines(s[1..]));
      hide JoinLines;
      assert s == [s[0]] + s[1..];
    }
  }

  lemma JoinOfFront(c: char, lines: seq<string>)
    requires lines != []
    ensures JoinLines([""] + lines) == "\n" + JoinLines(lines)
    ensures JoinLines([[c] + lines[0]] + lines[1..]) == [c] + JoinLines(lines)
  {
    hide JoinLines;
    JoinOfMore("", lines);
    assert "" + "\n" + JoinLines(lines) == "\n" + JoinLines(lines);
    if |lines| > 1 {
      JoinOfMore([c] + lines[0], lines[1..]);
      JoinOfMore(lines[0], lines[1..]);
      assert lines == [lines[0]] + lines[1..];
      FrontOfThree(c, lines[0], JoinLines(lines[1..]));
    } else {
      assert lines == [lines[0]] && [[c] + lines[0]] + lines[1..] == [[c] + lines[0]];
      JoinOfOne(lines[0]);
      JoinOfOne([c] + lines[0]);
    }
  }

  lemma JoinOfMore(first: string, rest: seq<string>)
    requires rest != []
    ensures JoinLines([first] + rest) == first + "\n" + JoinLines(rest)
  {
    assert ([first] + rest)[1..] == rest;
  }

  lemma JoinOfOne(line: string)
    ensures JoinLines([line]) == line
  {
  }

  lemma FrontOfThree(c: char, first: string, rest: string)
    ensures [c] + first + "\n" + rest == [c] + (first + "\n" + rest)
  {
  }

  lemma {:induction false} BreaksOfConcat(a: string, b: string)
    ensures CountLineBreaks(a + b) == CountLineBreaks(a) + CountLineBreaks(b)
  {
    if a == "" {
      assert a + b == b;
    } else {
      BreaksOfConcat(a[1..], b);
      assert (a + b)[1..] == a[1..] + b;
    }
  }

  /** `text.replace(/\r\n/g, "\n")` */
  function CrLfToLf(s: string): string {
    if s == "" then ""
    else if |s| >= 2 && s[0] == '\r' && s[1] == '\n' then "\n" + CrLfToLf(s[2..])
    else [s[0]] + CrLfToLf(s[1..])
  }

  /** `text.replace(/\r/g, "\n")` */
  function CrToLf(s: string): string {
    if s == "" then "" else [if s[0] == '\r' then '\n' else s[0]] + CrToLf(s[1..])
  }

  function NormalizeToLf(s: string): string {
    CrToLf(CrLfToLf(s))
  }
}
