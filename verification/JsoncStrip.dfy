/** The two comment strippers for JSON with comments, and the text both are meant to produce. */
module JsoncStrip {
  import opened Prelude

  // ----- spans of the input

  /** How far a string literal reaches past its opening quote; a backslash takes the next character along. */
  function LiteralLength(t: string): (n: nat)
    ensures n <= |t|
    decreases |t|
  {
    if t == "" then 0
    else if t[0] == '\\' then if |t| > 1 then 2 + LiteralLength(t[2..]) else 1
    else if t[0] == '"' then 1
    else 1 + LiteralLength(t[1..])
  }

  /** How many characters come before the line ends. */
  function LineLength(t: string, endsAtCr: bool): (n: nat)
    ensures n <= |t|
  {
    if t == "" || t[0] == '\n' || (endsAtCr && t[0] == '\r') then 0 else 1 + LineLength(t[1..], endsAtCr)
  }

  predicate ClosesBlock(t: string) {
    |t| >= 2 && t[0] == '*' && t[1] == '/'
  }

  /** How far a block comment reaches past its opening, when it is closed. */
  function BlockLength(t: string): (n: Option<nat>)
    ensures n.Some? ==> n.value <= |t|
  {
    if t == "" then None
    else if ClosesBlock(t) then Some(2)
    else
      var n := BlockLength(t[1..]);
      if n.None? then None else Some(n.value + 1)
  }

  predicate OpensLine(t: string) {
    |t| >= 2 && t[0] == '/' && t[1] == '/'
  }

  predicate OpensBlock(t: string) {
    |t| >= 2 && t[0] == '/' && t[1] == '*'
  }

  // ----- what each scanner computes

  /** An unclosed block comment loses all but the last character of the input. */
  function ConfigBlockLength(t: string): (n: nat)
    ensures n <= |t|
  {
    var n := BlockLength(t);
    if n.Some? then n.value else if t == "" then 0 else |t| - 1
  }

  function ConfigStrip(t: string): string
    decreases |t|
  {
    if t == "" then ""
    else if t[0] == '"' then
      var n := LiteralLength(t[1..]) + 1;
      t[..n] + ConfigStrip(t[n..])
    else if OpensLine(t) then ConfigStrip(t[2..][LineLength(t[2..], false)..])
    else if OpensBlock(t) then ConfigStrip(t[2..][ConfigBlockLength(t[2..])..])
    else [t[0]] + ConfigStrip(t[1..])
  }

  /** An unclosed block comment reaches to the end; a line comment ends at CR, too. */
  function DiscoveryStrip(t: string): string
    decreases |t|
  {
    if t == "" then ""
    else if t[0] == '"' then
      var n := LiteralLength(t[1..]) + 1;
      t[..n] + DiscoveryStrip(t[n..])
    else if OpensLine(t) then DiscoveryStrip(t[2..][LineLength(t[2..], true)..])
    else if OpensBlock(t) then
      var n := BlockLength(t[2..]);
      if n.None? then "" else DiscoveryStrip(t[2..][n.value..])
    else [t[0]] + DiscoveryStrip(t[1..])
  }

  /** What is still to come out when a scan stands at `t`. */
  function ConfigRest(t: string, inString: bool): string {
    if inString then t[..LiteralLength(t)] + ConfigStrip(t[LiteralLength(t)..]) else ConfigStrip(t)
  }

  lemma DropDrop(s: string, i: nat, k: nat)
    requires i + k <= |s|
    ensures s[i..][k..] == s[i + k..]
  {
  }

  lemma Append(out: string, piece: string, rest: string)
    ensures out + piece + rest == out + (piece + rest)
  {
  }

  lemma NothingLeft(s: string, inString: bool)
    ensures s[|s|..] == "" && ConfigRest(s[|s|..], inString) == "" && DiscoveryStrip(s[|s|..]) == ""
  {
  }

  lemma EscapeStep(s: string, i: nat)
    requires i + 1 < |s| && s[i] == '\\'
    ensures ConfigRest(s[i..], true) == [s[i], s[i + 1]] + ConfigRest(s[i + 2..], true)
  {
    DropDrop(s, i, 2);
    EscapeRest(s[i..]);
  }

  lemma EscapeRest(t: string)
    requires |t| > 1 && t[0] == '\\'
    ensures ConfigRest(t, true) == [t[0], t[1]] + ConfigRest(t[2..], true)
  {
    var m := LiteralLength(t[2..]);
    hide ConfigStrip;
    assert t[..m + 2] == [t[0], t[1]] + t[2..][..m];
    DropDrop(t, 2, m);
  }

  lemma StringStep(s: string, i: nat)
    requires i < |s| && !(s[i] == '\\' && i + 1 < |s|)
    ensures ConfigRest(s[i..], true) == [s[i]] + ConfigRest(s[i + 1..], s[i] != '"')
  {
    DropDrop(s, i, 1);
    StringRest(s[i..]);
  }

  lemma StringRest(t: string)
    requires t != "" && !(t[0] == '\\' && |t| > 1)
    ensures ConfigRest(t, true) == [t[0]] + ConfigRest(t[1..], t[0] != '"')
  {
    var n := LiteralLength(t);
    if n == 1 {
      assert t[..n] == [t[0]];
    } else {
      var m := LiteralLength(t[1..]);
      assert t[..n] == [t[0]] + t[1..][..m];
      DropDrop(t, 1, m);
    }
  }

  lemma QuoteStep(s: string, i: nat)
    requires i < |s| && s[i] == '"'
    ensures ConfigStrip(s[i..]) == [s[i]] + ConfigRest(s[i + 1..], true)
  {
    var t := s[i..];
    var n := LiteralLength(t[1..]) + 1;
    DropDrop(s, i, 1);
    assert t[..n] == [t[0]] + t[1..][..n - 1] && t[n..] == t[1..][n - 1..];
  }

  lemma CommentStep(s: string, i: nat)
    requires i + 1 < |s|
    ensures OpensLine(s[i..]) ==>
              ConfigStrip(s[i..]) == ConfigStrip(s[i + 2 + LineLength(s[i + 2..], false)..])
    ensures OpensBlock(s[i..]) ==>
              ConfigStrip(s[i..]) == ConfigStrip(s[i + 2 + ConfigBlockLength(s[i + 2..])..])
  {
    DropDrop(s, i, 2);
    DropDrop(s, i + 2, LineLength(s[i + 2..], false));
    DropDrop(s, i + 2, ConfigBlockLength(s[i + 2..]));
  }

  lemma CodeStep(s: string, i: nat)
    requires i < |s| && s[i] != '"' && !OpensLine(s[i..]) && !OpensBlock(s[i..])
    ensures ConfigStrip(s[i..]) == [s[i]] + ConfigStrip(s[i + 1..])
    ensures DiscoveryStrip(s[i..]) == [s[i]] + DiscoveryStrip(s[i + 1..])
  {
    DropDrop(s, i, 1);
  }

  method SkipLine(s: string, from: nat, endsAtCr: bool) returns (i: nat)
    requires from <= |s|
    ensures i == from + LineLength(s[from..], endsAtCr)
  {
    i := from;
    while i < |s| && s[i] != '\n' && !(endsAtCr && s[i] == '\r')
      invariant from <= i <= |s|
      invariant from + LineLength(s[from..], endsAtCr) == i + LineLength(s[i..], endsAtCr)
    {
      DropDrop(s, i, 1);
      i := i + 1;
    }
  }

  method SkipBlockOrKeepLast(s: string, from: nat) returns (i: nat)
    requires from <= |s|
    ensures i == from + ConfigBlockLength(s[from..])
  {
    i := from;
    while i + 1 < |s|
      invariant from <= i <= |s| && (i == |s| ==> from == |s|)
      invariant from + ConfigBlockLength(s[from..]) == i + ConfigBlockLength(s[i..])
      invariant BlockLength(s[from..]).None? <==> BlockLength(s[i..]).None?
    {
      DropDrop(s, i, 1);
      if s[i] == '*' && s[i + 1] == '/' {
        i := i + 2;
        return;
      }
      i := i + 1;
    }
  }

  method SkipBlock(s: string, from: nat) returns (i: nat)
    requires from <= |s|
    ensures i == var n := BlockLength(s[from..]); if n.None? then |s| else from + n.value
  {
    i := from;
    while i < |s|
      invariant from <= i <= |s|
      invariant BlockLength(s[from..])
             == (var n := BlockLength(s[i..]); if n.None? then None else Some(n.value + i - from))
    {
      DropDrop(s, i, 1);
      if s[i] == '*' && i + 1 < |s| && s[i + 1] == '/' {
        i := i + 2;
        return;
      }
      i := i + 1;
    }
  }

  lemma LiteralStep(s: string, i: nat)
    requires i < |s|
    ensures LiteralLength(s[i..]) ==
            if s[i] == '\\' then (if i + 1 < |s| then 2 + LiteralLength(s[i + 2..]) else 1)
            else if s[i] == '"' then 1 else 1 + LiteralLength(s[i + 1..])
  {
    DropDrop(s, i, 1);
    if i + 1 < |s| {
      DropDrop(s, i, 2);
    }
  }

  method CopyLiteral(s: string, from: nat) returns (copied: string, i: nat)
    requires from <= |s|
    ensures i == from + LiteralLength(s[from..]) && copied == s[from..i]
  {
    hide LiteralLength;
    copied := "";
    i := from;
    while i < |s|
      invariant from <= i <= |s| && copied == s[from..i]
      invariant from + LiteralLength(s[from..]) == i + LiteralLength(s[i..])
    {
      LiteralStep(s, i);
      var c := s[i];
      copied := copied + [c];
      i := i + 1;
      if c == '\\' {
        if i < |s| {
          copied := copied + [s[i]];
          i := i + 1;
        } else {
          return;
        }
      } else if c == '"' {
        return;
      }
    }
    NoLiteralLeft(s);
  }

  lemma NoLiteralLeft(s: string)
    ensures LiteralLength(s[|s|..]) == 0
  {
  }

  /** The settings reader's scanner: one flag, one output character at a time. */
  method StripJsoncComments(input: string) returns (out: string)
    ensures out == ConfigStrip(input)
  {
    hide ConfigStrip, LiteralLength, LineLength, BlockLength;
    out := "";
    var inString := false;
    var i := 0;
    assert input[0..] == input;
    while i < |input|
      invariant 0 <= i <= |input|
      invariant out + ConfigRest(input[i..], inString) == ConfigStrip(input)
    {
      var c := input[i];
      if inString {
        if c == '\\' && i + 1 < |input| {
          EscapeStep(input, i);
          Append(out, [c, input[i + 1]], ConfigRest(input[i + 2..], true));
          out := out + [c, input[i + 1]];
          i := i + 2;
          continue;
        }
        StringStep(input, i);
        Append(out, [c], ConfigRest(input[i + 1..], c != '"'));
        out := out + [c];
        if c == '"' {
          inString := false;
        }
        i := i + 1;
        continue;
      }
      if c == '"' {
        QuoteStep(input, i);
        Append(out, [c], ConfigRest(input[i + 1..], true));
        inString := true;
        out := out + [c];
        i := i + 1;
        continue;
      }
      if c == '/' && i + 1 < |input| {
        CommentStep(input, i);
        var next := input[i + 1];
        if next == '/' {
          i := SkipLine(input, i + 2, false);
          continue;
        }
        if next == '*' {
          i := SkipBlockOrKeepLast(input, i + 2);
          continue;
        }
      }
      CodeStep(input, i);
      Append(out, [c], ConfigStrip(input[i + 1..]));
      out := out + [c];
      i := i + 1;
    }
    NothingLeft(input, inString);
  }

  lemma DiscoveryLiteralStep(s: string, i: nat)
    requires i < |s| && s[i] == '"'
    ensures var j := i + 1 + LiteralLength(s[i + 1..]);
            DiscoveryStrip(s[i..]) == [s[i]] + s[i + 1..j] + DiscoveryStrip(s[j..])
  {
    DropDrop(s, i, 1);
    var n := LiteralLength(s[i + 1..]);
    assert s[i..][..n + 1] == [s[i]] + s[i + 1..i + 1 + n];
    DropDrop(s, i, n + 1);
  }

  lemma SlashesInLine(t: string)
    requires OpensLine(t)
    ensures LineLength(t, true) == 2 + LineLength(t[2..], true)
  {
    DropDrop(t, 1, 1);
  }

  lemma DiscoveryLineStep(s: string, i: nat)
    requires i < |s| && OpensLine(s[i..])
    ensures LineLength(s[i..], true) >= 2
    ensures DiscoveryStrip(s[i..]) == DiscoveryStrip(s[i + LineLength(s[i..], true)..])
  {
    hide LineLength;
    SlashesInLine(s[i..]);
    DropDrop(s, i, 2);
    DropDrop(s, i + 2, LineLength(s[i + 2..], true));
  }

  lemma DiscoveryBlockStep(s: string, i: nat)
    requires i < |s| && OpensBlock(s[i..])
    ensures var n := BlockLength(s[i + 2..]);
            DiscoveryStrip(s[i..]) == DiscoveryStrip(s[if n.None? then |s| else i + 2 + n.value..])
  {
    DropDrop(s, i, 2);
    var n := BlockLength(s[i + 2..]);
    if n.Some? {
      DropDrop(s, i + 2, n.value);
    }
  }

  /** The agent discovery scanner: literals and comments are consumed in inner loops. */
  method StripBeforeParse(raw: string) returns (result: string)
    ensures result == DiscoveryStrip(raw)
  {
    hide DiscoveryStrip, LiteralLength, LineLength, BlockLength;
    result := "";
    var i := 0;
    assert raw[0..] == raw;
    while i < |raw|
      invariant 0 <= i <= |raw|
      invariant result + DiscoveryStrip(raw[i..]) == DiscoveryStrip(raw)
    {
      var ch := raw[i];
      if ch == '"' {
        DiscoveryLiteralStep(raw, i);
        var copied;
        copied, i := CopyLiteral(raw, i + 1);
        Append(result, [ch] + copied, DiscoveryStrip(raw[i..]));
        result := result + ([ch] + copied);
      } else if ch == '/' && i + 1 < |raw| && raw[i + 1] == '/' {
        DiscoveryLineStep(raw, i);
        i := SkipLine(raw, i, true);
      } else if ch == '/' && i + 1 < |raw| && raw[i + 1] == '*' {
        DiscoveryBlockStep(raw, i);
        i := SkipBlock(raw, i + 2);
      } else {
        CodeStep(raw, i);
        Append(result, [ch], DiscoveryStrip(raw[i + 1..]));
        result := result + [ch];
        i := i + 1;
      }
    }
    NothingLeft(raw, false);
  }
}
