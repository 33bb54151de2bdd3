/**
  What the two comment strippers promise: on input whose comments both read alike they delete
  exactly the comment spans, they agree on no other input, and stripping twice is stripping once.
 */
module JsoncLaws {
  import opened Prelude
  import opened JsoncStrip

  // ----- a tiling of the input, independent of both scanners

  datatype Span = Code(c: char) | Literal(text: string) | LineComment(text: string) | BlockComment(text: string, closed: bool)

  function TextOf(span: Span): string {
    match span
    case Code(c) => [c]
    case Literal(text) => text
    case LineComment(text) => text
    case BlockComment(text, _) => text
  }

  function Joined(spans: seq<Span>): string {
    if spans == [] then "" else TextOf(spans[0]) + Joined(spans[1..])
  }

  /** The text with exactly the comments deleted. */
  function Kept(spans: seq<Span>): string {
    if spans == [] then ""
    else (if spans[0].LineComment? || spans[0].BlockComment? then "" else TextOf(spans[0])) + Kept(spans[1..])
  }

  /** Inside the quotes of `body` no quote is left unescaped; `closed` says the last character is the closing one. */
  predicate IsLiteralBody(body: string, closed: bool)
    decreases |body|
  {
    if body == "" then !closed
    else if body[0] == '\\' then if |body| > 1 then IsLiteralBody(body[2..], closed) else !closed
    else if body[0] == '"' then |body| == 1 && closed
    else IsLiteralBody(body[1..], closed)
  }

  /** Whether `span` may stand where it stands, `rest` being the input after it. */
  ghost predicate Fits(span: Span, rest: string) {
    match span
    case Code(c) => c != '"' && !(c == '/' && rest != "" && (rest[0] == '/' || rest[0] == '*'))
    case Literal(text) =>
      && text != "" && text[0] == '"'
      && (IsLiteralBody(text[1..], true) || (IsLiteralBody(text[1..], false) && rest == ""))
    case LineComment(text) =>
      && "//" <= text && '\n' !in text
      && (rest == "" || rest[0] == '\n')
    case BlockComment(text, closed) =>
      && "/*" <= text
      && (closed ==> |text| >= 4 && text[|text| - 2..] == "*/")
      && (!closed ==> rest == "")
      && forall k :: 2 <= k < (if closed then |text| - 2 else |text|) ==> !("*/" <= text[k..])
  }

  ghost predicate Tiles(spans: seq<Span>) {
    spans != [] ==> Fits(spans[0], Joined(spans[1..])) && Tiles(spans[1..])
  }

  // ----- how far a tile reaches

  lemma {:induction false} LiteralReaches(body: string, closed: bool, rest: string)
    requires IsLiteralBody(body, closed) && (closed || rest == "")
    ensures LiteralLength(body + rest) == |body|
    decreases |body|
  {
    var t := body + rest;
    if body == "" {
      assert t == "";
    } else if body[0] == '\\' && |body| > 1 {
      LiteralReaches(body[2..], closed, rest);
      assert t[2..] == body[2..] + rest;
    } else if body[0] != '\\' && body[0] != '"' {
      LiteralReaches(body[1..], closed, rest);
      assert t[1..] == body[1..] + rest;
    }
  }

  lemma {:induction false} LineReaches(body: string, rest: string, endsAtCr: bool)
    requires '\n' !in body && (endsAtCr ==> '\r' !in body)
    requires rest == "" || rest[0] == '\n' || (endsAtCr && rest[0] == '\r')
    ensures LineLength(body + rest, endsAtCr) == |body|
  {
    if body == "" {
      assert body + rest == rest;
    } else {
      assert body[0] in body;
      LineReaches(body[1..], rest, endsAtCr);
      assert (body + rest)[1..] == body[1..] + rest;
    }
  }

  lemma {:induction false} ClosedBlockReaches(body: string, rest: string)
    requires |body| >= 2 && ClosesBlock(body[|body| - 2..])
    requires forall k :: 0 <= k < |body| - 2 ==> !ClosesBlock(body[k..])
    ensures BlockLength(body + rest) == Some(|body|)
  {
    var t := body + rest;
    if |body| > 2 {
      assert t[1..] == body[1..] + rest;
      assert !ClosesBlock(body[0..]);
      assert !ClosesBlock(t);
      forall k | 0 <= k < |body[1..]| - 2
        ensures !ClosesBlock(body[1..][k..])
      {
        assert body[1..][k..] == body[k + 1..];
      }
      assert body[1..][|body[1..]| - 2..] == body[|body| - 2..];
      ClosedBlockReaches(body[1..], rest);
    } else {
      assert body[0..] == body;
    }
  }

  lemma {:induction false} OpenBlockReaches(body: string)
    requires forall k :: 0 <= k < |body| ==> !ClosesBlock(body[k..])
    ensures BlockLength(body) == None
  {
    if body != "" {
      assert !ClosesBlock(body[0..]);
      assert body[0..] == body;
      forall k | 0 <= k < |body[1..]|
        ensures !ClosesBlock(body[1..][k..])
      {
        assert body[1..][k..] == body[k + 1..];
      }
      OpenBlockReaches(body[1..]);
    }
  }

  // ----- every input has a tiling

  lemma {:induction false} BodyIsLiteral(t: string)
    ensures var n := LiteralLength(t);
            || IsLiteralBody(t[..n], true)
            || (IsLiteralBody(t[..n], false) && n == |t|)
    decreases |t|
  {
    var n := LiteralLength(t);
    if t == "" {
    } else if t[0] == '\\' && |t| > 1 {
      BodyIsLiteral(t[2..]);
      assert t[..n][2..] == t[2..][..n - 2];
    } else if t[0] != '\\' && t[0] != '"' {
      BodyIsLiteral(t[1..]);
      assert t[..n][1..] == t[1..][..n - 1];
    }
  }

  lemma {:induction false} LineHasNoBreak(t: string)
    ensures var n := LineLength(t, false); '\n' !in t[..n] && (t[n..] == "" || t[n..][0] == '\n')
  {
    if t != "" && t[0] != '\n' {
      LineHasNoBreak(t[1..]);
      var n := LineLength(t, false);
      assert t[..n] == [t[0]] + t[1..][..n - 1] && t[n..] == t[1..][n - 1..];
    }
  }

  /** The text ends with the first place where a block comment closes. */
  ghost predicate EndsAtFirstClose(text: string) {
    && |text| >= 2 && ClosesBlock(text[|text| - 2..])
    && forall k :: 0 <= k < |text| - 2 ==> !ClosesBlock(text[k..])
  }

  ghost predicate NeverCloses(text: string) {
    forall k :: 0 <= k < |text| ==> !ClosesBlock(text[k..])
  }

  lemma NoCloseInFront(text: string)
    requires text != "" && !ClosesBlock(text)
    ensures EndsAtFirstClose(text[1..]) ==> EndsAtFirstClose(text)
    ensures NeverCloses(text[1..]) ==> NeverCloses(text)
  {
    assert text[0..] == text;
    forall k | 1 <= k <= |text|
      ensures text[k..] == text[1..][k - 1..]
    {
    }
  }

  lemma {:induction false} BlockClosesFirst(t: string)
    ensures BlockLength(t).Some? ==> EndsAtFirstClose(t[..BlockLength(t).value])
    ensures BlockLength(t).None? ==> NeverCloses(t)
  {
    if t != "" && !ClosesBlock(t) {
      var n := BlockLength(t[1..]);
      BlockClosesFirst(t[1..]);
      hide EndsAtFirstClose, NeverCloses;
      if n.Some? {
        var text := t[..n.value + 1];
        assert text[1..] == t[1..][..n.value];
        StillOpen(t, n.value + 1);
        NoCloseInFront(text);
      } else {
        NoCloseInFront(t);
      }
    } else if t != "" {
      assert t[..2][0..] == t[..2];
    }
  }

  lemma StillOpen(t: string, n: nat)
    requires n <= |t| && !ClosesBlock(t)
    ensures !ClosesBlock(t[..n])
  {
  }

  function LiteralTile(t: string): Span
    requires t != ""
  {
    Literal(t[..LiteralLength(t[1..]) + 1])
  }

  function LineTile(t: string): Span
    requires |t| >= 2
  {
    LineComment(t[..LineLength(t[2..], false) + 2])
  }

  function BlockTile(t: string): Span
    requires |t| >= 2
  {
    var n := BlockLength(t[2..]);
    if n.None? then BlockComment(t, false) else BlockComment(t[..n.value + 2], true)
  }

  function FirstTile(t: string): (span: Span)
    requires t != ""
    ensures TextOf(span) != "" && |TextOf(span)| <= |t| && TextOf(span) == t[..|TextOf(span)|]
  {
    if t[0] == '"' then LiteralTile(t)
    else if OpensLine(t) then LineTile(t)
    else if OpensBlock(t) then BlockTile(t)
    else Code(t[0])
  }

  function Tiling(t: string): seq<Span>
    decreases |t|
  {
    if t == "" then []
    else
      var first := FirstTile(t);
      [first] + Tiling(t[|TextOf(first)|..])
  }

  lemma FirstTileFits(t: string)
    requires t != ""
    ensures Fits(FirstTile(t), t[|TextOf(FirstTile(t))|..])
  {
    if t[0] == '"' {
      var n := LiteralLength(t[1..]);
      BodyIsLiteral(t[1..]);
      assert t[..n + 1][1..] == t[1..][..n];
    } else if OpensLine(t) {
      var n := LineLength(t[2..], false);
      LineHasNoBreak(t[2..]);
      assert t[..n + 2] == [t[0], t[1]] + t[2..][..n] && t[n + 2..] == t[2..][n..];
    } else if OpensBlock(t) {
      BlockTileFits(t);
    }
  }

  lemma BlockTileFits(t: string)
    requires OpensBlock(t)
    ensures Fits(BlockTile(t), t[|TextOf(BlockTile(t))|..])
  {
    var n := BlockLength(t[2..]);
    BlockClosesFirst(t[2..]);
    hide BlockLength, EndsAtFirstClose, NeverCloses;
    assert t == "/*" + t[2..];
    if n.Some? {
      var body := t[2..][..n.value];
      assert t[..n.value + 2] == "/*" + body;
      ClosedBlockFits(body, t[n.value + 2..]);
    } else {
      assert t[|t|..] == "";
      OpenBlockFits(t[2..]);
    }
  }

  /** What the scanners test for. */
  lemma Delimiters(t: string)
    ensures OpensLine(t) <==> "//" <= t
    ensures OpensBlock(t) <==> "/*" <= t
    ensures ClosesBlock(t) <==> "*/" <= t
  {
  }

  lemma ClosedBlockFits(body: string, rest: string)
    requires EndsAtFirstClose(body)
    ensures Fits(BlockComment("/*" + body, true), rest)
  {
    hide ClosesBlock;
    var text := "/*" + body;
    Delimiters(text[|text| - 2..]);
    assert text[|text| - 2..] == body[|body| - 2..];
    forall k | 2 <= k < |text| - 2
      ensures !("*/" <= text[k..])
    {
      assert text[k..] == body[k - 2..];
      Delimiters(text[k..]);
    }
  }

  lemma OpenBlockFits(body: string)
    requires NeverCloses(body)
    ensures Fits(BlockComment("/*" + body, false), "")
  {
    hide ClosesBlock;
    var text := "/*" + body;
    forall k | 2 <= k < |text|
      ensures !("*/" <= text[k..])
    {
      assert text[k..] == body[k - 2..];
      Delimiters(text[k..]);
    }
  }

  /** Every input has a tiling. */
  lemma {:induction false} TilingTiles(t: string)
    ensures Joined(Tiling(t)) == t && Tiles(Tiling(t))
    decreases |t|
  {
    if t != "" {
      hide FirstTile;
      var first := FirstTile(t);
      var rest := t[|TextOf(first)|..];
      TilingTiles(rest);
      FirstTileFits(t);
      assert Tiling(t)[1..] == Tiling(rest);
      assert TextOf(first) + rest == t;
    }
  }

  // ----- agreement

  /** No carriage return inside a line comment, and no unclosed block comment with a body. */
  predicate ReadAlike(span: Span) {
    match span
    case LineComment(text) => '\r' !in text
    case BlockComment(text, closed) => closed || text == "/*"
    case _ => true
  }

  function KeptText(span: Span): string {
    if span.LineComment? || span.BlockComment? then "" else TextOf(span)
  }

  lemma LiteralTileStep(text: string, rest: string)
    requires Fits(Literal(text), rest)
    ensures ConfigStrip(text + rest) == text + ConfigStrip(rest)
    ensures DiscoveryStrip(text + rest) == text + DiscoveryStrip(rest)
  {
    var t := text + rest;
    assert t[1..] == text[1..] + rest;
    if IsLiteralBody(text[1..], true) {
      LiteralReaches(text[1..], true, rest);
    } else {
      LiteralReaches(text[1..], false, rest);
    }
    hide LiteralLength, IsLiteralBody;
    assert t[..|text|] == text && t[|text|..] == rest;
  }

  lemma LineTileStep(text: string, rest: string)
    requires Fits(LineComment(text), rest)
    ensures ConfigStrip(text + rest) == ConfigStrip(rest)
    ensures '\r' !in text ==> DiscoveryStrip(text + rest) == DiscoveryStrip(rest)
  {
    var t := text + rest;
    assert t[2..] == text[2..] + rest;
    LineReaches(text[2..], rest, false);
    if '\r' !in text {
      LineReaches(text[2..], rest, true);
    }
    hide LineLength;
    assert t[2..][|text| - 2..] == rest;
  }

  lemma ClosedTileStep(text: string, rest: string)
    requires Fits(BlockComment(text, true), rest)
    ensures ConfigStrip(text + rest) == ConfigStrip(rest)
    ensures DiscoveryStrip(text + rest) == DiscoveryStrip(rest)
  {
    var t, body := text + rest, text[2..];
    assert t[2..] == body + rest;
    assert body[|body| - 2..] == text[|text| - 2..];
    forall k | 0 <= k < |body| - 2
      ensures !ClosesBlock(body[k..])
    {
      assert body[k..] == text[k + 2..];
    }
    ClosedBlockReaches(body, rest);
    hide BlockLength;
    assert t[2..][|body|..] == rest;
  }

  lemma OpenTileBody(text: string)
    requires Fits(BlockComment(text, false), "")
    ensures OpensBlock(text) && BlockLength(text[2..]) == None
  {
    var body := text[2..];
    forall k | 0 <= k < |body|
      ensures !ClosesBlock(body[k..])
    {
      assert body[k..] == text[k + 2..];
    }
    OpenBlockReaches(body);
  }

  lemma OpenTileStep(text: string)
    requires Fits(BlockComment(text, false), "")
    ensures DiscoveryStrip(text) == ""
    ensures ConfigStrip(text) == if |text| == 2 then "" else [text[|text| - 1]]
  {
    OpenTileBody(text);
    hide Fits, BlockLength, LineLength, LiteralLength;
    assert DiscoveryStrip(text) == "";
    hide DiscoveryStrip;
    var body := text[2..];
    if body != "" {
      LastCharStays(body[|body| - 1]);
      assert body[|body| - 1..] == [text[|text| - 1]];
    }
  }

  lemma LastCharStays(c: char)
    ensures ConfigStrip([c]) == [c]
  {
    assert [c][1..] == "";
  }

  lemma CodeTileStep(c: char, rest: string)
    requires Fits(Code(c), rest)
    ensures ConfigStrip([c] + rest) == [c] + ConfigStrip(rest)
    ensures DiscoveryStrip([c] + rest) == [c] + DiscoveryStrip(rest)
  {
    assert ([c] + rest)[1..] == rest;
  }

  /** Over a span that reads alike both scanners do the same. */
  lemma TileStep(span: Span, rest: string)
    requires Fits(span, rest) && ReadAlike(span)
    ensures ConfigStrip(TextOf(span) + rest) == KeptText(span) + ConfigStrip(rest)
    ensures DiscoveryStrip(TextOf(span) + rest) == KeptText(span) + DiscoveryStrip(rest)
  {
    hide ConfigStrip, DiscoveryStrip, Fits;
    match span {
      case Code(c) => CodeTileStep(c, rest);
      case Literal(text) => LiteralTileStep(text, rest);
      case LineComment(text) => LineTileStep(text, rest);
      case BlockComment(text, closed) =>
        if closed {
          ClosedTileStep(text, rest);
        } else {
          OpenTileIsLast(span, rest);
          OpenTileStep(text);
          NothingStrips();
          assert text + rest == text;
        }
    }
  }

  lemma OpenTileIsLast(span: Span, rest: string)
    requires Fits(span, rest) && span.BlockComment? && !span.closed
    ensures rest == ""
  {
  }

  lemma NothingStrips()
    ensures ConfigStrip("") == "" == DiscoveryStrip("")
  {
  }

  /** At a span that does not read alike the outputs part for good. */
  lemma TilesPart(span: Span, rest: string)
    requires Fits(span, rest) && !ReadAlike(span)
    ensures ConfigStrip(TextOf(span) + rest) != DiscoveryStrip(TextOf(span) + rest)
  {
    var t := TextOf(span) + rest;
    if span.LineComment? {
      LineTileStep(span.text, rest);
      StartsAlike(rest);
      CarriageReturnStays(span.text, rest);
    } else {
      assert t == span.text;
      OpenTileStep(span.text);
    }
  }

  /** Output starts with the input's first character unless that opens a comment. */
  lemma StartsAlike(t: string)
    ensures t == "" ==> ConfigStrip(t) == "" == DiscoveryStrip(t)
    ensures t != "" && t[0] != '/' ==> ConfigStrip(t) != "" && ConfigStrip(t)[0] == t[0]
    ensures t != "" && t[0] != '/' ==> DiscoveryStrip(t) != "" && DiscoveryStrip(t)[0] == t[0]
  {
  }

  lemma CarriageReturnStays(text: string, rest: string)
    requires OpensLine(text) && '\n' !in text && '\r' in text
    ensures DiscoveryStrip(text + rest) != "" && DiscoveryStrip(text + rest)[0] == '\r'
  {
    var body := text[2..];
    assert text == [text[0], text[1]] + body;
    var n := FirstReturn(body);
    LineReaches(body[..n], body[n..] + rest, true);
    var t := text + rest;
    assert t[2..] == body[..n] + (body[n..] + rest);
    assert t[2..][n..] == body[n..] + rest;
    StartsAlike(body[n..] + rest);
  }

  lemma {:induction false} FirstReturn(body: string) returns (n: nat)
    requires '\r' in body && '\n' !in body
    ensures n < |body| && body[n] == '\r' && '\r' !in body[..n] && '\n' !in body[..n]
  {
    n := 0;
    while body[n] != '\r'
      invariant n < |body| && '\r' !in body[..n] && '\n' !in body[..n]
      invariant '\r' in body[n..]
      decreases |body| - n
    {
      assert body[n..] == [body[n]] + body[n + 1..];
      assert body[..n + 1] == body[..n] + [body[n]];
      n := n + 1;
    }
  }

  /**
    The two strippers agree on an input exactly when each of its comments reads alike: no carriage
    return inside a line comment, no unclosed block comment with a body. Then both produce the input
    with exactly its comments deleted and its string literals untouched.
   */
  lemma {:induction false} AgreeExactly(spans: seq<Span>)
    requires Tiles(spans)
    ensures ConfigStrip(Joined(spans)) == DiscoveryStrip(Joined(spans)) <==> forall span :: span in spans ==> ReadAlike(span)
    ensures (forall span :: span in spans ==> ReadAlike(span)) ==> ConfigStrip(Joined(spans)) == Kept(spans)
  {
    hide ConfigStrip, DiscoveryStrip, Fits, ReadAlike;
    if spans == [] {
      NothingStrips();
    } else {
      var first, rest := spans[0], Joined(spans[1..]);
      AgreeExactly(spans[1..]);
      assert spans == [first] + spans[1..];
      if ReadAlike(first) {
        TileStep(first, rest);
        SamePrefix(KeptText(first), ConfigStrip(rest), DiscoveryStrip(rest));
      } else {
        TilesPart(first, rest);
      }
    }
  }

  /** The same for every input, by its tiling. */
  lemma StrippersAgree(t: string)
    ensures ConfigStrip(t) == DiscoveryStrip(t) <==> forall span :: span in Tiling(t) ==> ReadAlike(span)
    ensures ConfigStrip(t) == DiscoveryStrip(t) ==> ConfigStrip(t) == Kept(Tiling(t))
  {
    TilingTiles(t);
    AgreeExactly(Tiling(t));
  }

  lemma SamePrefix(prefix: string, a: string, b: string)
    ensures prefix + a == prefix + b <==> a == b
  {
    if prefix + a == prefix + b {
      assert (prefix + a)[|prefix|..] == a && (prefix + b)[|prefix|..] == b;
    }
  }

  // ----- stripping twice

  lemma LiteralStays(text: string, rest: string, rest': string)
    requires Fits(Literal(text), rest) && (rest == "" ==> rest' == "")
    ensures Fits(Literal(text), rest')
  {
  }

  /** Stripping the settings reader's output again changes nothing, on every input. */
  lemma {:induction false} ConfigStripsOnce(t: string)
    ensures ConfigStrip(ConfigStrip(t)) == ConfigStrip(t)
    decreases |t|
  {
    if t == "" {
    } else if t[0] == '"' {
      var text := t[..LiteralLength(t[1..]) + 1];
      var rest := t[|text|..];
      FirstTileFits(t);
      ConfigStripsOnce(rest);
      StartsAlike(rest);
      LiteralStays(text, rest, ConfigStrip(rest));
      LiteralTileStep(text, ConfigStrip(rest));
    } else if OpensLine(t) {
      ConfigStripsOnce(t[2..][LineLength(t[2..], false)..]);
    } else if OpensBlock(t) {
      ConfigStripsOnce(t[2..][ConfigBlockLength(t[2..])..]);
    } else {
      ConfigStripsOnce(t[1..]);
      StartsAlike(t[1..]);
      CodeTileStep(t[0], ConfigStrip(t[1..]));
    }
  }

  /** Nor does stripping the agent discovery scanner's output again. */
  lemma {:induction false} DiscoveryStripsOnce(t: string)
    ensures DiscoveryStrip(DiscoveryStrip(t)) == DiscoveryStrip(t)
    decreases |t|
  {
    if t == "" {
    } else if t[0] == '"' {
      var text := t[..LiteralLength(t[1..]) + 1];
      var rest := t[|text|..];
      FirstTileFits(t);
      DiscoveryStripsOnce(rest);
      StartsAlike(rest);
      LiteralStays(text, rest, DiscoveryStrip(rest));
      LiteralTileStep(text, DiscoveryStrip(rest));
    } else if OpensLine(t) {
      DiscoveryStripsOnce(t[2..][LineLength(t[2..], true)..]);
    } else if OpensBlock(t) {
      var n := BlockLength(t[2..]);
      if n.Some? {
        DiscoveryStripsOnce(t[2..][n.value..]);
      }
    } else {
      DiscoveryStripsOnce(t[1..]);
      StartsAlike(t[1..]);
      CodeTileStep(t[0], DiscoveryStrip(t[1..]));
    }
  }
}
