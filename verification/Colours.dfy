/** Which classes surround each character: of a tree, of the tree under construction, and of the HTML as a
    browser reads it. */
module Colours {
  import opened Html
  import opened Optional
  import opened TokenTree

  /** A character and the classes of the spans around it, outermost first. */
  datatype Cell = Cell(c: char, classes: seq<string>)

  function Spread(s: string, classes: seq<string>): seq<Cell> {
    seq(|s|, i requires 0 <= i < |s| => Cell(s[i], classes))
  }

  /** The class a node writes: none for the empty kind, the bare name for a sublanguage. */
  function Written(kind: string, sublanguage: bool, prefix: string): seq<string> {
    if kind == "" then [] else if sublanguage then [kind] else [prefix + kind]
  }

  function PaintTree(t: Tree, around: seq<string>, prefix: string): seq<Cell> {
    match t
    case Leaf(s) => Spread(s, around)
    case Branch(kind, sub, children) => PaintForest(children, around + Written(kind, sub, prefix), prefix)
  }

  function PaintForest(ts: seq<Tree>, around: seq<string>, prefix: string): seq<Cell> {
    if ts == [] then []
    else PaintForest(ts[..|ts| - 1], around, prefix) + PaintTree(ts[|ts| - 1], around, prefix)
  }

  function Letters(cells: seq<Cell>): string {
    seq(|cells|, i requires 0 <= i < |cells| => cells[i].c)
  }

  lemma LettersAppend(a: seq<Cell>, b: seq<Cell>)
    ensures Letters(a + b) == Letters(a) + Letters(b)
  {
  }

  lemma SpreadAppend(a: string, b: string, classes: seq<string>)
    ensures Spread(a + b, classes) == Spread(a, classes) + Spread(b, classes)
    ensures Letters(Spread(a, classes)) == a
  {
  }

  lemma {:induction false} TreeLetters(t: Tree, around: seq<string>, prefix: string)
    ensures Letters(PaintTree(t, around, prefix)) == TreeText(t)
    decreases t
  {
    match t
    case Leaf(s) =>
    case Branch(kind, sub, children) => ForestLetters(children, around + Written(kind, sub, prefix), prefix);
  }

  lemma {:induction false} ForestLetters(ts: seq<Tree>, around: seq<string>, prefix: string)
    ensures Letters(PaintForest(ts, around, prefix)) == ForestText(ts)
    decreases ts
  {
    if ts != [] {
      var n := |ts| - 1;
      ForestLetters(ts[..n], around, prefix);
      TreeLetters(ts[n], around, prefix);
      LettersAppend(PaintForest(ts[..n], around, prefix), PaintTree(ts[n], around, prefix));
    }
  }

  lemma {:induction false} PaintForestAppend(a: seq<Tree>, b: seq<Tree>, around: seq<string>, prefix: string)
    ensures PaintForest(a + b, around, prefix) == PaintForest(a, around, prefix) + PaintForest(b, around, prefix)
  {
    hide PaintTree;
    if b == [] {
      assert a + b == a;
    } else {
      var n := |b| - 1;
      assert (a + b)[..|a + b| - 1] == a + b[..n];
      PaintForestAppend(a, b[..n], around, prefix);
    }
  }

  lemma PaintOne(t: Tree, around: seq<string>, prefix: string)
    ensures PaintForest([t], around, prefix) == PaintTree(t, around, prefix)
  {
    assert [t][..0] == [];
    assert [] + PaintTree(t, around, prefix) == PaintTree(t, around, prefix);
  }

  // ---------------------------------------------------------------- the tree under construction

  function Kinds(fs: seq<Frame>): seq<string> {
    seq(|fs|, i requires 0 <= i < |fs| => fs[i].kind)
  }

  function AllWritten(kinds: seq<string>, prefix: string): seq<string> {
    if kinds == [] then [] else AllWritten(kinds[..|kinds| - 1], prefix) + Written(kinds[|kinds| - 1], false, prefix)
  }

  /** The children of a frame stand within the frames up to it. */
  function PaintFrames(fs: seq<Frame>, prefix: string): seq<Cell> {
    if fs == [] then []
    else PaintFrames(fs[..|fs| - 1], prefix)
         + PaintForest(fs[|fs| - 1].children, AllWritten(Kinds(fs), prefix), prefix)
  }

  lemma {:induction false} FramesLetters(fs: seq<Frame>, prefix: string)
    ensures Letters(PaintFrames(fs, prefix)) == FramesText(fs)
  {
    if fs != [] {
      var n := |fs| - 1;
      FramesLetters(fs[..n], prefix);
      ForestLetters(fs[n].children, AllWritten(Kinds(fs), prefix), prefix);
      LettersAppend(PaintFrames(fs[..n], prefix), PaintForest(fs[n].children, AllWritten(Kinds(fs), prefix), prefix));
    }
  }

  lemma KindsSnoc(fs: seq<Frame>, f: Frame)
    ensures Kinds(fs + [f]) == Kinds(fs) + [f.kind]
  {
  }

  lemma PaintSnoc(fs: seq<Frame>, f: Frame, prefix: string)
    ensures PaintFrames(fs + [f], prefix)
            == PaintFrames(fs, prefix) + PaintForest(f.children, AllWritten(Kinds(fs) + [f.kind], prefix), prefix)
  {
    assert (fs + [f])[..|fs|] == fs;
    KindsSnoc(fs, f);
  }

  /** A child is painted with the classes of all open nodes. */
  lemma PaintAdd(fs: Frames, t: Tree, prefix: string)
    ensures Kinds(Add(fs, t)) == Kinds(fs)
    ensures PaintFrames(Add(fs, t), prefix)
            == PaintFrames(fs, prefix) + PaintTree(t, AllWritten(Kinds(fs), prefix), prefix)
  {
    hide PaintForest, PaintTree, AllWritten, Kinds;
    var n := |fs| - 1;
    var f := Frame(fs[n].kind, fs[n].children + [t]);
    assert fs == fs[..n] + [fs[n]];
    PaintSnoc(fs[..n], fs[n], prefix);
    PaintSnoc(fs[..n], f, prefix);
    KindsSnoc(fs[..n], fs[n]);
    KindsSnoc(fs[..n], f);
    var around := AllWritten(Kinds(fs), prefix);
    PaintForestAppend(fs[n].children, [t], around, prefix);
    PaintOne(t, around, prefix);
  }

  lemma {:induction false} PaintAddAll(fs: Frames, ts: seq<Tree>, prefix: string)
    ensures Kinds(AddAll(fs, ts)) == Kinds(fs)
    ensures PaintFrames(AddAll(fs, ts), prefix)
            == PaintFrames(fs, prefix) + PaintForest(ts, AllWritten(Kinds(fs), prefix), prefix)
  {
    hide Add, PaintTree, AllWritten, Kinds, PaintFrames, FramesText;
    if ts != [] {
      var n := |ts| - 1;
      PaintAddAll(fs, ts[..n], prefix);
      PaintAdd(AddAll(fs, ts[..n]), ts[n], prefix);
    }
  }

  /** Opening a node paints nothing and puts the node's kind innermost. */
  lemma PaintOpenNode(fs: Frames, kind: string, prefix: string)
    ensures Kinds(OpenNode(fs, kind)) == Kinds(fs) + [kind]
    ensures PaintFrames(OpenNode(fs, kind), prefix) == PaintFrames(fs, prefix)
  {
    PaintSnoc(fs, Frame(kind, []), prefix);
    KindsSnoc(fs, Frame(kind, []));
  }

  /** Closing a node changes no character's classes and leaves the kinds of the nodes outside it. */
  lemma PaintCloseNode(fs: Frames, prefix: string)
    ensures Kinds(CloseNode(fs)) == if |fs| > 1 then Kinds(fs)[..|fs| - 1] else Kinds(fs)
    ensures PaintFrames(CloseNode(fs), prefix) == PaintFrames(fs, prefix)
  {
    hide PaintForest, Kinds, Add, FramesText;
    if |fs| > 1 {
      var n := |fs| - 1;
      var around := Kinds(fs[..n]);
      assert fs == fs[..n] + [fs[n]];
      PaintSnoc(fs[..n], fs[n], prefix);
      KindsSnoc(fs[..n], fs[n]);
      assert |Kinds(fs[..n])| == n by {
        KindsLength(fs[..n]);
      }
      assert (around + [fs[n].kind])[..n] == around;
      PaintAdd(fs[..n], Branch(fs[n].kind, false, fs[n].children), prefix);
    }
  }

  lemma KindsLength(fs: seq<Frame>)
    ensures |Kinds(fs)| == |fs|
  {
  }

  lemma {:induction false} PaintCloseAll(fs: Frames, prefix: string)
    ensures Kinds(CloseAll(fs)) == Kinds(fs)[..1]
    ensures PaintFrames(CloseAll(fs), prefix) == PaintFrames(fs, prefix)
    decreases |fs|
  {
    hide CloseNode, PaintFrames, Kinds, FramesText;
    KindsLength(fs);
    if |fs| > 1 {
      PaintCloseNode(fs, prefix);
      PaintCloseAll(CloseNode(fs), prefix);
      assert Kinds(fs)[..|fs| - 1][..1] == Kinds(fs)[..1];
    } else {
      assert Kinds(fs)[..1] == Kinds(fs);
    }
  }

  lemma PaintRoot(fs: Frames, prefix: string)
    requires Kinds(fs) == [""]
    ensures |fs| == 1 && PaintTree(Root(fs), [], prefix) == PaintFrames(fs, prefix)
  {
    KindsLength(fs);
    assert fs[..0] == [] && fs[0].kind == Kinds(fs)[0];
    assert Kinds(fs)[..0] == [];
    assert AllWritten([""], prefix) == [] == [] + Written("", false, prefix);
  }

  // ---------------------------------------------------------------- what a browser shows

  /** The body of a tag, up to its closing bracket, and what follows it. */
  function TagBody(s: string): (body: string)
    ensures |body| <= |s|
  {
    if s == "" || s[0] == '>' then "" else [s[0]] + TagBody(s[1..])
  }

  function AfterTag(s: string): (rest: string)
    ensures |rest| <= |s|
  {
    if s == "" then "" else if s[0] == '>' then s[1..] else AfterTag(s[1..])
  }

  /** A span puts its class innermost, its end tag takes the innermost class away. */
  function Retag(open: seq<string>, body: string): seq<string> {
    if body == "/span" then if open == [] then [] else open[..|open| - 1]
    else if |body| >= 13 && body[..12] == "span class=\"" && body[|body| - 1] == '\"' then open + [body[12..|body| - 1]]
    else open
  }

  function Browse(s: string, open: seq<string>): seq<Cell>
    decreases |s|
  {
    if s == "" then []
    else if s[0] == '<' then Browse(AfterTag(s[1..]), Retag(open, TagBody(s[1..])))
    else if "&amp;" <= s then [Cell('&', open)] + Browse(s[5..], open)
    else if "&lt;" <= s then [Cell('<', open)] + Browse(s[4..], open)
    else if "&gt;" <= s then [Cell('>', open)] + Browse(s[4..], open)
    else [Cell(s[0], open)] + Browse(s[1..], open)
  }

  lemma BrowseChar(c: char, rest: string, open: seq<string>)
    ensures Browse(EscapeChar(c) + rest, open) == [Cell(c, open)] + Browse(rest, open)
  {
    var head := EscapeChar(c);
    var all := head + rest;
    assert all[|head|..] == rest;
    if c == '&' {
      assert "&amp;" <= all;
    } else if c == '<' {
      assert all[1] == 'l';
      assert !("&amp;" <= all);
      assert "&lt;" <= all;
    } else if c == '>' {
      assert all[1] == 'g';
      assert !("&amp;" <= all) && !("&lt;" <= all);
      assert "&gt;" <= all;
    } else {
      assert all[0] == c;
    }
  }

  lemma {:induction false} BrowseText(text: string, rest: string, open: seq<string>)
    ensures Browse(Escape(text) + rest, open) == Spread(text, open) + Browse(rest, open)
  {
    hide Escape, EscapeChar, Browse;
    if text == "" {
      EscapeNothing();
      assert "" + rest == rest && Spread("", open) + Browse(rest, open) == Browse(rest, open);
    } else {
      EscapeStep(text);
      Associative(EscapeChar(text[0]), Escape(text[1..]), rest);
      BrowseChar(text[0], Escape(text[1..]) + rest, open);
      BrowseText(text[1..], rest, open);
      assert Spread(text, open) == [Cell(text[0], open)] + Spread(text[1..], open);
    }
  }

  lemma {:induction false} TagBodyIs(body: string, rest: string)
    requires '>' !in body
    ensures TagBody(body + ">" + rest) == body && AfterTag(body + ">" + rest) == rest
  {
    var s := body + ">" + rest;
    if body == "" {
      assert s[0] == '>' && s[1..] == rest;
    } else {
      assert s[0] == body[0] && s[1..] == body[1..] + ">" + rest;
      TagBodyIs(body[1..], rest);
    }
  }

  lemma BrowseTag(body: string, rest: string, open: seq<string>)
    requires '>' !in body
    ensures Browse("<" + body + ">" + rest, open) == Browse(rest, Retag(open, body))
  {
    var s := "<" + body + ">" + rest;
    assert s[0] == '<' && s[1..] == body + ">" + rest;
    TagBodyIs(body, rest);
  }

  lemma SpanRetags(cls: string, open: seq<string>)
    ensures Retag(open, OpenSpan(cls)) == open + [cls]
    ensures Retag(open + [cls], CloseSpan(cls)) == open
  {
    var body := OpenSpan(cls);
    assert body[..12] == "span class=\"" && body[12..|body| - 1] == cls;
    assert body[0] == 's';
    assert (open + [cls])[..|open|] == open;
  }

  /** The cells of a token sequence that starts within some classes. */
  function TokenCells(ts: seq<Token<string>>, open: seq<string>): seq<Cell> {
    if ts == [] then []
    else
      var n := |ts| - 1;
      var around := Balance(ts[..n], open, NotVoid);
      TokenCells(ts[..n], open) + if ts[n].Text? && around.Some? then Spread(ts[n].raw, around.value) else []
  }

  lemma BrowseOne(t: Token<string>, open: seq<string>, rest: string)
    requires t.Open? ==> '>' !in OpenSpan(t.tag)
    requires t.Close? ==> open != [] && open[|open| - 1] == t.tag
    ensures Advance(open, t, NotVoid).Some?
    ensures Browse(WriteOne(t, OpenSpan, CloseSpan) + rest, open)
            == (if t.Text? then Spread(t.raw, open) else []) + Browse(rest, Advance(open, t, NotVoid).value)
  {
    hide Browse, Escape;
    match t
    case Text(raw) => BrowseText(raw, rest, open);
    case Open(x) =>
      BrowseTag(OpenSpan(x), rest, open);
      SpanRetags(x, open);
    case Close(x) =>
      BrowseTag(CloseSpan(x), rest, open);
      SpanRetags(x, open[..|open| - 1]);
      assert open == open[..|open| - 1] + [x];
  }

  lemma {:induction false} BrowseTokens(ts: seq<Token<string>>, open: seq<string>, rest: string)
    requires TagsClosed(ts, OpenSpan, CloseSpan) && Balance(ts, open, NotVoid).Some?
    ensures Browse(Write(ts, OpenSpan, CloseSpan) + rest, open)
            == TokenCells(ts, open) + Browse(rest, Balance(ts, open, NotVoid).value)
  {
    hide Browse, WriteOne, Spread;
    if ts == [] {
      assert Write(ts, OpenSpan, CloseSpan) + rest == rest;
      assert [] + Browse(rest, open) == Browse(rest, open);
    } else {
      var n := |ts| - 1;
      var one := WriteOne(ts[n], OpenSpan, CloseSpan);
      Associative(Write(ts[..n], OpenSpan, CloseSpan), one, rest);
      BrowseTokens(ts[..n], open, one + rest);
      var around := Balance(ts[..n], open, NotVoid).value;
      BrowseOne(ts[n], around, rest);
    }
  }

  lemma {:induction false} TokenCellsAppend(a: seq<Token<string>>, b: seq<Token<string>>, open: seq<string>)
    requires Balance(a, open, NotVoid).Some?
    ensures TokenCells(a + b, open) == TokenCells(a, open) + TokenCells(b, Balance(a, open, NotVoid).value)
  {
    hide Balance, Spread;
    if b == [] {
      assert a + b == a;
    } else {
      var n := |b| - 1;
      assert (a + b)[..|a + b| - 1] == a + b[..n] && (a + b)[|a + b| - 1] == b[n];
      BalanceAppend(a, b[..n], open, NotVoid);
      TokenCellsAppend(a, b[..n], open);
    }
  }

  lemma TokenCellsOne(t: Token<string>, open: seq<string>)
    ensures TokenCells([t], open) == if t.Text? then Spread(t.raw, open) else []
    ensures Balance([t], open, NotVoid) == Advance(open, t, NotVoid)
  {
    assert [t][..0] == [];
  }

  lemma WrapCells(cls: string, inner: seq<Token<string>>, open: seq<string>)
    requires Balance(inner, open + [cls], NotVoid) == Some(open + [cls])
    ensures TokenCells(Wrap(cls, inner), open) == TokenCells(inner, open + [cls])
  {
    hide TokenCells, Balance, Spread;
    TokenCellsOne(Open(cls), open);
    TokenCellsOne(Close(cls), open + [cls]);
    TokenCellsAppend([Open(cls)], inner, open);
    BalanceAppend([Open(cls)], inner, open, NotVoid);
    TokenCellsAppend([Open(cls)] + inner, [Close(cls)], open);
  }

  lemma {:induction false} TreeTokenCells(t: Tree, prefix: string, around: seq<string>)
    ensures TokenCells(Tokens(t, prefix), around) == PaintTree(t, around, prefix)
    decreases t
  {
    hide TokenCells, Balance, Wrap, Spread;
    match t
    case Leaf(s) => TokenCellsOne(Text(s), around);
    case Branch(kind, sub, children) =>
      ForestTokenCells(children, prefix, around + Written(kind, sub, prefix));
      if kind == "" {
        assert around + [] == around;
      } else {
        var cls := Class(kind, sub, prefix);
        ForestTokensNest(children, prefix, around + [cls]);
        WrapCells(cls, ForestTokens(children, prefix), around);
      }
  }

  lemma {:induction false} ForestTokenCells(ts: seq<Tree>, prefix: string, around: seq<string>)
    ensures TokenCells(ForestTokens(ts, prefix), around) == PaintForest(ts, around, prefix)
    decreases ts
  {
    hide Balance, Spread, Tokens;
    if ts != [] {
      var n := |ts| - 1;
      ForestTokenCells(ts[..n], prefix, around);
      TreeTokenCells(ts[n], prefix, around);
      ForestTokensNest(ts[..n], prefix, around);
      TokenCellsAppend(ForestTokens(ts[..n], prefix), Tokens(ts[n], prefix), around);
    }
  }

  /** The HTML of a tree shows every character within the classes of the nodes around it, and nothing else. */
  lemma RenderShows(t: Tree, prefix: string)
    requires ClassesClosed(t, prefix)
    ensures Browse(Render(t, prefix), []) == PaintTree(t, [], prefix)
  {
    hide Browse, Render, Tokens, PaintTree, TokenCells;
    RenderRoundTrip(t, prefix);
    TreeTokenCells(t, prefix, []);
    BrowseTokens(Tokens(t, prefix), [], "");
    BrowseNothing([]);
    assert Render(t, prefix) + "" == Render(t, prefix);
    assert TokenCells(Tokens(t, prefix), []) + [] == TokenCells(Tokens(t, prefix), []);
  }

  lemma BrowseNothing(open: seq<string>)
    ensures Browse("", open) == []
  {
  }
}
