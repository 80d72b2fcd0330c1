/** The token tree of highlight.js by values: the finished tree with its text and its HTML, and
    the stack of open nodes it is built through. */
module TokenTree {
  import opened Html
  import opened Optional

  /** A finished part of the tree. The empty kind stands for every kind the program treats as
      false: such a node is walked but writes no tag. */
  datatype Tree = Leaf(text: string) | Branch(kind: string, sublanguage: bool, children: seq<Tree>)

  function TreeText(t: Tree): string {
    match t
    case Leaf(s) => s
    case Branch(_, _, children) => ForestText(children)
  }

  /** The text leaves, left to right. */
  function ForestText(ts: seq<Tree>): string {
    if ts == [] then "" else ForestText(ts[..|ts| - 1]) + TreeText(ts[|ts| - 1])
  }

  lemma {:induction false} ForestTextAppend(a: seq<Tree>, b: seq<Tree>)
    ensures ForestText(a + b) == ForestText(a) + ForestText(b)
  {
    if b == [] {
      assert a + b == a;
    } else {
      var n := |b| - 1;
      assert (a + b)[..|a + b| - 1] == a + b[..n];
      ForestTextAppend(a, b[..n]);
    }
  }

  // ---------------------------------------------------------------- the stack of open nodes

  /** An open node: its kind and the children that are already closed. */
  datatype Frame = Frame(kind: string, children: seq<Tree>)

  type Frames = fs: seq<Frame> | fs != [] witness [Frame("", [])]

  const EMPTY_FRAMES: Frames := [Frame("", [])]

  function Add(fs: Frames, t: Tree): (r: Frames)
    ensures |r| == |fs|
    ensures FramesText(r) == FramesText(fs) + TreeText(t)
  {
    var n := |fs| - 1;
    var r := fs[..n] + [Frame(fs[n].kind, fs[n].children + [t])];
    assert r[..n] == fs[..n];
    assert (fs[n].children + [t])[..|fs[n].children|] == fs[n].children;
    r
  }

  function OpenNode(fs: Frames, kind: string): (r: Frames)
    ensures |r| == |fs| + 1
    ensures FramesText(r) == FramesText(fs)
  {
    var r := fs + [Frame(kind, [])];
    assert r[..|fs|] == fs;
    r
  }

  /** Closing folds the innermost open node into its parent; the root is never closed. */
  function CloseNode(fs: Frames): (r: Frames)
    ensures |r| == if |fs| > 1 then |fs| - 1 else 1
    ensures FramesText(r) == FramesText(fs)
  {
    if |fs| == 1 then fs
    else
      var n := |fs| - 1;
      var r := Add(fs[..n], Branch(fs[n].kind, false, fs[n].children));
      r
  }

  function CloseAll(fs: Frames): (r: Frames)
    ensures |r| == 1
    ensures FramesText(r) == FramesText(fs)
    decreases |fs|
  {
    if |fs| == 1 then fs else CloseAll(CloseNode(fs))
  }

  function FramesText(fs: seq<Frame>): string {
    if fs == [] then "" else FramesText(fs[..|fs| - 1]) + ForestText(fs[|fs| - 1].children)
  }

  function AddAll(fs: Frames, ts: seq<Tree>): (r: Frames)
    ensures |r| == |fs|
  {
    if ts == [] then fs else Add(AddAll(fs, ts[..|ts| - 1]), ts[|ts| - 1])
  }

  lemma AddOne(fs: Frames, t: Tree)
    ensures AddAll(fs, [t]) == Add(fs, t)
  {
    assert [t][..0] == [];
  }

  lemma {:induction false} AddAllText(fs: Frames, ts: seq<Tree>)
    ensures FramesText(AddAll(fs, ts)) == FramesText(fs) + ForestText(ts)
  {
    if ts != [] {
      AddAllText(fs, ts[..|ts| - 1]);
    }
  }

  lemma {:induction false} AddAllAppend(fs: Frames, a: seq<Tree>, b: seq<Tree>)
    ensures AddAll(fs, a + b) == AddAll(AddAll(fs, a), b)
  {
    if b == [] {
      assert a + b == a;
    } else {
      var n := |b| - 1;
      assert (a + b)[..|a + b| - 1] == a + b[..n];
      AddAllAppend(fs, a, b[..n]);
    }
  }

  function Root(fs: Frames): (r: Tree)
    requires |fs| == 1
    ensures TreeText(r) == FramesText(fs)
  {
    assert fs[..0] == [];
    Branch(fs[0].kind, false, fs[0].children)
  }

  // ---------------------------------------------------------------- rendering

  function OpenSpan(cls: string): string { "span class=\"" + cls + "\"" }

  function CloseSpan(cls: string): string { "/span" }

  function NotVoid(cls: string): bool { false }

  function Class(kind: string, sublanguage: bool, prefix: string): string {
    if sublanguage then kind else prefix + kind
  }

  function StartTag(cls: string): string { "<span class=\"" + cls + "\">" }

  function EndTag(): string { "</span>" }

  lemma SpanTags(cls: string)
    ensures StartTag(cls) == "<" + OpenSpan(cls) + ">"
    ensures EndTag() == "<" + CloseSpan(cls) + ">"
  {
  }

  /** The string the renderer appends for a tree. */
  function Render(t: Tree, prefix: string): string {
    match t
    case Leaf(s) => Escape(s)
    case Branch(kind, sub, children) =>
      (if kind == "" then "" else StartTag(Class(kind, sub, prefix)))
      + RenderForest(children, prefix)
      + (if kind == "" then "" else EndTag())
  }

  function RenderForest(ts: seq<Tree>, prefix: string): string {
    if ts == [] then "" else RenderForest(ts[..|ts| - 1], prefix) + Render(ts[|ts| - 1], prefix)
  }

  function Tokens(t: Tree, prefix: string): seq<Token<string>> {
    match t
    case Leaf(s) => [Text(s)]
    case Branch(kind, sub, children) =>
      if kind == "" then ForestTokens(children, prefix)
      else Wrap(Class(kind, sub, prefix), ForestTokens(children, prefix))
  }

  function ForestTokens(ts: seq<Tree>, prefix: string): seq<Token<string>> {
    if ts == [] then [] else ForestTokens(ts[..|ts| - 1], prefix) + Tokens(ts[|ts| - 1], prefix)
  }

  lemma {:induction false} TokensNest(t: Tree, prefix: string, start: seq<string>)
    ensures Balance(Tokens(t, prefix), start, NotVoid) == Some(start)
    ensures RawText(Tokens(t, prefix)) == TreeText(t)
    decreases t
  {
    hide Wrap, Class;
    match t
    case Leaf(s) =>
      assert Tokens(t, prefix)[..0] == [];
    case Branch(kind, sub, children) =>
      if kind == "" {
        ForestTokensNest(children, prefix, start);
      } else {
        var cls := Class(kind, sub, prefix);
        ForestTokensNest(children, prefix, start + [cls]);
        WrapNests(cls, ForestTokens(children, prefix), start, NotVoid, OpenSpan, CloseSpan);
        WrapWrites(cls, ForestTokens(children, prefix), NotVoid, OpenSpan, CloseSpan);
      }
  }

  lemma {:induction false} ForestTokensNest(ts: seq<Tree>, prefix: string, start: seq<string>)
    ensures Balance(ForestTokens(ts, prefix), start, NotVoid) == Some(start)
    ensures RawText(ForestTokens(ts, prefix)) == ForestText(ts)
    decreases ts
  {
    if ts != [] {
      var n := |ts| - 1;
      var before, last := ForestTokens(ts[..n], prefix), Tokens(ts[n], prefix);
      ForestTokensNest(ts[..n], prefix, start);
      TokensNest(ts[n], prefix, start);
      BalanceAppend(before, last, start, NotVoid);
      RawTextAppend(before, last);
    }
  }

  lemma BranchWrites(cls: string, inner: seq<Token<string>>)
    ensures Write(Wrap(cls, inner), OpenSpan, CloseSpan) == StartTag(cls) + Write(inner, OpenSpan, CloseSpan) + EndTag()
  {
    hide Write, Wrap, StartTag, EndTag, OpenSpan, CloseSpan;
    WrapWrites(cls, inner, NotVoid, OpenSpan, CloseSpan);
    SpanTags(cls);
  }

  lemma {:induction false} RenderWrites(t: Tree, prefix: string)
    ensures Render(t, prefix) == Write(Tokens(t, prefix), OpenSpan, CloseSpan)
    decreases t
  {
    hide Write, Escape, StartTag, EndTag, Wrap, RenderForest, ForestTokens, Class;
    match t
    case Leaf(s) =>
      One(Text(s), [], NotVoid, OpenSpan, CloseSpan);
    case Branch(kind, sub, children) =>
      RenderForestWrites(children, prefix);
      if kind != "" {
        BranchWrites(Class(kind, sub, prefix), ForestTokens(children, prefix));
      }
  }

  lemma {:induction false} RenderForestWrites(ts: seq<Tree>, prefix: string)
    ensures RenderForest(ts, prefix) == Write(ForestTokens(ts, prefix), OpenSpan, CloseSpan)
    decreases ts
  {
    hide Write, Render, Tokens;
    if ts == [] {
      WriteNothing<string>(OpenSpan, CloseSpan);
    } else {
      var n := |ts| - 1;
      RenderForestWrites(ts[..n], prefix);
      RenderWrites(ts[n], prefix);
      WriteAppend(ForestTokens(ts[..n], prefix), Tokens(ts[n], prefix), OpenSpan, CloseSpan);
    }
  }

  /** No class written into a tag closes that tag early. */
  ghost predicate ClassesClosed(t: Tree, prefix: string) {
    TagsClosed(Tokens(t, prefix), OpenSpan, CloseSpan)
  }

  /** The HTML of any tree: its spans are well nested, deleting them leaves the escaped text of
      the leaves, and reading the entities back recovers the text. */
  lemma RenderRoundTrip(t: Tree, prefix: string)
    requires ClassesClosed(t, prefix)
    ensures WellNested(Tokens(t, prefix), NotVoid)
    ensures Render(t, prefix) == Write(Tokens(t, prefix), OpenSpan, CloseSpan)
    ensures StripTags(Render(t, prefix)) == Escape(TreeText(t))
    ensures Unescape(StripTags(Render(t, prefix))) == TreeText(t)
  {
    TokensNest(t, prefix, []);
    RenderWrites(t, prefix);
    StripWrite(Tokens(t, prefix), OpenSpan, CloseSpan);
  }
}
