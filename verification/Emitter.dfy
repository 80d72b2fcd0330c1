/** The nodes and the renderer that highlight.js mutates, proved against the values of TokenTree.
    An open node sits both on the stack and, as the last child, in its parent. */
module Emitter {
  import opened Html
  import opened TokenTree

  /** A child is a text, a node, or the finished tree of a nested highlighter. */
  datatype Child = TextChild(text: string) | NodeChild(node: Node) | TreeChild(tree: Tree)

  class Node {
    const kind: string
    var children: seq<Child>

    constructor (kind: string)
      ensures this.kind == kind && children == []
    {
      this.kind := kind;
      children := [];
    }
  }

  /** The child stands for the tree, using closed nodes only. */
  ghost predicate Stands(c: Child, t: Tree, closed: set<Node>)
    reads closed
    decreases t
  {
    if c.TreeChild? then c.tree == t
    else match t
      case Leaf(s) => c == TextChild(s)
      case Branch(kind, sub, ts) =>
        c.NodeChild? && c.node in closed && c.node.kind == kind && !sub && AllStand(c.node.children, ts, closed)
  }

  ghost predicate AllStand(cs: seq<Child>, ts: seq<Tree>, closed: set<Node>)
    reads closed
    decreases ts
  {
    |cs| == |ts| && forall i :: 0 <= i < |ts| ==> Stands(cs[i], ts[i], closed)
  }

  lemma {:induction false} StandsMono(c: Child, t: Tree, closed: set<Node>, more: set<Node>)
    requires closed <= more
    requires Stands(c, t, closed)
    ensures Stands(c, t, more)
    decreases t
  {
    if !c.TreeChild? && t.Branch? {
      AllStandMono(c.node.children, t.children, closed, more);
    }
  }

  lemma {:induction false} AllStandMono(cs: seq<Child>, ts: seq<Tree>, closed: set<Node>, more: set<Node>)
    requires closed <= more
    requires AllStand(cs, ts, closed)
    ensures AllStand(cs, ts, more)
    decreases ts
  {
    forall i | 0 <= i < |ts| ensures Stands(cs[i], ts[i], more) {
      StandsMono(cs[i], ts[i], closed, more);
    }
  }

  lemma StandLength(cs: seq<Child>, ts: seq<Tree>, closed: set<Node>)
    requires AllStand(cs, ts, closed)
    ensures |cs| == |ts|
  {
  }

  lemma LastStands(cs: seq<Child>, ts: seq<Tree>, last: Tree, closed: set<Node>)
    requires |cs| == |ts| + 1 && AllStand(cs[..|ts|], ts, closed) && Stands(cs[|ts|], last, closed)
    ensures AllStand(cs, ts + [last], closed)
  {
    forall i | 0 <= i < |cs| ensures Stands(cs[i], (ts + [last])[i], closed) {
      if i < |ts| {
        assert cs[i] == cs[..|ts|][i];
      }
    }
  }

  class Emitter {
    var rootNode: Node
    var stack: seq<Node>
    ghost var frames: Frames       // what the open nodes hold
    ghost var closed: set<Node>    // nodes that have left the stack
    ghost var nodes: set<Node>     // every node of the tree

    ghost predicate Valid()
      reads this, nodes
    {
      && |stack| == |frames|
      && stack[0] == rootNode
      && closed <= nodes
      && (forall i :: 0 <= i < |stack| ==> stack[i] in nodes && stack[i] !in closed)
      && (forall i, j :: 0 <= i < j < |stack| ==> stack[i] != stack[j])
      && forall i :: 0 <= i < |stack| ==> Holds(i)
    }

    /** Node i of the stack holds its closed children and, as its last child, the next node. */
    ghost predicate Holds(i: nat)
      requires i < |stack| == |frames| && closed <= nodes && stack[i] in nodes
      reads this, nodes
    {
      && stack[i].kind == frames[i].kind
      && var own := stack[i].children;
         if i == |stack| - 1 then AllStand(own, frames[i].children, closed)
         else |own| == |frames[i].children| + 1
              && own[|own| - 1] == NodeChild(stack[i + 1])
              && AllStand(own[..|own| - 1], frames[i].children, closed)
    }

    constructor ()
      ensures Valid() && fresh(nodes)
      ensures frames == EMPTY_FRAMES
    {
      rootNode := new Node("");
      new;
      stack := [rootNode];
      frames := EMPTY_FRAMES;
      closed := {};
      nodes := {rootNode};
    }

    method Add(c: Child, ghost t: Tree)
      requires Valid() && Stands(c, t, closed)
      modifies this, nodes
      ensures Valid() && nodes == old(nodes)
      ensures frames == TokenTree.Add(old(frames), t)
    {
      hide Stands, AllStand, FramesText, ForestText, TreeText;
      var top := stack[|stack| - 1];
      ghost var n := |stack| - 1;
      ghost var was, ts := top.children, frames[n].children;
      assert Holds(n) && AllStand(was, ts, closed);
      StandLength(was, ts, closed);
      frames := TokenTree.Add(frames, t);
      top.children := top.children + [c];
      assert top.children[..|ts|] == was;
      LastStands(top.children, ts, t, closed);
      forall i | 0 <= i < |stack| ensures Holds(i) {
        assert old(Holds(i));
        if i < n {
          assert stack[i].children == old(stack[i].children);
        }
      }
    }

    method AddText(text: string)
      requires Valid()
      modifies this, nodes
      ensures Valid() && nodes == old(nodes)
      ensures frames == AddAll(old(frames), if text == "" then [] else [Leaf(text)])
    {
      if text != "" {
        Add(TextChild(text), Leaf(text));
        assert [Leaf(text)][..0] == [];
      }
    }

    /** The finished tree of a nested highlighter becomes a child, renamed to its language. */
    method AddSublanguage(children: seq<Tree>, name: string)
      requires Valid()
      modifies this, nodes
      ensures Valid() && nodes == old(nodes)
      ensures frames == TokenTree.Add(old(frames), Branch(name, true, children))
    {
      var t := Branch(name, true, children);
      Add(TreeChild(t), t);
    }

    method OpenNode(kind: string)
      requires Valid()
      modifies this, nodes
      ensures Valid() && fresh(nodes - old(nodes))
      ensures frames == TokenTree.OpenNode(old(frames), kind)
    {
      var n := new Node(kind);
      var top := stack[|stack| - 1];
      ghost var was := top.children;
      top.children := top.children + [NodeChild(n)];
      stack := stack + [n];
      frames := TokenTree.OpenNode(frames, kind);
      nodes := nodes + {n};
      assert top.children[..|was|] == was;
      forall i | 0 <= i < |stack| ensures Holds(i) {
        if i < |old(stack)| {
          assert old(Holds(i));
        }
      }
    }

    method CloseNode() returns (popped: bool)
      requires Valid()
      modifies this
      ensures Valid() && nodes == old(nodes)
      ensures frames == TokenTree.CloseNode(old(frames))
      ensures popped == (|old(stack)| > 1)
    {
      hide FramesText, ForestText, TreeText, AllStand;
      if |stack| > 1 {
        var n := |stack| - 1;
        ghost var top, fs, was := stack[n], frames, closed;
        assert Holds(n) && Holds(n - 1);
        stack := stack[..n];
        closed := closed + {top};
        frames := TokenTree.CloseNode(frames);
        forall i | 0 <= i < n ensures Holds(i) {
          assert old(Holds(i));
          AllStandMono(stack[i].children[..|fs[i].children|], fs[i].children, was, closed);
          if i == n - 1 {
            AllStandMono(top.children, fs[n].children, was, closed);
            LastStands(stack[i].children, fs[i].children, Branch(fs[n].kind, false, fs[n].children), closed);
          }
        }
        return true;
      }
      return false;
    }

    method CloseAllNodes()
      requires Valid()
      modifies this
      ensures Valid() && nodes == old(nodes)
      ensures frames == CloseAll(old(frames))
    {
      hide Stands, AllStand, Holds;
      var more := true;
      while more
        invariant Valid() && nodes == old(nodes)
        invariant CloseAll(frames) == CloseAll(old(frames))
        invariant !more ==> |stack| == 1
        decreases |stack|, more
      {
        more := CloseNode();
      }
    }

    method AddKeyword(text: string, kind: string)
      requires Valid()
      modifies this, nodes
      ensures Valid() && fresh(nodes - old(nodes))
      ensures frames == AddAll(old(frames), if text == "" then [] else [Branch(kind, false, [Leaf(text)])])
    {
      hide Valid, FramesText, ForestText;
      if text != "" {
        OpenNode(kind);
        AddText(text);
        var _ := CloseNode();
        KeywordFrames(old(frames), text, kind);
      }
    }

    method ToHTML(prefix: string) returns (html: string)
      requires Valid() && |frames| == 1
      ensures html == Render(Root(frames), prefix)
    {
      var r := new HTMLRenderer(prefix);
      assert Holds(0);
      r.OpenNode(rootNode.kind, false);
      WalkAll(rootNode.children, r, frames[0].children, closed);
      r.CloseNode(rootNode.kind);
      html := r.buffer;
    }
  }

  lemma KeywordFrames(fs: Frames, text: string, kind: string)
    requires text != ""
    ensures TokenTree.CloseNode(AddAll(TokenTree.OpenNode(fs, kind), [Leaf(text)]))
         == AddAll(fs, [Branch(kind, false, [Leaf(text)])])
  {
    var wider := TokenTree.OpenNode(fs, kind);
    var leaf, branch := [Leaf(text)], [Branch(kind, false, [Leaf(text)])];
    assert leaf[..0] == [] && branch[..0] == [];
    var filled := TokenTree.Add(wider, leaf[0]);
    assert AddAll(wider, leaf) == filled;
    assert filled[..|fs|] == fs;
    assert filled[|fs|].children == leaf;
  }

  class HTMLRenderer {
    var buffer: string
    const classPrefix: string

    constructor (prefix: string)
      ensures buffer == "" && classPrefix == prefix
    {
      buffer := "";
      classPrefix := prefix;
    }

    method AddText(text: string)
      modifies this
      ensures buffer == old(buffer) + Escape(text)
    {
      buffer := buffer + Escape(text);
    }

    method OpenNode(kind: string, sublanguage: bool)
      modifies this
      ensures buffer == old(buffer) + if kind == "" then "" else StartTag(Class(kind, sublanguage, classPrefix))
    {
      if kind != "" {
        var name := kind;
        if !sublanguage {
          name := classPrefix + name;
        }
        buffer := buffer + ("<span class=\"" + name + "\">");
      }
    }

    method CloseNode(kind: string)
      modifies this
      ensures buffer == old(buffer) + if kind == "" then "" else EndTag()
    {
      if kind != "" {
        buffer := buffer + "</span>";
      }
    }
  }

  method Walk(c: Child, r: HTMLRenderer, ghost t: Tree, ghost closed: set<Node>)
    requires Stands(c, t, closed)
    modifies r
    ensures r.buffer == old(r.buffer) + Render(t, r.classPrefix)
    decreases t
  {
    hide Escape, StartTag, EndTag, Class, RenderForest, AllStand;
    match c
    case TextChild(text) => r.AddText(text);
    case NodeChild(node) =>
      r.OpenNode(node.kind, false);
      WalkAll(node.children, r, t.children, closed);
      r.CloseNode(node.kind);
    case TreeChild(tree) => r.buffer := r.buffer + Render(tree, r.classPrefix);
  }

  method WalkAll(cs: seq<Child>, r: HTMLRenderer, ghost ts: seq<Tree>, ghost closed: set<Node>)
    requires AllStand(cs, ts, closed)
    modifies r
    ensures r.buffer == old(r.buffer) + RenderForest(ts, r.classPrefix)
    decreases ts
  {
    hide Render, Stands;
    for i := 0 to |cs|
      invariant r.buffer == old(r.buffer) + RenderForest(ts[..i], r.classPrefix)
    {
      Walk(cs[i], r, ts[i], closed);
      assert ts[..i + 1][..i] == ts[..i];
    }
    assert ts[..|cs|] == ts;
  }
}
