/** The event stream of a document fragment, as highlight.js records it before merging, and what
    its test for void elements means for the nesting of the merged HTML. */
module DomStreams {
  import opened Html
  import opened Optional
  import opened MergeStreams

  datatype Dom = TextNode(text: string) | ElementNode(element: Element, children: seq<Dom>) | OtherNode

  function DomText(d: Dom): string {
    match d
    case TextNode(s) => s
    case ElementNode(_, children) => DomsText(children)
    case OtherNode => ""
  }

  function DomsText(ds: seq<Dom>): string {
    if ds == [] then "" else DomsText(ds[..|ds| - 1]) + DomText(ds[|ds| - 1])
  }

  predicate Contains(s: string, sub: string) {
    sub <= s || (s != [] && Contains(s[1..], sub))
  }

  /** The program's test: the name matches `br`, `hr`, `img` or `input` anywhere. */
  predicate VoidByPattern(t: Tag) {
    var name := t.node.name;
    Contains(name, "br") || Contains(name, "hr") || Contains(name, "img") || Contains(name, "input")
  }

  /** The elements among them that HTML writes without a closing tag. */
  predicate VoidInHtml(t: Tag) {
    var name := t.node.name;
    name == "br" || name == "hr" || name == "img" || name == "input" || name == "wbr"
  }

  lemma VoidInHtmlMatches(t: Tag)
    ensures VoidInHtml(t) ==> VoidByPattern(t)
  {
    assert "wbr"[1..] == "br";
  }

  function StreamOf(d: Dom, a: nat): seq<Event> {
    match d
    case ElementNode(el, children) =>
      [Event(true, a, el)] + StreamAll(children, a)
      + if VoidByPattern(Tag(el, true)) then [] else [Event(false, a + |DomsText(children)|, el)]
    case _ => []
  }

  function StreamAll(ds: seq<Dom>, a: nat): seq<Event> {
    if ds == [] then []
    else
      var n := |ds| - 1;
      StreamAll(ds[..n], a) + StreamOf(ds[n], a + |DomsText(ds[..n])|)
  }

  // ---------------------------------------------------------------- the document behind a stream

  predicate OccursAt(s: string, sub: string, i: int) {
    0 <= i && i + |sub| <= |s| && s[i..i + |sub|] == sub
  }

  lemma {:induction false} ContainsAt(s: string, sub: string)
    ensures Contains(s, sub) <==> exists i :: OccursAt(s, sub, i)
  {
    if sub <= s {
      assert OccursAt(s, sub, 0);
    } else if s != [] {
      ContainsAt(s[1..], sub);
      forall i | OccursAt(s[1..], sub, i) ensures OccursAt(s, sub, i + 1) {
        assert s[i + 1..i + 1 + |sub|] == s[1..][i..i + |sub|];
      }
      forall i | OccursAt(s, sub, i) ensures OccursAt(s[1..], sub, i - 1) {
        assert i > 0;
        assert s[1..][i - 1..i - 1 + |sub|] == s[i..i + |sub|];
      }
    }
  }

  /** An element passes for void exactly if one of the four names stands anywhere in its own. */
  lemma PassesForVoidIff(t: Tag)
    ensures VoidByPattern(t) <==>
              exists i :: OccursAt(t.node.name, "br", i) || OccursAt(t.node.name, "hr", i)
                          || OccursAt(t.node.name, "img", i) || OccursAt(t.node.name, "input", i)
  {
    hide Contains;
    var name := t.node.name;
    ContainsAt(name, "br");
    ContainsAt(name, "hr");
    ContainsAt(name, "img");
    ContainsAt(name, "input");
  }

  /** The element's start tag, what is in it, and its end tag unless it passes for void. */
  function DomTags(d: Dom, original: bool): Out {
    match d
    case ElementNode(el, children) =>
      [Open(Tag(el, original))] + DomsTags(children, original)
      + if VoidByPattern(Tag(el, true)) then [] else [Close(Tag(el, original))]
    case _ => []
  }

  function DomsTags(ds: seq<Dom>, original: bool): Out {
    if ds == [] then [] else DomsTags(ds[..|ds| - 1], original) + DomTags(ds[|ds| - 1], original)
  }

  /** The characters of a document, each with the elements it lies in that do not pass for void. */
  function DomCells(d: Dom, around: seq<Tag>, original: bool): seq<Cell> {
    match d
    case TextNode(s) => Cells(s, around)
    case ElementNode(el, children) =>
      DomsCells(children, around + if VoidByPattern(Tag(el, true)) then [] else [Tag(el, original)], original)
    case OtherNode => []
  }

  function DomsCells(ds: seq<Dom>, around: seq<Tag>, original: bool): seq<Cell> {
    if ds == [] then []
    else DomsCells(ds[..|ds| - 1], around, original) + DomCells(ds[|ds| - 1], around, original)
  }

  lemma {:induction false} StreamOfTags(d: Dom, a: nat, original: bool)
    ensures StreamTokens(StreamOf(d, a), original) == DomTags(d, original)
    decreases d
  {
    hide VoidByPattern;
    if d.ElementNode? {
      var end := a + |DomsText(d.children)|;
      var opening, closing := [Event(true, a, d.element)], [Event(false, end, d.element)];
      StreamAllTags(d.children, a, original);
      StreamTokensAppend(opening, StreamAll(d.children, a), original);
      StreamTokensAppend(opening + StreamAll(d.children, a), closing, original);
      assert StreamTokens(opening, original) == [Open(Tag(d.element, original))];
      assert StreamTokens(closing, original) == [Close(Tag(d.element, original))];
      assert opening + StreamAll(d.children, a) + [] == opening + StreamAll(d.children, a);
    }
  }

  lemma {:induction false} StreamAllTags(ds: seq<Dom>, a: nat, original: bool)
    ensures StreamTokens(StreamAll(ds, a), original) == DomsTags(ds, original)
    decreases ds
  {
    hide StreamOf;
    if ds != [] {
      var n := |ds| - 1;
      StreamAllTags(ds[..n], a, original);
      StreamOfTags(ds[n], a + |DomsText(ds[..n])|, original);
      StreamTokensAppend(StreamAll(ds[..n], a), StreamOf(ds[n], a + |DomsText(ds[..n])|), original);
    }
  }

  lemma {:induction false} DomLetters(d: Dom, around: seq<Tag>, original: bool)
    ensures var cells := DomCells(d, around, original);
            |cells| == |DomText(d)| && forall p :: 0 <= p < |cells| ==> cells[p].c == DomText(d)[p]
    decreases d
  {
    if d.ElementNode? {
      DomsLetters(d.children, around + if VoidByPattern(Tag(d.element, true)) then [] else [Tag(d.element, original)],
                  original);
    }
  }

  lemma {:induction false} DomsLetters(ds: seq<Dom>, around: seq<Tag>, original: bool)
    ensures var cells := DomsCells(ds, around, original);
            |cells| == |DomsText(ds)| && forall p :: 0 <= p < |cells| ==> cells[p].c == DomsText(ds)[p]
    decreases ds
  {
    hide DomCells, DomText;
    if ds != [] {
      DomsLetters(ds[..|ds| - 1], around, original);
      DomLetters(ds[|ds| - 1], around, original);
    }
  }

  /** The events of two streams up to a place before, or at and behind, the one where the second begins. */
  lemma {:induction false} EventsUptoAppend(x: seq<Event>, y: seq<Event>, p: nat)
    ensures (forall k :: 0 <= k < |x| ==> x[k].offset <= p) ==> EventsUpto(x + y, p) == |x| + EventsUpto(y, p)
    ensures (forall k :: 0 <= k < |y| ==> y[k].offset > p) ==> EventsUpto(x + y, p) == EventsUpto(x, p)
    decreases |x|
  {
    if x == [] {
      assert x + y == y;
    } else {
      assert (x + y)[1..] == x[1..] + y;
      EventsUptoAppend(x[1..], y, p);
    }
  }

  /** The elements open at a place, by the events up to it. */
  function OpenAt(s: seq<Event>, p: nat, original: bool, start: seq<Tag>): Option<seq<Tag>> {
    Balance(StreamTokens(s[..EventsUpto(s, p)], original), start, VoidByPattern)
  }

  lemma OpenAtBehind(x: seq<Event>, y: seq<Event>, p: nat, original: bool, start: seq<Tag>, mid: seq<Tag>)
    requires forall k :: 0 <= k < |x| ==> x[k].offset <= p
    requires Balance(StreamTokens(x, original), start, VoidByPattern) == Some(mid)
    ensures OpenAt(x + y, p, original, start) == OpenAt(y, p, original, mid)
  {
    hide VoidByPattern, EventsUpto, Balance;
    EventsUptoAppend(x, y, p);
    var n := EventsUpto(y, p);
    assert (x + y)[..|x| + n] == x + y[..n];
    StreamTokensAppend(x, y[..n], original);
    BalanceAppend(StreamTokens(x, original), StreamTokens(y[..n], original), start, VoidByPattern);
  }

  lemma OpenAtBefore(x: seq<Event>, y: seq<Event>, p: nat, original: bool, start: seq<Tag>)
    requires forall k :: 0 <= k < |y| ==> y[k].offset > p
    ensures OpenAt(x + y, p, original, start) == OpenAt(x, p, original, start)
  {
    hide VoidByPattern, EventsUpto, Balance;
    EventsUptoAppend(x, y, p);
    assert (x + y)[..EventsUpto(x, p)] == x[..EventsUpto(x, p)];
  }

  lemma {:induction false} OpenAtDom(d: Dom, a: nat, p: nat, original: bool, start: seq<Tag>)
    requires a <= p < a + |DomText(d)|
    ensures |DomCells(d, start, original)| == |DomText(d)|
    ensures OpenAt(StreamOf(d, a), p, original, start) == Some(DomCells(d, start, original)[p - a].around)
    decreases d
  {
    hide VoidByPattern, OpenAt, Balance;
    DomLetters(d, start, original);
    match d
    case TextNode(s) => OpenAtNothing(p, original, start);
    case ElementNode(el, children) =>
      var end, tag := a + |DomsText(children)|, Tag(el, original);
      var opening, inner := [Event(true, a, el)], StreamAll(children, a);
      var closing := if VoidByPattern(Tag(el, true)) then [] else [Event(false, end, el)];
      var around := start + if VoidByPattern(Tag(el, true)) then [] else [tag];
      PatternIgnoresOrigin(el);
      assert StreamTokens(opening, original) == [Open(tag)];
      AdvanceOne(Open(tag), start);
      assert start + [] == start;
      OpenAtBefore(opening + inner, closing, p, original, start);
      OpenAtBehind(opening, inner, p, original, start, around);
      OpenAtDoms(children, a, p, original, around);
  }

  lemma OpenAtNothing(p: nat, original: bool, start: seq<Tag>)
    ensures OpenAt([], p, original, start) == Some(start)
  {
    assert StreamTokens([], original) == [];
  }

  lemma {:induction false} OpenAtDoms(ds: seq<Dom>, a: nat, p: nat, original: bool, start: seq<Tag>)
    requires a <= p < a + |DomsText(ds)|
    ensures |DomsCells(ds, start, original)| == |DomsText(ds)|
    ensures OpenAt(StreamAll(ds, a), p, original, start) == Some(DomsCells(ds, start, original)[p - a].around)
    decreases ds
  {
    hide VoidByPattern, OpenAt, Balance, DomCells, StreamOf;
    DomsLetters(ds, start, original);
    var n := |ds| - 1;
    var mid := a + |DomsText(ds[..n])|;
    var x, y := StreamAll(ds[..n], a), StreamOf(ds[n], mid);
    DomsLetters(ds[..n], start, original);
    DomLetters(ds[n], start, original);
    StreamAllSorted(ds[..n], a);
    StreamOfSorted(ds[n], mid);
    if p < mid {
      OpenAtBefore(x, y, p, original, start);
      OpenAtDoms(ds[..n], a, p, original, start);
    } else {
      StreamAllNests(ds[..n], a, original, start);
      OpenAtBehind(x, y, p, original, start, start);
      OpenAtDom(ds[n], mid, p, original, start);
    }
  }

  /** What the streams of two documents say about a character is what the documents say about it. */
  lemma ExpectedFromDoms(original: seq<Dom>, highlighted: seq<Dom>, p: nat)
    requires DomsText(original) == DomsText(highlighted) && p < |DomsText(original)|
    ensures |DomsCells(original, [], true)| == |DomsCells(highlighted, [], false)| == |DomsText(original)|
    ensures Around(StreamAll(original, 0), StreamAll(highlighted, 0), p, VoidByPattern)
            == DomsCells(original, [], true)[p].around + DomsCells(highlighted, [], false)[p].around
  {
    hide VoidByPattern, StreamAll, DomsCells, DomsText, Balance;
    OpenAtDoms(original, 0, p, true, []);
    OpenAtDoms(highlighted, 0, p, false, []);
  }

  // ---------------------------------------------------------------- every recorded stream can be merged

  lemma SortedAppend(x: seq<Event>, y: seq<Event>, lo: nat, mid: nat, hi: nat)
    requires Sorted(x) && Within(x, lo, mid) && Sorted(y) && Within(y, mid, hi) && lo <= mid <= hi
    ensures Sorted(x + y) && Within(x + y, lo, hi)
  {
  }

  lemma {:induction false} StreamOfSorted(d: Dom, a: nat)
    ensures Sorted(StreamOf(d, a)) && Within(StreamOf(d, a), a, a + |DomText(d)|)
    decreases d
  {
    if d.ElementNode? {
      var end := a + |DomsText(d.children)|;
      var inner := StreamAll(d.children, a);
      StreamAllSorted(d.children, a);
      SortedAppend([Event(true, a, d.element)], inner, a, a, end);
      SortedAppend([Event(true, a, d.element)] + inner, [Event(false, end, d.element)], a, end, end);
      assert [Event(true, a, d.element)] + inner + [] == [Event(true, a, d.element)] + inner;
    }
  }

  lemma {:induction false} StreamAllSorted(ds: seq<Dom>, a: nat)
    ensures Sorted(StreamAll(ds, a)) && Within(StreamAll(ds, a), a, a + |DomsText(ds)|)
    decreases ds
  {
    if ds != [] {
      var n := |ds| - 1;
      var mid := a + |DomsText(ds[..n])|;
      StreamAllSorted(ds[..n], a);
      StreamOfSorted(ds[n], mid);
      SortedAppend(StreamAll(ds[..n], a), StreamOf(ds[n], mid), a, mid, a + |DomsText(ds)|);
    }
  }

  lemma StreamTokensAppend(x: seq<Event>, y: seq<Event>, original: bool)
    ensures StreamTokens(x + y, original) == StreamTokens(x, original) + StreamTokens(y, original)
  {
  }

  ghost predicate OpensAndCloses(s: seq<Event>, original: bool, start: seq<Tag>) {
    Balance(StreamTokens(s, original), start, VoidByPattern) == Some(start)
  }

  lemma {:induction false} StreamOfNests(d: Dom, a: nat, original: bool, start: seq<Tag>)
    ensures OpensAndCloses(StreamOf(d, a), original, start)
    decreases d
  {
    hide VoidByPattern;
    if d.ElementNode? {
      var tag, end := Tag(d.element, original), a + |DomsText(d.children)|;
      var inner := StreamAll(d.children, a);
      var opening, closing := [Event(true, a, d.element)], [Event(false, end, d.element)];
      PatternIgnoresOrigin(d.element);
      StreamTokensAppend(opening, inner, original);
      StreamTokensAppend(opening + inner, closing, original);
      assert StreamTokens(opening, original) == [Open(tag)] && StreamTokens(closing, original) == [Close(tag)];
      if VoidByPattern(tag) {
        StreamAllNests(d.children, a, original, start);
        AdvanceOne(Open(tag), start);
        BalanceAppend([Open(tag)], StreamTokens(inner, original), start, VoidByPattern);
        assert StreamOf(d, a) == opening + inner;
      } else {
        StreamAllNests(d.children, a, original, start + [tag]);
        AdvanceOne(Open(tag), start);
        AdvanceOne(Close(tag), start + [tag]);
        BalanceAppend([Open(tag)], StreamTokens(inner, original), start, VoidByPattern);
        BalanceAppend([Open(tag)] + StreamTokens(inner, original), [Close(tag)], start, VoidByPattern);
        assert (start + [tag])[..|start|] == start;
        assert StreamOf(d, a) == opening + inner + closing;
      }
    } else {
      assert StreamTokens(StreamOf(d, a), original) == [];
    }
  }

  lemma PatternIgnoresOrigin(el: Element)
    ensures VoidByPattern(Tag(el, true)) == VoidByPattern(Tag(el, false))
  {
  }

  lemma AdvanceOne(t: Token<Tag>, start: seq<Tag>)
    ensures Balance([t], start, VoidByPattern) == Advance(start, t, VoidByPattern)
  {
    assert [t][..0] == [];
  }

  lemma {:induction false} StreamAllNests(ds: seq<Dom>, a: nat, original: bool, start: seq<Tag>)
    ensures OpensAndCloses(StreamAll(ds, a), original, start)
    decreases ds
  {
    hide VoidByPattern, StreamOf;
    if ds == [] {
      assert StreamTokens(StreamAll(ds, a), original) == [];
    } else {
      var n := |ds| - 1;
      var x, y := StreamAll(ds[..n], a), StreamOf(ds[n], a + |DomsText(ds[..n])|);
      StreamAllNests(ds[..n], a, original, start);
      StreamOfNests(ds[n], a + |DomsText(ds[..n])|, original, start);
      StreamTokensAppend(x, y, original);
      BalanceAppend(StreamTokens(x, original), StreamTokens(y, original), start, VoidByPattern);
    }
  }

  /** No span of the highlighted document is taken for a void element. */
  ghost predicate OnlySpans(s: seq<Event>) {
    forall k :: 0 <= k < |s| ==> !VoidByPattern(Tag(s[k].node, false))
  }

  lemma RecordedIsMergeable(original: seq<Dom>, highlighted: seq<Dom>)
    requires DomsText(original) == DomsText(highlighted) && OnlySpans(StreamAll(highlighted, 0))
    ensures Mergeable(DomsText(original), StreamAll(original, 0), StreamAll(highlighted, 0), VoidByPattern)
  {
    hide VoidByPattern, StreamAll, DomsText, Balance;
    var e, t := StreamAll(original, 0), StreamAll(highlighted, 0);
    StreamAllSorted(original, 0);
    StreamAllSorted(highlighted, 0);
    StreamAllNests(original, 0, true, []);
    StreamAllNests(highlighted, 0, false, []);
    assert e[..|e|] == e && t[..|t|] == t;
  }

  // ---------------------------------------------------------------- nesting as HTML reads it

  function Opens(ts: Out, x: Tag): nat {
    if ts == [] then 0 else Opens(ts[..|ts| - 1], x) + if ts[|ts| - 1] == Open(x) then 1 else 0
  }

  function Closes(ts: Out, x: Tag): nat {
    if ts == [] then 0 else Closes(ts[..|ts| - 1], x) + if ts[|ts| - 1] == Close(x) then 1 else 0
  }

  lemma {:induction false} NestedCounts(ts: Out, x: Tag, isVoid: Tag -> bool)
    requires Balance(ts, [], isVoid).Some? && !isVoid(x)
    ensures Opens(ts, x) == Closes(ts, x) + multiset(Balance(ts, [], isVoid).value)[x]
  {
    if ts != [] {
      var n := |ts| - 1;
      NestedCounts(ts[..n], x, isVoid);
      var st := Balance(ts[..n], [], isVoid).value;
      if st != [] {
        assert st == st[..|st| - 1] + [st[|st| - 1]];
      }
    }
  }

  lemma CountsSnoc(ts: Out, t: Token<Tag>, x: Tag)
    ensures Opens(ts + [t], x) == Opens(ts, x) + if t == Open(x) then 1 else 0
    ensures Closes(ts + [t], x) == Closes(ts, x) + if t == Close(x) then 1 else 0
  {
    assert (ts + [t])[..|ts + [t]| - 1] == ts;
  }

  lemma {:induction false} OriginalCounts(ts: Out, x: Tag)
    requires x.original
    ensures Opens(ts, x) == Opens(Originals(ts), x) && Closes(ts, x) == Closes(Originals(ts), x)
  {
    hide Opens, Closes;
    if ts != [] {
      var n := |ts| - 1;
      OriginalCounts(ts[..n], x);
      CountsSnoc(ts[..n], ts[n], x);
      CountsSnoc(Originals(ts[..n]), ts[n], x);
      assert ts[..n] + [ts[n]] == ts;
      assert Originals(ts[..n]) + [] == Originals(ts[..n]);
    } else {
      assert Originals(ts) == ts;
    }
  }

  lemma {:induction false} CountsSeen(ts: Out, x: Tag, k: nat)
    requires k < |ts|
    ensures ts[k] == Open(x) ==> Opens(ts, x) > 0
    decreases |ts|
  {
    if k < |ts| - 1 {
      CountsSeen(ts[..|ts| - 1], x, k);
    }
  }

  lemma {:induction false} NeverClosed(ts: Out, x: Tag)
    requires forall k :: 0 <= k < |ts| ==> ts[k] != Close(x)
    ensures Closes(ts, x) == 0
  {
    if ts != [] {
      NeverClosed(ts[..|ts| - 1], x);
    }
  }

  lemma {:induction false} SameVoids(ts: Out, start: seq<Tag>, a: Tag -> bool, b: Tag -> bool)
    requires forall k :: 0 <= k < |ts| && ts[k].Open? ==> a(ts[k].tag) == b(ts[k].tag)
    ensures Balance(ts, start, a) == Balance(ts, start, b)
  {
    if ts != [] {
      SameVoids(ts[..|ts| - 1], start, a, b);
    }
  }

  /** Only elements that pass for void are recorded without a stop. */
  lemma {:induction false} StopsAreNotVoid(d: Dom, a: nat, k: nat)
    requires k < |StreamOf(d, a)| && !StreamOf(d, a)[k].start
    ensures !VoidByPattern(Tag(StreamOf(d, a)[k].node, true))
    decreases d
  {
    var inner := StreamAll(d.children, a);
    if 1 <= k <= |inner| {
      AllStopsAreNotVoid(d.children, a, k - 1);
    }
  }

  lemma {:induction false} AllStopsAreNotVoid(ds: seq<Dom>, a: nat, k: nat)
    requires k < |StreamAll(ds, a)| && !StreamAll(ds, a)[k].start
    ensures !VoidByPattern(Tag(StreamAll(ds, a)[k].node, true))
    decreases ds
  {
    hide VoidByPattern, StreamOf;
    var n := |ds| - 1;
    var before := StreamAll(ds[..n], a);
    if k < |before| {
      AllStopsAreNotVoid(ds[..n], a, k);
    } else {
      StopsAreNotVoid(ds[n], a + |DomsText(ds[..n])|, k - |before|);
    }
  }

  lemma {:induction false} OriginalsContain(ts: Out, k: nat)
    requires k < |ts| && !ts[k].Text? && ts[k].tag.original
    ensures ts[k] in Originals(ts)
    decreases |ts|
  {
    if k < |ts| - 1 {
      OriginalsContain(ts[..|ts| - 1], k);
    }
  }

  /** Every element of the document that passes for void is void in HTML. */
  ghost predicate VoidsAreReal(s: seq<Event>) {
    forall k :: 0 <= k < |s| && s[k].start && VoidByPattern(Tag(s[k].node, true)) ==> VoidInHtml(Tag(s[k].node, true))
  }

  /** The merged HTML is well nested as a browser reads it exactly when no element of the original
      document passes for void without being so, such as an `abbr`, whose name contains `br`; `wbr`
      is void in HTML too. */
  lemma NestsInHtmlIff(out: Out, original: seq<Dom>)
    requires WellNested(out, VoidByPattern)
    requires Originals(out) == StreamTokens(StreamAll(original, 0), true)
    requires SpansAreReal(out, VoidByPattern)
    ensures WellNested(out, VoidInHtml) <==> VoidsAreReal(StreamAll(original, 0))
  {
    hide VoidByPattern, VoidInHtml, StreamAll, Balance, Originals, Opens, Closes;
    var s := StreamAll(original, 0);
    if VoidsAreReal(s) {
      forall k | 0 <= k < |out| && out[k].Open? ensures VoidByPattern(out[k].tag) == VoidInHtml(out[k].tag) {
        VoidInHtmlMatches(out[k].tag);
        if out[k].tag.original {
          OriginalsContain(out, k);
          var j :| 0 <= j < |s| && StreamTokens(s, true)[j] == out[k];
          assert s[j].start && out[k].tag == Tag(s[j].node, true);
        }
      }
      SameVoids(out, [], VoidByPattern, VoidInHtml);
    } else {
      var k :| 0 <= k < |s| && s[k].start && VoidByPattern(Tag(s[k].node, true)) && !VoidInHtml(Tag(s[k].node, true));
      var x := Tag(s[k].node, true);
      var tokens := StreamTokens(s, true);
      assert tokens[k] == Open(x);
      CountsSeen(tokens, x, k);
      forall j | 0 <= j < |tokens| ensures tokens[j] != Close(x) {
        if tokens[j] == Close(x) {
          AllStopsAreNotVoid(original, 0, j);
        }
      }
      NeverClosed(tokens, x);
      OriginalCounts(out, x);
      if Balance(out, [], VoidInHtml).Some? {
        NestedCounts(out, x, VoidInHtml);
      }
    }
  }

  /** A document on which it goes wrong, since the name of its element contains `br`, and one on which it
      does not, although the name of its element contains `br` as well. */
  lemma AbbrPassesForVoid()
    ensures var abbr := ElementNode(Element("abbr", []), [TextNode("x")]);
            var wbr := ElementNode(Element("wbr", []), []);
            && !VoidsAreReal(StreamAll([abbr], 0))
            && VoidsAreReal(StreamAll([wbr], 0))
  {
    var abbr, wbr := Element("abbr", []), Element("wbr", []);
    var one, two := ElementNode(abbr, [TextNode("x")]), ElementNode(wbr, []);
    assert "abbr"[1..] == "bbr" && "bbr"[1..] == "br" && "wbr"[1..] == "br";
    assert Contains("bbr", "br");
    assert VoidByPattern(Tag(abbr, true)) && VoidByPattern(Tag(wbr, true));
    assert [one][..0] == [] && [two][..0] == [];
    assert StreamAll([one], 0) == StreamOf(one, 0) && StreamAll([two], 0) == StreamOf(two, 0);
    assert StreamOf(one, 0)[0] == Event(true, 0, abbr);
    assert StreamOf(two, 0) == [Event(true, 0, wbr)];
  }

  // ---------------------------------------------------------------- the written HTML

  /** A start tag between its brackets: attribute values are escaped, then their quotes. */
  function StartBody(t: Tag): string {
    t.node.name + AttributesBody(t.node.attributes)
  }

  function AttributesBody(attributes: seq<(string, string)>): string {
    if attributes == [] then ""
    else " " + attributes[0].0 + "=\"" + ReplaceAll(Escape(attributes[0].1), '"', "&quot;") + "\""
         + AttributesBody(attributes[1..])
  }

  function EndBody(t: Tag): string {
    "/" + t.node.name
  }

  /** Names never contain the closing bracket; values may contain anything. */
  ghost predicate CleanNames(el: Element) {
    '>' !in el.name && forall i :: 0 <= i < |el.attributes| ==> '>' !in el.attributes[i].0
  }

  lemma {:induction false} QuotesKeepBracketsOut(s: string)
    requires '>' !in s
    ensures '>' !in ReplaceAll(s, '"', "&quot;")
  {
    if s != [] {
      QuotesKeepBracketsOut(s[1..]);
    }
  }

  lemma {:induction false} AttributesClosed(attributes: seq<(string, string)>)
    requires forall i :: 0 <= i < |attributes| ==> '>' !in attributes[i].0
    ensures '>' !in AttributesBody(attributes)
  {
    hide Escape, ReplaceAll;
    if attributes != [] {
      EscapeHasNoBrackets(attributes[0].1);
      QuotesKeepBracketsOut(Escape(attributes[0].1));
      AttributesClosed(attributes[1..]);
    }
  }

  /** The merged HTML without its tags is the escaped text, whatever the attribute values are. */
  lemma MergedHtmlKeepsText(out: Out)
    requires forall k :: 0 <= k < |out| && !out[k].Text? ==> CleanNames(out[k].tag.node)
    ensures StripTags(Write(out, StartBody, EndBody)) == Escape(RawText(out))
    ensures Unescape(StripTags(Write(out, StartBody, EndBody))) == RawText(out)
  {
    hide Escape, Unescape, StripTags, RawText, Write, AttributesBody;
    forall k | 0 <= k < |out| && !out[k].Text? ensures '>' !in StartBody(out[k].tag) && '>' !in EndBody(out[k].tag) {
      AttributesClosed(out[k].tag.node.attributes);
    }
    StripWrite(out, StartBody, EndBody);
  }

  /** The merge of a highlighted block back into its document: for any two fragments over one
      text, nesting by the program's rule, the text, the tags of the original document, around every
      character its elements of the original document and inside them its spans of the highlighted one, and
      exactly when a browser sees the same nesting. */
  method MergeBlock(original: seq<Dom>, highlighted: seq<Dom>) returns (out: Out)
    requires DomsText(original) == DomsText(highlighted) && OnlySpans(StreamAll(highlighted, 0))
    ensures WellNested(out, VoidByPattern)
    ensures RawText(out) == DomsText(original)
    ensures Originals(out) == DomsTags(original, true)
    ensures var cells, text := Painted(out, VoidByPattern), DomsText(original);
            && |cells| == |DomsCells(original, [], true)| == |DomsCells(highlighted, [], false)| == |text|
            && forall p :: 0 <= p < |text| ==>
                 cells[p] == Cell(text[p], DomsCells(original, [], true)[p].around
                                           + DomsCells(highlighted, [], false)[p].around)
    ensures WellNested(out, VoidInHtml) <==> VoidsAreReal(StreamAll(original, 0))
  {
    hide VoidByPattern, VoidInHtml, StreamAll, Balance, Originals, Painted, Around, DomsText, RawText, DomsCells,
         DomsTags;
    RecordedIsMergeable(original, highlighted);
    var e, t := StreamAll(original, 0), StreamAll(highlighted, 0);
    out := MergeStreams.MergeStreams(e, t, DomsText(original), VoidByPattern);
    NestsInHtmlIff(out, original);
    StreamAllTags(original, 0, true);
    DomsLetters(original, [], true);
    DomsLetters(highlighted, [], false);
    forall p | 0 <= p < |DomsText(original)|
      ensures Painted(out, VoidByPattern)[p]
              == Cell(DomsText(original)[p], DomsCells(original, [], true)[p].around
                                             + DomsCells(highlighted, [], false)[p].around)
    {
      ExpectedFromDoms(original, highlighted, p);
    }
  }
}
