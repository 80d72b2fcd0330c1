/** Merging the tags of the original document into highlighted HTML: the event streams of two
    documents over the same text, and the loop of highlight.js that interleaves them. */
module MergeStreams {
  import opened Html
  import opened Optional

  datatype Element = Element(name: string, attributes: seq<(string, string)>)

  datatype Event = Event(start: bool, offset: nat, node: Element)

  /** A tag of the output and whether it comes from the original document. */
  datatype Tag = Tag(node: Element, original: bool)

  type Out = seq<Token<Tag>>

  // ---------------------------------------------------------------- streams

  function EventToken(v: Event, original: bool): Token<Tag> {
    if v.start then Open(Tag(v.node, original)) else Close(Tag(v.node, original))
  }

  function StreamTokens(s: seq<Event>, original: bool): Out {
    seq(|s|, i requires 0 <= i < |s| => EventToken(s[i], original))
  }

  ghost predicate Sorted(s: seq<Event>) {
    forall i, j :: 0 <= i < j < |s| ==> s[i].offset <= s[j].offset
  }

  ghost predicate Within(s: seq<Event>, lo: nat, hi: nat) {
    forall i :: 0 <= i < |s| ==> lo <= s[i].offset <= hi
  }

  /** The elements open after the first n events. */
  function OpenAfter(s: seq<Event>, original: bool, n: nat, isVoid: Tag -> bool): Option<seq<Tag>>
    requires n <= |s|
  {
    Balance(StreamTokens(s[..n], original), [], isVoid)
  }

  ghost predicate Nested(s: seq<Event>, original: bool, isVoid: Tag -> bool) {
    OpenAfter(s, original, |s|, isVoid) == Some([])
  }

  /** The number of leading events at or before a position. */
  function EventsUpto(s: seq<Event>, p: nat): (n: nat)
    ensures n <= |s|
  {
    if s == [] || s[0].offset > p then 0 else 1 + EventsUpto(s[1..], p)
  }

  lemma {:induction false} EventsUptoIs(s: seq<Event>, p: nat, n: nat)
    requires n <= |s|
    requires forall k :: 0 <= k < n ==> s[k].offset <= p
    requires forall k :: n <= k < |s| ==> s[k].offset > p
    ensures EventsUpto(s, p) == n
  {
    if n > 0 {
      EventsUptoIs(s[1..], p, n - 1);
    }
  }

  lemma StreamTokensSnoc(s: seq<Event>, original: bool, n: nat)
    requires n < |s|
    ensures StreamTokens(s[..n + 1], original) == StreamTokens(s[..n], original) + [EventToken(s[n], original)]
  {
  }

  lemma OpenAfterNext(s: seq<Event>, original: bool, n: nat, isVoid: Tag -> bool)
    requires n < |s| && OpenAfter(s, original, n, isVoid).Some?
    ensures OpenAfter(s, original, n + 1, isVoid)
         == Advance(OpenAfter(s, original, n, isVoid).value, EventToken(s[n], original), isVoid)
  {
    StreamTokensSnoc(s, original, n);
    Snoc(StreamTokens(s[..n], original), EventToken(s[n], original), isVoid);
  }

  /** A stream that is nested as a whole never closes the wrong element on the way. */
  lemma {:induction false} NestedPrefix(s: seq<Event>, original: bool, n: nat, isVoid: Tag -> bool)
    requires n <= |s| && OpenAfter(s, original, |s|, isVoid).Some?
    ensures OpenAfter(s, original, n, isVoid).Some?
    decreases |s| - n
  {
    if n < |s| {
      NestedPrefix(s, original, n + 1, isVoid);
      StreamTokensSnoc(s, original, n);
      Snoc(StreamTokens(s[..n], original), EventToken(s[n], original), isVoid);
    }
  }

  // ---------------------------------------------------------------- what an output means

  /** A character and the tags open around it, outermost first. */
  datatype Cell = Cell(c: char, around: seq<Tag>)

  function Cells(text: string, around: seq<Tag>): seq<Cell> {
    seq(|text|, i requires 0 <= i < |text| => Cell(text[i], around))
  }

  /** The characters of an output with the tags open around each. */
  function Painted(out: Out, isVoid: Tag -> bool): seq<Cell> {
    if out == [] then []
    else
      var n := |out| - 1;
      Painted(out[..n], isVoid) + PaintedBy(out[n], Balance(out[..n], [], isVoid))
  }

  function PaintedBy(t: Token<Tag>, stack: Option<seq<Tag>>): seq<Cell> {
    if t.Text? then Cells(t.raw, if stack.Some? then stack.value else []) else []
  }

  /** The tags of the original document, in order of appearance. */
  function Originals(out: Out): Out {
    if out == [] then []
    else Originals(out[..|out| - 1]) + OriginalOf(out[|out| - 1])
  }

  function OriginalOf(t: Token<Tag>): Out {
    if !t.Text? && t.tag.original then [t] else []
  }

  lemma Snoc(out: Out, t: Token<Tag>, isVoid: Tag -> bool)
    ensures Balance(out + [t], [], isVoid)
         == (var b := Balance(out, [], isVoid); if b.None? then None else Advance(b.value, t, isVoid))
    ensures RawText(out + [t]) == RawText(out) + RawOf(t)
    ensures Painted(out + [t], isVoid) == Painted(out, isVoid) + PaintedBy(t, Balance(out, [], isVoid))
    ensures Originals(out + [t]) == Originals(out) + OriginalOf(t)
  {
    assert (out + [t])[..|out + [t]| - 1] == out;
  }

  /** The meaning of a merge: every character keeps the elements around it in the original
      document, and inside them the spans around it in the highlighted one. */
  ghost function Expected(text: string, e: seq<Event>, t: seq<Event>, isVoid: Tag -> bool): seq<Cell> {
    seq(|text|, p requires 0 <= p < |text| => Cell(text[p], Around(e, t, p, isVoid)))
  }

  function Around(e: seq<Event>, t: seq<Event>, p: nat, isVoid: Tag -> bool): seq<Tag> {
    var x, y := OpenAfter(e, true, EventsUpto(e, p), isVoid), OpenAfter(t, false, EventsUpto(t, p), isVoid);
    (if x.Some? then x.value else []) + (if y.Some? then y.value else [])
  }

  // ---------------------------------------------------------------- the merging loop

  /** Which stream is next: the lower offset; at equal offsets the original stream goes first
      when the highlighted one starts a span, and last when it stops one. */
  predicate OriginalNext(e: seq<Event>, t: seq<Event>) {
    if e != [] && t != [] then
      if e[0].offset != t[0].offset then e[0].offset < t[0].offset else t[0].start
    else e != []
  }

  /** What has been written once n events of one stream and m of the other have been consumed. */
  ghost predicate Merged(out: Out, text: string, i: nat, e: seq<Event>, n: nat, t: seq<Event>, m: nat,
          isVoid: Tag -> bool) {
    && n <= |e| && m <= |t| && i <= |text|
    && (forall k :: 0 <= k < n ==> e[k].offset <= i)
    && (forall k :: 0 <= k < m ==> t[k].offset <= i)
    && (forall k :: n <= k < |e| ==> i <= e[k].offset)
    && (forall k :: m <= k < |t| ==> i <= t[k].offset)
    && Painted(out, isVoid) == Expected(text, e, t, isVoid)[..i]
    && RawText(out) == text[..i]
    && Originals(out) == StreamTokens(e[..n], true)
  }

  ghost predicate Mergeable(text: string, e: seq<Event>, t: seq<Event>, isVoid: Tag -> bool) {
    && Sorted(e) && Sorted(t) && Within(e, 0, |text|) && Within(t, 0, |text|)
    && Nested(e, true, isVoid) && Nested(t, false, isVoid)
    && forall k :: 0 <= k < |t| ==> !isVoid(Tag(t[k].node, false))
  }

  function Reverse<T>(s: seq<T>): (r: seq<T>)
    ensures |r| == |s| && forall i :: 0 <= i < |s| ==> r[i] == s[|s| - 1 - i]
  {
    if s == [] then [] else Reverse(s[1..]) + [s[0]]
  }

  /** Appends tags without adding text: the cells and the original tags stay. */
  ghost predicate SameText(a: Out, b: Out, isVoid: Tag -> bool) {
    RawText(a) == RawText(b) && Painted(a, isVoid) == Painted(b, isVoid) && Originals(a) == Originals(b)
  }

  /** No span passes for void. */
  ghost predicate SpansAreReal(out: Out, isVoid: Tag -> bool) {
    forall k :: 0 <= k < |out| && !out[k].Text? && !out[k].tag.original ==> !isVoid(out[k].tag)
  }

  // ---------------------------------------------------------------- no empty spans

  /** The last token that shows: empty text does not. */
  function Last(out: Out): Option<Token<Tag>> {
    if out == [] then None
    else if out[|out| - 1] == Text("") then Last(out[..|out| - 1])
    else Some(out[|out| - 1])
  }

  predicate OpensSpan(t: Option<Token<Tag>>) {
    t.Some? && t.value.Open? && !t.value.tag.original
  }

  predicate ClosesSpan(t: Token<Tag>) {
    t.Close? && !t.tag.original
  }

  /** The highlighted document itself starts and stops this span at one place. */
  ghost predicate EmptyIn(t: seq<Event>, tag: Tag) {
    exists m :: 0 < m < |t| && t[m - 1].start && !t[m].start && t[m - 1].offset == t[m].offset && t[m].node == tag.node
  }

  /** A span that is opened and closed again right away is an empty one of the highlighted document: the
      merge splits no span into an empty piece. */
  ghost predicate NoEmptyPieces(out: Out, t: seq<Event>) {
    forall k :: 0 <= k < |out| && ClosesSpan(out[k]) && OpensSpan(Last(out[..k])) ==> EmptyIn(t, out[k].tag)
  }

  /** If a span has just been opened, the original events at the cursor are all written, and it is either
      the highlighted event just consumed or the next one is no stop at the cursor. */
  ghost predicate Poised(out: Out, i: nat, e: seq<Event>, n: nat, t: seq<Event>, m: nat) {
    n <= |e| && m <= |t| &&
    (OpensSpan(Last(out)) ==>
       && (n < |e| ==> e[n].offset > i)
       && (m < |t| && !t[m].start && t[m].offset == i ==> m > 0 && t[m - 1].start && t[m - 1].offset == i))
  }

  /** Only tokens that close no span, or close spans behind something that shows. */
  lemma NoEmptyExtends(out: Out, r: Out, t: seq<Event>)
    requires NoEmptyPieces(out, t) && out <= r
    requires forall k :: |out| <= k < |r| && ClosesSpan(r[k]) && OpensSpan(Last(r[..k])) ==> EmptyIn(t, r[k].tag)
    ensures NoEmptyPieces(r, t)
  {
    forall k | 0 <= k < |r| && ClosesSpan(r[k]) && OpensSpan(Last(r[..k])) ensures EmptyIn(t, r[k].tag) {
      if k < |out| {
        assert r[..k] == out[..k];
      }
    }
  }

  lemma LastSnoc(out: Out, t: Token<Tag>)
    ensures Last(out + [t]) == if t == Text("") then Last(out) else Some(t)
  {
    assert (out + [t])[..|out|] == out;
  }

  lemma LastOf(out: Out, k: nat)
    requires 0 < k <= |out| && !out[k - 1].Text?
    ensures Last(out[..k]) == Some(out[k - 1])
  {
  }

  /** Closing any number of spans where none has just been opened. */
  lemma NoEmptyClosing(out: Out, r: Out, t: seq<Event>)
    requires NoEmptyPieces(out, t) && out <= r && !OpensSpan(Last(out))
    requires forall k :: |out| <= k < |r| ==> ClosesSpan(r[k])
    ensures NoEmptyPieces(r, t)
  {
    hide Last;
    forall k | |out| <= k < |r| ensures !OpensSpan(Last(r[..k])) {
      if k == |out| {
        assert r[..k] == out;
      } else {
        LastOf(r, k);
      }
    }
    NoEmptyExtends(out, r, t);
  }

  lemma NoEmptyOpening(out: Out, r: Out, t: seq<Event>)
    requires NoEmptyPieces(out, t) && out <= r && forall k :: |out| <= k < |r| ==> !ClosesSpan(r[k])
    ensures NoEmptyPieces(r, t)
  {
    hide Last;
    NoEmptyExtends(out, r, t);
  }

  method CloseSpans(out: Out, spans: seq<Element>, ghost outer: seq<Tag>, isVoid: Tag -> bool) returns (r: Out)
    requires Balance(out, [], isVoid) == Some(outer + Spans(spans))
    requires SpansAreReal(out, isVoid) && forall x :: x in spans ==> !isVoid(Tag(x, false))
    ensures Balance(r, [], isVoid) == Some(outer) && SpansAreReal(r, isVoid)
    ensures SameText(r, out, isVoid)
    ensures out <= r && forall k :: |out| <= k < |r| ==> ClosesSpan(r[k])
  {
    hide Balance, RawText, Painted, Originals;
    r := out;
    var rev := Reverse(spans);
    assert spans[..|spans|] == spans;
    for k := 0 to |rev|
      invariant Balance(r, [], isVoid) == Some(outer + Spans(spans[..|spans| - k])) && SpansAreReal(r, isVoid)
      invariant SameText(r, out, isVoid)
      invariant out <= r && forall j :: |out| <= j < |r| ==> ClosesSpan(r[j])
    {
      var left := |spans| - k;
      Snoc(r, Close(Tag(rev[k], false)), isVoid);
      assert Spans(spans[..left]) == Spans(spans[..left - 1]) + [Tag(rev[k], false)];
      assert (outer + Spans(spans[..left]))[..|outer| + left - 1] == outer + Spans(spans[..left - 1]);
      r := r + [Close(Tag(rev[k], false))];
    }
    assert Spans(spans[..0]) == [] && outer + [] == outer;
  }

  method OpenSpans(out: Out, spans: seq<Element>, ghost outer: seq<Tag>, isVoid: Tag -> bool) returns (r: Out)
    requires Balance(out, [], isVoid) == Some(outer)
    requires SpansAreReal(out, isVoid) && forall x :: x in spans ==> !isVoid(Tag(x, false))
    ensures Balance(r, [], isVoid) == Some(outer + Spans(spans)) && SpansAreReal(r, isVoid)
    ensures SameText(r, out, isVoid)
    ensures out <= r && |r| == |out| + |spans| && forall k :: |out| <= k < |r| ==> !ClosesSpan(r[k])
  {
    hide Balance, RawText, Painted, Originals;
    r := out;
    assert Spans(spans[..0]) == [] && outer + [] == outer;
    for k := 0 to |spans|
      invariant Balance(r, [], isVoid) == Some(outer + Spans(spans[..k])) && SpansAreReal(r, isVoid)
      invariant SameText(r, out, isVoid)
      invariant out <= r && |r| == |out| + k && forall j :: |out| <= j < |r| ==> !ClosesSpan(r[j])
    {
      Snoc(r, Open(Tag(spans[k], false)), isVoid);
      assert Spans(spans[..k + 1]) == Spans(spans[..k]) + [Tag(spans[k], false)];
      assert outer + Spans(spans[..k + 1]) == outer + Spans(spans[..k]) + [Tag(spans[k], false)];
      r := r + [Open(Tag(spans[k], false))];
    }
    assert spans[..|spans|] == spans;
  }

  function Spans(spans: seq<Element>): seq<Tag> {
    seq(|spans|, i requires 0 <= i < |spans| => Tag(spans[i], false))
  }

  /** Writing the text up to the next event: its characters see exactly the consumed events. */
  lemma TextStep(out: Out, text: string, i: nat, next: nat, e: seq<Event>, n: nat, t: seq<Event>, m: nat,
          isVoid: Tag -> bool)
    requires Merged(out, text, i, e, n, t, m, isVoid) && i <= next <= |text|
    requires forall k :: n <= k < |e| ==> next <= e[k].offset
    requires forall k :: m <= k < |t| ==> next <= t[k].offset
    requires OpenAfter(e, true, n, isVoid).Some? && OpenAfter(t, false, m, isVoid).Some?
    requires Balance(out, [], isVoid)
          == Some(OpenAfter(e, true, n, isVoid).value + OpenAfter(t, false, m, isVoid).value)
    ensures Merged(out + [Text(text[i..next])], text, next, e, n, t, m, isVoid)
    ensures Balance(out + [Text(text[i..next])], [], isVoid) == Balance(out, [], isVoid)
  {
    hide Balance, RawText, Painted, Originals, OpenAfter, EventsUpto;
    var token: Token<Tag> := Text(text[i..next]);
    var around := OpenAfter(e, true, n, isVoid).value + OpenAfter(t, false, m, isVoid).value;
    Snoc(out, token, isVoid);
    var cells := Cells(text[i..next], around);
    var expected := Expected(text, e, t, isVoid);
    forall p | i <= p < next ensures expected[p] == cells[p - i] {
      EventsUptoIs(e, p, n);
      EventsUptoIs(t, p, m);
    }
    assert expected[..i] + cells == expected[..next];
    assert text[..i] + text[i..next] == text[..next];
  }

  lemma EventStep(out: Out, text: string, i: nat, e: seq<Event>, n: nat, t: seq<Event>, m: nat, isVoid: Tag -> bool)
    requires Merged(out, text, i, e, n, t, m, isVoid) && n < |e| && e[n].offset == i
    requires OpenAfter(e, true, n, isVoid).Some? && Balance(out, [], isVoid) == OpenAfter(e, true, n, isVoid)
    ensures var next := out + [EventToken(e[n], true)];
            && Merged(next, text, i, e, n + 1, t, m, isVoid)
            && Balance(next, [], isVoid) == OpenAfter(e, true, n + 1, isVoid)
  {
    hide Balance, RawText, Painted, Originals, OpenAfter;
    Snoc(out, EventToken(e[n], true), isVoid);
    OpenAfterNext(e, true, n, isVoid);
    StreamTokensSnoc(e, true, n);
    assert RawText(out) + "" == RawText(out);
    assert Painted(out, isVoid) + [] == Painted(out, isVoid);
  }

  /** Writes the original events at the cursor, while the original stream stays next. */
  method EmitOriginals(before: Out, text: string, i: nat, ghost e0: seq<Event>, ghost n0: nat, rest: seq<Event>,
                       ghost t0: seq<Event>, ghost m: nat, t: seq<Event>, isVoid: Tag -> bool)
    returns (out: Out, e: seq<Event>, ghost n: nat)
    requires Merged(before, text, i, e0, n0, t0, m, isVoid) && n0 < |e0| && rest == e0[n0..] && rest[0].offset == i
    requires Balance(before, [], isVoid) == OpenAfter(e0, true, n0, isVoid)
    requires Nested(e0, true, isVoid) && SpansAreReal(before, isVoid)
    ensures SpansAreReal(out, isVoid)
    ensures Merged(out, text, i, e0, n, t0, m, isVoid) && n0 < n <= |e0| && e == e0[n..]
    ensures Balance(out, [], isVoid) == OpenAfter(e0, true, n, isVoid)
    ensures OpenAfter(e0, true, n, isVoid).Some?
    ensures before < out && forall k :: |before| <= k < |out| ==> !out[k].Text? && out[k].tag.original
    ensures !(OriginalNext(e, t) && e[0].offset == i)
  {
    hide Balance, OpenAfter, Merged;
    out, e, n := before, rest, n0;
    var more := true;
    while more
      invariant n0 <= n <= |e0| && e == e0[n..] && (more ==> n < |e0| && e0[n].offset == i) && (!more ==> n0 < n)
      invariant Merged(out, text, i, e0, n, t0, m, isVoid) && SpansAreReal(out, isVoid)
      invariant Balance(out, [], isVoid) == OpenAfter(e0, true, n, isVoid)
      invariant before <= out && |out| == |before| + n - n0
      invariant forall k :: |before| <= k < |out| ==> !out[k].Text? && out[k].tag.original
      invariant !more ==> !(OriginalNext(e, t) && e[0].offset == i)
      decreases |e|, more
    {
      NestedPrefix(e0, true, n, isVoid);
      EventStep(out, text, i, e0, n, t0, m, isVoid);
      out := out + [EventToken(e[0], true)];
      e := e[1..];
      n := n + 1;
      more := OriginalNext(e, t) && e[0].offset == i;
    }
    NestedPrefix(e0, true, n, isVoid);
  }

  lemma SpanStep(out: Out, text: string, i: nat, e: seq<Event>, n: nat, t: seq<Event>, m: nat, isVoid: Tag -> bool)
    requires Merged(out, text, i, e, n, t, m, isVoid) && m < |t| && t[m].offset == i && !isVoid(Tag(t[m].node, false))
    requires Nested(t, false, isVoid)
    requires OpenAfter(e, true, n, isVoid).Some? && OpenAfter(t, false, m, isVoid).Some?
    requires Balance(out, [], isVoid)
          == Some(OpenAfter(e, true, n, isVoid).value + OpenAfter(t, false, m, isVoid).value)
    ensures var next, was := out + [EventToken(t[m], false)], OpenAfter(t, false, m, isVoid).value;
            var now := OpenAfter(t, false, m + 1, isVoid);
            && Merged(next, text, i, e, n, t, m + 1, isVoid)
            && now.Some?
            && (t[m].start ==> now.value == was + [Tag(t[m].node, false)])
            && (!t[m].start ==> was != [] && now.value == was[..|was| - 1])
            && Balance(next, [], isVoid) == Some(OpenAfter(e, true, n, isVoid).value + now.value)
  {
    hide Balance, RawText, Painted, Originals, OpenAfter;
    var outer, was := OpenAfter(e, true, n, isVoid).value, OpenAfter(t, false, m, isVoid).value;
    Snoc(out, EventToken(t[m], false), isVoid);
    OpenAfterNext(t, false, m, isVoid);
    NestedPrefix(t, false, m + 1, isVoid);
    assert RawText(out) + "" == RawText(out);
    assert Painted(out, isVoid) + [] == Painted(out, isVoid);
    assert Originals(out) + [] == Originals(out);
    if t[m].start {
      assert outer + was + [Tag(t[m].node, false)] == outer + (was + [Tag(t[m].node, false)]);
    } else {
      assert (outer + was)[..|outer + was| - 1] == outer + was[..|was| - 1];
    }
  }

  lemma SameTextMerged(a: Out, b: Out, text: string, i: nat, e: seq<Event>, n: nat, t: seq<Event>, m: nat,
          isVoid: Tag -> bool)
    requires SameText(a, b, isVoid) && Merged(b, text, i, e, n, t, m, isVoid)
    ensures Merged(a, text, i, e, n, t, m, isVoid)
  {
  }

  /** Merges two streams over one text. The result is well nested, its text and its original tags
      are unchanged, every character has exactly the elements of both documents around it, and no span is
      split into an empty piece. */
  method MergeStreams(e0: seq<Event>, t0: seq<Event>, text: string, isVoid: Tag -> bool) returns (out: Out)
    requires Mergeable(text, e0, t0, isVoid)
    ensures WellNested(out, isVoid) && SpansAreReal(out, isVoid)
    ensures RawText(out) == text
    ensures Originals(out) == StreamTokens(e0, true)
    ensures Painted(out, isVoid) == Expected(text, e0, t0, isVoid)
    ensures NoEmptyPieces(out, t0)
  {
    hide Balance, OpenAfter, Merged, RawText, Painted, Originals, NoEmptyPieces, Poised, Last;
    var e, t, i, spans := e0, t0, 0, [];
    ghost var n, m := 0, 0;
    out := [];
    StartMerged(text, e0, t0, isVoid);
    StartPoised(e0, t0);
    assert Spans(spans) == [];
    assert OpenAfter(e0, true, n, isVoid).value + Spans(spans) == [];
    while e != [] || t != []
      invariant n <= |e0| && e == e0[n..] && m <= |t0| && t == t0[m..] && i <= |text|
      invariant Merged(out, text, i, e0, n, t0, m, isVoid) && SpansAreReal(out, isVoid)
      invariant OpenAfter(e0, true, n, isVoid).Some? && OpenAfter(t0, false, m, isVoid) == Some(Spans(spans))
      invariant Balance(out, [], isVoid) == Some(OpenAfter(e0, true, n, isVoid).value + Spans(spans))
      invariant forall x :: x in spans ==> !isVoid(Tag(x, false))
      invariant NoEmptyPieces(out, t0) && Poised(out, i, e0, n, t0, m)
      decreases |e| + |t|
    {
      var original := OriginalNext(e, t);
      var next := if original then e[0].offset else t[0].offset;
      MergedBounds(out, text, i, e0, n, t0, m, isVoid);
      TextStep(out, text, i, next, e0, n, t0, m, isVoid);
      PoisedText(out, text, i, next, e0, n, t0, m);
      out := out + [Text(text[i..next])];
      i := next;
      if original {
        PoisedAway(out, i, e0, n, t0, m);
        ghost var outer := OpenAfter(e0, true, n, isVoid).value;
        ghost var b0 := out;
        out := CloseSpans(out, spans, outer, isVoid);
        SameTextMerged(out, b0, text, i, e0, n, t0, m, isVoid);
        NoEmptyClosing(b0, out, t0);
        ghost var closed := out;
        out, e, n := EmitOriginals(out, text, i, e0, n, e, t0, m, t, isVoid);
        ghost var b1 := out;
        out := OpenSpans(out, spans, OpenAfter(e0, true, n, isVoid).value, isVoid);
        SameTextMerged(out, b1, text, i, e0, n, t0, m, isVoid);
        NoEmptyOpening(closed, out, t0);
        MergedBounds(out, text, i, e0, n, t0, m, isVoid);
        PoisedReopened(b1, out, i, e0, n, t0, m);
      } else {
        SpanStep(out, text, i, e0, n, t0, m, isVoid);
        if t[0].start {
          assert Spans(spans + [t[0].node]) == Spans(spans) + [Tag(t[0].node, false)];
          spans := spans + [t[0].node];
        } else {
          assert Spans(spans[..|spans| - 1]) == Spans(spans)[..|spans| - 1];
          spans := spans[..|spans| - 1];
        }
        PoisedSpan(out, i, e0, n, t0, m);
        out := out + [EventToken(t[0], false)];
        t := t[1..];
        m := m + 1;
      }
    }
    TextStep(out, text, i, |text|, e0, n, t0, m, isVoid);
    assert text[i..|text|] == text[i..];
    NoEmptyOpening(out, out + [Text(text[i..])], t0);
    out := out + [Text(text[i..])];
    EndMerged(out, text, e0, n, t0, m, isVoid);
  }

  lemma StartPoised(e: seq<Event>, t: seq<Event>)
    ensures NoEmptyPieces([], t) && Poised([], 0, e, 0, t, 0)
  {
  }

  lemma PoisedText(out: Out, text: string, i: nat, next: nat, e: seq<Event>, n: nat, t: seq<Event>, m: nat)
    requires NoEmptyPieces(out, t) && Poised(out, i, e, n, t, m) && i <= next <= |text|
    ensures var r := out + [Text(text[i..next])]; NoEmptyPieces(r, t) && Poised(r, next, e, n, t, m)
  {
    hide Last, NoEmptyPieces;
    LastSnoc(out, Text(text[i..next]));
    NoEmptyOpening(out, out + [Text(text[i..next])], t);
    assert text[i..next] == "" ==> i == next;
  }

  /** Where an original event is written, no span has just been opened. */
  lemma PoisedAway(out: Out, i: nat, e: seq<Event>, n: nat, t: seq<Event>, m: nat)
    requires Poised(out, i, e, n, t, m) && n < |e| && e[n].offset == i
    ensures !OpensSpan(Last(out))
  {
    hide Last;
  }

  lemma PoisedReopened(b: Out, r: Out, i: nat, e: seq<Event>, n: nat, t: seq<Event>, m: nat)
    requires n <= |e| && m <= |t| && b != [] && b <= r && !b[|b| - 1].Text? && b[|b| - 1].tag.original
    requires !(OriginalNext(e[n..], t[m..]) && e[n].offset == i)
    requires forall k :: n <= k < |e| ==> i <= e[k].offset
    requires forall k :: m <= k < |t| ==> i <= t[k].offset
    requires m == |t| ==> r == b
    requires m < |t| ==> t[m].offset > i || t[m].start
    ensures Poised(r, i, e, n, t, m)
  {
    if m == |t| {
      LastOf(r, |r|);
      assert r[..|r|] == r;
    }
  }

  lemma PoisedSpan(out: Out, i: nat, e: seq<Event>, n: nat, t: seq<Event>, m: nat)
    requires NoEmptyPieces(out, t) && Poised(out, i, e, n, t, m) && m < |t| && t[m].offset == i
    requires n < |e| ==> i <= e[n].offset
    requires !OriginalNext(e[n..], t[m..])
    ensures var r := out + [EventToken(t[m], false)]; NoEmptyPieces(r, t) && Poised(r, i, e, n, t, m + 1)
  {
    hide Last;
    var r := out + [EventToken(t[m], false)];
    LastSnoc(out, EventToken(t[m], false));
    assert r[..|out|] == out;
    if !t[m].start && OpensSpan(Last(out)) {
      assert EmptyIn(t, Tag(t[m].node, false));
    }
    NoEmptyExtends(out, r, t);
  }

  lemma StartMerged(text: string, e: seq<Event>, t: seq<Event>, isVoid: Tag -> bool)
    ensures Merged([], text, 0, e, 0, t, 0, isVoid)
    ensures OpenAfter(e, true, 0, isVoid) == Some([]) && OpenAfter(t, false, 0, isVoid) == Some([])
    ensures Balance<Tag>([], [], isVoid) == Some([])
  {
  }

  lemma MergedBounds(out: Out, text: string, i: nat, e: seq<Event>, n: nat, t: seq<Event>, m: nat, isVoid: Tag -> bool)
    requires Merged(out, text, i, e, n, t, m, isVoid)
    ensures forall k :: n <= k < |e| ==> i <= e[k].offset
    ensures forall k :: m <= k < |t| ==> i <= t[k].offset
  {
  }

  lemma EndMerged(out: Out, text: string, e: seq<Event>, n: nat, t: seq<Event>, m: nat, isVoid: Tag -> bool)
    requires n == |e| && m == |t| && Merged(out, text, |text|, e, n, t, m, isVoid)
    requires Nested(e, true, isVoid) && Nested(t, false, isVoid)
    ensures RawText(out) == text && Originals(out) == StreamTokens(e, true)
    ensures Painted(out, isVoid) == Expected(text, e, t, isVoid)
    ensures OpenAfter(e, true, n, isVoid) == Some([]) && OpenAfter(t, false, m, isVoid) == Some([])
  {
    assert e[..n] == e && text[..|text|] == text;
    assert Expected(text, e, t, isVoid)[..|text|] == Expected(text, e, t, isVoid);
  }
}
