/** The text side of the HTML that highlight.js writes: the escape function, its inverse, the
    deletion of tags, and token sequences (raw text, opening tags, closing tags) with the stack
    discipline that makes them well nested. */
module Html {

  import opened Optional

  // ---------------------------------------------------------------- escaping

  /** One pass of a global single-character replacement. */
  function ReplaceAll(s: string, c: char, sub: string): string {
    if s == [] then [] else (if s[0] == c then sub else [s[0]]) + ReplaceAll(s[1..], c, sub)
  }

  /** The three passes in the order the program makes them: ampersands first. */
  function Escape(s: string): string {
    ReplaceAll(ReplaceAll(ReplaceAll(s, '&', "&amp;"), '<', "&lt;"), '>', "&gt;")
  }

  function EscapeChar(c: char): string {
    if c == '&' then "&amp;" else if c == '<' then "&lt;" else if c == '>' then "&gt;" else [c]
  }

  /** What a browser reads back from escaped text, entity by entity. */
  function Unescape(s: string): string {
    if s == [] then []
    else if "&amp;" <= s then "&" + Unescape(s[5..])
    else if "&lt;" <= s then "<" + Unescape(s[4..])
    else if "&gt;" <= s then ">" + Unescape(s[4..])
    else [s[0]] + Unescape(s[1..])
  }

  lemma {:induction false} ReplaceAllAppend(a: string, b: string, c: char, sub: string)
    ensures ReplaceAll(a + b, c, sub) == ReplaceAll(a, c, sub) + ReplaceAll(b, c, sub)
  {
    if a == [] {
      assert a + b == b;
    } else {
      assert (a + b)[1..] == a[1..] + b;
      ReplaceAllAppend(a[1..], b, c, sub);
    }
  }

  lemma {:induction false} EscapeAppend(a: string, b: string)
    ensures Escape(a + b) == Escape(a) + Escape(b)
  {
    ReplaceAllAppend(a, b, '&', "&amp;");
    var a1, b1 := ReplaceAll(a, '&', "&amp;"), ReplaceAll(b, '&', "&amp;");
    ReplaceAllAppend(a1, b1, '<', "&lt;");
    ReplaceAllAppend(ReplaceAll(a1, '<', "&lt;"), ReplaceAll(b1, '<', "&lt;"), '>', "&gt;");
  }

  lemma ReplaceAllAbsent(s: string, c: char, sub: string)
    requires c !in s
    ensures ReplaceAll(s, c, sub) == s
  {
  }

  lemma ReplaceAllOne(x: char, c: char, sub: string)
    ensures ReplaceAll([x], c, sub) == if x == c then sub else [x]
  {
    assert [x][1..] == [];
    assert sub + [] == sub;
  }

  lemma EscapeOne(c: char)
    ensures Escape([c]) == EscapeChar(c)
  {
    ReplaceAllOne(c, '&', "&amp;");
    if c == '&' {
      ReplaceAllAbsent("&amp;", '<', "&lt;");
      ReplaceAllAbsent("&amp;", '>', "&gt;");
    } else {
      ReplaceAllOne(c, '<', "&lt;");
      if c == '<' {
        ReplaceAllAbsent("&lt;", '>', "&gt;");
      } else {
        ReplaceAllOne(c, '>', "&gt;");
      }
    }
  }

  /** The three passes never see each other's output: together they act character by character. */
  lemma {:induction false} EscapeStep(s: string)
    requires s != []
    ensures Escape(s) == EscapeChar(s[0]) + Escape(s[1..])
  {
    assert s == [s[0]] + s[1..];
    EscapeAppend([s[0]], s[1..]);
    EscapeOne(s[0]);
  }

  lemma UnescapeHead(c: char, rest: string)
    ensures Unescape(EscapeChar(c) + rest) == [c] + Unescape(rest)
  {
    var head := EscapeChar(c);
    var all := head + rest;
    assert all[|head|..] == rest;
    if c == '&' {
      assert "&amp;" <= all;
    } else if c == '<' {
      assert all[1] == 'l';
      assert !("&amp;" <= all);
      assert "&lt;" <= all;
    } else if c == '>' {
      assert all[1] == 'g';
      assert !("&amp;" <= all) && !("&lt;" <= all);
      assert "&gt;" <= all;
    } else {
      assert all[0] == c;
    }
  }

  lemma {:induction false} UnescapeEscape(s: string)
    ensures Unescape(Escape(s)) == s
  {
    if s != [] {
      hide Escape, EscapeChar, Unescape;
      EscapeStep(s);
      UnescapeEscape(s[1..]);
      UnescapeHead(s[0], Escape(s[1..]));
    }
  }

  lemma {:induction false} EscapeHasNoBrackets(s: string)
    ensures '<' !in Escape(s) && '>' !in Escape(s)
  {
    if s == [] {
      EscapeNothing();
    } else {
      hide Escape;
      EscapeStep(s);
      EscapeHasNoBrackets(s[1..]);
    }
  }

  // ---------------------------------------------------------------- deleting tags

  /** Everything outside `<`…`>`. */
  function StripTags(s: string): string {
    if s == [] then []
    else if s[0] == '<' then SkipTag(s[1..])
    else [s[0]] + StripTags(s[1..])
  }

  function SkipTag(s: string): string {
    if s == [] then []
    else if s[0] == '>' then StripTags(s[1..])
    else SkipTag(s[1..])
  }

  lemma {:induction false} StripAfterText(text: string, rest: string)
    requires '<' !in text
    ensures StripTags(text + rest) == text + StripTags(rest)
  {
    if text == [] {
      assert text + rest == rest;
    } else {
      assert (text + rest)[1..] == text[1..] + rest;
      StripAfterText(text[1..], rest);
    }
  }

  lemma {:induction false} SkipTagBody(body: string, rest: string)
    requires '>' !in body
    ensures SkipTag(body + ">" + rest) == StripTags(rest)
  {
    var s := body + ">" + rest;
    if body == [] {
      assert s[1..] == rest;
    } else {
      assert s[1..] == body[1..] + ">" + rest;
      SkipTagBody(body[1..], rest);
    }
  }

  // ---------------------------------------------------------------- tokens

  datatype Token<T> = Text(raw: string) | Open(tag: T) | Close(tag: T)

  /** The stack of open tags after the tokens, `None` as soon as a closing tag does not match
      the innermost open one. Void tags never enter the stack. */
  function Balance<T(==)>(ts: seq<Token<T>>, start: seq<T>, isVoid: T -> bool): Option<seq<T>> {
    if ts == [] then Some(start)
    else
      var before := Balance(ts[..|ts| - 1], start, isVoid);
      if before.None? then None else Advance(before.value, ts[|ts| - 1], isVoid)
  }

  function Advance<T(==)>(stack: seq<T>, t: Token<T>, isVoid: T -> bool): Option<seq<T>> {
    match t
    case Text(_) => Some(stack)
    case Open(x) => Some(if isVoid(x) then stack else stack + [x])
    case Close(x) => if stack != [] && stack[|stack| - 1] == x then Some(stack[..|stack| - 1]) else None
  }

  ghost predicate WellNested<T>(ts: seq<Token<T>>, isVoid: T -> bool) {
    Balance(ts, [], isVoid) == Some([])
  }

  lemma {:induction false} BalanceAppend<T>(a: seq<Token<T>>, b: seq<Token<T>>, start: seq<T>, isVoid: T -> bool)
    ensures Balance(a + b, start, isVoid) ==
            (var mid := Balance(a, start, isVoid); if mid.None? then None else Balance(b, mid.value, isVoid))
  {
    if b == [] {
      assert a + b == a;
    } else {
      var n := |b| - 1;
      assert (a + b)[..|a + b| - 1] == a + b[..n];
      BalanceAppend(a, b[..n], start, isVoid);
    }
  }

  function RawText<T>(ts: seq<Token<T>>): string {
    if ts == [] then [] else RawText(ts[..|ts| - 1]) + RawOf(ts[|ts| - 1])
  }

  function RawOf<T>(t: Token<T>): string {
    if t.Text? then t.raw else ""
  }

  lemma {:induction false} RawTextAppend<T>(a: seq<Token<T>>, b: seq<Token<T>>)
    ensures RawText(a + b) == RawText(a) + RawText(b)
  {
    hide RawOf;
    if b == [] {
      assert a + b == a;
    } else {
      var n := |b| - 1;
      assert (a + b)[..|a + b| - 1] == a + b[..n] && (a + b)[|a + b| - 1] == b[n];
      RawTextAppend(a, b[..n]);
      Associative(RawText(a), RawText(b[..n]), RawOf(b[n]));
    }
  }

  /** The string written for a token sequence: text is escaped, a tag is `<`body`>`. */
  function Write<T>(ts: seq<Token<T>>, open: T -> string, close: T -> string): string {
    if ts == [] then [] else Write(ts[..|ts| - 1], open, close) + WriteOne(ts[|ts| - 1], open, close)
  }

  function WriteOne<T>(t: Token<T>, open: T -> string, close: T -> string): string {
    match t
    case Text(raw) => Escape(raw)
    case Open(x) => "<" + open(x) + ">"
    case Close(x) => "<" + close(x) + ">"
  }

  lemma {:induction false} WriteAppend<T>(a: seq<Token<T>>, b: seq<Token<T>>, open: T -> string, close: T -> string)
    ensures Write(a + b, open, close) == Write(a, open, close) + Write(b, open, close)
  {
    hide WriteOne;
    if b == [] {
      assert a + b == a;
    } else {
      var n := |b| - 1;
      var one := WriteOne(b[n], open, close);
      assert (a + b)[..|a + b| - 1] == a + b[..n] && (a + b)[|a + b| - 1] == b[n];
      WriteAppend(a, b[..n], open, close);
      Associative(Write(a, open, close), Write(b[..n], open, close), one);
    }
  }

  lemma WriteNothing<T>(open: T -> string, close: T -> string)
    ensures Write<T>([], open, close) == ""
  {
  }

  lemma Associative(a: string, b: string, c: string)
    ensures (a + b) + c == a + (b + c)
  {
  }

  /** A token sequence between an opening tag and its closing tag. */
  function Wrap<T>(x: T, inner: seq<Token<T>>): seq<Token<T>> {
    [Open(x)] + inner + [Close(x)]
  }

  lemma One<T>(t: Token<T>, start: seq<T>, isVoid: T -> bool, open: T -> string, close: T -> string)
    ensures Balance([t], start, isVoid) == Advance(start, t, isVoid)
    ensures RawText([t]) == RawOf(t)
    ensures Write([t], open, close) == WriteOne(t, open, close)
  {
    assert [t][..0] == [];
  }

  lemma WrapNests<T>(x: T, inner: seq<Token<T>>, start: seq<T>, isVoid: T -> bool, open: T -> string,
          close: T -> string)
    requires !isVoid(x) && Balance(inner, start + [x], isVoid) == Some(start + [x])
    ensures Balance(Wrap(x, inner), start, isVoid) == Some(start)
  {
    One(Open(x), start, isVoid, open, close);
    One(Close(x), start + [x], isVoid, open, close);
    BalanceAppend([Open(x)], inner, start, isVoid);
    BalanceAppend([Open(x)] + inner, [Close(x)], start, isVoid);
    assert (start + [x])[..|start|] == start;
  }

  lemma WrapWrites<T>(x: T, inner: seq<Token<T>>, isVoid: T -> bool, open: T -> string, close: T -> string)
    ensures RawText(Wrap(x, inner)) == RawText(inner)
    ensures Write(Wrap(x, inner), open, close) ==
        "<" + open(x) + ">" + Write(inner, open, close) + ("<" + close(x) + ">")
  {
    One(Open(x), [], isVoid, open, close);
    One(Close(x), [], isVoid, open, close);
    RawTextAppend([Open(x)], inner);
    RawTextAppend([Open(x)] + inner, [Close(x)]);
    WriteAppend([Open(x)], inner, open, close);
    WriteAppend([Open(x)] + inner, [Close(x)], open, close);
  }

  ghost predicate TagsClosed<T(!new)>(ts: seq<Token<T>>, open: T -> string, close: T -> string) {
    forall i :: 0 <= i < |ts| && !ts[i].Text? ==> '>' !in open(ts[i].tag) && '>' !in close(ts[i].tag)
  }

  lemma StripOneThen<T>(t: Token<T>, open: T -> string, close: T -> string, rest: string)
    requires t.Open? ==> '>' !in open(t.tag)
    requires t.Close? ==> '>' !in close(t.tag)
    ensures StripTags(WriteOne(t, open, close) + rest) == Escape(RawOf(t)) + StripTags(rest)
  {
    match t
    case Text(raw) =>
      EscapeHasNoBrackets(raw);
      StripAfterText(Escape(raw), rest);
    case Open(x) => StripTag(open(x), rest);
    case Close(x) => StripTag(close(x), rest);
  }

  lemma StripTag(body: string, rest: string)
    requires '>' !in body
    ensures StripTags("<" + body + ">" + rest) == StripTags(rest)
  {
    hide StripTags, SkipTag;
    var s := "<" + body + ">" + rest;
    assert s[1..] == body + ">" + rest;
    SkipTagBody(body, rest);
    StripTagStart(s);
  }

  lemma StripTagStart(s: string)
    requires s != [] && s[0] == '<'
    ensures StripTags(s) == SkipTag(s[1..])
  {
  }

  lemma {:induction false} StripWriteThen<T(!new)>(ts: seq<Token<T>>, open: T -> string, close: T -> string,
          rest: string)
    requires TagsClosed(ts, open, close)
    ensures StripTags(Write(ts, open, close) + rest) == Escape(RawText(ts)) + StripTags(rest)
  {
    hide StripTags, Escape, WriteOne, RawOf;
    if ts == [] {
      assert Write(ts, open, close) + rest == rest;
      EscapeNothing();
      assert "" + StripTags(rest) == StripTags(rest);
    } else {
      var n := |ts| - 1;
      var one, before := WriteOne(ts[n], open, close), Write(ts[..n], open, close);
      Associative(before, one, rest);
      StripWriteThen(ts[..n], open, close, one + rest);
      StripOneThen(ts[n], open, close, rest);
      EscapeAppend(RawText(ts[..n]), RawOf(ts[n]));
      Associative(Escape(RawText(ts[..n])), Escape(RawOf(ts[n])), StripTags(rest));
    }
  }

  lemma StripNothing()
    ensures StripTags("") == ""
  {
  }

  lemma EscapeNothing()
    ensures Escape("") == ""
  {
  }

  /** Deleting the tags from the written HTML leaves exactly the escaped text, and reading the
      entities back recovers the text itself. */
  lemma {:induction false} StripWrite<T(!new)>(ts: seq<Token<T>>, open: T -> string, close: T -> string)
    requires TagsClosed(ts, open, close)
    ensures StripTags(Write(ts, open, close)) == Escape(RawText(ts))
    ensures Unescape(StripTags(Write(ts, open, close))) == RawText(ts)
  {
    StripWriteThen(ts, open, close, "");
    assert Write(ts, open, close) + "" == Write(ts, open, close);
    assert Escape(RawText(ts)) + "" == Escape(RawText(ts));
    UnescapeEscape(RawText(ts));
  }
}
