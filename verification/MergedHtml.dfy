/** Reading the merged HTML back: its characters, its start tags with all their attributes and its end tags
    are exactly those that were merged. */
module MergedHtml {
  import opened Html
  import opened MergeStreams
  import opened DomStreams
  import Colours

  datatype Piece =
    | Letter(c: char)
    | Starts(name: string, attributes: seq<(string, string)>)
    | Ends(name: string)

  // ---------------------------------------------------------------- reading

  /** What stands before the first occurrence of a character, and the rest from there on. */
  function Before(s: string, c: char): (r: string)
    ensures |r| <= |s|
  {
    if s == "" || s[0] == c then "" else [s[0]] + Before(s[1..], c)
  }

  function Onward(s: string, c: char): (r: string)
    ensures |r| <= |s|
  {
    if s == "" || s[0] == c then s else Onward(s[1..], c)
  }

  /** The four entities that a value may hold. */
  function Unquote(s: string): string {
    if s == "" then ""
    else if "&quot;" <= s then "\"" + Unquote(s[6..])
    else if "&amp;" <= s then "&" + Unquote(s[5..])
    else if "&lt;" <= s then "<" + Unquote(s[4..])
    else if "&gt;" <= s then ">" + Unquote(s[4..])
    else [s[0]] + Unquote(s[1..])
  }

  /** Attributes, each a blank, a name, an equals sign and a value in quotes. */
  function ReadAttributes(s: string): seq<(string, string)>
    decreases |s|
  {
    if s == "" || s[0] != ' ' then []
    else
      var name, value := Before(s[1..], '='), Onward(s[1..], '=');
      if |value| < 2 then []
      else
        var after := Onward(value[2..], '\"');
        [(name, Unquote(Before(value[2..], '\"')))] + if after == "" then [] else ReadAttributes(after[1..])
  }

  function ReadTag(body: string): Piece {
    if body != "" && body[0] == '/' then Ends(body[1..])
    else Starts(Before(body, ' '), ReadAttributes(Onward(body, ' ')))
  }

  function Parse(s: string): seq<Piece>
    decreases |s|
  {
    if s == "" then []
    else if s[0] == '<' then [ReadTag(Colours.TagBody(s[1..]))] + Parse(Colours.AfterTag(s[1..]))
    else if "&amp;" <= s then [Letter('&')] + Parse(s[5..])
    else if "&lt;" <= s then [Letter('<')] + Parse(s[4..])
    else if "&gt;" <= s then [Letter('>')] + Parse(s[4..])
    else [Letter(s[0])] + Parse(s[1..])
  }

  // ---------------------------------------------------------------- what was written

  function Letters(s: string): seq<Piece> {
    seq(|s|, i requires 0 <= i < |s| => Letter(s[i]))
  }

  function PiecesOf(t: Token<Tag>): seq<Piece> {
    match t
    case Text(raw) => Letters(raw)
    case Open(x) => [Starts(x.node.name, x.node.attributes)]
    case Close(x) => [Ends(x.node.name)]
  }

  function Pieces(out: Out): seq<Piece> {
    if out == [] then [] else Pieces(out[..|out| - 1]) + PiecesOf(out[|out| - 1])
  }

  /** Names as HTML has them; nothing is asked of the values. */
  ghost predicate Named(el: Element) {
    && '>' !in el.name && ' ' !in el.name && (el.name != "" ==> el.name[0] != '/')
    && forall i :: 0 <= i < |el.attributes| ==> '>' !in el.attributes[i].0 && '=' !in el.attributes[i].0
  }

  // ---------------------------------------------------------------- reading what was written

  lemma {:induction false} BeforeIs(a: string, c: char, rest: string)
    requires c !in a
    ensures Before(a + [c] + rest, c) == a && Onward(a + [c] + rest, c) == [c] + rest
    ensures Before(a, c) == a && Onward(a, c) == ""
  {
    var s := a + [c] + rest;
    if a == "" {
      assert s[0] == c && s == [c] + rest;
    } else {
      assert s[0] == a[0] && s[1..] == a[1..] + [c] + rest;
      BeforeIs(a[1..], c, rest);
    }
  }

  /** A value as it is written between its quotes. */
  function Quoted(value: string): string {
    ReplaceAll(Escape(value), '\"', "&quot;")
  }

  function QuoteChar(c: char): string {
    if c == '\"' then "&quot;" else EscapeChar(c)
  }

  lemma QuoteOne(c: char)
    ensures ReplaceAll(EscapeChar(c), '\"', "&quot;") == QuoteChar(c)
  {
    if c == '\"' {
      ReplaceAllOne(c, '\"', "&quot;");
    } else {
      ReplaceAllAbsent(EscapeChar(c), '\"', "&quot;");
    }
  }

  lemma QuotedStep(value: string)
    requires value != ""
    ensures Quoted(value) == QuoteChar(value[0]) + Quoted(value[1..])
  {
    hide Escape, ReplaceAll, EscapeChar, QuoteChar;
    EscapeStep(value);
    ReplaceAllAppend(EscapeChar(value[0]), Escape(value[1..]), '\"', "&quot;");
    QuoteOne(value[0]);
  }

  lemma UnquoteHead(c: char, rest: string)
    ensures Unquote(QuoteChar(c) + rest) == [c] + Unquote(rest)
  {
    var head := QuoteChar(c);
    var all := head + rest;
    assert all[|head|..] == rest;
    if c == '\"' {
      assert "&quot;" <= all;
    } else if c == '&' {
      assert all[1] == 'a';
      assert !("&quot;" <= all);
      assert "&amp;" <= all;
    } else if c == '<' {
      assert all[1] == 'l';
      assert !("&quot;" <= all) && !("&amp;" <= all);
      assert "&lt;" <= all;
    } else if c == '>' {
      assert all[1] == 'g';
      assert !("&quot;" <= all) && !("&amp;" <= all) && !("&lt;" <= all);
      assert "&gt;" <= all;
    } else {
      assert all[0] == c;
    }
  }

  /** A value can be read back, whatever it is, and holds no quote while it is written. */
  lemma {:induction false} UnquoteQuoted(value: string)
    ensures Unquote(Quoted(value)) == value && '\"' !in Quoted(value)
  {
    if value == "" {
      assert Quoted(value) == "";
    } else {
      hide Quoted, Unquote;
      QuotedStep(value);
      UnquoteHead(value[0], Quoted(value[1..]));
      UnquoteQuoted(value[1..]);
    }
  }

  lemma AttributesStep(attributes: seq<(string, string)>)
    requires attributes != []
    ensures AttributesBody(attributes) == " " + (attributes[0].0 + "=" +
            ("\"" + (Quoted(attributes[0].1) + "\"" + AttributesBody(attributes[1..]))))
  {
    hide Escape, ReplaceAll;
  }

  lemma {:induction false} AttributesRead(attributes: seq<(string, string)>)
    requires forall i :: 0 <= i < |attributes| ==> '=' !in attributes[i].0
    ensures ReadAttributes(AttributesBody(attributes)) == attributes
  {
    if attributes != [] {
      hide AttributesBody, Quoted, Unquote, Before, Onward;
      var (name, value) := attributes[0];
      var rest := AttributesBody(attributes[1..]);
      var inner := Quoted(value) + "\"" + rest;
      AttributesStep(attributes);
      UnquoteQuoted(value);
      BeforeIs(name, '=', "\"" + inner);
      BeforeIs(Quoted(value), '\"', rest);
      AttributesRead(attributes[1..]);
      var s := AttributesBody(attributes);
      assert s[0] == ' ' && s[1..] == name + "=" + ("\"" + inner);
      assert (['='] + ("\"" + inner))[2..] == inner;
      assert (['\"'] + rest)[1..] == rest;
      assert [attributes[0]] + attributes[1..] == attributes;
    }
  }

  /** From a start tag its name and all its attributes can be read back, in order and with their values. */
  lemma StartTagReads(t: Tag)
    requires Named(t.node)
    ensures ReadTag(StartBody(t)) == Starts(t.node.name, t.node.attributes)
  {
    hide ReadAttributes, Before, Onward;
    var name, attributes := t.node.name, AttributesBody(t.node.attributes);
    AttributesRead(t.node.attributes);
    BeforeIs(name, ' ', if attributes == "" then "" else attributes[1..]);
    if attributes == "" {
      assert name + attributes == name;
    } else {
      assert attributes == [' '] + attributes[1..];
      assert name + attributes == name + [' '] + attributes[1..];
    }
    NoSlash(name, attributes);
  }

  lemma NoSlash(name: string, attributes: string)
    requires name != "" ==> name[0] != '/'
    requires attributes != "" ==> attributes[0] == ' '
    ensures name + attributes != "" ==> (name + attributes)[0] != '/'
  {
  }

  lemma EndTagReads(t: Tag)
    ensures ReadTag(EndBody(t)) == Ends(t.node.name)
  {
    assert ("/" + t.node.name)[1..] == t.node.name;
  }

  lemma ParseChar(c: char, rest: string)
    ensures Parse(EscapeChar(c) + rest) == [Letter(c)] + Parse(rest)
  {
    var head := EscapeChar(c);
    var all := head + rest;
    assert all[|head|..] == rest;
    if c == '&' {
      assert "&amp;" <= all;
    } else if c == '<' {
      assert all[1] == 'l';
      assert !("&amp;" <= all);
      assert "&lt;" <= all;
    } else if c == '>' {
      assert all[1] == 'g';
      assert !("&amp;" <= all) && !("&lt;" <= all);
      assert "&gt;" <= all;
    } else {
      assert all[0] == c;
    }
  }

  lemma {:induction false} ParseText(text: string, rest: string)
    ensures Parse(Escape(text) + rest) == Letters(text) + Parse(rest)
  {
    hide Escape, EscapeChar, Parse;
    if text == "" {
      EscapeNothing();
      assert "" + rest == rest && Letters("") + Parse(rest) == Parse(rest);
    } else {
      EscapeStep(text);
      Associative(EscapeChar(text[0]), Escape(text[1..]), rest);
      ParseChar(text[0], Escape(text[1..]) + rest);
      ParseText(text[1..], rest);
      assert Letters(text) == [Letter(text[0])] + Letters(text[1..]);
    }
  }

  lemma ParseTag(body: string, rest: string)
    requires '>' !in body
    ensures Parse("<" + body + ">" + rest) == [ReadTag(body)] + Parse(rest)
  {
    hide ReadTag;
    var s := "<" + body + ">" + rest;
    assert s[0] == '<' && s[1..] == body + ">" + rest;
    Colours.TagBodyIs(body, rest);
  }

  lemma ParseOne(t: Token<Tag>, rest: string)
    requires !t.Text? ==> Named(t.tag.node)
    ensures Parse(WriteOne(t, StartBody, EndBody) + rest) == PiecesOf(t) + Parse(rest)
  {
    hide Parse, ReadTag, Escape, AttributesBody;
    match t
    case Text(raw) => ParseText(raw, rest);
    case Open(x) =>
      AttributesClosed(x.node.attributes);
      ParseTag(StartBody(x), rest);
      StartTagReads(x);
    case Close(x) =>
      ParseTag(EndBody(x), rest);
      EndTagReads(x);
  }

  lemma {:induction false} ParseTokens(out: Out, rest: string)
    requires forall k :: 0 <= k < |out| && !out[k].Text? ==> Named(out[k].tag.node)
    ensures Parse(Write(out, StartBody, EndBody) + rest) == Pieces(out) + Parse(rest)
  {
    hide Parse, WriteOne, PiecesOf, Named;
    if out == [] {
      assert Write(out, StartBody, EndBody) + rest == rest;
      assert Pieces(out) + Parse(rest) == Parse(rest);
    } else {
      var n := |out| - 1;
      var one := WriteOne(out[n], StartBody, EndBody);
      Associative(Write(out[..n], StartBody, EndBody), one, rest);
      ParseTokens(out[..n], one + rest);
      ParseOne(out[n], rest);
    }
  }

  /** The merged HTML read back: every character, every start tag with its attributes and every end tag, in
      order, and nothing else. */
  lemma MergedHtmlReads(out: Out)
    requires forall k :: 0 <= k < |out| && !out[k].Text? ==> Named(out[k].tag.node)
    ensures Parse(Write(out, StartBody, EndBody)) == Pieces(out)
  {
    hide Parse, Write, Pieces, Named;
    ParseTokens(out, "");
    ParseNothing();
    assert Write(out, StartBody, EndBody) + "" == Write(out, StartBody, EndBody);
    assert Pieces(out) + [] == Pieces(out);
  }

  lemma ParseNothing()
    ensures Parse("") == []
  {
  }
}
