/**
 * The composition surface (the chat input box) as both versions of the
 * script see it. Writing goes through linesToEditor, which builds paragraph
 * markup from lines with escapeHtml; reading goes through editorToLines,
 * which takes the text of each paragraph, or splits the plain text when the
 * box holds no paragraphs.
 *
 * The browser's side is modelled by ParagraphTexts, a reader for the only
 * markup the scripts write: a run of `<p>…</p>` elements whose text holds
 * the three entities escapeHtml produces.
 */
module Editor {
  import opened Text

  /** What `s.replace(/c/g, rep)` does for a single character `c`. */
  function ReplaceAll(s: string, c: char, rep: string): (r: string)
    decreases |s|
  {
    if |s| == 0 then "" else (if s[0] == c then rep else [s[0]]) + ReplaceAll(s[1..], c, rep)
  }

  /** `escapeHtml(s)`: three replacements in sequence, '&' first. */
  function EscapeHtml(s: string): string {
    ReplaceAll(ReplaceAll(ReplaceAll(s, '&', "&amp;"), '<', "&lt;"), '>', "&gt;")
  }

  /** The escape of one character, the reference for EscapeHtml. */
  function EscapeChar(c: char): string {
    if c == '&' then "&amp;" else if c == '<' then "&lt;" else if c == '>' then "&gt;" else [c]
  }

  lemma {:induction false} ReplaceAllAppend(x: string, y: string, c: char, rep: string)
    ensures ReplaceAll(x + y, c, rep) == ReplaceAll(x, c, rep) + ReplaceAll(y, c, rep)
    decreases |x|
  {
    if |x| > 0 {
      assert (x + y)[1..] == x[1..] + y;
      ReplaceAllAppend(x[1..], y, c, rep);
    } else {
      assert x + y == y;
    }
  }

  lemma {:induction false} ReplaceAllAbsent(s: string, c: char, rep: string)
    requires c !in s
    ensures ReplaceAll(s, c, rep) == s
    decreases |s|
  {
    if |s| > 0 {
      assert s[0] in s;
      assert forall k | 0 <= k < |s| - 1 :: s[1..][k] in s;
      ReplaceAllAbsent(s[1..], c, rep);
      assert s == [s[0]] + s[1..];
    }
  }

  lemma EscapeOneChar(c: char)
    ensures EscapeHtml([c]) == EscapeChar(c)
  {
    assert [c][1..] == [];
    var r1 := ReplaceAll([c], '&', "&amp;");
    assert r1 == (if c == '&' then "&amp;" else [c]) + ReplaceAll([], '&', "&amp;");
    var r2 := ReplaceAll(r1, '<', "&lt;");
    if c == '&' {
      ReplaceAllAbsent(r1, '<', "&lt;");
      ReplaceAllAbsent(r1, '>', "&gt;");
    } else {
      assert r2 == (if c == '<' then "&lt;" else [c]) + ReplaceAll([], '<', "&lt;");
      if c == '<' {
        ReplaceAllAbsent(r2, '>', "&gt;");
      } else {
        assert ReplaceAll(r2, '>', "&gt;") == (if c == '>' then "&gt;" else [c]) + ReplaceAll([], '>', "&gt;");
      }
    }
  }

  /** The three chained replacements escape each character on its own:
      replacing '&' first means no entity is escaped twice. */
  lemma EscapeHtmlCons(s: string)
    requires |s| > 0
    ensures EscapeHtml(s) == EscapeChar(s[0]) + EscapeHtml(s[1..])
  {
    var x, y := [s[0]], s[1..];
    assert s == x + y;
    ReplaceAllAppend(x, y, '&', "&amp;");
    var x1, y1 := ReplaceAll(x, '&', "&amp;"), ReplaceAll(y, '&', "&amp;");
    ReplaceAllAppend(x1, y1, '<', "&lt;");
    var x2, y2 := ReplaceAll(x1, '<', "&lt;"), ReplaceAll(y1, '<', "&lt;");
    ReplaceAllAppend(x2, y2, '>', "&gt;");
    EscapeOneChar(s[0]);
  }

  /** Escaped text holds no '<' or '>', and is empty only for empty input. */
  lemma {:induction false} EscapeHtmlNoTags(s: string)
    ensures '<' !in EscapeHtml(s) && '>' !in EscapeHtml(s)
    ensures |EscapeHtml(s)| >= |s|
    decreases |s|
  {
    if |s| > 0 {
      EscapeHtmlCons(s);
      EscapeHtmlNoTags(s[1..]);
    }
  }

  /** The browser's decoding of the entities escapeHtml writes. */
  function Unescape(s: string): string
    decreases |s|
  {
    if |s| == 0 then ""
    else if "&amp;" <= s then "&" + Unescape(s[5..])
    else if "&lt;" <= s then "<" + Unescape(s[4..])
    else if "&gt;" <= s then ">" + Unescape(s[4..])
    else [s[0]] + Unescape(s[1..])
  }

  lemma UnescapeAfterChar(c: char, rest: string)
    ensures Unescape(EscapeChar(c) + rest) == [c] + Unescape(rest)
  {
    var t := EscapeChar(c) + rest;
    if c == '&' {
      assert "&amp;" <= t && t[5..] == rest;
    } else if c == '<' {
      assert !("&amp;" <= t) by { assert t[1] == 'l'; }
      assert "&lt;" <= t && t[4..] == rest;
    } else if c == '>' {
      assert !("&amp;" <= t) by { assert t[1] == 'g'; }
      assert !("&lt;" <= t) by { assert t[1] == 'g'; }
      assert "&gt;" <= t && t[4..] == rest;
    } else {
      assert t[0] == c && t[1..] == rest;
    }
  }

  /** What escapeHtml writes into a paragraph, the browser reads back as the
      original line: escaping and decoding are inverse. */
  lemma {:induction false} UnescapeEscape(s: string)
    ensures Unescape(EscapeHtml(s)) == s
    decreases |s|
  {
    if |s| > 0 {
      EscapeHtmlCons(s);
      UnescapeAfterChar(s[0], EscapeHtml(s[1..]));
      UnescapeEscape(s[1..]);
      assert s == [s[0]] + s[1..];
    }
  }

  /** The markup linesToEditor writes for an empty line. */
  const EmptyParagraph: string := "<p><br></p>"

  /** `ln && ln.length ? `<p>${escapeHtml(ln)}</p>` : "<p><br></p>"` */
  function ParagraphMarkup(line: string): string {
    if |line| > 0 then "<p>" + EscapeHtml(line) + "</p>" else EmptyParagraph
  }

  /** `lines.map(...).join("")` */
  function ParagraphsMarkup(lines: seq<string>): string
    decreases |lines|
  {
    if |lines| == 0 then "" else ParagraphMarkup(lines[0]) + ParagraphsMarkup(lines[1..])
  }

  /** The HTML linesToEditor assigns to the editor: `html || "<p><br></p>"`. */
  function LinesToHtml(lines: seq<string>): string {
    var html := ParagraphsMarkup(lines);
    if html == "" then EmptyParagraph else html
  }

  /** The text of each paragraph of a run of `<p>…</p>` elements, as the
      browser presents it through `p.textContent`. Reading stops at the
      first markup of any other shape. */
  function ParagraphTexts(html: string): seq<string>
    decreases |html|
  {
    if EmptyParagraph <= html then [""] + ParagraphTexts(html[|EmptyParagraph|..])
    else if "<p>" <= html then
      var body := html[3..];
      var n := IndexOf(body, '<');
      if "</p>" <= body[n..] then [Unescape(body[..n])] + ParagraphTexts(body[n + 4..]) else []
    else []
  }

  lemma ParagraphTextsConsEmpty(rest: string)
    ensures ParagraphTexts(EmptyParagraph + rest) == [""] + ParagraphTexts(rest)
  {
    var html := EmptyParagraph + rest;
    assert EmptyParagraph <= html;
    assert html[|EmptyParagraph|..] == rest;
  }

  /** The body of a non-empty paragraph: escaped text, then the end tag. */
  lemma BodyShape(e: string, rest: string)
    requires '<' !in e
    ensures IndexOf(e + "</p>" + rest, '<') == |e|
    ensures (e + "</p>" + rest)[..|e|] == e
    ensures (e + "</p>" + rest)[|e|..] == "</p>" + rest
    ensures (e + "</p>" + rest)[|e| + 4..] == rest
  {
    assert e + "</p>" + rest == e + ("</p>" + rest);
    IndexOfAfter(e, "</p>" + rest, '<');
  }

  lemma ParagraphTextsConsLine(line: string, rest: string)
    requires |line| > 0
    ensures ParagraphTexts(ParagraphMarkup(line) + rest) == [line] + ParagraphTexts(rest)
  {
    var e := EscapeHtml(line);
    EscapeHtmlNoTags(line);
    UnescapeEscape(line);
    var body := e + "</p>" + rest;
    var html := "<p>" + body;
    assert ParagraphMarkup(line) + rest == html;
    assert e[0] in e;
    assert html[3] == e[0];
    assert !(EmptyParagraph <= html);
    assert "<p>" <= html;
    assert html[3..] == body;
    BodyShape(e, rest);
  }

  lemma ParagraphTextsCons(line: string, rest: string)
    ensures ParagraphTexts(ParagraphMarkup(line) + rest) == [line] + ParagraphTexts(rest)
  {
    if |line| == 0 {
      ParagraphTextsConsEmpty(rest);
    } else {
      ParagraphTextsConsLine(line, rest);
    }
  }

  /** The markup of a list of lines reads back as exactly those lines. */
  lemma {:induction false} ParagraphsRoundTrip(lines: seq<string>)
    ensures ParagraphTexts(ParagraphsMarkup(lines)) == lines
    decreases |lines|
  {
    if |lines| == 0 {
      assert !(EmptyParagraph <= "") && !("<p>" <= "");
    } else {
      ParagraphTextsCons(lines[0], ParagraphsMarkup(lines[1..]));
      ParagraphsRoundTrip(lines[1..]);
      assert lines == [lines[0]] + lines[1..];
    }
  }

  /** What linesToEditor leaves in the editor is one paragraph per line, with
      each line's text intact; no lines at all leave one empty paragraph. */
  lemma LinesToHtmlRoundTrip(lines: seq<string>)
    ensures ParagraphTexts(LinesToHtml(lines)) == if |lines| == 0 then [""] else lines
  {
    ParagraphsRoundTrip(lines);
    if |lines| == 0 {
      ParagraphTextsCons("", "");
      ParagraphsRoundTrip([]);
    } else {
      assert |ParagraphMarkup(lines[0])| > 0;
    }
  }

  /** The contents of the editor element: a list of paragraphs, or plain
      text when it holds no `<p>` element. */
  datatype Surface = Paragraphs(texts: seq<string>) | PlainText(text: string)

  /** `editorToLines(editor)` */
  function ReadLines(s: Surface): seq<string> {
    match s
    case Paragraphs(ps) => if |ps| == 0 then SplitLines("") else StripEach(ps)
    case PlainText(t) => SplitLines(t)
  }

  /** Reading the editor always gives at least one line, and a line read
      from paragraphs never holds a no-break space. */
  lemma ReadLinesShape(s: Surface)
    ensures |ReadLines(s)| >= 1
    ensures s.Paragraphs? && |s.texts| > 0 ==> NoNbsp(ReadLines(s))
  {
    match s
    case Paragraphs(ps) =>
      if |ps| == 0 { SplitLinesShape(""); } else { StripEachSpec(ps); }
    case PlainText(t) =>
      SplitLinesShape(t);
  }

  /** What the HTML parser does to the text of markup assigned to
      `innerHTML` before the paragraphs are built: a CR LF pair and a lone
      CR each become one LF (input stream preprocessing), and a NUL
      character in body text is ignored. */
  function ParserText(s: string): string
    decreases |s|
  {
    if |s| == 0 then ""
    else if s[0] == '\r' then "\n" + ParserText(if |s| > 1 && s[1] == '\n' then s[2..] else s[1..])
    else if s[0] == '\0' then ParserText(s[1..])
    else [s[0]] + ParserText(s[1..])
  }

  /** Text with no CR and no NUL goes through the parser unchanged. */
  lemma {:induction false} ParserTextStable(s: string)
    requires '\r' !in s && '\0' !in s
    ensures ParserText(s) == s
    decreases |s|
  {
    if |s| > 0 {
      assert s[0] in s;
      assert '\r' !in s[1..] && '\0' !in s[1..] by {
        forall k | 0 <= k < |s| - 1 ensures s[1..][k] != '\r' && s[1..][k] != '\0' {
          assert s[1..][k] == s[k + 1] && s[k + 1] in s;
        }
      }
      ParserTextStable(s[1..]);
      assert s == [s[0]] + s[1..];
    }
  }

  /** Lines the parser keeps as they are: none holds a CR or a NUL. */
  predicate ParsesUnchanged(lines: seq<string>) {
    forall k | 0 <= k < |lines| :: '\r' !in lines[k] && '\0' !in lines[k]
  }

  /** Escaping adds no character that is not in the text or in an entity. */
  lemma {:induction false} EscapeHtmlAdds(s: string, c: char)
    requires c !in s && c !in "&amp;&lt;&gt;"
    ensures c !in EscapeHtml(s)
    decreases |s|
  {
    if |s| > 0 {
      EscapeHtmlCons(s);
      assert s[0] in s;
      assert c !in s[1..] by {
        forall k | 0 <= k < |s| - 1 ensures s[1..][k] != c {
          assert s[1..][k] == s[k + 1] && s[k + 1] in s;
        }
      }
      EscapeHtmlAdds(s[1..], c);
    }
  }

  /** The markup built from lines without CR and NUL holds neither. */
  lemma {:induction false} MarkupParsesUnchanged(lines: seq<string>)
    requires ParsesUnchanged(lines)
    ensures '\r' !in ParagraphsMarkup(lines) && '\0' !in ParagraphsMarkup(lines)
    decreases |lines|
  {
    if |lines| > 0 {
      EscapeHtmlAdds(lines[0], '\r');
      EscapeHtmlAdds(lines[0], '\0');
      assert ParsesUnchanged(lines[1..]) by {
        forall k | 0 <= k < |lines| - 1 ensures '\r' !in lines[1..][k] && '\0' !in lines[1..][k] {
          assert lines[1..][k] == lines[k + 1];
        }
      }
      MarkupParsesUnchanged(lines[1..]);
    }
  }

  /** The editor after `linesToEditor(lines, editor)`: the markup goes
      through the parser, and each paragraph's text is what is left. */
  function Written(lines: seq<string>): Surface {
    Paragraphs(ParagraphTexts(ParserText(LinesToHtml(lines))))
  }

  /** For lines without CR or NUL the parser keeps the markup as built. */
  lemma WrittenStable(lines: seq<string>)
    requires ParsesUnchanged(lines)
    ensures Written(lines) == Paragraphs(ParagraphTexts(LinesToHtml(lines)))
  {
    MarkupParsesUnchanged(lines);
    assert '\r' !in EmptyParagraph && '\0' !in EmptyParagraph;
    ParserTextStable(LinesToHtml(lines));
  }

  /** Reading back what was written, for lines without CR or NUL, gives the
      lines without their no-break spaces ([""] for no lines): the lines
      themselves whenever they hold none, as lines read from a paragraph
      editor never do. */
  lemma ReadWritten(lines: seq<string>)
    ensures ParsesUnchanged(lines) ==>
      ReadLines(Written(lines)) == if |lines| == 0 then [""] else StripEach(lines)
    ensures |lines| > 0 && NoNbsp(lines) && ParsesUnchanged(lines) ==> ReadLines(Written(lines)) == lines
  {
    if ParsesUnchanged(lines) {
      WrittenStable(lines);
      LinesToHtmlRoundTrip(lines);
      StripEachSpec(lines);
      if |lines| == 0 {
        assert StripEach([""]) == [StripNbsp("")] + StripEach([]);
      }
    }
  }

  lemma CarriageReturnMarkup()
    ensures LinesToHtml(["\r"]) == "<p>\r</p>"
  {
    EscapeOneChar('\r');
  }

  lemma CarriageReturnParsed()
    ensures ParserText("<p>\r</p>") == "<p>\n</p>"
  {
    ParserTextStable("</p>");
    assert ParserText("\r</p>") == "\n" + ParserText("</p>");
    assert ParserText(">\r</p>") == ">" + ParserText("\r</p>");
    assert ParserText("p>\r</p>") == "p" + ParserText(">\r</p>");
  }

  lemma LineFeedParagraph()
    ensures ParagraphTexts("<p>\n</p>") == ["\n"]
  {
    EscapeOneChar('\n');
    assert "<p>\n</p>" == ParagraphMarkup("\n") + "";
    ParagraphTextsConsLine("\n", "");
    assert ParagraphTexts("") == [];
  }

  /** A line holding a lone CR does not come back as written: the parser
      turns the CR into a line feed. */
  lemma CarriageReturnNormalised()
    ensures ReadLines(Written(["\r"])) == ["\n"]
  {
    CarriageReturnMarkup();
    CarriageReturnParsed();
    LineFeedParagraph();
    StripNbspSpec("\n");
    assert StripEach(["\n"]) == [StripNbsp("\n")] + StripEach([]);
  }

  /** The reset linesToEditor([""]) leaves one empty paragraph, which has no
      content. */
  lemma ResetIsBlank()
    ensures ReadLines(Written([""])) == [""]
    ensures !HasContent(ReadLines(Written([""])))
  {
    assert NoNbsp([""]) && ParsesUnchanged([""]);
    ReadWritten([""]);
    assert Trim("") == "";
  }
}
