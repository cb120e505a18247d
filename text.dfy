/**
 * Pure string helpers shared by both versions of the prompt-queue script:
 * the blank-line test used before queueing, the newline splitting of an
 * editor's plain text, the joining and truncation used for queue-row
 * summaries, and the removal of no-break spaces from paragraph text.
 */
module Text {

  /** The code points ECMAScript's String.prototype.trim removes
      (WhiteSpace and LineTerminator, including the Zs category). */
  predicate IsJsWhitespace(c: char) {
    || c == '\t' || c == '\n' || c == '\U{000B}' || c == '\U{000C}' || c == '\r'
    || c == ' ' || c == '\U{00A0}' || c == '\U{1680}'
    || ('\U{2000}' <= c <= '\U{200A}')
    || c == '\U{2028}' || c == '\U{2029}' || c == '\U{202F}' || c == '\U{205F}'
    || c == '\U{3000}' || c == '\U{FEFF}'
  }

  /** Every character of `s` is whitespace (vacuously true of ""). */
  predicate Blank(s: string) {
    forall i | 0 <= i < |s| :: IsJsWhitespace(s[i])
  }

  function TrimStart(s: string): string {
    if |s| > 0 && IsJsWhitespace(s[0]) then TrimStart(s[1..]) else s
  }

  function TrimEnd(s: string): string {
    if |s| > 0 && IsJsWhitespace(s[|s| - 1]) then TrimEnd(s[..|s| - 1]) else s
  }

  /** `s.trim()` */
  function Trim(s: string): string {
    TrimEnd(TrimStart(s))
  }

  lemma {:induction false} TrimStartEmptyIff(s: string)
    ensures |TrimStart(s)| == 0 <==> Blank(s)
    ensures |TrimStart(s)| > 0 ==> !IsJsWhitespace(TrimStart(s)[0])
    decreases |s|
  {
    if |s| > 0 && IsJsWhitespace(s[0]) {
      TrimStartEmptyIff(s[1..]);
      if Blank(s[1..]) {
        forall i | 0 <= i < |s| ensures IsJsWhitespace(s[i]) {
          if i > 0 { assert s[i] == s[1..][i - 1]; }
        }
      }
      if Blank(s) {
        forall i | 0 <= i < |s| - 1 ensures IsJsWhitespace(s[1..][i]) {
          assert s[1..][i] == s[i + 1];
        }
      }
    }
  }

  /** Trimming the end never removes a first character that is not whitespace. */
  lemma {:induction false} TrimEndKeepsHead(s: string)
    requires |s| > 0 && !IsJsWhitespace(s[0])
    ensures |TrimEnd(s)| > 0
    decreases |s|
  {
    if IsJsWhitespace(s[|s| - 1]) {
      assert |s| > 1;
      assert s[..|s| - 1][0] == s[0];
      TrimEndKeepsHead(s[..|s| - 1]);
    }
  }

  /** A line trims to the empty string exactly when it is all whitespace. */
  lemma TrimEmptyIff(s: string)
    ensures |Trim(s)| == 0 <==> Blank(s)
  {
    TrimStartEmptyIff(s);
    if |TrimStart(s)| > 0 {
      TrimEndKeepsHead(TrimStart(s));
    }
  }

  /** `lines.some((ln) => (ln ?? "").trim().length > 0)` */
  predicate HasContent(lines: seq<string>) {
    exists i | 0 <= i < |lines| :: |Trim(lines[i])| > 0
  }

  /** Lines have content exactly when some line holds a character that is
      not whitespace; all-blank input (including no lines) has none. */
  lemma HasContentIff(lines: seq<string>)
    ensures HasContent(lines) <==> exists i | 0 <= i < |lines| :: !Blank(lines[i])
  {
    forall i | 0 <= i < |lines| ensures |Trim(lines[i])| == 0 <==> Blank(lines[i]) {
      TrimEmptyIff(lines[i]);
    }
  }

  /** `lines.join(sep)` */
  function Join(lines: seq<string>, sep: string): string
    decreases |lines|
  {
    if |lines| == 0 then ""
    else if |lines| == 1 then lines[0]
    else lines[0] + sep + Join(lines[1..], sep)
  }

  /** Index of the first `c` in `t`, or |t| when there is none. */
  function IndexOf(t: string, c: char): (i: nat)
    ensures i <= |t|
    ensures i < |t| ==> t[i] == c
    ensures forall k | 0 <= k < i :: t[k] != c
    decreases |t|
  {
    if |t| == 0 then 0
    else if t[0] == c then 0
    else 1 + IndexOf(t[1..], c)
  }

  /** The first `c` after text free of `c` is the one that follows it. */
  lemma {:induction false} IndexOfAfter(e: string, t: string, c: char)
    requires c !in e && |t| > 0 && t[0] == c
    ensures IndexOf(e + t, c) == |e|
    decreases |e|
  {
    if |e| == 0 {
      assert e + t == t;
    } else {
      assert e[0] in e;
      assert (e + t)[0] == e[0];
      assert (e + t)[1..] == e[1..] + t;
      assert c !in e[1..] by {
        forall k | 0 <= k < |e| - 1 ensures e[1..][k] != c {
          assert e[1..][k] == e[k + 1] && e[k + 1] in e;
        }
      }
      IndexOfAfter(e[1..], t, c);
    }
  }

  /** `t.split(/\r?\n/)`: the earliest match of the separator starts at the
      first '\n', or one character earlier when a '\r' precedes it. */
  function SplitLines(t: string): seq<string>
    decreases |t|
  {
    var i := IndexOf(t, '\n');
    if i == |t| then [t]
    else
      var piece := if i > 0 && t[i - 1] == '\r' then t[..i - 1] else t[..i];
      [piece] + SplitLines(t[i + 1..])
  }

  /** Splitting always yields at least one piece, and no piece holds a '\n'. */
  lemma {:induction false} SplitLinesShape(t: string)
    ensures |SplitLines(t)| >= 1
    ensures forall k | 0 <= k < |SplitLines(t)| :: '\n' !in SplitLines(t)[k]
    decreases |t|
  {
    var i := IndexOf(t, '\n');
    if i < |t| {
      SplitLinesShape(t[i + 1..]);
      var piece := if i > 0 && t[i - 1] == '\r' then t[..i - 1] else t[..i];
      assert '\n' !in piece by {
        forall k | 0 <= k < |piece| ensures piece[k] != '\n' {
          assert piece[k] == t[k];
        }
      }
      var r := SplitLines(t);
      assert r == [piece] + SplitLines(t[i + 1..]);
      forall k | 0 <= k < |r| ensures '\n' !in r[k] {
        if k > 0 { assert r[k] == SplitLines(t[i + 1..])[k - 1]; }
      }
    }
  }

  /** Lines that `split(/\r?\n/)` gives back unchanged once joined with "\n":
      none holds a '\n', and none but the last ends in '\r' (that '\r' would
      merge with the following newline). */
  predicate SplittableLines(lines: seq<string>) {
    && |lines| >= 1
    && (forall k | 0 <= k < |lines| :: '\n' !in lines[k])
    && (forall k | 0 <= k < |lines| - 1 :: |lines[k]| == 0 || lines[k][|lines[k]| - 1] != '\r')
  }

  /** Joining with "\n" and splitting again is the identity on such lines. */
  lemma {:induction false} SplitJoinRoundTrip(lines: seq<string>)
    requires SplittableLines(lines)
    ensures SplitLines(Join(lines, "\n")) == lines
    decreases |lines|
  {
    var a := lines[0];
    forall k | 0 <= k < |a| ensures a[k] != '\n' {
      assert a[k] in a;
    }
    if |lines| > 1 {
      var rest := Join(lines[1..], "\n");
      var t := a + "\n" + rest;
      assert Join(lines, "\n") == t;
      assert forall k | 0 <= k < |a| :: t[k] == a[k];
      var i := IndexOf(t, '\n');
      assert t[|a|] == '\n';
      assert i == |a|;
      assert t[..i] == a;
      assert t[i + 1..] == rest;
      assert SplittableLines(lines[1..]) by {
        forall k | 0 <= k < |lines| - 1 ensures '\n' !in lines[1..][k] {
          assert lines[1..][k] == lines[k + 1];
        }
      }
      SplitJoinRoundTrip(lines[1..]);
      assert SplitLines(t) == [a] + lines[1..];
    }
  }

  /** No-break space, the character editorToLines strips from paragraph text. */
  const NoBreakSpace: char := '\U{00A0}'

  /** `s.replace(/\u00A0/g, "")` */
  function StripNbsp(s: string): string
    decreases |s|
  {
    if |s| == 0 then ""
    else (if s[0] == NoBreakSpace then "" else [s[0]]) + StripNbsp(s[1..])
  }

  /** Stripping removes exactly the no-break spaces: the result holds none,
      and a line without any is left as it is. */
  lemma {:induction false} StripNbspSpec(s: string)
    ensures NoBreakSpace !in StripNbsp(s)
    ensures NoBreakSpace !in s ==> StripNbsp(s) == s
    ensures |StripNbsp(s)| <= |s|
    decreases |s|
  {
    if |s| > 0 {
      StripNbspSpec(s[1..]);
      if NoBreakSpace !in s {
        assert s[0] != NoBreakSpace;
        assert NoBreakSpace !in s[1..] by {
          forall k | 0 <= k < |s| - 1 ensures s[1..][k] != NoBreakSpace {
            assert s[1..][k] == s[k + 1];
          }
        }
        assert s == [s[0]] + s[1..];
      }
    }
  }

  /** Stripping every line of a list (the `ps.map(...)` of editorToLines). */
  function StripEach(lines: seq<string>): (r: seq<string>)
    ensures |r| == |lines|
    decreases |lines|
  {
    if |lines| == 0 then [] else [StripNbsp(lines[0])] + StripEach(lines[1..])
  }

  predicate NoNbsp(lines: seq<string>) {
    forall k | 0 <= k < |lines| :: NoBreakSpace !in lines[k]
  }

  /** Stripping each line removes every no-break space and is the identity on
      lines that hold none; in particular it is idempotent. */
  lemma {:induction false} StripEachSpec(lines: seq<string>)
    ensures NoNbsp(StripEach(lines))
    ensures NoNbsp(lines) ==> StripEach(lines) == lines
    decreases |lines|
  {
    if |lines| > 0 {
      StripNbspSpec(lines[0]);
      StripEachSpec(lines[1..]);
      var r := StripEach(lines);
      forall k | 0 <= k < |r| ensures NoBreakSpace !in r[k] {
        if k > 0 { assert r[k] == StripEach(lines[1..])[k - 1]; }
      }
      if NoNbsp(lines) {
        assert NoNbsp(lines[1..]) by {
          forall k | 0 <= k < |lines| - 1 ensures NoBreakSpace !in lines[1..][k] {
            assert lines[1..][k] == lines[k + 1];
          }
        }
        assert lines == [lines[0]] + lines[1..];
      }
    }
  }

  /** The default `maxLen` of summarize. */
  const SummaryMaxLen: int := 180

  /** The ellipsis appended by summarize in script.js. */
  const Ellipsis: string := "\U{2026}"

  /** The ellipsis literal as it stands in script.user.js: the UTF-8 bytes of
      U+2026 read back as three separate characters. */
  const MisdecodedEllipsis: string := "\U{00E2}\U{20AC}\U{00A6}"

  /** `s.slice(0, end)`: a negative end counts back from the end of `s`. */
  function SliceTo(s: string, end: int): (r: string)
    ensures |r| <= |s|
  {
    var e := if end < 0 then (if |s| + end < 0 then 0 else |s| + end)
             else (if end > |s| then |s| else end);
    s[..e]
  }

  /** `summarize(lines, maxLen)`, parameterised by the ellipsis literal that
      the two versions of the script append. */
  function Summarize(lines: seq<string>, maxLen: int, ellipsis: string): string {
    var text := Join(lines, "\n");
    if |text| > maxLen then SliceTo(text, maxLen - 1) + ellipsis else text
  }

  /** A summary shows a short text whole; a long text is cut to its first
      maxLen - 1 characters followed by the ellipsis, so the summary holds
      at most maxLen - 1 + |ellipsis| characters. */
  lemma SummarizeSpec(lines: seq<string>, maxLen: int, ellipsis: string)
    requires maxLen >= 1 && |ellipsis| >= 1
    ensures var text, r := Join(lines, "\n"), Summarize(lines, maxLen, ellipsis);
      && (|text| <= maxLen ==> r == text)
      && (|text| > maxLen ==> r[..maxLen - 1] == text[..maxLen - 1] && r[maxLen - 1..] == ellipsis)
      && |r| <= maxLen - 1 + |ellipsis|
  {
  }

  /** With the one-character ellipsis of script.js, a summary never exceeds
      maxLen characters and always begins with a prefix of the text. */
  lemma SummaryFits(lines: seq<string>, maxLen: int)
    requires maxLen >= 1
    ensures var text, r := Join(lines, "\n"), Summarize(lines, maxLen, Ellipsis);
      && |r| <= maxLen
      && (r == text || (|r| == maxLen && r[..|r| - 1] == text[..|r| - 1]))
  {
    SummarizeSpec(lines, maxLen, Ellipsis);
  }

  /** summarize of script.user.js with its default maxLen: a long text gives
      a summary of exactly 182 characters, two more than maxLen, because the
      ellipsis literal there is three characters long. */
  lemma UserScriptSummary(lines: seq<string>)
    ensures |Summarize(lines, SummaryMaxLen, MisdecodedEllipsis)| <= SummaryMaxLen + 2
    ensures |Join(lines, "\n")| > SummaryMaxLen ==>
      |Summarize(lines, SummaryMaxLen, MisdecodedEllipsis)| == SummaryMaxLen + 2
  {
    SummarizeSpec(lines, SummaryMaxLen, MisdecodedEllipsis);
  }

  /** summarize of script.js with its default maxLen never exceeds 180
      characters. */
  lemma LegacyScriptSummary(lines: seq<string>)
    ensures |Summarize(lines, SummaryMaxLen, Ellipsis)| <= SummaryMaxLen
  {
    SummaryFits(lines, SummaryMaxLen);
  }
}
