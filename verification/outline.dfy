/**
 * The Markdown outline `generateMarkdown` writes: a title line with the
 * generation time, then per window a `## Window n (k tabs)` heading, a blank
 * line, one `- [title](url)` line per tab and a blank line.
 *
 * The document is specified as a list of lines (DocumentLines), each written
 * out followed by a newline (Document); GenerateMarkdown builds the same text
 * by appending, as the source does.
 */
module Outline {
  import opened Wrappers
  import opened Text
  import opened Tabs

  const TitlePrefix: string := "# Tab List - "
  const HeadingPrefix: string := "## Window "

  /** The title line; `date` is the host's locale rendering of the current time. */
  function TitleLine(date: string): string {
    TitlePrefix + date
  }

  /** The heading of the window at 0-based position `index` holding `tabCount` tabs. */
  function Heading(index: nat, tabCount: nat): string {
    HeadingPrefix + NatStr(index + 1) + " (" + NatStr(tabCount) + " tab" + (if tabCount != 1 then "s" else "") + ")"
  }

  function TabLine(t: TabInfo): string {
    "- [" + t.title + "](" + t.url + ")"
  }

  function TabLines(tabs: seq<TabInfo>): (r: seq<string>)
    ensures |r| == |tabs|
    ensures forall i :: 0 <= i < |tabs| ==> r[i] == TabLine(tabs[i])
  {
    if tabs == [] then [] else TabLines(tabs[..|tabs| - 1]) + [TabLine(tabs[|tabs| - 1])]
  }

  /** The lines of the window at 0-based position `index`. */
  function WindowLines(index: nat, w: WindowInfo): seq<string> {
    [Heading(index, |w.tabs|), ""] + TabLines(w.tabs) + [""]
  }

  /** The lines of all windows, in window order. */
  function WindowsLines(ws: seq<WindowInfo>): seq<string> {
    if ws == [] then [] else WindowsLines(ws[..|ws| - 1]) + WindowLines(|ws| - 1, ws[|ws| - 1])
  }

  function DocumentLines(ws: seq<WindowInfo>, date: string): seq<string> {
    [TitleLine(date), ""] + WindowsLines(ws)
  }

  /** The whole outline text: every document line followed by a newline. */
  function Document(ws: seq<WindowInfo>, date: string): string {
    Unlines(DocumentLines(ws, date))
  }

  /** `generateMarkdown`: appends to `md` window by window and tab by tab. */
  method GenerateMarkdown(ws: seq<WindowInfo>, date: string) returns (md: string)
    ensures md == Document(ws, date)
  {
    md := TitleLine(date) + "\n\n";
    assert md == Document(ws[..0], date) by {
      UnlinesBlank(TitleLine(date));
      assert ws[..0] == [];
      assert DocumentLines([], date) == [TitleLine(date), ""];
    }
    for i := 0 to |ws|
      invariant md == Document(ws[..i], date)
    {
      var w := ws[i];
      var tabCount := |w.tabs|;
      md := md + Heading(i, tabCount) + "\n\n";
      md := AppendTabLines(md, w.tabs);
      md := md + "\n";
      assert ws[..i + 1] == ws[..i] + [w];
      DocumentAppendWindow(ws[..i], w, date);
    }
    assert ws[..|ws|] == ws;
  }

  /** The inner `forEach` of `generateMarkdown`: one `- [title](url)` line per tab. */
  method AppendTabLines(md: string, tabs: seq<TabInfo>) returns (out: string)
    ensures out == md + Unlines(TabLines(tabs))
  {
    out := md;
    for j := 0 to |tabs|
      invariant out == md + Unlines(TabLines(tabs[..j]))
    {
      out := out + TabLine(tabs[j]) + "\n";
      AppendTabLine(md, tabs, j);
    }
    assert tabs[..|tabs|] == tabs;
  }

  /** One more tab line extends the text by that line and a newline. */
  lemma AppendTabLine(md: string, tabs: seq<TabInfo>, j: nat)
    requires j < |tabs|
    ensures md + Unlines(TabLines(tabs[..j])) + TabLine(tabs[j]) + "\n" == md + Unlines(TabLines(tabs[..j + 1]))
  {
    var done := TabLines(tabs[..j]);
    assert tabs[..j + 1][..j] == tabs[..j];
    assert TabLines(tabs[..j + 1]) == done + [TabLine(tabs[j])];
    UnlinesSnoc(done, TabLine(tabs[j]));
  }

  /** The outline opens with the title line and a blank line. */
  lemma DocumentStart(ws: seq<WindowInfo>, date: string)
    ensures StartsWith(Document(ws, date), TitlePrefix + date + "\n\n")
  {
    var head := TitlePrefix + date + "\n\n";
    UnlinesAppend([TitleLine(date), ""], WindowsLines(ws));
    UnlinesBlank(TitleLine(date));
    assert Document(ws, date) == head + Unlines(WindowsLines(ws));
    assert Document(ws, date)[..|head|] == head;
  }

  /** A window's block: its heading, a blank line, its tab lines and a blank line. */
  lemma WindowText(index: nat, w: WindowInfo)
    ensures Unlines(WindowLines(index, w)) == Heading(index, |w.tabs|) + "\n\n" + Unlines(TabLines(w.tabs)) + "\n"
  {
    var h := Heading(index, |w.tabs|);
    var tl := TabLines(w.tabs);
    UnlinesSnoc([h, ""] + tl, "");
    UnlinesAppend([h, ""], tl);
    UnlinesBlank(h);
  }

  /**
   * Windows appear in input order: adding a window appends exactly its
   * heading, a blank line, one line per tab in tab order, and a blank line.
   */
  lemma DocumentAppendWindow(ws: seq<WindowInfo>, w: WindowInfo, date: string)
    ensures Document(ws + [w], date)
         == Document(ws, date) + Heading(|ws|, |w.tabs|) + "\n\n" + Unlines(TabLines(w.tabs)) + "\n"
  {
    assert (ws + [w])[..|ws|] == ws;
    assert DocumentLines(ws + [w], date) == DocumentLines(ws, date) + WindowLines(|ws|, w);
    UnlinesAppend(DocumentLines(ws, date), WindowLines(|ws|, w));
    WindowText(|ws|, w);
  }

  /** Titles and URLs without line breaks, and a date without one. */
  predicate SingleLine(ws: seq<WindowInfo>, date: string) {
    '\n' !in date &&
    forall w, t :: w in ws && t in w.tabs ==> '\n' !in t.title && '\n' !in t.url
  }

  lemma HeadingSingleLine(index: nat, tabCount: nat)
    ensures '\n' !in Heading(index, tabCount)
  {
    var a, b := NatStr(index + 1), NatStr(tabCount);
    assert forall i :: 0 <= i < |a| ==> a[i] != '\n';
    assert forall i :: 0 <= i < |b| ==> b[i] != '\n';
  }

  lemma {:induction false} TabLinesSingleLine(tabs: seq<TabInfo>)
    requires forall t :: t in tabs ==> '\n' !in t.title && '\n' !in t.url
    ensures forall l :: l in TabLines(tabs) ==> '\n' !in l
    decreases |tabs|
  {
    if tabs != [] {
      TabLinesSingleLine(tabs[..|tabs| - 1]);
    }
  }

  lemma {:induction false} WindowsLinesSingleLine(ws: seq<WindowInfo>)
    requires forall w, t :: w in ws && t in w.tabs ==> '\n' !in t.title && '\n' !in t.url
    ensures forall l :: l in WindowsLines(ws) ==> '\n' !in l
    decreases |ws|
  {
    if ws != [] {
      var w := ws[|ws| - 1];
      WindowsLinesSingleLine(ws[..|ws| - 1]);
      TabLinesSingleLine(w.tabs);
      HeadingSingleLine(|ws| - 1, |w.tabs|);
    }
  }

  /**
   * Splitting the outline at newlines gives back exactly its lines (and the
   * empty piece after the final newline).
   */
  lemma LinesOfDocument(ws: seq<WindowInfo>, date: string)
    requires SingleLine(ws, date)
    ensures Lines(Document(ws, date)) == DocumentLines(ws, date) + [""]
  {
    WindowsLinesSingleLine(ws);
    LinesOfUnlines(DocumentLines(ws, date));
  }

  lemma {:induction false} WindowsLinesCount(ws: seq<WindowInfo>)
    ensures |WindowsLines(ws)| == 3 * |ws| + TotalTabCount(ws)
    decreases |ws|
  {
    if ws != [] {
      WindowsLinesCount(ws[..|ws| - 1]);
    }
  }

  /** The outline has two title lines, three lines per window and one per tab. */
  lemma DocumentLineCount(ws: seq<WindowInfo>, date: string)
    requires SingleLine(ws, date)
    ensures |Lines(Document(ws, date))| == 3 + 3 * |ws| + TotalTabCount(ws)
  {
    LinesOfDocument(ws, date);
    WindowsLinesCount(ws);
  }

  /** The number and tab count a window heading states. */
  datatype HeadingInfo = HeadingInfo(number: nat, tabCount: nat)

  /** The tail of a heading after the tab count: " tab)" for one tab, " tabs)" otherwise. */
  function CountTail(tabCount: nat): string {
    if tabCount != 1 then " tabs)" else " tab)"
  }

  /**
   * Reads a window heading back: "## Window ", a number, " (", a count, and
   * " tab)" when the count is 1 or " tabs)" otherwise.
   */
  function ParseHeading(line: string): Option<HeadingInfo> {
    if !StartsWith(line, HeadingPrefix) then None else ParseNumbers(line[|HeadingPrefix|..])
  }

  /** The part after "## Window ": the window number, " (", and the counted tabs. */
  function ParseNumbers(rest: string): Option<HeadingInfo> {
    var n := DigitSpan(rest);
    if n == 0 || !StartsWith(rest[n..], " (") then None
    else match ParseCount(rest[n + 2..])
      case None => None
      case Some(count) => Some(HeadingInfo(ParseNat(rest[..n]), count))
  }

  /** The part after " (": a count and its tail. */
  function ParseCount(s: string): Option<nat> {
    var k := DigitSpan(s);
    var count := ParseNat(s[..k]);
    if k == 0 || s[k..] != CountTail(count) then None else Some(count)
  }

  lemma CountRoundTrip(tabCount: nat)
    ensures ParseCount(NatStr(tabCount) + CountTail(tabCount)) == Some(tabCount)
  {
    var b := NatStr(tabCount);
    var s := b + CountTail(tabCount);
    DigitSpanOf(b, CountTail(tabCount));
    assert s[..|b|] == b;
    ParseNatStr(tabCount);
    assert s[|b|..] == CountTail(tabCount);
  }

  lemma NumbersRoundTrip(index: nat, tabCount: nat)
    ensures ParseNumbers(NatStr(index + 1) + " (" + NatStr(tabCount) + CountTail(tabCount))
         == Some(HeadingInfo(index + 1, tabCount))
  {
    var a, rest2 := NatStr(index + 1), NatStr(tabCount) + CountTail(tabCount);
    var rest := a + (" (" + rest2);
    assert NatStr(index + 1) + " (" + NatStr(tabCount) + CountTail(tabCount) == rest;
    DigitSpanOf(a, " (" + rest2);
    assert rest[..|a|] == a;
    assert rest[|a|..] == " (" + rest2;
    assert rest[|a| + 2..] == rest2;
    ParseNatStr(index + 1);
    CountRoundTrip(tabCount);
  }

  /**
   * Every heading reads back as its 1-based window number and its tab count,
   * with "tab" for exactly one tab and "tabs" otherwise (zero included).
   */
  lemma HeadingRoundTrip(index: nat, tabCount: nat)
    ensures ParseHeading(Heading(index, tabCount)) == Some(HeadingInfo(index + 1, tabCount))
  {
    var rest := NatStr(index + 1) + " (" + NatStr(tabCount) + CountTail(tabCount);
    assert Heading(index, tabCount) == HeadingPrefix + rest;
    assert (HeadingPrefix + rest)[..|HeadingPrefix|] == HeadingPrefix;
    assert (HeadingPrefix + rest)[|HeadingPrefix|..] == rest;
    NumbersRoundTrip(index, tabCount);
  }
}
