/**
 * What the two halves of the page do together: reading back an outline that
 * `generateMarkdown` wrote gives, per window with at least one tab whose
 * URL starts with `http`, that window's http URLs in tab order, and
 * `openAllLinks` then recreates exactly those windows.
 *
 * This holds when titles and URLs cannot confuse the line splitter or the
 * link pattern (Parseable): no line breaks anywhere, every title non-empty,
 * no `]` in a title, no `)` in a URL and no `[` in the date.
 */
module RoundTrip {
  import opened Wrappers
  import opened Text
  import opened Tabs
  import opened Outline
  import opened LinkParser
  import opened BulkOpen

  predicate ParseableTab(t: TabInfo) {
    t.title != "" && ']' !in t.title && '\n' !in t.title && ')' !in t.url && '\n' !in t.url
  }

  predicate Parseable(ws: seq<WindowInfo>, date: string) {
    '\n' !in date && '[' !in date &&
    forall w, t :: w in ws && t in w.tabs ==> ParseableTab(t)
  }

  predicate IsHttp(t: TabInfo) {
    StartsWith(t.url, "http")
  }

  /** The URLs of the tabs whose URL starts with "http", in tab order. */
  function HttpUrls(tabs: seq<TabInfo>): (r: seq<string>)
    ensures |r| <= |tabs|
    ensures forall u :: u in r ==> StartsWith(u, "http")
  {
    if tabs == [] then []
    else
      var t := tabs[|tabs| - 1];
      HttpUrls(tabs[..|tabs| - 1]) + (if IsHttp(t) then [t.url] else [])
  }

  /** The groups an outline of `ws` should read back as: one per window with an http tab. */
  function Expected(ws: seq<WindowInfo>): (r: seq<seq<string>>)
    ensures |r| <= |ws|
    ensures forall g :: g in r ==> g != []
  {
    if ws == [] then []
    else
      var urls := HttpUrls(ws[|ws| - 1].tabs);
      Expected(ws[..|ws| - 1]) + (if urls != [] then [urls] else [])
  }

  /** A blank line neither closes a group nor contributes a URL. */
  lemma StepBlank(st: ScanState)
    ensures Step(st, "") == st
  {
    NoBracketNoMatch("");
  }

  /** The title line neither closes a group nor contributes a URL. */
  lemma StepTitle(st: ScanState, date: string)
    requires '[' !in date
    ensures Step(st, TitleLine(date)) == st
  {
    var line := TitleLine(date);
    assert line[1] == ' ';
    assert !IsWindowHeading(line);
    assert forall k :: 0 <= k < |TitlePrefix| ==> line[k] == TitlePrefix[k];
    assert forall k :: |TitlePrefix| <= k < |line| ==> line[k] == date[k - |TitlePrefix|];
    NoBracketNoMatch(line);
  }

  /** A window heading closes the current group. */
  lemma StepHeading(st: ScanState, index: nat, tabCount: nat)
    ensures Step(st, Heading(index, tabCount)) == ScanState(Close(st), [])
  {
    var line := Heading(index, tabCount);
    assert line[..|WindowMarker|] == WindowMarker;
  }

  /** A tab line adds the tab's URL to the current group exactly when it starts with "http". */
  lemma StepTab(st: ScanState, t: TabInfo)
    requires ParseableTab(t)
    ensures Step(st, TabLine(t)) == ScanState(st.groups, st.current + (if IsHttp(t) then [t.url] else []))
  {
    var line := TabLine(t);
    assert line[0] == '-';
    assert !IsWindowHeading(line);
    MatchListItem(t.title, t.url);
    if !IsHttp(t) {
      assert st.current + [] == st.current;
    }
  }

  lemma {:induction false} ScanTabLines(st: ScanState, tabs: seq<TabInfo>)
    requires forall t :: t in tabs ==> ParseableTab(t)
    ensures Scan(st, TabLines(tabs)) == ScanState(st.groups, st.current + HttpUrls(tabs))
    decreases |tabs|
  {
    if tabs == [] {
      assert st.current + [] == st.current;
    } else {
      var pre := tabs[..|tabs| - 1];
      var t := tabs[|tabs| - 1];
      var lines := TabLines(tabs);
      assert lines[..|lines| - 1] == TabLines(pre);
      ScanTabLines(st, pre);
      StepTab(Scan(st, TabLines(pre)), t);
      assert st.current + HttpUrls(pre) + (if IsHttp(t) then [t.url] else []) == st.current + HttpUrls(tabs);
    }
  }

  lemma ScanTwo(st: ScanState, a: string, b: string)
    ensures Scan(st, [a, b]) == Step(Step(st, a), b)
  {
    assert [a][..0] == [];
    assert Scan(st, [a]) == Step(st, a);
    assert [a, b][..1] == [a];
  }

  /** A window's block closes the group before it and leaves the window's http URLs open. */
  lemma ScanWindow(st: ScanState, index: nat, w: WindowInfo)
    requires forall t :: t in w.tabs ==> ParseableTab(t)
    ensures Scan(st, WindowLines(index, w)) == ScanState(Close(st), HttpUrls(w.tabs))
  {
    var h := Heading(index, |w.tabs|);
    var head := [h, ""];
    var tl := TabLines(w.tabs);
    assert WindowLines(index, w) == (head + tl) + [""];
    ScanAppend(st, head + tl, [""]);
    ScanAppend(st, head, tl);
    ScanTwo(st, h, "");
    StepHeading(st, index, |w.tabs|);
    StepBlank(ScanState(Close(st), []));
    ScanTabLines(ScanState(Close(st), []), w.tabs);
    assert [] + HttpUrls(w.tabs) == HttpUrls(w.tabs);
    StepBlank(ScanState(Close(st), HttpUrls(w.tabs)));
    assert ([""])[..0] == [];
  }

  lemma {:induction false} ScanWindows(st: ScanState, ws: seq<WindowInfo>)
    requires forall w, t :: w in ws && t in w.tabs ==> ParseableTab(t)
    ensures Close(Scan(st, WindowsLines(ws))) == Close(st) + Expected(ws)
    decreases |ws|
  {
    if ws == [] {
      assert Close(st) + [] == Close(st);
    } else {
      var pre := ws[..|ws| - 1];
      var w := ws[|ws| - 1];
      ScanAppend(st, WindowsLines(pre), WindowLines(|ws| - 1, w));
      ScanWindows(st, pre);
      ScanWindow(Scan(st, WindowsLines(pre)), |ws| - 1, w);
      var urls := HttpUrls(w.tabs);
      assert Close(st) + Expected(pre) + (if urls != [] then [urls] else []) == Close(st) + Expected(ws);
    }
  }

  /**
   * Reading back a generated outline gives one group per window that has an
   * http tab, in window order, holding that window's http URLs in tab order.
   */
  lemma ParseGeneratedOutline(ws: seq<WindowInfo>, date: string)
    requires Parseable(ws, date)
    ensures ParseGroups(Document(ws, date)) == Expected(ws)
  {
    assert SingleLine(ws, date) by {
      forall w, t | w in ws && t in w.tabs ensures '\n' !in t.title && '\n' !in t.url {
        assert ParseableTab(t);
      }
    }
    LinesOfDocument(ws, date);
    var start := ScanState([], []);
    var head := [TitleLine(date), ""];
    var body := WindowsLines(ws);
    assert Lines(Document(ws, date)) == (head + body) + [""];
    ScanAppend(start, head + body, [""]);
    ScanAppend(start, head, body);
    ScanTwo(start, TitleLine(date), "");
    StepTitle(start, date);
    StepBlank(start);
    var end := Scan(start, head + body);
    assert Scan(end, [""]) == Step(end, "") by {
      assert ([""])[..0] == [];
    }
    StepBlank(end);
    ScanWindows(start, ws);
    assert [] + Expected(ws) == Expected(ws);
  }

  /**
   * Opening all links of a generated outline recreates, in order, one window
   * per original window with an http tab, holding that window's http URLs in
   * tab order.
   */
  lemma ReopenGeneratedOutline(ws: seq<WindowInfo>, date: string)
    requires Parseable(ws, date)
    ensures ReplayFrom([], Plan(ParseGroups(Document(ws, date)))) == Some(Expected(ws))
  {
    ParseGeneratedOutline(ws, date);
    ReplayPlan(Expected(ws));
    NonEmptyKeepsAll(Expected(ws));
  }

  lemma {:induction false} HttpUrlsAppend(a: seq<TabInfo>, b: seq<TabInfo>)
    ensures HttpUrls(a + b) == HttpUrls(a) + HttpUrls(b)
    decreases |b|
  {
    if b == [] {
      assert a + b == a;
    } else {
      assert (a + b)[..|a + b| - 1] == a + b[..|b| - 1];
      HttpUrlsAppend(a, b[..|b| - 1]);
    }
  }

  /** Laid end to end, the expected groups are the http URLs of all tabs, window after window. */
  lemma {:induction false} ExpectedHoldsAllHttpTabs(ws: seq<WindowInfo>)
    ensures Flatten(Expected(ws)) == HttpUrls(AllTabs(ws))
    decreases |ws|
  {
    if ws != [] {
      var pre := ws[..|ws| - 1];
      var w := ws[|ws| - 1];
      var urls := HttpUrls(w.tabs);
      ExpectedHoldsAllHttpTabs(pre);
      AllTabsAppend(pre, [w]);
      assert pre + [w] == ws;
      assert AllTabs([w]) == w.tabs by {
        assert [w][1..] == [];
      }
      HttpUrlsAppend(AllTabs(pre), w.tabs);
      if urls != [] {
        FlattenSnoc(Expected(pre), urls);
      } else {
        assert Expected(ws) == Expected(pre) + [];
        assert Expected(pre) + [] == Expected(pre);
      }
    }
  }

  /**
   * Why a title must not hold `]`: when its first `]` is not followed by
   * `(`, the tab line holds no link and the tab is not reopened.
   */
  lemma BracketInTitleLosesTab(t: TabInfo, a: string, b: string)
    requires t.title == a + "]" + b
    requires '[' !in a && ']' !in a && '[' !in b && '[' !in t.url
    requires b == [] || b[0] != '('
    ensures Match(TabLine(t)) == None
  {
    var line := TabLine(t);
    var tail := b + "](" + t.url + ")";
    assert line == "- [" + a + "]" + tail;
    var q := 3 + |a|;
    assert line[q] == ']' && line[q + 1] == (if b == [] then ']' else b[0]);
    assert line[3..q] == a;
    FirstAfter(line, 3, a, ']');
    assert MatchAt(line, 2) == None;
    forall k | 0 <= k < |line| && k != 2 ensures line[k] != '[' {
      if 3 <= k < q {
        assert line[k] == a[k - 3];
      } else if q < k < |line| {
        assert line[k] == tail[k - q - 1];
        if k - q - 1 < |b| {
          assert tail[k - q - 1] == b[k - q - 1];
        } else if k - q - 1 >= |b| + 2 && k < |line| - 1 {
          assert tail[k - q - 1] == t.url[k - q - 1 - |b| - 2];
        }
      }
    }
    FindFromSkips(line, 0, |line|);
  }

  /**
   * Why a URL must not hold `)`: the URL read back from a tab line stops
   * just before the URL's first `)`.
   */
  lemma ParenInUrlTruncates(t: TabInfo, u: string, rest: string)
    requires t.title != "" && ']' !in t.title
    requires t.url == u + ")" + rest && u != "" && ')' !in u
    ensures Match(TabLine(t)) == Some(Link(t.title, u))
  {
    var line := TabLine(t);
    var l := Link(t.title, u);
    assert line == "- " + LinkText(l) + (rest + ")");
    assert line[2..2 + |LinkText(l)|] == LinkText(l);
    MatchAtComplete(line, 2, l);
    assert line[0] == '-' && line[1] == ' ';
    assert MatchAt(line, 0) == None && MatchAt(line, 1) == None;
    FindFromSkips(line, 0, 2);
  }
}
