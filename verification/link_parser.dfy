/**
 * The first half of `openAllLinks`: the outline text is split into lines,
 * `## Window` lines close the current group of URLs, and every other line
 * contributes the URL of its first `[title](url)` link when that URL starts
 * with "http".
 *
 * The one regular expression used, `\[([^\]]+)\]\(([^)]+)\)`, is written out
 * as a matcher: MatchAt tries one start position, FindFrom searches for the
 * leftmost start that succeeds, as the regex engine does.
 */
module LinkParser {
  import opened Wrappers
  import opened Text

  /** The two capture groups of the link pattern. */
  datatype Link = Link(title: string, url: string)

  /** The text `[title](url)`. */
  function LinkText(l: Link): string {
    "[" + l.title + "](" + l.url + ")"
  }

  /**
   * What the pattern allows in its groups: a non-empty title without `]`
   * and a non-empty URL without `)`.
   */
  predicate WellFormed(l: Link) {
    l.title != "" && ']' !in l.title && l.url != "" && ')' !in l.url
  }

  /** The pattern matches `line` at position `p` with groups `l`. */
  predicate IsLinkAt(line: string, p: nat, l: Link) {
    WellFormed(l) && p + |LinkText(l)| <= |line| && line[p..p + |LinkText(l)|] == LinkText(l)
  }

  /**
   * The pattern tried at one start position. Once the `[` is fixed the match
   * is deterministic: the title runs to the first `]`, which must be
   * followed by `(`, and the URL runs to the first `)`.
   */
  function MatchAt(line: string, p: nat): Option<Link> {
    if p >= |line| || line[p] != '[' then None
    else match IndexOf(line, ']', p + 1)
      case None => None
      case Some(q) =>
        if q == p + 1 || q + 1 >= |line| || line[q + 1] != '(' then None
        else match IndexOf(line, ')', q + 2)
          case None => None
          case Some(e) =>
            if e == q + 2 then None
            else
              Some(Link(line[p + 1..q], line[q + 2..e]))
  }

  /** Whatever MatchAt returns is a match of the pattern at that position. */
  lemma MatchAtSound(line: string, p: nat)
    ensures MatchAt(line, p).Some? ==> IsLinkAt(line, p, MatchAt(line, p).value)
  {
    if MatchAt(line, p).Some? {
      var l := MatchAt(line, p).value;
      assert line[p..p + |LinkText(l)|] == LinkText(l);
    }
  }

  /** Where the pieces of a link lie in a line that holds it at `p`. */
  lemma LinkPieces(line: string, p: nat, l: Link)
    requires IsLinkAt(line, p, l)
    ensures var q := p + 1 + |l.title|; var e := q + 2 + |l.url|;
      e < |line| && line[p] == '[' && line[q] == ']' && line[q + 1] == '(' && line[e] == ')' &&
      line[p + 1..q] == l.title && line[q + 2..e] == l.url
  {
    var text := LinkText(l);
    var q := p + 1 + |l.title|;
    var e := q + 2 + |l.url|;
    var seen := line[p..p + |text|];
    var head := "[" + l.title + "](";
    assert seen == text == head + l.url + ")";
    assert text[1..1 + |l.title|] == l.title;
    assert text[|head|..|head| + |l.url|] == l.url;
    SliceOfSlice(line, p, p + |text|, 1, 1 + |l.title|);
    SliceOfSlice(line, p, p + |text|, |head|, |head| + |l.url|);
    assert line[p] == seen[0] && line[q] == seen[q - p] && line[q + 1] == seen[q + 1 - p] && line[e] == seen[e - p];
  }

  lemma SliceOfSlice(s: string, i: nat, j: nat, a: nat, b: nat)
    requires i <= j <= |s| && a <= b <= j - i
    ensures s[i..j][a..b] == s[i + a..i + b]
  {
    assert forall k :: 0 <= k < b - a ==> s[i..j][a..b][k] == s[i + a + k];
  }

  /** The first `]` after `from`, when the text before it up to `from` is a piece without `]`. */
  lemma FirstAfter(line: string, from: nat, piece: string, c: char)
    requires from + |piece| < |line| && line[from..from + |piece|] == piece
    requires c !in piece && line[from + |piece|] == c
    ensures IndexOf(line, c, from) == Some(from + |piece|)
  {
    forall k | from <= k < from + |piece| ensures line[k] != c {
      assert line[k] == piece[k - from];
    }
    IndexOfIs(line, c, from, from + |piece|);
  }

  /** MatchAt finds every match the pattern has at its start position. */
  lemma MatchAtComplete(line: string, p: nat, l: Link)
    requires IsLinkAt(line, p, l)
    ensures MatchAt(line, p) == Some(l)
  {
    var q := p + 1 + |l.title|;
    var e := q + 2 + |l.url|;
    LinkPieces(line, p, l);
    FirstAfter(line, p + 1, l.title, ']');
    FirstAfter(line, q + 2, l.url, ')');
    MatchAtFound(line, p, q, e);
  }

  /** MatchAt once both closing characters have been found. */
  lemma MatchAtFound(line: string, p: nat, q: nat, e: nat)
    requires p < |line| && line[p] == '['
    requires IndexOf(line, ']', p + 1) == Some(q) && q != p + 1 && q + 1 < |line| && line[q + 1] == '('
    requires IndexOf(line, ')', q + 2) == Some(e) && e != q + 2
    ensures MatchAt(line, p) == Some(Link(line[p + 1..q], line[q + 2..e]))
  {
  }

  /** The leftmost match at or after `from`, with its start position. */
  function FindFrom(line: string, from: nat): (r: Option<(nat, Link)>)
    decreases |line| - from
    ensures r.Some? ==> from <= r.value.0 < |line| && MatchAt(line, r.value.0) == Some(r.value.1)
  {
    if from >= |line| then None
    else match MatchAt(line, from)
      case Some(l) => Some((from, l))
      case None => FindFrom(line, from + 1)
  }

  /** The search finds the leftmost start that matches, and fails only when none does. */
  lemma {:induction false} FindFromLeftmost(line: string, from: nat)
    ensures FindFrom(line, from).Some? ==> forall q :: from <= q < FindFrom(line, from).value.0 ==> MatchAt(line, q).None?
    ensures FindFrom(line, from).None? ==> forall q :: from <= q ==> MatchAt(line, q).None?
    decreases |line| - from
  {
    if from >= |line| {
      forall q | from <= q ensures MatchAt(line, q).None? {
        assert q >= |line|;
      }
    } else if MatchAt(line, from).None? {
      assert FindFrom(line, from) == FindFrom(line, from + 1);
      FindFromLeftmost(line, from + 1);
    }
  }

  /** `line.match(pattern)`: the groups of the leftmost match, if any. */
  function Match(line: string): Option<Link> {
    match FindFrom(line, 0)
    case Some((_, l)) => Some(l)
    case None => None
  }

  /**
   * Match gives exactly the leftmost match: a link at some position with
   * no match at any earlier position.
   */
  lemma MatchIsLeftmost(line: string, l: Link)
    ensures Match(line) == Some(l) <==>
      exists p :: IsLinkAt(line, p, l) && forall p': nat, l' :: p' < p ==> !IsLinkAt(line, p', l')
  {
    if Match(line) == Some(l) {
      MatchFoundIsLeftmost(line);
    }
    if exists p :: IsLinkAt(line, p, l) && forall p': nat, l' :: p' < p ==> !IsLinkAt(line, p', l') {
      var p :| IsLinkAt(line, p, l) && forall p': nat, l' :: p' < p ==> !IsLinkAt(line, p', l');
      LeftmostIsFound(line, p, l);
    }
  }

  lemma MatchFoundIsLeftmost(line: string)
    requires Match(line).Some?
    ensures var p := FindFrom(line, 0).value.0;
      IsLinkAt(line, p, Match(line).value) && forall p': nat, l' :: p' < p ==> !IsLinkAt(line, p', l')
  {
    var p := FindFrom(line, 0).value.0;
    FindFromLeftmost(line, 0);
    MatchAtSound(line, p);
    forall p': nat, l' | p' < p ensures !IsLinkAt(line, p', l') {
      if IsLinkAt(line, p', l') {
        MatchAtComplete(line, p', l');
      }
    }
  }

  lemma LeftmostIsFound(line: string, p: nat, l: Link)
    requires IsLinkAt(line, p, l) && forall p': nat, l' :: p' < p ==> !IsLinkAt(line, p', l')
    ensures Match(line) == Some(l)
  {
    MatchAtComplete(line, p, l);
    FindFromLeftmost(line, 0);
    var found := FindFrom(line, 0);
    assert found.Some?;
    var p0 := found.value.0;
    MatchAtSound(line, p0);
    assert p0 == p;
  }

  /** A line without `[` holds no link. */
  lemma NoBracketNoMatch(line: string)
    requires '[' !in line
    ensures Match(line) == None
  {
    forall q | 0 <= q < |line| ensures MatchAt(line, q) == None {
      assert line[q] in line;
    }
  }

  /**
   * When the first `]` after position `from` is followed by `()`, no start
   * position up to that `]` matches: every such match would need an empty URL.
   */
  lemma NoMatchBeforeEmptyUrl(line: string, from: nat, close: nat)
    requires from <= close && close + 2 < |line|
    requires line[close] == ']' && line[close + 1] == '(' && line[close + 2] == ')'
    requires forall k :: from <= k < close ==> line[k] != ']'
    ensures forall k :: from <= k <= close ==> MatchAt(line, k) == None
  {
    forall k | from <= k <= close ensures MatchAt(line, k) == None {
      if k < close && line[k] == '[' {
        IndexOfIs(line, ']', k + 1, close);
        IndexOfIs(line, ')', close + 2, close + 2);
      }
    }
  }

  /**
   * An outline item `- [title](url)` yields its title and URL, or no link
   * at all when the URL is empty.
   */
  lemma MatchListItem(title: string, url: string)
    requires title != "" && ']' !in title && ')' !in url
    ensures Match("- [" + title + "](" + url + ")") == if url != "" then Some(Link(title, url)) else None
  {
    var line := "- [" + title + "](" + url + ")";
    assert line[0] == '-' && line[1] == ' ';
    assert MatchAt(line, 0) == None && MatchAt(line, 1) == None;
    FindFromSkips(line, 0, 2);
    if url != "" {
      ListItemLink(title, url);
    } else {
      ListItemEmptyUrl(title);
    }
  }

  lemma ListItemLink(title: string, url: string)
    requires WellFormed(Link(title, url))
    ensures FindFrom("- [" + title + "](" + url + ")", 2) == Some((2, Link(title, url)))
  {
    var line := "- [" + title + "](" + url + ")";
    assert line == "- " + LinkText(Link(title, url));
    assert line[2..2 + |LinkText(Link(title, url))|] == LinkText(Link(title, url));
    MatchAtComplete(line, 2, Link(title, url));
  }

  lemma ListItemEmptyUrl(title: string)
    requires title != "" && ']' !in title
    ensures FindFrom("- [" + title + "]()", 2) == None
  {
    var line := "- [" + title + "]()";
    var close := 3 + |title|;
    assert |line| == close + 3;
    assert line[close] == ']' && line[close + 1] == '(' && line[close + 2] == ')';
    forall k | 3 <= k < close ensures line[k] != ']' {
      assert line[k] == title[k - 3];
    }
    NoMatchBeforeEmptyUrl(line, 2, close);
    assert MatchAt(line, close + 1) == None && MatchAt(line, close + 2) == None;
    FindFromSkips(line, 2, |line|);
  }

  /** Searching skips start positions that do not match. */
  lemma {:induction false} FindFromSkips(line: string, from: nat, stop: nat)
    requires from <= stop
    requires forall k :: from <= k < stop ==> MatchAt(line, k) == None
    ensures FindFrom(line, from) == FindFrom(line, stop)
    decreases stop - from
  {
    if from < stop {
      assert MatchAt(line, from) == None;
      assert FindFrom(line, from) == FindFrom(line, from + 1);
      FindFromSkips(line, from + 1, stop);
    }
  }

  /** A link with an empty URL, as in `[t]()`, never matches. */
  lemma EmptyUrlNeverMatches(title: string)
    requires ']' !in title
    ensures Match("[" + title + "]()") == None
  {
    var line := "[" + title + "]()";
    var close := 1 + |title|;
    assert forall k :: 1 <= k < close ==> line[k] == title[k - 1];
    NoMatchBeforeEmptyUrl(line, 0, close);
    FindFromSkips(line, 0, close + 1);
  }

  /** The URL a non-heading line contributes: its first link's, when that starts with "http". */
  function LineUrl(line: string): (r: Option<string>)
    ensures r.Some? ==> StartsWith(r.value, "http") && Match(line).Some? && Match(line).value.url == r.value
  {
    match Match(line)
    case Some(l) => if StartsWith(l.url, "http") then Some(l.url) else None
    case None => None
  }

  const WindowMarker: string := "## Window"

  predicate IsWindowHeading(line: string) {
    StartsWith(line, WindowMarker)
  }

  /** The groups collected so far and the group being filled. */
  datatype ScanState = ScanState(groups: seq<seq<string>>, current: seq<string>)

  /** The groups once the current one is pushed, unless it is empty. */
  function Close(st: ScanState): seq<seq<string>> {
    if |st.current| > 0 then st.groups + [st.current] else st.groups
  }

  /** The URL one line contributes: none from a heading, at most one otherwise. */
  function Contribution(line: string): (r: seq<string>)
    ensures |r| <= 1 && forall u :: u in r ==> StartsWith(u, "http")
    ensures IsWindowHeading(line) ==> r == []
  {
    if !IsWindowHeading(line) && LineUrl(line).Some? then [LineUrl(line).value] else []
  }

  /**
   * What one line does to the scan: a `## Window` line closes the current
   * group and starts an empty one; any other line adds its URL, if any.
   */
  function Step(st: ScanState, line: string): ScanState {
    if IsWindowHeading(line) then ScanState(Close(st), [])
    else ScanState(st.groups, st.current + Contribution(line))
  }

  predicate AllHttp(urls: seq<string>) {
    forall u :: u in urls ==> StartsWith(u, "http")
  }

  /** Every collected group is non-empty and every URL seen starts with "http". */
  predicate Tidy(st: ScanState) {
    (forall g :: g in st.groups ==> g != [] && AllHttp(g)) && AllHttp(st.current)
  }

  /** The scan over `lines`, in order, from state `st`. */
  function Scan(st: ScanState, lines: seq<string>): (r: ScanState)
    ensures Tidy(st) ==> Tidy(r)
  {
    if lines == [] then st else Step(Scan(st, lines[..|lines| - 1]), lines[|lines| - 1])
  }

  /** The URL groups of a document: no group is empty and every URL starts with "http". */
  function ParseGroups(markdown: string): (r: seq<seq<string>>)
    ensures forall g :: g in r ==> g != [] && AllHttp(g)
  {
    Close(Scan(ScanState([], []), Lines(markdown)))
  }

  /** The line loop of `openAllLinks`, with its final push of the last group. */
  method ParseLinkGroups(markdown: string) returns (windowGroups: seq<seq<string>>)
    ensures windowGroups == ParseGroups(markdown)
  {
    var lines := Lines(markdown);
    windowGroups := [];
    var currentWindow: seq<string> := [];
    for i := 0 to |lines|
      invariant Scan(ScanState([], []), lines[..i]) == ScanState(windowGroups, currentWindow)
    {
      var line := lines[i];
      ScanLine(lines, i, ScanState(windowGroups, currentWindow));
      if StartsWith(line, WindowMarker) {
        if |currentWindow| > 0 {
          windowGroups := windowGroups + [currentWindow];
        }
        currentWindow := [];
      } else {
        var urlMatch := Match(line);
        if urlMatch.Some? && StartsWith(urlMatch.value.url, "http") {
          currentWindow := currentWindow + [urlMatch.value.url];
        }
      }
    }
    if |currentWindow| > 0 {
      windowGroups := windowGroups + [currentWindow];
    }
    assert lines[..|lines|] == lines;
  }

  /** The scan after one more line, spelled out branch by branch. */
  lemma ScanLine(lines: seq<string>, i: nat, st: ScanState)
    requires i < |lines| && Scan(ScanState([], []), lines[..i]) == st
    ensures Scan(ScanState([], []), lines[..i + 1]) ==
      if IsWindowHeading(lines[i]) then ScanState(Close(st), [])
      else if Match(lines[i]).Some? && StartsWith(Match(lines[i]).value.url, "http")
      then ScanState(st.groups, st.current + [Match(lines[i]).value.url])
      else st
  {
    assert lines[..i + 1][..i] == lines[..i];
    assert st.current + [] == st.current;
  }

  lemma {:induction false} ScanAppend(st: ScanState, a: seq<string>, b: seq<string>)
    ensures Scan(st, a + b) == Scan(Scan(st, a), b)
    decreases |b|
  {
    if b == [] {
      assert a + b == a;
    } else {
      assert (a + b)[..|a + b| - 1] == a + b[..|b| - 1];
      ScanAppend(st, a, b[..|b| - 1]);
    }
  }

  /** The URLs the lines contribute, in line order. */
  function LineUrls(lines: seq<string>): (r: seq<string>)
    ensures |r| <= |lines|
  {
    if lines == [] then [] else LineUrls(lines[..|lines| - 1]) + Contribution(lines[|lines| - 1])
  }

  /** The groups laid end to end. */
  function Flatten(groups: seq<seq<string>>): seq<string> {
    if groups == [] then [] else Flatten(groups[..|groups| - 1]) + groups[|groups| - 1]
  }

  lemma FlattenSnoc(groups: seq<seq<string>>, g: seq<string>)
    ensures Flatten(groups + [g]) == Flatten(groups) + g
  {
    assert (groups + [g])[..|groups|] == groups;
  }

  lemma StepKeepsUrls(s: ScanState, line: string)
    ensures Flatten(Close(Step(s, line))) == Flatten(Close(s)) + Contribution(line)
  {
    var c := Contribution(line);
    assert Flatten(Close(s)) == Flatten(s.groups) + s.current by {
      FlattenSnoc(s.groups, s.current);
      if s.current == [] {
        assert Flatten(s.groups) + s.current == Flatten(s.groups);
      }
    }
    if IsWindowHeading(line) {
      assert Close(Step(s, line)) == Close(s);
      assert Flatten(Close(s)) + c == Flatten(Close(s));
    } else if s.current + c == [] {
      assert Flatten(s.groups) + s.current + c == Flatten(s.groups);
    } else {
      FlattenSnoc(s.groups, s.current + c);
    }
  }

  lemma {:induction false} ScanKeepsUrls(st: ScanState, lines: seq<string>)
    ensures Flatten(Close(Scan(st, lines))) == Flatten(Close(st)) + LineUrls(lines)
    decreases |lines|
  {
    if lines != [] {
      var pre := lines[..|lines| - 1];
      ScanKeepsUrls(st, pre);
      StepKeepsUrls(Scan(st, pre), lines[|lines| - 1]);
    }
  }

  /**
   * Read end to end, the groups hold exactly the URLs the lines contribute:
   * document order, line order within a group, at most one URL per line,
   * none from a `## Window` line.
   */
  lemma GroupsKeepDocumentOrder(markdown: string)
    ensures Flatten(ParseGroups(markdown)) == LineUrls(Lines(markdown))
  {
    ScanKeepsUrls(ScanState([], []), Lines(markdown));
  }
}
