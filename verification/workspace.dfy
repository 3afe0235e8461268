/**
 * The page's state: the window snapshot (`windows`) and the outline text in
 * the editor (`markdown`), with the handlers that replace them and the two
 * that read them. The host's window query, the clock, the file picker and
 * the editor are parameters: what they deliver is passed in.
 */
module Workspace {
  import opened Wrappers
  import opened Tabs
  import opened Outline
  import opened LinkParser
  import opened BulkOpen

  class Page {
    var windows: seq<WindowInfo>
    var markdown: string

    /** The state before the first load: no windows and an empty outline. */
    constructor ()
      ensures windows == [] && markdown == ""
    {
      windows := [];
      markdown := "";
    }

    /**
     * `loadTabs`: keeps the normalised snapshot of what the host reported and
     * replaces the text with a fresh outline of it, dated `date`.
     */
    method LoadTabs(host: seq<HostWindow>, date: string)
      modifies this
      ensures windows == NormalizeWindows(host)
      ensures markdown == Document(windows, date)
      ensures TabCount() == AddressableTabCount(host)
    {
      var windowsData := NormalizeWindows(host);
      windows := windowsData;
      markdown := GenerateMarkdown(windowsData, date);
      LoadedTabCount(host);
    }

    /** A file loaded or an edit made in the editor: the text is replaced, the snapshot kept. */
    method SetMarkdown(text: string)
      modifies this
      ensures markdown == text && windows == old(windows)
    {
      markdown := text;
    }

    /** `getTotalTabCount`: the number of tabs across the snapshot's windows. */
    function TabCount(): (n: nat)
      reads this
      ensures n == |AllTabs(windows)|
    {
      TotalTabCountIsAllTabs(windows);
      TotalTabCount(windows)
    }

    /**
     * `openAllLinks` on the current text: the host calls it makes, in order.
     * Carried out, they open one window per group read from the text,
     * holding that group's URLs in order, and no call targets a window that
     * does not exist yet.
     */
    method OpenAllLinks() returns (actions: seq<Action>)
      ensures actions == Plan(ParseGroups(markdown))
      ensures ReplayFrom([], actions) == Some(ParseGroups(markdown))
      ensures |actions| == UrlCount(ParseGroups(markdown))
    {
      var windowGroups := ParseLinkGroups(markdown);
      actions := PlanBulkOpen(windowGroups);
      ReplayPlan(windowGroups);
      NonEmptyKeepsAll(windowGroups);
      PlanLength(windowGroups);
    }
  }
}
