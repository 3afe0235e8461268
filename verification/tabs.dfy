/**
 * The tab snapshot: the records the browser host reports (ids, titles and
 * URLs all optional), the TabInfo/WindowInfo records the outline works on,
 * the normalisation of the one into the other, and the total tab count shown
 * in the page header.
 */
module Tabs {
  import opened Wrappers

  /** A tab as the host reports it; any field may be missing. */
  datatype HostTab = HostTab(id: Option<int>, title: Option<string>, url: Option<string>)

  /** A window as the host reports it, with its tabs when populated. */
  datatype HostWindow = HostWindow(id: Option<int>, tabs: Option<seq<HostTab>>)

  datatype TabInfo = TabInfo(id: int, windowId: int, title: string, url: string)

  datatype WindowInfo = WindowInfo(id: int, tabs: seq<TabInfo>)

  const DefaultTitle: string := "Untitled"

  /**
   * One host tab with an id, owned by window `windowId`: a missing or empty
   * title becomes "Untitled", a missing URL the empty string.
   */
  function ToTab(h: HostTab, windowId: int): (t: TabInfo)
    requires h.id.Some?
    ensures t.id == h.id.value && t.windowId == windowId
    ensures t.title != ""
    ensures h.title.Some? && h.title.value != "" ==> t.title == h.title.value
    ensures h.title.None? || h.title == Some("") ==> t.title == DefaultTitle
    ensures h.url.Some? ==> t.url == h.url.value
    ensures h.url.None? ==> t.url == ""
  {
    TabInfo(
      h.id.value,
      windowId,
      if h.title.Some? && h.title.value != "" then h.title.value else DefaultTitle,
      if h.url.Some? then h.url.value else "")
  }

  /** The tabs of window `windowId` that have an id, normalised, in host order. */
  function NormalizeTabs(hs: seq<HostTab>, windowId: int): (r: seq<TabInfo>)
    ensures |r| <= |hs|
    ensures forall t :: t in r ==> t.windowId == windowId && t.title != ""
    ensures forall t :: t in r <==> exists h :: h in hs && h.id.Some? && t == ToTab(h, windowId)
  {
    if hs == [] then []
    else (if hs[0].id.Some? then [ToTab(hs[0], windowId)] else []) + NormalizeTabs(hs[1..], windowId)
  }

  /** A host window with an id; a window whose tabs were not populated gets none. */
  function ToWindow(h: HostWindow): (w: WindowInfo)
    requires h.id.Some?
    ensures w.id == h.id.value
    ensures forall t :: t in w.tabs ==> t.windowId == w.id && t.title != ""
    ensures h.tabs.None? ==> w.tabs == []
    ensures h.tabs.Some? ==> w.tabs == NormalizeTabs(h.tabs.value, h.id.value)
  {
    WindowInfo(h.id.value, NormalizeTabs(if h.tabs.Some? then h.tabs.value else [], h.id.value))
  }

  /** The snapshot `loadTabs` keeps: windows and tabs without an id are dropped. */
  function NormalizeWindows(hs: seq<HostWindow>): (r: seq<WindowInfo>)
    ensures |r| <= |hs|
    ensures forall w :: w in r ==> forall t :: t in w.tabs ==> t.windowId == w.id && t.title != ""
    ensures forall w :: w in r <==> exists h :: h in hs && h.id.Some? && w == ToWindow(h)
  {
    if hs == [] then []
    else (if hs[0].id.Some? then [ToWindow(hs[0])] else []) + NormalizeWindows(hs[1..])
  }

  /** Normalisation keeps host order: it distributes over concatenation. */
  lemma {:induction false} NormalizeTabsAppend(a: seq<HostTab>, b: seq<HostTab>, windowId: int)
    ensures NormalizeTabs(a + b, windowId) == NormalizeTabs(a, windowId) + NormalizeTabs(b, windowId)
    decreases |a|
  {
    if a != [] {
      assert (a + b)[1..] == a[1..] + b;
      NormalizeTabsAppend(a[1..], b, windowId);
    } else {
      assert a + b == b;
    }
  }

  lemma {:induction false} NormalizeWindowsAppend(a: seq<HostWindow>, b: seq<HostWindow>)
    ensures NormalizeWindows(a + b) == NormalizeWindows(a) + NormalizeWindows(b)
    decreases |a|
  {
    if a != [] {
      assert (a + b)[1..] == a[1..] + b;
      NormalizeWindowsAppend(a[1..], b);
    } else {
      assert a + b == b;
    }
  }

  /** `getTotalTabCount`: the `reduce` that adds up the windows' tab counts. */
  function TotalTabCount(ws: seq<WindowInfo>): nat {
    if ws == [] then 0 else TotalTabCount(ws[..|ws| - 1]) + |ws[|ws| - 1].tabs|
  }

  /** All tabs of all windows, window after window. */
  function AllTabs(ws: seq<WindowInfo>): seq<TabInfo> {
    if ws == [] then [] else ws[0].tabs + AllTabs(ws[1..])
  }

  lemma {:induction false} AllTabsAppend(a: seq<WindowInfo>, b: seq<WindowInfo>)
    ensures AllTabs(a + b) == AllTabs(a) + AllTabs(b)
    decreases |a|
  {
    if a != [] {
      assert (a + b)[1..] == a[1..] + b;
      AllTabsAppend(a[1..], b);
    } else {
      assert a + b == b;
    }
  }

  /** The total tab count is the number of tabs listed across all windows. */
  lemma {:induction false} TotalTabCountIsAllTabs(ws: seq<WindowInfo>)
    ensures TotalTabCount(ws) == |AllTabs(ws)|
    decreases |ws|
  {
    if ws != [] {
      var pre := ws[..|ws| - 1];
      TotalTabCountIsAllTabs(pre);
      AllTabsAppend(pre, [ws[|ws| - 1]]);
      assert pre + [ws[|ws| - 1]] == ws;
    }
  }

  /** How many host tabs have an id and sit in a window that has one. */
  function AddressableTabCount(hs: seq<HostWindow>): nat {
    if hs == [] then 0
    else
      (if hs[0].id.Some? && hs[0].tabs.Some? then CountWithId(hs[0].tabs.value) else 0)
      + AddressableTabCount(hs[1..])
  }

  function CountWithId(ts: seq<HostTab>): nat {
    if ts == [] then 0 else (if ts[0].id.Some? then 1 else 0) + CountWithId(ts[1..])
  }

  lemma {:induction false} NormalizeTabsCount(ts: seq<HostTab>, windowId: int)
    ensures |NormalizeTabs(ts, windowId)| == CountWithId(ts)
  {
    if ts != [] {
      NormalizeTabsCount(ts[1..], windowId);
    }
  }

  /** After `loadTabs`, the header's tab count is the number of addressable host tabs. */
  lemma {:induction false} LoadedTabCount(hs: seq<HostWindow>)
    ensures TotalTabCount(NormalizeWindows(hs)) == AddressableTabCount(hs)
    decreases |hs|
  {
    if hs != [] {
      var rest := NormalizeWindows(hs[1..]);
      var first := if hs[0].id.Some? then [ToWindow(hs[0])] else [];
      LoadedTabCount(hs[1..]);
      TotalTabCountIsAllTabs(first + rest);
      TotalTabCountIsAllTabs(rest);
      AllTabsAppend(first, rest);
      if hs[0].id.Some? {
        var ts := if hs[0].tabs.Some? then hs[0].tabs.value else [];
        NormalizeTabsCount(ts, hs[0].id.value);
        assert AllTabs(first) == ToWindow(hs[0]).tabs;
      }
    }
  }
}
