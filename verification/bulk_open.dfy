/**
 * The second half of `openAllLinks`: each URL group becomes a new unfocused
 * window opened on its first URL, followed by one new tab in that window for
 * each further URL, all strictly in order.
 *
 * The host calls are modelled as a list of actions. A window is named by its
 * creation ordinal: `CreateTab(w, u)` targets the window made by the
 * (w+1)-th `CreateWindow`, which stands for the id the host returns for it.
 * Replay is the reference semantics: the tabs each new window ends up with.
 */
module BulkOpen {
  import opened Wrappers

  datatype Action =
    | CreateWindow(url: string, focused: bool)
    | CreateTab(window: nat, url: string)

  /** The actions for one group whose window has ordinal `window`; nothing for an empty group. */
  function GroupActions(window: nat, urls: seq<string>): seq<Action> {
    if |urls| == 0 then [] else [CreateWindow(urls[0], false)] + TabActions(window, urls[1..])
  }

  function TabActions(window: nat, urls: seq<string>): (r: seq<Action>)
    ensures |r| == |urls|
  {
    if urls == [] then [] else TabActions(window, urls[..|urls| - 1]) + [CreateTab(window, urls[|urls| - 1])]
  }

  /** The non-empty groups, in order: the windows that will be created. */
  function NonEmpty(groups: seq<seq<string>>): (r: seq<seq<string>>)
    ensures |r| <= |groups|
    ensures forall g :: g in r ==> g != []
  {
    if groups == [] then []
    else
      var g := groups[|groups| - 1];
      NonEmpty(groups[..|groups| - 1]) + (if |g| > 0 then [g] else [])
  }

  /** A list of groups none of which is empty is kept whole. */
  lemma {:induction false} NonEmptyKeepsAll(groups: seq<seq<string>>)
    requires forall g :: g in groups ==> g != []
    ensures NonEmpty(groups) == groups
    decreases |groups|
  {
    if groups != [] {
      var pre := groups[..|groups| - 1];
      assert forall g :: g in pre ==> g in groups;
      assert groups[|groups| - 1] in groups;
      NonEmptyKeepsAll(pre);
      assert pre + [groups[|groups| - 1]] == groups;
    }
  }

  /** The whole plan: each group's actions after those of the groups before it. */
  function Plan(groups: seq<seq<string>>): seq<Action> {
    if groups == [] then []
    else
      var pre := groups[..|groups| - 1];
      Plan(pre) + GroupActions(|NonEmpty(pre)|, groups[|groups| - 1])
  }

  /** The sequential `for` loops of `openAllLinks`, emitting the calls in order. */
  method PlanBulkOpen(windowGroups: seq<seq<string>>) returns (actions: seq<Action>)
    ensures actions == Plan(windowGroups)
  {
    actions := [];
    var created: nat := 0;
    for g := 0 to |windowGroups|
      invariant actions == Plan(windowGroups[..g])
      invariant created == |NonEmpty(windowGroups[..g])|
    {
      var urls := windowGroups[g];
      PlanStep(windowGroups, g);
      if |urls| > 0 {
        var window := created;
        ghost var before := actions;
        actions := actions + [CreateWindow(urls[0], false)];
        created := created + 1;
        for i := 1 to |urls|
          invariant actions == before + [CreateWindow(urls[0], false)] + TabActions(window, urls[1..i])
        {
          actions := actions + [CreateTab(window, urls[i])];
          TabActionsStep(before + [CreateWindow(urls[0], false)], window, urls, i);
        }
        GroupActionsDone(before, window, urls);
      }
    }
    assert windowGroups[..|windowGroups|] == windowGroups;
  }

  /** The plan and the window count after one more group. */
  lemma PlanStep(groups: seq<seq<string>>, g: nat)
    requires g < |groups|
    ensures Plan(groups[..g + 1]) == Plan(groups[..g]) + GroupActions(|NonEmpty(groups[..g])|, groups[g])
    ensures |NonEmpty(groups[..g + 1])| == |NonEmpty(groups[..g])| + (if |groups[g]| > 0 then 1 else 0)
    ensures |groups[g]| == 0 ==> Plan(groups[..g + 1]) == Plan(groups[..g])
  {
    assert groups[..g + 1][..g] == groups[..g];
    if |groups[g]| == 0 {
      assert Plan(groups[..g]) + [] == Plan(groups[..g]);
    }
  }

  /** One more tab action in the inner loop. */
  lemma TabActionsStep(prefix: seq<Action>, window: nat, urls: seq<string>, i: nat)
    requires 1 <= i < |urls|
    ensures prefix + TabActions(window, urls[1..i]) + [CreateTab(window, urls[i])]
         == prefix + TabActions(window, urls[1..i + 1])
  {
    assert urls[1..i + 1][..i - 1] == urls[1..i];
  }

  /** The inner loop's actions make up the group's actions. */
  lemma GroupActionsDone(before: seq<Action>, window: nat, urls: seq<string>)
    requires |urls| > 0
    ensures before + [CreateWindow(urls[0], false)] + TabActions(window, urls[1..|urls|]) == before + GroupActions(window, urls)
  {
    assert urls[1..|urls|] == urls[1..];
  }

  /** The total number of URLs over all groups. */
  function UrlCount(groups: seq<seq<string>>): nat {
    if groups == [] then 0 else UrlCount(groups[..|groups| - 1]) + |groups[|groups| - 1]|
  }

  /** One host call per URL: the plan has exactly as many actions as there are URLs. */
  lemma {:induction false} PlanLength(groups: seq<seq<string>>)
    ensures |Plan(groups)| == UrlCount(groups)
    decreases |groups|
  {
    if groups != [] {
      PlanLength(groups[..|groups| - 1]);
    }
  }

  function WindowsCreated(actions: seq<Action>): nat {
    if actions == [] then 0
    else WindowsCreated(actions[..|actions| - 1]) + (if actions[|actions| - 1].CreateWindow? then 1 else 0)
  }

  lemma {:induction false} WindowsCreatedAppend(a: seq<Action>, b: seq<Action>)
    ensures WindowsCreated(a + b) == WindowsCreated(a) + WindowsCreated(b)
    decreases |b|
  {
    if b == [] {
      assert a + b == a;
    } else {
      assert (a + b)[..|a + b| - 1] == a + b[..|b| - 1];
      WindowsCreatedAppend(a, b[..|b| - 1]);
    }
  }

  lemma {:induction false} TabActionsCreateNoWindow(window: nat, urls: seq<string>)
    ensures WindowsCreated(TabActions(window, urls)) == 0
    decreases |urls|
  {
    if urls != [] {
      TabActionsCreateNoWindow(window, urls[..|urls| - 1]);
    }
  }

  /** Exactly one window is created per non-empty group. */
  lemma {:induction false} PlanWindowCount(groups: seq<seq<string>>)
    ensures WindowsCreated(Plan(groups)) == |NonEmpty(groups)|
    decreases |groups|
  {
    if groups != [] {
      var pre := groups[..|groups| - 1];
      var g := groups[|groups| - 1];
      PlanWindowCount(pre);
      WindowsCreatedAppend(Plan(pre), GroupActions(|NonEmpty(pre)|, g));
      if |g| > 0 {
        TabActionsCreateNoWindow(|NonEmpty(pre)|, g[1..]);
        WindowsCreatedAppend([CreateWindow(g[0], false)], TabActions(|NonEmpty(pre)|, g[1..]));
      }
    }
  }

  /** No window is created focused. */
  predicate Unfocused(actions: seq<Action>) {
    forall i :: 0 <= i < |actions| && actions[i].CreateWindow? ==> !actions[i].focused
  }

  /** Every window the plan creates opens in the background, leaving the page in front. */
  lemma {:induction false} PlanOpensUnfocused(groups: seq<seq<string>>)
    ensures Unfocused(Plan(groups))
    decreases |groups|
  {
    if groups != [] {
      var pre := groups[..|groups| - 1];
      var g := groups[|groups| - 1];
      PlanOpensUnfocused(pre);
      var ga := GroupActions(|NonEmpty(pre)|, g);
      assert Unfocused(ga) by {
        if |g| > 0 {
          TabActionsCreateNoWindow(|NonEmpty(pre)|, g[1..]);
          TabActionsAreTabs(|NonEmpty(pre)|, g[1..]);
        }
      }
      assert Plan(groups) == Plan(pre) + ga;
    }
  }

  lemma {:induction false} TabActionsAreTabs(window: nat, urls: seq<string>)
    ensures forall i :: 0 <= i < |urls| ==> TabActions(window, urls)[i] == CreateTab(window, urls[i])
    decreases |urls|
  {
    if urls != [] {
      TabActionsAreTabs(window, urls[..|urls| - 1]);
    }
  }

  /**
   * What one action does to the new windows' tab lists; a tab aimed at a
   * window not yet created is an error.
   */
  function Apply(windows: seq<seq<string>>, a: Action): Option<seq<seq<string>>> {
    match a
    case CreateWindow(u, _) => Some(windows + [[u]])
    case CreateTab(w, u) => if w < |windows| then Some(windows[w := windows[w] + [u]]) else None
  }

  /** The actions carried out in order from the windows `start`. */
  function ReplayFrom(start: seq<seq<string>>, actions: seq<Action>): Option<seq<seq<string>>> {
    if actions == [] then Some(start)
    else match ReplayFrom(start, actions[..|actions| - 1])
      case None => None
      case Some(windows) => Apply(windows, actions[|actions| - 1])
  }

  lemma {:induction false} ReplayAppend(start: seq<seq<string>>, a: seq<Action>, b: seq<Action>)
    requires ReplayFrom(start, a).Some?
    ensures ReplayFrom(start, a + b) == ReplayFrom(ReplayFrom(start, a).value, b)
    decreases |b|
  {
    if b == [] {
      assert a + b == a;
    } else {
      assert (a + b)[..|a + b| - 1] == a + b[..|b| - 1];
      ReplayAppend(start, a, b[..|b| - 1]);
    }
  }

  lemma {:induction false} ReplayTabs(start: seq<seq<string>>, window: nat, urls: seq<string>)
    requires window < |start|
    ensures ReplayFrom(start, TabActions(window, urls)) == Some(start[window := start[window] + urls])
    decreases |urls|
  {
    if urls == [] {
      assert start[window] + urls == start[window];
      assert start[window := start[window] + urls] == start;
    } else {
      var pre := urls[..|urls| - 1];
      var actions := TabActions(window, urls);
      ReplayTabs(start, window, pre);
      assert actions[..|actions| - 1] == TabActions(window, pre);
      assert pre + [urls[|urls| - 1]] == urls;
      var mid := start[window := start[window] + pre];
      assert mid[window] + [urls[|urls| - 1]] == start[window] + urls;
      assert mid[window := mid[window] + [urls[|urls| - 1]]] == start[window := start[window] + urls];
    }
  }

  lemma ReplayGroup(start: seq<seq<string>>, urls: seq<string>)
    requires |urls| > 0
    ensures ReplayFrom(start, GroupActions(|start|, urls)) == Some(start + [urls])
  {
    var afterCreate := start + [[urls[0]]];
    assert ReplayFrom(start, [CreateWindow(urls[0], false)]) == Some(afterCreate) by {
      assert [CreateWindow(urls[0], false)][..0] == [];
    }
    ReplayAppend(start, [CreateWindow(urls[0], false)], TabActions(|start|, urls[1..]));
    ReplayTabs(afterCreate, |start|, urls[1..]);
    assert [urls[0]] + urls[1..] == urls;
    assert afterCreate[|start| := afterCreate[|start|] + urls[1..]] == start + [urls];
  }

  /**
   * Carried out in order, the plan never aims a tab at a missing window and
   * leaves one new window per non-empty group, in group order, holding that
   * group's URLs in order.
   */
  lemma {:induction false} ReplayPlan(groups: seq<seq<string>>)
    ensures ReplayFrom([], Plan(groups)) == Some(NonEmpty(groups))
    decreases |groups|
  {
    if groups != [] {
      var pre := groups[..|groups| - 1];
      var g := groups[|groups| - 1];
      ReplayPlan(pre);
      ReplayAppend([], Plan(pre), GroupActions(|NonEmpty(pre)|, g));
      if |g| > 0 {
        ReplayGroup(NonEmpty(pre), g);
      } else {
        assert Plan(groups) == Plan(pre) + [];
        assert Plan(pre) + [] == Plan(pre);
        assert NonEmpty(groups) == NonEmpty(pre) + [];
        assert NonEmpty(pre) + [] == NonEmpty(pre);
      }
    }
  }
}
