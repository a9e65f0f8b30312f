/** The tab group window: its list of tabs, the tags that identify them, the focus
    event it builds when the selected tab changes, and its open/closed state. */
module TabGroup {
  import opened Wrappers

  /** What `getView` throws: a tab group is a window and has no view of its own to hand out. */
  const GetViewError: Exception := IllegalStateException("call to getView on a Window")

  /** A tab proxy, with the dynamic properties the group reads and the group it belongs to. */
  class Tab {
    var tag: Option<string>
    var title: Option<string>
    var icon: Option<string>
    /** The tab group the tab is attached to, null when detached. */
    var group: TabGroupProxy?
    /** The proxy's `toString()`. */
    const name: string
    /** Whether the tab's `window` property holds a window proxy. */
    const hasWindow: bool

    constructor (tag: Option<string>, title: Option<string>, icon: Option<string>, name: string, hasWindow: bool)
      ensures this.tag == tag && this.title == title && this.icon == icon && this.name == name
      ensures this.hasWindow == hasWindow && group == null
    {
      this.tag := tag;
      this.title := title;
      this.icon := icon;
      this.name := name;
      this.hasWindow := hasWindow;
      group := null;
    }
  }

  /** The position of the first tab without a window, or the length when every tab has one. */
  function FirstWithoutWindow(ts: seq<Tab>): (k: nat)
    ensures k <= |ts|
    ensures k < |ts| ==> !ts[k].hasWindow
    ensures forall j :: 0 <= j < k ==> ts[j].hasWindow
  {
    if |ts| == 0 then 0
    else if !ts[0].hasWindow then 0
    else 1 + FirstWithoutWindow(ts[1..])
  }

  /** The tag a tab is added with: its own tag, else its title, else its icon, else its
      `toString()`. */
  function DerivedTag(tag: Option<string>, title: Option<string>, icon: Option<string>, name: string): (r: string)
    ensures tag.Some? ==> r == tag.value
    ensures tag.None? && title.Some? ==> r == title.value
    ensures tag.None? && title.None? && icon.Some? ==> r == icon.value
    ensures tag.None? && title.None? && icon.None? ==> r == name
  {
    match tag
    case Some(t) => t
    case None =>
      match title
      case Some(t) => t
      case None => icon.GetOr(name)
  }

  /** Once written back, a derived tag is the tab's own tag and is derived again unchanged. */
  lemma DerivedTagStable(tag: Option<string>, title: Option<string>, icon: Option<string>, name: string)
    ensures DerivedTag(Some(DerivedTag(tag, title, icon, name)), title, icon, name) == DerivedTag(tag, title, icon, name)
  {
  }

  /** The tags of the tabs, in list order. */
  function TagsOf(ts: seq<Tab>): (r: seq<Option<string>>)
    reads set t | t in ts
    ensures |r| == |ts| && forall i :: 0 <= i < |ts| ==> r[i] == ts[i].tag
  {
    if |ts| == 0 then []
    else TagsOf(ts[..|ts| - 1]) + [ts[|ts| - 1].tag]
  }

  /** indexForId over the tags: the position of the first tag equal to `id`, or -1. A tab
      without a tag reached before the match fails on the null reference. */
  function IndexForIdIn(tags: seq<Option<string>>, id: Option<string>): (r: Result<int>)
    ensures r.Success? ==> -1 <= r.value < |tags|
    ensures r.Success? && r.value >= 0 ==> tags[r.value].Some? && Some(tags[r.value].value) == id
    ensures r.Success? ==> forall j :: 0 <= j < |tags| && (r.value == -1 || j < r.value) ==>
                             tags[j].Some? && Some(tags[j].value) != id
    ensures r.Failure? ==> r.error == NullPointerException && None in tags
    decreases |tags|
  {
    if |tags| == 0 then Success(-1)
    else if tags[0].None? then Failure(NullPointerException)
    else if Some(tags[0].value) == id then Success(0)
    else
      match IndexForIdIn(tags[1..], id)
      case Failure(e) => Failure(e)
      case Success(i) => Success(if i == -1 then -1 else i + 1)
  }

  /** When every tab has a tag, indexForId finds the first tab tagged `id`, or -1. */
  lemma IndexForIdTagged(tags: seq<Option<string>>, id: Option<string>)
    requires forall j :: 0 <= j < |tags| ==> tags[j].Some?
    ensures IndexForIdIn(tags, id).Success?
  {
  }

  /** A tag appended after the others is found at the end only when no earlier tab has it. */
  lemma {:induction false} IndexForIdOfAdded(tags: seq<Option<string>>, t: string)
    requires forall j :: 0 <= j < |tags| ==> tags[j].Some? && tags[j].value != t
    ensures IndexForIdIn(tags + [Some(t)], Some(t)) == Success(|tags|)
  {
    if |tags| > 0 {
      assert (tags + [Some(t)])[1..] == tags[1..] + [Some(t)];
      IndexForIdOfAdded(tags[1..], t);
    }
  }

  /** The previous tab of a focus event: a tab of the group, or a stand-in titled "no tab". */
  datatype PreviousTab = PreviousTabProxy(tab: Tab) | Placeholder(title: string)

  /** The focus event: new and previous index, previous tab, and the new tab when found. */
  datatype FocusEvent = FocusEvent(index: int, previousIndex: int, previousTab: PreviousTab, tab: Option<Tab>)

  class TabGroupProxy {
    /** The tabs, created on the first add. */
    var tabs: Option<seq<Tab>>
    var isOpen: bool
    var windowId: Option<string>
    /** Whether the native tab group view exists. */
    var hasView: bool

    constructor ()
      ensures tabs == None && !isOpen && windowId == None && !hasView
    {
      tabs := None;
      isOpen := false;
      windowId := None;
      hasView := false;
    }

    /** The tabs of the list, as a set (for frames). */
    function TabSet(): set<Tab>
      reads this
    {
      if tabs.Some? then set t | t in tabs.value else {}
    }

    /** A copy of the tab list, or null before the first add. */
    method GetTabs() returns (r: Option<seq<Tab>>)
      ensures r == tabs
    {
      r := tabs;
    }

    /** Creates the list if needed, then adds the tab (on the UI thread). */
    method AddTab(tab: Tab) returns (r: Result<()>)
      modifies this, tab
      ensures tabs == Some(old(tabs).GetOr([]) + [tab])
      ensures tab.tag == Some(DerivedTag(old(tab.tag), old(tab.title), old(tab.icon), tab.name))
      ensures tab.title == old(tab.title) && tab.icon == old(tab.icon) && tab.group == old(tab.group)
      ensures r == if hasView then Failure(GetViewError) else Success(())
      ensures isOpen == old(isOpen) && windowId == old(windowId) && hasView == old(hasView)
    {
      if tabs.None? {
        tabs := Some([]);
      }
      r := HandleAddTab(tab);
    }

    /** handleAddTab as written: writes the derived tag back when the tab has none and
        appends the tab; when the view exists it asks for the view through `getView`, which a
        window refuses, so the tab is never attached to the group. */
    method HandleAddTab(tab: Tab) returns (r: Result<()>)
      requires tabs.Some?
      modifies this, tab
      ensures tabs == Some(old(tabs.value) + [tab])
      ensures tab.tag == Some(DerivedTag(old(tab.tag), old(tab.title), old(tab.icon), tab.name))
      ensures tab.title == old(tab.title) && tab.icon == old(tab.icon) && tab.group == old(tab.group)
      ensures r == if hasView then Failure(GetViewError) else Success(())
      ensures isOpen == old(isOpen) && windowId == old(windowId) && hasView == old(hasView)
    {
      if tab.tag.None? {
        tab.tag := Some(DerivedTag(tab.tag, tab.title, tab.icon, tab.name));
      }
      tabs := Some(tabs.value + [tab]);
      r := Success(());
      if hasView {
        r := Failure(GetViewError);
      }
    }

    /** addTab with the view taken from `peekView`, so that a tab added to an open group is
        attached to it. */
    method AddTabAttaching(tab: Tab)
      modifies this, tab
      ensures tabs == Some(old(tabs).GetOr([]) + [tab])
      ensures tab.tag == Some(DerivedTag(old(tab.tag), old(tab.title), old(tab.icon), tab.name))
      ensures tab.title == old(tab.title) && tab.icon == old(tab.icon)
      ensures tab.group == if hasView then this else old(tab.group)
      ensures isOpen == old(isOpen) && windowId == old(windowId) && hasView == old(hasView)
    {
      if tabs.None? {
        tabs := Some([]);
      }
      HandleAddTabAttaching(tab);
    }

    /** handleAddTab with the view taken from `peekView`: the tab is appended and, when the
        view exists, attached to the group. */
    method HandleAddTabAttaching(tab: Tab)
      requires tabs.Some?
      modifies this, tab
      ensures tabs == Some(old(tabs.value) + [tab])
      ensures tab.tag == Some(DerivedTag(old(tab.tag), old(tab.title), old(tab.icon), tab.name))
      ensures tab.title == old(tab.title) && tab.icon == old(tab.icon)
      ensures tab.group == if hasView then this else old(tab.group)
      ensures isOpen == old(isOpen) && windowId == old(windowId) && hasView == old(hasView)
    {
      if tab.tag.None? {
        tab.tag := Some(DerivedTag(tab.tag, tab.title, tab.icon, tab.name));
      }
      tabs := Some(tabs.value + [tab]);
      if hasView {
        tab.group := this;
      }
    }

    /** Removing a tab does nothing. */
    method RemoveTab(tab: Tab)
      ensures tabs == old(tabs)
    {
    }

    /** The position of the first tab tagged `id`, or -1; fails before any add. */
    method IndexForId(id: Option<string>) returns (r: Result<int>)
      ensures tabs.None? ==> r == Failure(NullPointerException)
      ensures tabs.Some? ==> r == IndexForIdIn(TagsOf(tabs.value), id)
    {
      if tabs.None? {
        return Failure(NullPointerException);
      }
      r := SearchTags(TagsOf(tabs.value), id);
    }

    /** The focus event for a change of the selected tab from the tab tagged `from` to the
        one tagged `to`. */
    method BuildFocusEvent(to: Option<string>, from: Option<string>) returns (r: Result<FocusEvent>)
      ensures tabs.None? ==> r == Failure(NullPointerException)
      ensures tabs.Some? ==>
                var toIndex := IndexForIdIn(TagsOf(tabs.value), to);
                var fromIndex := IndexForIdIn(TagsOf(tabs.value), from);
                if toIndex.Failure? || fromIndex.Failure? then r == Failure(NullPointerException)
                else r.Success? && r.value.index == toIndex.value && r.value.previousIndex == fromIndex.value
                     && r.value.previousTab == (if fromIndex.value == -1 then Placeholder("no tab")
                                                else PreviousTabProxy(tabs.value[fromIndex.value]))
                     && r.value.tab == (if toIndex.value == -1 then None else Some(tabs.value[toIndex.value]))
    {
      var toIndex := IndexForId(to);
      if toIndex.Failure? {
        return Failure(toIndex.error);
      }
      var fromIndex := IndexForId(from);
      if fromIndex.Failure? {
        return Failure(fromIndex.error);
      }
      var ts := tabs.value;
      var previousTab := if fromIndex.value != -1 then PreviousTabProxy(ts[fromIndex.value]) else Placeholder("no tab");
      var tab := if toIndex.value != -1 then Some(ts[toIndex.value]) else None;
      r := Success(FocusEvent(toIndex.value, fromIndex.value, previousTab, tab));
    }

    /** releaseViews as written: detaches every tab, then clears the list outside the null
        check, so it fails on the null reference when no tab was ever added. */
    method ReleaseViewsAsWritten() returns (r: Result<()>)
      modifies this, TabSet()
      ensures old(tabs).None? ==> r == Failure(NullPointerException) && tabs == None
      ensures old(tabs).Some? ==> r == Success(()) && tabs == Some([])
      ensures forall t :: t in old(TabSet()) ==> t.group == null
      ensures forall t :: t in old(TabSet()) ==> t.tag == old(t.tag) && t.title == old(t.title) && t.icon == old(t.icon)
      ensures isOpen == old(isOpen) && windowId == old(windowId) && hasView == old(hasView)
    {
      if tabs.Some? {
        DetachAll(tabs.value);
      }
      if tabs.None? {
        return Failure(NullPointerException);
      }
      tabs := Some([]);
      r := Success(());
    }

    /** releaseViews with the clearing inside the null check: detaches every tab and
        empties the list; a group without tabs is left as it is. */
    method ReleaseViews()
      modifies this, TabSet()
      ensures tabs == if old(tabs).None? then None else Some([])
      ensures forall t :: t in old(TabSet()) ==> t.group == null
      ensures forall t :: t in old(TabSet()) ==> t.tag == old(t.tag) && t.title == old(t.title) && t.icon == old(t.icon)
      ensures isOpen == old(isOpen) && windowId == old(windowId) && hasView == old(hasView)
    {
      if tabs.Some? {
        DetachAll(tabs.value);
        tabs := Some([]);
      }
    }

    /** handlePostOpen as written: each tab is attached to the group, and then its window
        proxy is told about the group before the window is tested for null. The first tab
        without a window stops the loop with a NullPointerException, after being attached,
        and the group is not marked open. */
    method HandlePostOpenAsWritten() returns (r: Result<()>)
      modifies this, TabSet()
      ensures hasView && tabs == old(tabs) && windowId == old(windowId)
      ensures forall t :: t in old(TabSet()) ==> t.tag == old(t.tag) && t.title == old(t.title) && t.icon == old(t.icon)
      ensures tabs.None? || FirstWithoutWindow(tabs.value) == |tabs.value| ==>
                r == Success(()) && isOpen && forall t :: t in TabSet() ==> t.group == this
      ensures tabs.Some? && FirstWithoutWindow(tabs.value) < |tabs.value| ==>
                r == Failure(NullPointerException) && isOpen == old(isOpen)
                && (forall j :: 0 <= j <= FirstWithoutWindow(tabs.value) ==> tabs.value[j].group == this)
                && (forall t :: t in TabSet() && t !in tabs.value[..FirstWithoutWindow(tabs.value) + 1] ==>
                      t.group == old(t.group))
    {
      hasView := true;
      if tabs.Some? {
        var ts := tabs.value;
        var i := 0;
        while i < |ts|
          invariant 0 <= i <= |ts|
          invariant forall j :: 0 <= j < i ==> ts[j].hasWindow && ts[j].group == this
          invariant forall t :: t in ts && t !in ts[..i] ==> t.group == old(t.group)
          invariant forall t :: t in ts ==> t.tag == old(t.tag) && t.title == old(t.title) && t.icon == old(t.icon)
          invariant tabs == old(tabs) && hasView && windowId == old(windowId) && isOpen == old(isOpen)
        {
          ts[i].group := this;
          if !ts[i].hasWindow {
            assert ts[..i + 1] == ts[..i] + [ts[i]];
            r := Failure(NullPointerException);
            return;
          }
          assert ts[..i + 1] == ts[..i] + [ts[i]];
          i := i + 1;
        }
      }
      isOpen := true;
      r := Success(());
    }

    /** handlePostOpen with the window tested before it is used: every listed tab is attached
        to the group, with or without a window, and the group is marked open. */
    method HandlePostOpen()
      modifies this, TabSet()
      ensures isOpen && hasView
      ensures tabs == old(tabs) && windowId == old(windowId)
      ensures forall t :: t in TabSet() ==> t.group == this
      ensures forall t :: t in old(TabSet()) ==> t.tag == old(t.tag) && t.title == old(t.title) && t.icon == old(t.icon)
    {
      hasView := true;
      if tabs.Some? {
        var ts := tabs.value;
        var i := 0;
        while i < |ts|
          invariant 0 <= i <= |ts|
          invariant forall j :: 0 <= j < i ==> ts[j].group == this
          invariant forall t :: t in ts ==> t.tag == old(t.tag) && t.title == old(t.title) && t.icon == old(t.icon)
          invariant tabs == old(tabs) && hasView && windowId == old(windowId)
        {
          ts[i].group := this;
          i := i + 1;
        }
      }
      isOpen := true;
    }

    /** handleClose as written: when releasing the views fails, the window id, the view and
        the open flag keep their values. */
    method HandleCloseAsWritten() returns (r: Result<()>)
      modifies this, TabSet()
      ensures old(tabs).None? ==>
                r == Failure(NullPointerException) && isOpen == old(isOpen) && windowId == old(windowId)
                && hasView == old(hasView) && tabs == None
      ensures old(tabs).Some? ==> r.Success? && !isOpen && windowId.None? && !hasView && tabs == Some([])
      ensures forall t :: t in old(TabSet()) ==> t.group == null
      ensures forall t :: t in old(TabSet()) ==> t.tag == old(t.tag) && t.title == old(t.title) && t.icon == old(t.icon)
    {
      r := ReleaseViewsAsWritten();
      if r.Failure? {
        return;
      }
      windowId := None;
      hasView := false;
      isOpen := false;
    }

    /** Closes the group: releases the views, drops the window id and the view, and marks it
        closed. */
    method HandleClose()
      modifies this, TabSet()
      ensures !isOpen && windowId.None? && !hasView
      ensures tabs == if old(tabs).None? then None else Some([])
      ensures forall t :: t in old(TabSet()) ==> t.group == null
      ensures forall t :: t in old(TabSet()) ==> t.tag == old(t.tag) && t.title == old(t.title) && t.icon == old(t.icon)
    {
      ReleaseViews();
      windowId := None;
      hasView := false;
      isOpen := false;
    }
  }

  /** Moves a search result found in `tags[i..]` to a position in `tags`. */
  function ShiftIndex(r: Result<int>, i: nat): Result<int> {
    match r
    case Failure(e) => Failure(e)
    case Success(k) => Success(if k == -1 then -1 else k + i)
  }

  /** One step of the search: the tag at `i` fails, matches, or passes the search on. */
  lemma IndexForIdStep(tags: seq<Option<string>>, i: nat, id: Option<string>)
    requires i < |tags|
    ensures IndexForIdIn(tags[i..], id)
            == if tags[i].None? then Failure(NullPointerException)
               else if Some(tags[i].value) == id then Success(0)
               else ShiftIndex(IndexForIdIn(tags[i + 1..], id), 1)
  {
    assert tags[i..][1..] == tags[i + 1..];
  }

  /** Shifting by one and then by `i` shifts by `i + 1`. */
  lemma ShiftTwice(r: Result<int>, i: nat)
    requires r.Success? ==> r.value >= -1
    ensures ShiftIndex(ShiftIndex(r, 1), i) == ShiftIndex(r, i + 1)
  {
  }

  /** The loop of indexForId over the tabs' tags, in list order. */
  method SearchTags(tags: seq<Option<string>>, id: Option<string>) returns (r: Result<int>)
    ensures r == IndexForIdIn(tags, id)
  {
    var i := 0;
    while i < |tags|
      invariant 0 <= i <= |tags|
      invariant IndexForIdIn(tags, id) == ShiftIndex(IndexForIdIn(tags[i..], id), i)
    {
      IndexForIdStep(tags, i, id);
      ShiftTwice(IndexForIdIn(tags[i + 1..], id), i);
      var tag := tags[i];
      if tag.None? {
        return Failure(NullPointerException);
      }
      if Some(tag.value) == id {
        return Success(i);
      }
      i := i + 1;
    }
    assert tags[i..] == [];
    r := Success(-1);
  }

  /** Detaches every tab from its group. */
  method DetachAll(ts: seq<Tab>)
    modifies set t | t in ts
    ensures forall t :: t in ts ==> t.group == null
    ensures forall t :: t in ts ==> t.tag == old(t.tag) && t.title == old(t.title) && t.icon == old(t.icon)
  {
    var i := 0;
    while i < |ts|
      invariant 0 <= i <= |ts|
      invariant forall j :: 0 <= j < i ==> ts[j].group == null
      invariant forall t :: t in ts ==> t.tag == old(t.tag) && t.title == old(t.title) && t.icon == old(t.icon)
    {
      ts[i].group := null;
      i := i + 1;
    }
  }

  /** As written, closing a group that was isOpen before any tab was added fails and leaves
      the group marked open. */
  method CloseWithoutTabsLeavesOpen() returns (r: Result<()>, stillOpen: bool)
    ensures r == Failure(NullPointerException) && stillOpen
  {
    var g := new TabGroupProxy();
    var postOpen := g.HandlePostOpenAsWritten();
    r := g.HandleCloseAsWritten();
    stillOpen := g.isOpen;
  }

  /** With the clearing inside the null check, the same group closes. */
  method CloseWithoutTabsCloses() returns (stillOpen: bool)
    ensures !stillOpen
  {
    var g := new TabGroupProxy();
    g.HandlePostOpen();
    g.HandleClose();
    stillOpen := g.isOpen;
  }

  /** As written, a tab added to a group after it opened is listed but not attached, and the
      add fails in `getView`. */
  method AddAfterOpenFails() returns (r: Result<()>, listed: bool, attached: bool)
    ensures r == Failure(GetViewError) && listed && !attached
  {
    var g := new TabGroupProxy();
    var postOpen := g.HandlePostOpenAsWritten();
    var t := new Tab(Some("home"), None, None, "tab", true);
    r := g.AddTab(t);
    listed := g.tabs.Some? && t in g.tabs.value;
    attached := t.group == g;
  }

  /** With the view taken from `peekView`, the same tab is listed and attached. */
  method AddAfterOpenAttaches() returns (listed: bool, attached: bool)
    ensures listed && attached
  {
    var g := new TabGroupProxy();
    g.HandlePostOpen();
    var t := new Tab(Some("home"), None, None, "tab", true);
    g.AddTabAttaching(t);
    listed := g.tabs.Some? && t in g.tabs.value;
    attached := t.group == g;
  }

  /** As written, opening a group whose tab has no window fails with a NullPointerException:
      the tab is attached, but the group is not marked open. */
  method PostOpenWindowlessFails() returns (r: Result<()>, nowOpen: bool, attached: bool)
    ensures r == Failure(NullPointerException) && !nowOpen && attached
  {
    var g := new TabGroupProxy();
    var t := new Tab(Some("home"), None, None, "tab", false);
    var added := g.AddTab(t);
    r := g.HandlePostOpenAsWritten();
    nowOpen := g.isOpen;
    attached := t.group == g;
  }

  /** With the window tested first, the same group opens with its tab attached. */
  method PostOpenWindowlessOpens() returns (nowOpen: bool, attached: bool)
    ensures nowOpen && attached
  {
    var g := new TabGroupProxy();
    var t := new Tab(Some("home"), None, None, "tab", false);
    var added := g.AddTab(t);
    g.HandlePostOpen();
    nowOpen := g.isOpen;
    attached := t.group == g;
  }
}
