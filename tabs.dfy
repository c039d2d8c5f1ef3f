/** The tab strip: one active tab chosen by click, Enter or Space, and a
    focused tab moved by the arrow keys, Home and End over the enabled
    tabs, wrapping at both ends. */
module Tabs {
  import opened Seqs
  import opened Values

  datatype Tab = Tab(id: string, caption: string, disabled: bool)

  datatype Key = ArrowRight | ArrowDown | ArrowLeft | ArrowUp | Home | End | Enter | Space | OtherKey

  /** `tabs.findIndex(tab => tab.id === id)`: the first position holding
      `id`, or -1. */
  function IndexOfId(tabs: seq<Tab>, id: string): (r: int)
    ensures -1 <= r < |tabs|
    ensures r >= 0 ==> tabs[r].id == id
    ensures forall j :: 0 <= j < |tabs| && (r == -1 || j < r) ==> tabs[j].id != id
  {
    if tabs == [] then -1
    else if tabs[0].id == id then 0
    else var r := IndexOfId(tabs[1..], id); if r == -1 then -1 else r + 1
  }

  /** `tabs.find(tab => tab.id === id)`. */
  function FindTab(tabs: seq<Tab>, id: string): Option<Tab>
  {
    var i := IndexOfId(tabs, id);
    if i == -1 then None else Some(tabs[i])
  }

  function IsEnabled(): Tab -> bool
  {
    (t: Tab) => !t.disabled
  }

  /** `tabs.filter(tab => !tab.disabled)`: exactly the enabled tabs, in strip
      order. */
  function EnabledTabs(tabs: seq<Tab>): (r: seq<Tab>)
    ensures forall t :: t in r <==> t in tabs && !t.disabled
    ensures IsSubsequence(r, tabs)
  {
    FilterIsSubsequence(tabs, IsEnabled());
    forall t ensures t in Filter(tabs, IsEnabled()) <==> t in tabs && !t.disabled {
      FilterMembership(tabs, IsEnabled(), t);
    }
    Filter(tabs, IsEnabled())
  }

  /** `defaultActiveTab || tabs[0]?.id || ''`; an absent default is `""`. */
  function InitialActive(tabs: seq<Tab>, defaultActiveTab: string): (r: string)
    ensures defaultActiveTab != "" ==> r == defaultActiveTab
    ensures defaultActiveTab == "" && tabs != [] ==> r == tabs[0].id
    ensures defaultActiveTab == "" && tabs == [] ==> r == ""
  {
    if defaultActiveTab != "" then defaultActiveTab
    else if tabs != [] then tabs[0].id
    else ""
  }

  /** `handleTabClick` returns early for a tab that is found and disabled;
      an id no tab has is not blocked. */
  predicate ClickBlocked(tabs: seq<Tab>, id: string)
  {
    var t := FindTab(tabs, id);
    t.Some? && t.value.disabled
  }

  /** What `handleKeyDown` does: move focus to a tab, activate the tab
      under the click rules, nothing, or throw (reading `.id` of a missing
      element when no tab is enabled). */
  datatype KeyEffect = FocusOn(target: string) | Activate | NoEffect | Throws

  /** ArrowRight and ArrowDown: the next enabled tab, or the first one when
      the current tab is the last or not among the enabled ones. */
  function ForwardIndex(m: nat, i: int): (r: nat)
    requires -1 <= i < m && m > 0
    ensures r < m
  {
    if i < m - 1 then i + 1 else 0
  }

  /** ArrowLeft and ArrowUp: the previous enabled tab, or the last one when
      the current tab is the first or not among the enabled ones. */
  function BackwardIndex(m: nat, i: int): (r: nat)
    requires -1 <= i < m && m > 0
    ensures r < m
  {
    if i > 0 then i - 1 else m - 1
  }

  predicate IsNavigation(key: Key)
  {
    key != Enter && key != Space && key != OtherKey
  }

  /** The position among the `m` enabled tabs a navigation key moves the
      focus to, from enabled position `i` (-1 when not enabled). */
  function TargetIndex(key: Key, m: nat, i: int): (r: nat)
    requires IsNavigation(key) && m > 0 && -1 <= i < m
    ensures r < m
  {
    if key == ArrowRight || key == ArrowDown then ForwardIndex(m, i)
    else if key == ArrowLeft || key == ArrowUp then BackwardIndex(m, i)
    else if key == Home then 0
    else m - 1
  }

  /** What a key pressed on tab `tabId` does: Enter and Space activate,
      other non-navigation keys do nothing, and a navigation key throws
      exactly when no tab is enabled. */
  function KeyTarget(tabs: seq<Tab>, key: Key, tabId: string): (r: KeyEffect)
    ensures r == Activate <==> key == Enter || key == Space
    ensures r == NoEffect <==> key == OtherKey
    ensures r == Throws <==> IsNavigation(key) && EnabledTabs(tabs) == []
    ensures r.FocusOn? <==> IsNavigation(key) && EnabledTabs(tabs) != []
  {
    var enabled := EnabledTabs(tabs);
    var m := |enabled|;
    if IsNavigation(key) then
      if m == 0 then Throws
      else FocusOn(enabled[TargetIndex(key, m, IndexOfId(enabled, tabId))].id)
    else if key == OtherKey then NoEffect
    else Activate
  }

  /** Moving forward from an enabled position is `(k + 1) mod m`. */
  lemma ForwardWraps(m: nat, k: nat)
    requires k < m
    ensures ForwardIndex(m, k) == (k + 1) % m
  {
  }

  /** Moving backward from an enabled position is `(k - 1 + m) mod m`. */
  lemma BackwardWraps(m: nat, k: nat)
    requires k < m
    ensures BackwardIndex(m, k) == (k - 1 + m) % m
  {
    if k == 0 {
      assert (k - 1 + m) % m == m - 1;
    } else {
      assert (k - 1 + m) % m == k - 1;
    }
  }

  /** The id a tab is found by. */
  function TabKey(t: Tab): string
  {
    t.id
  }

  /** With unique ids, the position of the `k`-th tab's id is `k`. */
  lemma IndexOfUnique(ts: seq<Tab>, k: nat)
    requires DistinctKeys(ts, TabKey) && k < |ts|
    ensures IndexOfId(ts, ts[k].id) == k
  {
  }

  /** ArrowRight or ArrowDown on the `k`-th of `m` enabled tabs focuses
      enabled tab `(k + 1) mod m`. */
  lemma ArrowForward(tabs: seq<Tab>, key: Key, k: nat)
    requires key == ArrowRight || key == ArrowDown
    requires DistinctKeys(EnabledTabs(tabs), TabKey) && k < |EnabledTabs(tabs)|
    ensures var e := EnabledTabs(tabs);
            KeyTarget(tabs, key, e[k].id) == FocusOn(e[(k + 1) % |e|].id)
  {
    IndexOfUnique(EnabledTabs(tabs), k);
    ForwardWraps(|EnabledTabs(tabs)|, k);
  }

  /** ArrowLeft or ArrowUp on the `k`-th of `m` enabled tabs focuses
      enabled tab `(k - 1 + m) mod m`, so the first wraps to the last. */
  lemma ArrowBackward(tabs: seq<Tab>, key: Key, k: nat)
    requires key == ArrowLeft || key == ArrowUp
    requires DistinctKeys(EnabledTabs(tabs), TabKey) && k < |EnabledTabs(tabs)|
    ensures var e := EnabledTabs(tabs);
            KeyTarget(tabs, key, e[k].id) == FocusOn(e[(k - 1 + |e|) % |e|].id)
  {
    IndexOfUnique(EnabledTabs(tabs), k);
    BackwardWraps(|EnabledTabs(tabs)|, k);
  }

  /** Home and End focus the first and the last enabled tab, from any tab. */
  lemma HomeAndEnd(tabs: seq<Tab>, tabId: string)
    requires EnabledTabs(tabs) != []
    ensures KeyTarget(tabs, Home, tabId) == FocusOn(EnabledTabs(tabs)[0].id)
    ensures KeyTarget(tabs, End, tabId) == FocusOn(EnabledTabs(tabs)[|EnabledTabs(tabs)| - 1].id)
  {
  }

  /** From an enabled tab, Right then Left returns focus to the starting tab. */
  lemma RightThenLeft(tabs: seq<Tab>, k: nat)
    requires DistinctKeys(EnabledTabs(tabs), TabKey) && k < |EnabledTabs(tabs)|
    ensures var e := EnabledTabs(tabs);
            var next := KeyTarget(tabs, ArrowRight, e[k].id);
            next.FocusOn? && KeyTarget(tabs, ArrowLeft, next.target) == FocusOn(e[k].id)
  {
    var e := EnabledTabs(tabs);
    var m := |e|;
    ArrowForward(tabs, ArrowRight, k);
    var n := (k + 1) % m;
    ArrowBackward(tabs, ArrowLeft, n);
    if k + 1 < m {
      assert n == k + 1;
      assert (n - 1 + m) % m == k;
    } else {
      assert n == 0;
      assert (n - 1 + m) % m == k;
    }
  }

  /** Focus moves only onto enabled tabs. */
  lemma FocusTargetsEnabled(tabs: seq<Tab>, key: Key, tabId: string)
    requires KeyTarget(tabs, key, tabId).FocusOn?
    ensures exists j :: 0 <= j < |tabs| && tabs[j].id == KeyTarget(tabs, key, tabId).target && !tabs[j].disabled
  {
    var e := EnabledTabs(tabs);
    var p := TargetIndex(key, |e|, IndexOfId(e, tabId));
    FilterMembership(tabs, IsEnabled(), e[p]);
    var j :| 0 <= j < |tabs| && tabs[j] == e[p];
  }

  /** The effect on `[defaultActiveTab, tabs]` selects a non-empty default
      that names some tab. */
  predicate DefaultApplies(tabs: seq<Tab>, defaultActiveTab: string)
  {
    defaultActiveTab != "" && exists j :: 0 <= j < |tabs| && tabs[j].id == defaultActiveTab
  }

  /** The tab strip's state. */
  class TabList {
    var tabs: seq<Tab>
    var activeTab: string
    var focusedTab: Option<string>

    /** Mounting: the initial active tab, nothing focused yet. */
    constructor (tabs: seq<Tab>, defaultActiveTab: string)
      ensures this.tabs == tabs
      ensures activeTab == InitialActive(tabs, defaultActiveTab)
      ensures focusedTab == None
    {
      this.tabs := tabs;
      activeTab := InitialActive(tabs, defaultActiveTab);
      focusedTab := None;
    }

    /** New `tabs` or `defaultActiveTab` props: the effect selects the
        default only when some tab has that id. */
    method PropsChanged(newTabs: seq<Tab>, defaultActiveTab: string)
      modifies this
      ensures tabs == newTabs && focusedTab == old(focusedTab)
      ensures DefaultApplies(newTabs, defaultActiveTab) ==> activeTab == defaultActiveTab
      ensures !DefaultApplies(newTabs, defaultActiveTab) ==> activeTab == old(activeTab)
    {
      tabs := newTabs;
      if defaultActiveTab != "" && IndexOfId(tabs, defaultActiveTab) != -1 {
        activeTab := defaultActiveTab;
      }
    }

    /** `handleTabClick`: a disabled tab changes nothing and fires nothing;
        otherwise the tab becomes active and `onTabChange(id)` fires. */
    method Click(tabId: string) returns (changed: Option<string>)
      modifies this`activeTab
      ensures ClickBlocked(tabs, tabId) ==> activeTab == old(activeTab) && changed == None
      ensures !ClickBlocked(tabs, tabId) ==> activeTab == tabId && changed == Some(tabId)
    {
      if ClickBlocked(tabs, tabId) {
        changed := None;
        return;
      }
      activeTab := tabId;
      changed := Some(tabId);
    }

    /** `handleKeyDown`: navigation keys move only the focus (a target with
        an empty id is ignored), Enter and Space click the tab, a thrown
        error leaves the state as it was. */
    method KeyDown(key: Key, tabId: string) returns (changed: Option<string>, threw: bool)
      modifies this`activeTab, this`focusedTab
      ensures threw <==> KeyTarget(tabs, key, tabId) == Throws
      ensures KeyTarget(tabs, key, tabId) != Activate ==> activeTab == old(activeTab) && changed == None
      ensures KeyTarget(tabs, key, tabId) == Activate ==>
                focusedTab == old(focusedTab) &&
                (ClickBlocked(tabs, tabId) ==> activeTab == old(activeTab) && changed == None) &&
                (!ClickBlocked(tabs, tabId) ==> activeTab == tabId && changed == Some(tabId))
      ensures match KeyTarget(tabs, key, tabId)
              case FocusOn(t) => focusedTab == (if t != "" then Some(t) else old(focusedTab))
              case _ => focusedTab == old(focusedTab)
    {
      changed, threw := None, false;
      match KeyTarget(tabs, key, tabId)
      case FocusOn(t) =>
        if t != "" {
          focusedTab := Some(t);
        }
      case Activate =>
        changed := Click(tabId);
      case NoEffect =>
      case Throws =>
        threw := true;
    }

    method Focus(tabId: string)
      modifies this`focusedTab
      ensures focusedTab == Some(tabId)
    {
      focusedTab := Some(tabId);
    }

    method Blur()
      modifies this`focusedTab
      ensures focusedTab == None
    {
      focusedTab := None;
    }
  }
}
