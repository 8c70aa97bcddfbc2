/**
 Tab groups (the click handler that `initTabs` attaches to each tab in
 dist/js/main.js).

 The active class names are whatever `initTabs` was configured with or
 inferred; the model keeps, per element, only whether it carries that
 class. A tab is one of the elements that `tabSelector` matched. The panel
 list holds, in document order, every element of the container that either
 matches `panelSelector` (`listed`) or carries a `data-panel` attribute:
 the handler clears the listed panels but looks the target up by
 attribute, so the two sets can differ.
 */
module Tabs {
  import opened Dom

  datatype Tab = Tab(key: string, active: bool)
  datatype Panel = Panel(key: string, listed: bool, active: bool)

  /** `container.querySelector('[data-panel="key"]')`. */
  function FindPanel(ps: seq<Panel>, key: string): (r: Option<nat>)
    ensures r.Some? ==> r.value < |ps| && ps[r.value].key == key
    ensures r.Some? ==> forall j :: 0 <= j < r.value ==> ps[j].key != key
    ensures r.None? <==> forall j :: 0 <= j < |ps| ==> ps[j].key != key
  {
    FirstWhere(ps, (p: Panel) => p.key == key)
  }

  /** The tab list after a click on tab `t`: with a `data-tab` value, every
      tab loses the active class and tab `t` gets it; without one, nothing
      changes. */
  function ClickedTabs(ts: seq<Tab>, t: nat): (r: seq<Tab>)
    requires t < |ts|
    ensures |r| == |ts|
    ensures ts[t].key == "" ==> r == ts
    ensures ts[t].key != "" ==> forall j :: 0 <= j < |r| ==> r[j].key == ts[j].key && (r[j].active <==> j == t)
  {
    if ts[t].key == "" then ts
    else seq(|ts|, j requires 0 <= j < |ts| => ts[j].(active := j == t))
  }

  /** The panel list after a click on a tab with key `key`: every listed
      panel loses the active class, then the first element whose
      `data-panel` equals the key gets it. */
  function ShownPanels(ps: seq<Panel>, key: string): (r: seq<Panel>)
    ensures |r| == |ps|
    ensures forall j :: 0 <= j < |r| ==> r[j].key == ps[j].key && r[j].listed == ps[j].listed
    ensures key == "" ==> r == ps
    ensures key != "" ==> forall j :: 0 <= j < |r| ==>
              (r[j].active <==> FindPanel(ps, key) == Some(j) || (ps[j].active && !ps[j].listed))
  {
    if key == "" then ps
    else
      var cleared := seq(|ps|, j requires 0 <= j < |ps| => ps[j].(active := ps[j].active && !ps[j].listed));
      match FindPanel(ps, key)
      case None => cleared
      case Some(k) => cleared[k := cleared[k].(active := true)]
  }

  /** Markup in which every element that carries `data-panel` or the active
      class is one of the listed panels. */
  predicate WellFormed(ps: seq<Panel>) {
    forall j :: 0 <= j < |ps| ==> (ps[j].key != "" ==> ps[j].listed) && (ps[j].active ==> ps[j].listed)
  }

  /** On well-formed markup, after a click on a tab with a key, the active
      panels are exactly the first panel whose key is the tab's key (none
      if no panel carries it), and that panel's key is the key of the one
      active tab. */
  lemma ClickShowsMatchingPanel(ts: seq<Tab>, ps: seq<Panel>, t: nat)
    requires t < |ts| && ts[t].key != ""
    requires WellFormed(ps)
    ensures WellFormed(ShownPanels(ps, ts[t].key))
    ensures forall j :: 0 <= j < |ps| ==> (ShownPanels(ps, ts[t].key)[j].active <==> FindPanel(ps, ts[t].key) == Some(j))
    ensures forall j :: 0 <= j < |ps| && ShownPanels(ps, ts[t].key)[j].active ==>
              && ShownPanels(ps, ts[t].key)[j].key == ts[t].key
              && (forall i :: 0 <= i < j ==> ps[i].key != ts[t].key)
    ensures forall i, j ::
              0 <= i < |ps| && 0 <= j < |ps| && ShownPanels(ps, ts[t].key)[i].active && ShownPanels(ps, ts[t].key)[j].active
              ==> i == j
  {
  }

  /** Clicking the same tab twice is the same as clicking it once. */
  lemma ClickIdempotent(ts: seq<Tab>, ps: seq<Panel>, t: nat)
    requires t < |ts|
    ensures ClickedTabs(ClickedTabs(ts, t), t) == ClickedTabs(ts, t)
    ensures ShownPanels(ShownPanels(ps, ts[t].key), ts[t].key) == ShownPanels(ps, ts[t].key)
  {
  }

  /** One tab group: its tabs and the panels of its container. */
  class TabGroup {
    const tabs: array<Tab>
    const panels: array<Panel>

    constructor (ts: seq<Tab>, ps: seq<Panel>)
      ensures fresh(tabs) && fresh(panels) && tabs[..] == ts && panels[..] == ps
    {
      tabs := new Tab[|ts|](i requires 0 <= i < |ts| => ts[i]);
      panels := new Panel[|ps|](i requires 0 <= i < |ps| => ps[i]);
    }

    /** The click handler of tab `t`. */
    method Click(t: nat)
      requires t < tabs.Length
      modifies tabs, panels
      ensures tabs[..] == ClickedTabs(old(tabs[..]), t)
      ensures panels[..] == ShownPanels(old(panels[..]), old(tabs[t].key))
    {
      var key := tabs[t].key;
      if key == "" {
        return;
      }
      ghost var ts := tabs[..];
      var i := 0;
      while i < tabs.Length
        modifies tabs
        invariant 0 <= i <= tabs.Length
        invariant forall j :: 0 <= j < i ==> tabs[j] == ts[j].(active := false)
        invariant forall j :: i <= j < tabs.Length ==> tabs[j] == ts[j]
      {
        tabs[i] := tabs[i].(active := false);
        i := i + 1;
      }
      tabs[t] := tabs[t].(active := true);
      assert tabs[..] == ClickedTabs(ts, t);
      ShowPanelsFor(key);
    }

    /** The panel half of the click handler: clear every listed panel, then
        activate the first element whose `data-panel` is `key`. */
    method ShowPanelsFor(key: string)
      requires key != ""
      modifies panels
      ensures panels[..] == ShownPanels(old(panels[..]), key)
    {
      ghost var ps := panels[..];
      var i := 0;
      while i < panels.Length
        invariant 0 <= i <= panels.Length
        invariant forall j :: 0 <= j < i ==> panels[j] == ps[j].(active := ps[j].active && !ps[j].listed)
        invariant forall j :: i <= j < panels.Length ==> panels[j] == ps[j]
      {
        if panels[i].listed {
          panels[i] := panels[i].(active := false);
        }
        i := i + 1;
      }
      ghost var cleared := panels[..];
      assert forall j :: 0 <= j < |cleared| ==> cleared[j].key == ps[j].key;
      var target := FindPanel(panels[..], key);
      FirstWhereAgrees(cleared, (p: Panel) => p.key == key, ps, (p: Panel) => p.key == key);
      assert target == FindPanel(ps, key);
      if target.Some? {
        panels[target.value] := panels[target.value].(active := true);
      }
      assert panels[..] == ShownPanels(ps, key);
    }
  }
}
