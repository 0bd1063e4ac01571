/** Excel tool permissions: the capability mode, per-tool switches and group toggles
    that decide which tools are offered. */
module ToolPermissions {

  datatype Mode = Read | Write | All

  type SideEffect = string

  function Rank(mode: Mode): nat {
    match mode case Read => 0 case Write => 1 case All => 2
  }

  predicate AllowedByMode(mode: Mode, effect: SideEffect) {
    match mode
    case Read => effect == "read"
    case Write => effect != "destructive"
    case All => true
  }

  // The fixed tables of the add-in and what the host supports. A tool without metadata
  // counts as reading.
  datatype Catalog = Catalog(available: seq<string>, supported: set<string>, effects: map<string, SideEffect>)
  {
    predicate Offers(tool: string) {
      tool in available && tool in supported
    }

    function Effect(tool: string): SideEffect {
      if tool in effects then effects[tool] else "read"
    }
  }

  datatype Settings = Settings(mode: Mode, permissions: map<string, bool>)
  {
    // Anything but an explicit false is enabled.
    predicate Enables(tool: string) {
      tool in permissions ==> permissions[tool]
    }
  }

  predicate Effective(c: Catalog, s: Settings, tool: string) {
    c.Offers(tool) && s.Enables(tool) && AllowedByMode(s.mode, c.Effect(tool))
  }

  // Every offered tool of the group is allowed by the mode.
  predicate Suffices(c: Catalog, tools: seq<string>, mode: Mode) {
    forall tool :: tool in tools && c.Offers(tool) ==> AllowedByMode(mode, c.Effect(tool))
  }

  function LeastPermissiveModeForTools(c: Catalog, tools: seq<string>, current: Mode): (mode: Mode)
  {
    if Suffices(c, tools, current) then current
    else if exists tool :: tool in tools && c.Offers(tool) && c.Effect(tool) == "destructive" then All
    else Write
  }

  // The mode chosen is the least one, at or above the current one, that suffices.
  lemma ModeIsLeast(c: Catalog, tools: seq<string>, current: Mode, other: Mode)
    ensures var mode := LeastPermissiveModeForTools(c, tools, current);
            && Suffices(c, tools, mode) && Rank(mode) >= Rank(current)
            && (Suffices(c, tools, other) && Rank(other) >= Rank(current) ==> Rank(mode) <= Rank(other))
  {}

  // ---------------------------------------------------------------- the task pane

  // The permissions after a group was switched, under the mode that then holds.
  function Switched(c: Catalog, s: Settings, tools: seq<string>, enabled: bool): Settings {
    var switched := set tool | tool in tools && c.Offers(tool) && AllowedByMode(s.mode, c.Effect(tool));
    s.(permissions := map tool | tool in s.permissions.Keys + switched ::
         if tool in switched then enabled else s.permissions[tool])
  }

  function GroupSwitched(c: Catalog, s: Settings, tools: seq<string>, enabled: bool): Settings {
    Switched(c, if enabled then s.(mode := LeastPermissiveModeForTools(c, tools, s.mode)) else s, tools, enabled)
  }

  lemma SwitchedNone(c: Catalog, s: Settings, enabled: bool)
    ensures Switched(c, s, [], enabled) == s
  {
    assert Switched(c, s, [], enabled).permissions == s.permissions;
  }

  lemma SwitchedMore(c: Catalog, s: Settings, tools: seq<string>, tool: string, enabled: bool)
    ensures var before := Switched(c, s, tools, enabled);
            Switched(c, s, tools + [tool], enabled) ==
            if c.Offers(tool) && AllowedByMode(s.mode, c.Effect(tool)) then
              before.(permissions := before.permissions[tool := enabled])
            else before
  {
    var before, after := Switched(c, s, tools, enabled), Switched(c, s, tools + [tool], enabled);
    if c.Offers(tool) && AllowedByMode(s.mode, c.Effect(tool)) {
      assert after.permissions == before.permissions[tool := enabled];
    } else {
      assert after.permissions == before.permissions;
    }
  }

  class Taskpane {
    const catalog: Catalog
    const groups: map<string, seq<string>>
    var toolPermissions: map<string, bool>
    var toolPermissionMode: Mode

    function View(): Settings
      reads this
    {
      Settings(toolPermissionMode, toolPermissions)
    }

    constructor (catalog: Catalog, groups: map<string, seq<string>>, settings: Settings)
      ensures this.catalog == catalog && this.groups == groups && View() == settings
    {
      this.catalog, this.groups := catalog, groups;
      toolPermissions, toolPermissionMode := settings.permissions, settings.mode;
    }

    method HandleToolPermissionChange(tool: string, checked: bool)
      modifies this`toolPermissions
      ensures View() == if tool == "" then old(View())
                        else old(View()).(permissions := old(View()).permissions[tool := checked])
    {
      if tool == "" { return; }
      toolPermissions := toolPermissions[tool := checked];
    }

    method HandleToolModeChange(mode: Mode)
      modifies this`toolPermissionMode
      ensures View() == old(View()).(mode := mode)
    {
      if mode == toolPermissionMode { return; }
      toolPermissionMode := mode;
    }

    method HandleToolGroupPermissionChange(group: string, enabled: bool)
      modifies this
      ensures View() == if group in groups then GroupSwitched(catalog, old(View()), groups[group], enabled)
              else old(View())
    {
      if group !in groups { return; }
      var tools := groups[group];
      if enabled { toolPermissionMode := LeastPermissiveModeForTools(catalog, tools, toolPermissionMode); }
      ghost var before := View();
      SwitchedNone(catalog, before, enabled);
      for i := 0 to |tools|
        invariant toolPermissionMode == before.mode
        invariant View() == Switched(catalog, before, tools[..i], enabled)
      {
        var tool := tools[i];
        assert tools[..i + 1] == tools[..i] + [tool];
        SwitchedMore(catalog, before, tools[..i], tool, enabled);
        if catalog.Offers(tool) && AllowedByMode(toolPermissionMode, catalog.Effect(tool)) {
          toolPermissions := toolPermissions[tool := enabled];
        }
      }
      assert tools[..|tools|] == tools;
    }

    method EffectiveTools() returns (tools: seq<string>)
      ensures tools == Filtered(catalog, View(), catalog.available)
    {
      tools := [];
      for i := 0 to |catalog.available|
        invariant tools == Filtered(catalog, View(), catalog.available[..i])
      {
        var tool := catalog.available[i];
        assert catalog.available[..i + 1][..i] == catalog.available[..i];
        if Effective(catalog, View(), tool) { tools := tools + [tool]; }
      }
      assert catalog.available[..|catalog.available|] == catalog.available;
    }
  }

  // The effective tools among tools, in their order.
  function Filtered(c: Catalog, s: Settings, tools: seq<string>): seq<string> {
    if tools == [] then []
    else Filtered(c, s, tools[..|tools| - 1]) + if Effective(c, s, tools[|tools| - 1]) then [tools[|tools| - 1]] else []
  }

  lemma {:induction false} FilteredExactly(c: Catalog, s: Settings, tools: seq<string>, tool: string)
    ensures tool in Filtered(c, s, tools) <==> tool in tools && Effective(c, s, tool)
  {
    if tools != [] {
      FilteredExactly(c, s, tools[..|tools| - 1], tool);
      assert tools == tools[..|tools| - 1] + [tools[|tools| - 1]];
    }
  }

  // The tools are listed in the order given, as often as they are given.
  lemma {:induction false} FilteredInOrder(c: Catalog, s: Settings, tools: seq<string>, more: seq<string>)
    ensures Filtered(c, s, tools + more) == Filtered(c, s, tools) + Filtered(c, s, more)
    ensures |more| == 1 ==> Filtered(c, s, more) == if Effective(c, s, more[0]) then more else []
  {
    if more == [] {
      assert tools + more == tools;
    } else {
      var n := |more| - 1;
      assert (tools + more)[..|tools| + n] == tools + more[..n];
      FilteredInOrder(c, s, tools, more[..n]);
      assert n == 0 ==> more == [more[0]];
    }
  }

  // What is effective in each mode: a tool the host offers, unless it is switched off, and
  // in read mode only if it is known to read or nothing is known of it, in write mode only
  // if it is not known to destroy.
  lemma EffectiveExactly(c: Catalog, s: Settings, tool: string)
    ensures Effective(c, s, tool) <==>
            && tool in c.available && tool in c.supported
            && !(tool in s.permissions && s.permissions[tool] == false)
            && (s.mode == Read && tool in c.effects ==> c.effects[tool] == "read")
            && (s.mode == Write && tool in c.effects ==> c.effects[tool] != "destructive")
  {}

  // ---------------------------------------------------------------- what a toggle does

  lemma RaisingKeepsTools(mode: Mode, more: Mode, effect: SideEffect)
    requires Rank(mode) <= Rank(more) && AllowedByMode(mode, effect)
    ensures AllowedByMode(more, effect)
  {}

  // Enabling a group makes all it offers effective and takes nothing away. Outside the
  // group it adds exactly the enabled tools that the raised mode now allows.
  lemma EnablingExactly(c: Catalog, s: Settings, tools: seq<string>, tool: string)
    ensures var after := GroupSwitched(c, s, tools, true);
            && (Effective(c, after, tool) <==>
                  c.Offers(tool) && (tool in tools || (s.Enables(tool) && AllowedByMode(after.mode, c.Effect(tool)))))
            && (Effective(c, s, tool) ==> Effective(c, after, tool))
  {
    var after := GroupSwitched(c, s, tools, true);
    ModeIsLeast(c, tools, s.mode, s.mode);
    if AllowedByMode(s.mode, c.Effect(tool)) { RaisingKeepsTools(s.mode, after.mode, c.Effect(tool)); }
  }

  // Disabling a group leaves none of it effective and changes nothing else.
  lemma DisablingExactly(c: Catalog, s: Settings, tools: seq<string>, tool: string)
    ensures Effective(c, GroupSwitched(c, s, tools, false), tool) <==> Effective(c, s, tool) && tool !in tools
    ensures GroupSwitched(c, s, tools, false).mode == s.mode
    ensures tool !in tools ==> (GroupSwitched(c, s, tools, false).Enables(tool) <==> s.Enables(tool))
  {}

  // A tool the mode did not allow is not switched off with its group: it comes back
  // when the mode is raised.
  lemma DisabledToolsComeBackExactly(c: Catalog, s: Settings, tools: seq<string>, tool: string, mode: Mode)
    requires tool in tools && Rank(mode) >= Rank(s.mode)
    ensures Effective(c, GroupSwitched(c, s, tools, false).(mode := mode), tool) <==>
            c.Offers(tool) && s.Enables(tool) && !AllowedByMode(s.mode, c.Effect(tool))
            && AllowedByMode(mode, c.Effect(tool))
  {
    if AllowedByMode(s.mode, c.Effect(tool)) { RaisingKeepsTools(s.mode, mode, c.Effect(tool)); }
  }
}
