/**
 * The stateful part of extension.js: the palette icon lookup, the tab
 * aggregation of `scanAllOpenTabs` into `openTabsInfo`, and the two-field
 * selection guard of `changeWorkspaceColor` with the reset that an
 * active-editor change performs.
 */
module Extension {
  import opened Wrappers
  import opened PathResolver

  /** An entry of `COLOR_PALETTE`. */
  datatype PaletteColor = PaletteColor(name: string, color: string, icon: string)

  /** `COLOR_PALETTE`, in order. The icon of Café is modelled as the two replacement characters the file holds. */
  const ColorPalette: seq<PaletteColor> := [
    PaletteColor("Rojo", "#dc3545", "\U{1F534}"),
    PaletteColor("Azul", "#007acc", "\U{1F535}"),
    PaletteColor("Verde", "#28a745", "\U{1F7E2}"),
    PaletteColor("Naranja", "#fd7e14", "\U{1F7E0}"),
    PaletteColor("Amarillo", "#ffc107", "\U{1F7E1}"),
    PaletteColor("Morado", "#9c27b0", "\U{1F49C}"),
    PaletteColor("Caf\U{E9}", "#795548", "\U{FFFD}\U{FFFD}"),
    PaletteColor("Negro", "#343a40", "\U{26AB}"),
    PaletteColor("Personalizado...", "custom", "\U{1F3A8}")
  ]

  /** The fallback icon `'📁'`. */
  const DefaultIcon: string := "\U{1F4C1}"

  /** `DEFAULT_FOLDERS`, the table used when none is configured, in iteration order. */
  const DefaultFolders: seq<FolderInfo> := [
    FolderInfo("frontend", "#dc3545"),
    FolderInfo("backend", "#007acc"),
    FolderInfo("api", "#28a745")
  ]

  /** `palette.find(c => c.color === color)`. */
  function FindColor(palette: seq<PaletteColor>, color: string): (r: Option<PaletteColor>)
    ensures r.None? <==> forall i :: 0 <= i < |palette| ==> palette[i].color != color
    ensures r.Some? ==> exists i :: (0 <= i < |palette| && r.value == palette[i] && palette[i].color == color
      && forall j :: 0 <= j < i ==> palette[j].color != color)
  {
    if palette == [] then None
    else if palette[0].color == color then Some(palette[0])
    else
      var r := FindColor(palette[1..], color);
      assert r.Some? ==> exists i :: (1 <= i < |palette| && r.value == palette[i] && palette[i].color == color
        && forall j :: 0 <= j < i ==> palette[j].color != color);
      r
  }

  /** `COLOR_PALETTE.find(c => c.color === color)?.icon || '📁'`. */
  function PaletteIcon(color: string): string {
    match FindColor(ColorPalette, color)
    case Some(entry) => if entry.icon != "" then entry.icon else DefaultIcon
    case None => DefaultIcon
  }

  /**
   * A colour string-equal to a palette colour gets that entry's icon; any
   * other colour, including one differing only in letter case, gets the
   * folder icon, which no palette entry uses.
   */
  lemma PaletteIconSpec(color: string)
    ensures forall i :: 0 <= i < |ColorPalette| && ColorPalette[i].color == color ==> PaletteIcon(color) == ColorPalette[i].icon
    ensures PaletteIcon(color) == DefaultIcon <==> forall i :: 0 <= i < |ColorPalette| ==> ColorPalette[i].color != color
  {
    var palette := ColorPalette;
    assert forall i, j :: 0 <= i < j < |palette| ==> palette[i].color != palette[j].color;
    assert forall i :: 0 <= i < |palette| ==> palette[i].icon != "" && palette[i].icon != DefaultIcon;
  }

  /** The record `openTabsInfo` keeps per folder. */
  datatype TabInfo = TabInfo(color: string, count: nat, icon: string)

  /** All tabs of all groups, group by group. */
  function Flatten(groups: seq<seq<Option<string>>>): seq<Option<string>> {
    if groups == [] then [] else Flatten(groups[..|groups| - 1]) + groups[|groups| - 1]
  }

  /** The folder of one tab: `tab.input?.uri` present and its path resolved. */
  function TabFolder(tab: Option<string>, table: seq<FolderInfo>): Option<FolderInfo> {
    if tab.Some? then Resolve(tab.value, table) else None
  }

  /** The folders the tabs resolve to, in tab order: tabs without a path or without a match are skipped. */
  function Resolved(tabs: seq<Option<string>>, table: seq<FolderInfo>): seq<FolderInfo> {
    if tabs == [] then []
    else
      var folder := TabFolder(tabs[|tabs| - 1], table);
      Resolved(tabs[..|tabs| - 1], table) + if folder.Some? then [folder.value] else []
  }

  /** One pass of the inner loop body: create the record with count 0 if absent, then `count++`. */
  function Record(m: map<string, TabInfo>, info: FolderInfo): map<string, TabInfo> {
    var m' := if info.name in m then m else m[info.name := TabInfo(info.color, 0, PaletteIcon(info.color))];
    m'[info.name := m'[info.name].(count := m'[info.name].count + 1)]
  }

  /** `openTabsInfo` after a cleared map has recorded infos in order. */
  function Tally(infos: seq<FolderInfo>): map<string, TabInfo> {
    if infos == [] then map[] else Record(Tally(infos[..|infos| - 1]), infos[|infos| - 1])
  }

  /** How many infos carry the given name. */
  function CountName(infos: seq<FolderInfo>, name: string): nat {
    if infos == [] then 0
    else CountName(infos[..|infos| - 1], name) + if infos[|infos| - 1].name == name then 1 else 0
  }

  /** How many tabs have a path that resolves to a folder of the given name. */
  function TabsIn(tabs: seq<Option<string>>, table: seq<FolderInfo>, name: string): nat {
    if tabs == [] then 0
    else
      var folder := TabFolder(tabs[|tabs| - 1], table);
      TabsIn(tabs[..|tabs| - 1], table, name) + if folder.Some? && folder.value.name == name then 1 else 0
  }

  /** A folder is among the resolved ones exactly when some tab with a path resolves to it. */
  lemma {:induction false} ResolvedSpec(tabs: seq<Option<string>>, table: seq<FolderInfo>, info: FolderInfo)
    ensures info in Resolved(tabs, table) <==>
      exists i :: 0 <= i < |tabs| && TabFolder(tabs[i], table) == Some(info)
  {
    if tabs != [] {
      var init := tabs[..|tabs| - 1];
      ResolvedSpec(init, table, info);
      assert forall i :: 0 <= i < |init| ==> init[i] == tabs[i];
    }
  }

  /** Counting resolved folders by name counts the tabs resolving to that name. */
  lemma {:induction false} CountResolved(tabs: seq<Option<string>>, table: seq<FolderInfo>, name: string)
    ensures CountName(Resolved(tabs, table), name) == TabsIn(tabs, table, name)
  {
    if tabs != [] {
      var init := tabs[..|tabs| - 1];
      CountResolved(init, table, name);
      CountNameConcat(Resolved(init, table), Resolved(tabs, table)[|Resolved(init, table)|..], name);
    }
  }

  lemma {:induction false} CountNameConcat(a: seq<FolderInfo>, b: seq<FolderInfo>, name: string)
    ensures CountName(a + b, name) == CountName(a, name) + CountName(b, name)
    decreases |b|
  {
    if b == [] {
      assert a + b == a;
    } else {
      var init := b[..|b| - 1];
      CountNameConcat(a, init, name);
      assert (a + b)[..|a + b| - 1] == a + init;
    }
  }

  /**
   * After recording infos into a cleared map: the keys are exactly the
   * recorded names, each count is the number of infos with that name (so at
   * least 1), and colour and icon come from the first info with that name.
   */
  lemma {:induction false} TallySpec(infos: seq<FolderInfo>, name: string)
    ensures name in Tally(infos) <==> exists i :: 0 <= i < |infos| && infos[i].name == name
    ensures name in Tally(infos) ==> Tally(infos)[name].count == CountName(infos, name) >= 1
    ensures name !in Tally(infos) ==> CountName(infos, name) == 0
    ensures name in Tally(infos) ==> exists i :: (0 <= i < |infos| && infos[i].name == name
      && (forall j :: 0 <= j < i ==> infos[j].name != name)
      && Tally(infos)[name].color == infos[i].color && Tally(infos)[name].icon == PaletteIcon(infos[i].color))
  {
    if infos != [] {
      var init := infos[..|infos| - 1];
      TallySpec(init, name);
      assert forall i :: 0 <= i < |init| ==> init[i] == infos[i];
    }
  }

  /** After a scan, a name is a key exactly when some tab with a path resolves to a folder of that name. */
  lemma ScanKeys(tabs: seq<Option<string>>, table: seq<FolderInfo>, name: string)
    ensures name in Tally(Resolved(tabs, table)) <==>
      exists i :: 0 <= i < |tabs| && TabFolder(tabs[i], table).Some? && TabFolder(tabs[i], table).value.name == name
  {
    var infos := Resolved(tabs, table);
    TallySpec(infos, name);
    if i :| 0 <= i < |tabs| && TabFolder(tabs[i], table).Some? && TabFolder(tabs[i], table).value.name == name {
      ResolvedSpec(tabs, table, TabFolder(tabs[i], table).value);
    }
    if k :| 0 <= k < |infos| && infos[k].name == name {
      ResolvedSpec(tabs, table, infos[k]);
    }
  }

  /** After a scan, each count is the number of tabs resolving to that folder, never zero. */
  lemma ScanCounts(tabs: seq<Option<string>>, table: seq<FolderInfo>, name: string)
    requires name in Tally(Resolved(tabs, table))
    ensures Tally(Resolved(tabs, table))[name].count == TabsIn(tabs, table, name) >= 1
  {
    TallySpec(Resolved(tabs, table), name);
    CountResolved(tabs, table, name);
  }

  /** After a scan, each record carries the table's colour for its name and that colour's palette icon. */
  lemma ScanColorIcon(tabs: seq<Option<string>>, table: seq<FolderInfo>, name: string)
    requires name in Tally(Resolved(tabs, table))
    ensures exists j :: 0 <= j < |table| && table[j] == FolderInfo(name, Tally(Resolved(tabs, table))[name].color)
    ensures Tally(Resolved(tabs, table))[name].icon == PaletteIcon(Tally(Resolved(tabs, table))[name].color)
  {
    var infos := Resolved(tabs, table);
    TallySpec(infos, name);
    var k :| 0 <= k < |infos| && infos[k].name == name && Tally(infos)[name].color == infos[k].color
      && Tally(infos)[name].icon == PaletteIcon(infos[k].color);
    ResolvedSpec(tabs, table, infos[k]);
    var i :| 0 <= i < |tabs| && TabFolder(tabs[i], table) == Some(infos[k]);
    assert Resolve(tabs[i].value, table) == Some(infos[k]);
  }

  /** Icon lookup compares colour strings exactly. */
  lemma RedIcon(color: string)
    requires color == "#dc3545"
    ensures PaletteIcon(color) == "\U{1F534}"
  {
    PaletteIconSpec(color);
    assert ColorPalette[0].color == color;
  }

  /** The upper-case spelling of a palette colour is not a palette colour. */
  lemma UpperCaseRedIcon(color: string)
    requires color == "#DC3545"
    ensures PaletteIcon(color) == DefaultIcon
  {
    PaletteIconSpec(color);
  }

  /** The palette's `custom` sentinel is looked up like any colour. */
  lemma CustomSentinelIcon(color: string)
    requires color == "custom"
    ensures PaletteIcon(color) == "\U{1F3A8}"
  {
    PaletteIconSpec(color);
    assert ColorPalette[8].color == color;
  }

  /**
   * With the default table, the Linux test path holds both `/backend/` and
   * `/api/`; the entry earlier in table order wins.
   */
  lemma DefaultTableFirstMatch(path: string)
    requires path == "/home/user/backend/api/main.py"
    ensures InFolder(path, "api")
    ensures Resolve(path, DefaultFolders) == Some(FolderInfo("backend", "#007acc"))
  {
    LinuxPathMissesFrontend(path);
    LinuxPathMatchesBackend(path);
    LinuxPathMatchesApi(path);
    ResolveAt(path, DefaultFolders, 1);
  }

  /** One more tab: its folder, if any, is recorded on top of the earlier tally. */
  lemma TallyTab(tabs: seq<Option<string>>, tab: Option<string>, table: seq<FolderInfo>)
    ensures var folder := TabFolder(tab, table);
      Tally(Resolved(tabs + [tab], table))
      == if folder.Some? then Record(Tally(Resolved(tabs, table)), folder.value) else Tally(Resolved(tabs, table))
  {
    var longer := tabs + [tab];
    assert longer[..|longer| - 1] == tabs;
    var infos := Resolved(longer, table);
    if TabFolder(tab, table).Some? {
      assert infos[..|infos| - 1] == Resolved(tabs, table);
    } else {
      assert infos == Resolved(tabs, table);
    }
  }

  /** One more group: its tabs come after all earlier ones. */
  lemma FlattenStep(groups: seq<seq<Option<string>>>, g: nat)
    requires g < |groups|
    ensures Flatten(groups[..g + 1]) == Flatten(groups[..g]) + groups[g]
  {
    assert groups[..g + 1][..g] == groups[..g];
  }

  /** The folder a path-bearing active editor resolves to (`if (editor)` then `getColorForPath`). */
  function ActiveFolder(activePath: Option<string>, table: seq<FolderInfo>): Option<FolderInfo> {
    TabFolder(activePath, table)
  }

  /** The module-level state of extension.js that the core updates. */
  class ExtensionState {
    /** `currentColor`, `None` for `null`. */
    var currentColor: Option<string>
    /** `currentFolderName`, `None` for `null`. */
    var currentFolderName: Option<string>
    /** `openTabsInfo`: folder name -> colour, tab count and icon. */
    var openTabsInfo: map<string, TabInfo>

    /** The state at load time: no selection, no tabs recorded. */
    constructor ()
      ensures currentColor == None && currentFolderName == None && openTabsInfo == map[]
    {
      currentColor := None;
      currentFolderName := None;
      openTabsInfo := map[];
    }

    /**
     * `scanAllOpenTabs()`: clears `openTabsInfo` and re-records every tab of
     * every group, in order; the selection is untouched.
     */
    method ScanAllOpenTabs(tabGroups: seq<seq<Option<string>>>, folders: seq<FolderInfo>)
      modifies this`openTabsInfo
      ensures openTabsInfo == Tally(Resolved(Flatten(tabGroups), folders))
    {
      openTabsInfo := map[];
      for g := 0 to |tabGroups|
        invariant openTabsInfo == Tally(Resolved(Flatten(tabGroups[..g]), folders))
      {
        ScanGroup(Flatten(tabGroups[..g]), tabGroups[g], folders);
        FlattenStep(tabGroups, g);
      }
      assert tabGroups[..|tabGroups|] == tabGroups;
    }

    /** The inner loop over the tabs of one group, on top of the tally of the earlier tabs. */
    method ScanGroup(ghost before: seq<Option<string>>, tabs: seq<Option<string>>, folders: seq<FolderInfo>)
      requires openTabsInfo == Tally(Resolved(before, folders))
      modifies this`openTabsInfo
      ensures openTabsInfo == Tally(Resolved(before + tabs, folders))
    {
      assert before + tabs[..0] == before;
      for t := 0 to |tabs|
        invariant openTabsInfo == Tally(Resolved(before + tabs[..t], folders))
      {
        TallyTab(before + tabs[..t], tabs[t], folders);
        assert before + tabs[..t + 1] == (before + tabs[..t]) + [tabs[t]];
        if tabs[t].Some? {
          var folderInfo := Resolve(tabs[t].value, folders);
          if folderInfo.Some? {
            RecordFolder(folderInfo.value);
          }
        }
      }
      assert tabs[..|tabs|] == tabs;
    }

    /** The inner loop body for a resolved tab: create the record with count 0 if absent, then `count++`. */
    method RecordFolder(info: FolderInfo)
      modifies this`openTabsInfo
      ensures openTabsInfo == Record(old(openTabsInfo), info)
    {
      if info.name !in openTabsInfo {
        openTabsInfo := openTabsInfo[info.name := TabInfo(info.color, 0, PaletteIcon(info.color))];
      }
      openTabsInfo := openTabsInfo[info.name := openTabsInfo[info.name].(count := openTabsInfo[info.name].count + 1)];
    }

    /**
     * `changeWorkspaceColor(folderInfo)`: does nothing for `null` or when both
     * the colour and the name equal the current pair; otherwise it takes the
     * pair over and rescans the open tabs.
     */
    method ChangeWorkspaceColor(folderInfo: Option<FolderInfo>, tabGroups: seq<seq<Option<string>>>, folders: seq<FolderInfo>)
      returns (applied: bool)
      modifies this
      ensures applied <==> (folderInfo.Some?
        && !(old(currentColor) == Some(folderInfo.value.color) && old(currentFolderName) == Some(folderInfo.value.name)))
      ensures !applied ==> (currentColor == old(currentColor) && currentFolderName == old(currentFolderName)
        && openTabsInfo == old(openTabsInfo))
      ensures applied ==> (currentColor == Some(folderInfo.value.color) && currentFolderName == Some(folderInfo.value.name)
        && openTabsInfo == Tally(Resolved(Flatten(tabGroups), folders)))
    {
      if folderInfo.None? || (currentColor == Some(folderInfo.value.color) && currentFolderName == Some(folderInfo.value.name)) {
        return false;
      }
      currentColor := Some(folderInfo.value.color);
      currentFolderName := Some(folderInfo.value.name);
      ScanAllOpenTabs(tabGroups, folders);
      applied := true;
    }

    /**
     * `updateColor()`: with an active editor, resolve its path and hand a
     * non-null result to the guard.
     */
    method UpdateColor(activePath: Option<string>, tabGroups: seq<seq<Option<string>>>, folders: seq<FolderInfo>)
      returns (applied: bool)
      modifies this
      ensures var info := ActiveFolder(activePath, folders);
        && (applied <==> (info.Some?
          && !(old(currentColor) == Some(info.value.color) && old(currentFolderName) == Some(info.value.name))))
        && (!applied ==> (currentColor == old(currentColor) && currentFolderName == old(currentFolderName)
          && openTabsInfo == old(openTabsInfo)))
        && (applied ==> (currentColor == Some(info.value.color) && currentFolderName == Some(info.value.name)
          && openTabsInfo == Tally(Resolved(Flatten(tabGroups), folders))))
    {
      applied := false;
      if activePath.Some? {
        var folderInfo := Resolve(activePath.value, folders);
        if folderInfo.Some? {
          applied := ChangeWorkspaceColor(folderInfo, tabGroups, folders);
        }
      }
    }

    /**
     * The `onDidChangeActiveTextEditor` handler: reset both fields to `null`,
     * then `updateColor()`. Because of the reset, a resolved folder is always
     * applied, even when it equals the previous selection.
     */
    method OnActiveEditorChanged(activePath: Option<string>, tabGroups: seq<seq<Option<string>>>, folders: seq<FolderInfo>)
      returns (applied: bool)
      modifies this
      ensures var info := ActiveFolder(activePath, folders);
        && (applied <==> info.Some?)
        && (info.None? ==> currentColor == None && currentFolderName == None && openTabsInfo == old(openTabsInfo))
        && (info.Some? ==> (currentColor == Some(info.value.color) && currentFolderName == Some(info.value.name)
          && openTabsInfo == Tally(Resolved(Flatten(tabGroups), folders))))
    {
      currentColor := None;
      currentFolderName := None;
      applied := UpdateColor(activePath, tabGroups, folders);
    }
  }

  /** Applying the same folder twice in a row: the second call is suppressed and changes nothing. */
  method ApplyTwice(state: ExtensionState, info: FolderInfo, tabGroups: seq<seq<Option<string>>>, folders: seq<FolderInfo>)
    returns (first: bool, second: bool)
    modifies state
    ensures !second
    ensures state.currentColor == Some(info.color) && state.currentFolderName == Some(info.name)
  {
    first := state.ChangeWorkspaceColor(Some(info), tabGroups, folders);
    second := state.ChangeWorkspaceColor(Some(info), tabGroups, folders);
  }

  /** Applying a folder with the current name but another colour is not suppressed. */
  method Recolor(state: ExtensionState, info: FolderInfo, color: string, tabGroups: seq<seq<Option<string>>>, folders: seq<FolderInfo>)
    returns (applied: bool)
    requires state.currentFolderName == Some(info.name) && state.currentColor == Some(info.color) && color != info.color
    modifies state
    ensures applied && state.currentColor == Some(color) && state.currentFolderName == Some(info.name)
  {
    applied := state.ChangeWorkspaceColor(Some(FolderInfo(info.name, color)), tabGroups, folders);
  }
}
