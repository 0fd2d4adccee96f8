/**
  The bot character's outfit panel: a floating window with three tabs, where
  the Outfits tab lists the character's saved presets, marks the one that is
  the default outfit, and lets the user save, delete, set or clear it.
 */
module BotPanel {
  import opened Wrappers
  import opened Text
  import opened Outfit

  // ---------------------------------------------------------------------------
  // Save-name gate

  /**
    The save button's test on the prompted name. A cancelled or empty prompt
    does nothing; a name whose lower case is `default` gets the alert and no
    save; any other name is saved, trimmed. The ban is tested on the untrimmed
    name.
   */
  function SaveGate(answer: Option<string>): (d: SaveDecision)
    ensures d.Save? <==> answer.Some? && answer.value != "" && Lower(answer.value) != Sentinel
    ensures d.Save? ==> d.name == Trim(answer.value)
    ensures d == Reject <==> answer.Some? && Lower(answer.value) == Sentinel
    ensures d == Ignore <==> answer == None || answer.value == ""
  {
    match answer
    case None => Ignore
    case Some(n) =>
      if n != "" && Lower(n) != Sentinel then Save(Trim(n))
      else if n != "" && Lower(n) == Sentinel then Reject
      else Ignore
  }

  /** Every spelling of `default` in any mix of ASCII cases is refused. */
  lemma SaveGateRejectsEveryCase(n: string)
    requires |n| == |Sentinel|
    requires forall i :: 0 <= i < |n| ==> LowerChar(n[i]) == Sentinel[i]
    ensures SaveGate(Some(n)) == Reject
    ensures SaveGate(Some("Default")) == Reject && SaveGate(Some("DEFAULT")) == Reject
  {
    assert Lower(n) == Sentinel;
    assert Lower("Default") == Sentinel;
    assert Lower("DEFAULT") == Sentinel;
  }

  /** Because the ban comes before the trim, ` default ` is let through and saved as `default`. */
  lemma SaveGateTrimsAfterBan()
    ensures SaveGate(Some(" default ")) == Save("default")
  {
    assert Lower(" default ") != Sentinel by { assert |Lower(" default ")| == 9; }
    TrimPaddedSentinel();
  }

  lemma TrimPaddedSentinel()
    ensures Trim(" default ") == "default"
  {
    TrimStartPadded();
    TrimEndPadded();
  }

  lemma TrimStartPadded()
    ensures TrimStart(" default ") == "default "
  {
    var n := " default ";
    assert IsJsSpace(n[0]) && !IsJsSpace(n[1]);
    assert n[1..] == "default ";
  }

  lemma TrimEndPadded()
    ensures TrimEnd("default ") == "default"
  {
    var n := "default ";
    assert IsJsSpace(n[7]) && !IsJsSpace(n[6]);
    assert n[..7] == "default";
  }

  /**
    The gate as its alert means it: trim first, then refuse an empty or a
    reserved name, so no saved name is ever empty, reserved or untrimmed.
   */
  function SaveGateIntended(answer: Option<string>): SaveDecision {
    match answer
    case None => Ignore
    case Some(n) =>
      var t := Trim(n);
      if t == "" then Ignore
      else if Lower(t) == Sentinel then Reject
      else Save(t)
  }

  /** The corrected gate never saves an empty, reserved or untrimmed name. */
  lemma SaveGateIntendedIsSafe(answer: Option<string>)
    ensures var d := SaveGateIntended(answer);
      d.Save? ==> d.name != "" && Lower(d.name) != Sentinel && Trim(d.name) == d.name
  {
    if answer.Some? {
      var t := Trim(answer.value);
      if t != "" && Lower(t) != Sentinel {
        assert SaveGateIntended(answer) == Save(t);
        TrimIdempotent(answer.value);
      }
    }
  }

  /** On a name without surrounding white space the corrected gate decides as the written one does. */
  lemma SaveGateIntendedAgrees(n: string)
    requires n != [] ==> !IsJsSpace(n[0]) && !IsJsSpace(n[|n| - 1])
    ensures SaveGateIntended(Some(n)) == SaveGate(Some(n))
  {
    if n != [] {
      assert TrimStart(n) == n;
      assert TrimEnd(n) == n;
    }
  }

  // ---------------------------------------------------------------------------
  // Outfits tab

  /** What the Outfits tab draws, from top to bottom. */
  datatype Row =
    | EmptyNotice
    | DefaultSetup
    | PresetRow(name: string, isDefault: bool, setDefaultShown: bool, clearDefaultShown: bool, deleteLabel: string)
    | SaveButton

  /** `presets.filter(preset => preset !== 'default')`: the sentinel goes, the rest keep their order. */
  function RegularPresets(presets: seq<string>): (r: seq<string>)
    ensures forall p :: p in r <==> p in presets && p != Sentinel
  {
    if presets == [] then []
    else (if presets[0] == Sentinel then [] else [presets[0]]) + RegularPresets(presets[1..])
  }

  /** The filter keeps every other entry as often as the manager lists it. */
  lemma {:induction false} RegularPresetsCount(presets: seq<string>)
    ensures multiset(RegularPresets(presets)) == multiset(presets)[Sentinel := 0]
  {
    if presets != [] {
      assert presets == [presets[0]] + presets[1..];
      RegularPresetsCount(presets[1..]);
    }
  }

  /** Filtering a concatenation filters each part: the order of the list is kept. */
  lemma {:induction false} RegularPresetsConcat(a: seq<string>, b: seq<string>)
    ensures RegularPresets(a + b) == RegularPresets(a) + RegularPresets(b)
  {
    if a == [] {
      assert a + b == b;
    } else {
      var t := a[1..];
      assert a == [a[0]] + t;
      assert a + b == [a[0]] + (t + b);
      RegularPresetsConcat(t, b);
      RegularPresetsCons(a[0], t + b);
      RegularPresetsCons(a[0], t);
    }
  }

  lemma RegularPresetsCons(p: string, s: seq<string>)
    ensures RegularPresets([p] + s) == (if p == Sentinel then [] else [p]) + RegularPresets(s)
  {
    assert ([p] + s)[1..] == s;
  }

  /** A list without the sentinel passes the filter unchanged. */
  lemma {:induction false} RegularPresetsOfRegular(presets: seq<string>)
    requires Sentinel !in presets
    ensures RegularPresets(presets) == presets
  {
    if presets != [] {
      assert presets[0] != Sentinel;
      RegularPresetsOfRegular(presets[1..]);
    }
  }

  ghost predicate Distinct(s: seq<string>) {
    forall i, j :: 0 <= i < j < |s| ==> s[i] != s[j]
  }

  lemma {:induction false} RegularPresetsDistinct(presets: seq<string>)
    requires Distinct(presets)
    ensures Distinct(RegularPresets(presets))
  {
    if presets != [] {
      RegularPresetsDistinct(presets[1..]);
      assert presets[0] !in presets[1..];
    }
  }

  /**
    One row of the list: it is the default when its name is `defaultPresetName`;
    the Default button is hidden on the default row, the clear button on every
    other row, and the delete button is labelled `×` except on the default row.
   */
  function PresetRowFor(preset: string, defaultName: Option<string>): (row: Row)
    ensures row.PresetRow? && row.name == preset
    ensures row.isDefault <==> defaultName.Some? && defaultName.value == preset
    ensures row.setDefaultShown != row.isDefault && row.clearDefaultShown == row.isDefault
    ensures row.deleteLabel == (if row.isDefault then "" else "\U{D7}")
  {
    var isDefault := defaultName == Some(preset);
    PresetRow(preset, isDefault, !isDefault, isDefault, if isDefault then "" else "\U{D7}")
  }

  /**
    `renderPresets`: the empty-state text when there is no regular preset and
    no default outfit; otherwise, when the default is the unnamed sentinel, only
    the "Current Setup" entry; otherwise a row per regular preset. The save
    button always comes last.
   */
  function PresetsTab(presets: seq<string>, defaultName: Option<string>, hasDefault: bool): seq<Row> {
    var regular := RegularPresets(presets);
    var body :=
      if |regular| == 0 && !hasDefault then [EmptyNotice]
      else if defaultName == Some(Sentinel) then [DefaultSetup]
      else seq(|regular|, i requires 0 <= i < |regular| => PresetRowFor(regular[i], defaultName));
    body + [SaveButton]
  }

  /** The save button is the last row, and the only one. */
  lemma PresetsTabEndsWithSave(presets: seq<string>, defaultName: Option<string>, hasDefault: bool)
    ensures var r := PresetsTab(presets, defaultName, hasDefault);
      |r| > 0 && r[|r| - 1] == SaveButton && forall i :: 0 <= i < |r| - 1 ==> r[i] != SaveButton
  {
  }

  /**
    The empty-state text appears exactly when every listed preset is the
    sentinel and there is no default outfit, and then nothing but the save
    button follows it.
   */
  lemma PresetsTabEmptyState(presets: seq<string>, defaultName: Option<string>, hasDefault: bool)
    ensures var r := PresetsTab(presets, defaultName, hasDefault);
      EmptyNotice in r <==> (forall i :: 0 <= i < |presets| ==> presets[i] == Sentinel) && !hasDefault
    ensures EmptyNotice in PresetsTab(presets, defaultName, hasDefault) ==>
      PresetsTab(presets, defaultName, hasDefault) == [EmptyNotice, SaveButton]
  {
    var regular := RegularPresets(presets);
    if |regular| > 0 {
      assert regular[0] in regular;
    } else {
      forall i | 0 <= i < |presets| ensures presets[i] == Sentinel {
        assert presets[i] !in regular;
      }
    }
  }

  /** With the sentinel as default, the tab shows the "Current Setup" entry and no regular preset. */
  lemma PresetsTabSentinelOnly(presets: seq<string>, hasDefault: bool)
    requires |RegularPresets(presets)| > 0 || hasDefault
    ensures PresetsTab(presets, Some(Sentinel), hasDefault) == [DefaultSetup, SaveButton]
  {
  }

  /**
    With a named default (or none), the rows are the regular presets in the
    manager's order, each flagged as default exactly when it is the default's
    name, with exactly one of Default and clear shown and `×` on the delete
    button exactly when not the default.
   */
  lemma PresetsTabListsRegular(presets: seq<string>, defaultName: Option<string>, hasDefault: bool)
    requires |RegularPresets(presets)| > 0 || hasDefault
    requires defaultName != Some(Sentinel)
    ensures var r := PresetsTab(presets, defaultName, hasDefault);
      var regular := RegularPresets(presets);
      |r| == |regular| + 1 &&
      forall i :: 0 <= i < |regular| ==>
        && r[i].PresetRow?
        && r[i].name == regular[i]
        && (r[i].isDefault <==> defaultName == Some(regular[i]))
        && (r[i].setDefaultShown <==> !r[i].isDefault)
        && (r[i].clearDefaultShown <==> r[i].isDefault)
        && (r[i].deleteLabel == "\U{D7}" <==> !r[i].isDefault)
  {
  }

  /** Every row marked default carries the default's name. */
  lemma PresetsTabDefaultIsNamed(presets: seq<string>, defaultName: Option<string>, hasDefault: bool)
    ensures var r := PresetsTab(presets, defaultName, hasDefault);
      forall i :: 0 <= i < |r| && r[i].PresetRow? && r[i].isDefault ==>
        defaultName.Some? && r[i].name == defaultName.value
  {
  }

  /**
    When the manager's names are distinct, at most one row is marked default:
    two such rows would both carry the default's name.
   */
  lemma PresetsTabAtMostOneDefault(presets: seq<string>, defaultName: Option<string>, hasDefault: bool)
    requires Distinct(presets)
    ensures var r := PresetsTab(presets, defaultName, hasDefault);
      forall i, j :: 0 <= i < j < |r| && r[i].PresetRow? && r[j].PresetRow? ==> !(r[i].isDefault && r[j].isDefault)
  {
    RegularPresetsDistinct(presets);
    PresetsTabDefaultIsNamed(presets, defaultName, hasDefault);
  }

  // ---------------------------------------------------------------------------
  // Click handlers that edit the settings tree

  /**
    The clear button (on the "Current Setup" entry and on the default row):
    after confirmation, delete the character's `'default'` key and prune the
    record if empty, notify, save and re-render. With no record for the
    character the first `delete` throws and nothing is saved.
   */
  method ClearDefaultClicked(settings: PresetTree, ch: string, confirmed: bool, sysMessages: bool)
    returns (o: Outcome)
    modifies settings
    ensures !confirmed ==> o == Cancelled && settings.records == old(settings.records)
    ensures confirmed && ch !in old(settings.records) ==>
      o == Threw && settings.records == old(settings.records)
    ensures confirmed && ch in old(settings.records) ==>
      && settings.records == ClearedDefault(old(settings.records), ch)
      && o == Completed(if sysMessages then Some("Default outfit cleared.") else None)
  {
    if !confirmed {
      return Cancelled;
    }
    var threw := settings.RemoveDefault(ch);
    if threw {
      return Threw;
    }
    o := Completed(if sysMessages then Some("Default outfit cleared.") else None);
  }

  /**
    The delete button of a listed preset. A preset that is not the default is
    deleted by the manager alone. The default preset is deleted by the manager,
    then the character's `'default'` key is deleted and the record pruned, and
    the notification is the manager's message followed by
    ` Default outfit cleared.`; if the manager left no record for the
    character, that `delete` throws after the manager's change.
   */
  method DeleteClicked(settings: PresetTree, ch: string, preset: string, defaultName: Option<string>,
                       confirmed: bool, deletePreset: (Tree, string) -> ManagerReply, sysMessages: bool)
    returns (o: Outcome)
    modifies settings
    ensures var reply := deletePreset(old(settings.records), preset);
      if !confirmed then
        o == Cancelled && settings.records == old(settings.records)
      else if defaultName != Some(preset) then
        settings.records == reply.tree && o == Completed(Reported(reply.message, sysMessages))
      else if ch in reply.tree then
        && settings.records == ClearedDefault(reply.tree, ch)
        && o == Completed(if sysMessages then Some(reply.message + " Default outfit cleared.") else None)
      else
        settings.records == reply.tree && o == Threw
  {
    if !confirmed {
      return Cancelled;
    }
    var message := settings.DeleteThroughManager(preset, deletePreset);
    if defaultName != Some(preset) {
      return Completed(Reported(message, sysMessages));
    }
    var threw := settings.RemoveDefault(ch);
    if threw {
      return Threw;
    }
    o := Completed(if sysMessages then Some(message + " Default outfit cleared.") else None);
  }

  // ---------------------------------------------------------------------------
  // The panel object

  class Panel {
    var isVisible: bool
    var isMinimized: bool
    var domElement: DomNode?
    var currentTab: string
    /** How many click listeners the minimise button holds: `show` adds one each time. */
    var minimizeListeners: nat

    constructor ()
      ensures !isVisible && !isMinimized && domElement == null && currentTab == "clothing"
      ensures minimizeListeners == 0
    {
      isVisible := false;
      isMinimized := false;
      domElement := null;
      currentTab := "clothing";
      minimizeListeners := 0;
    }

    /** `renderContent`: nothing without an element or while minimised, else the current tab. */
    function RenderContent(): (c: Content)
      reads this
      ensures domElement == null || isMinimized ==> c == Nothing
      ensures domElement != null && !isMinimized ==> c == Dispatch(currentTab)
    {
      if domElement == null || isMinimized then Nothing else Dispatch(currentTab)
    }

    /** `createPanel`: an existing element is returned as it is; otherwise a new one is built. */
    method CreatePanel() returns (p: DomNode)
      ensures domElement != null ==> p == domElement
      ensures domElement == null ==> fresh(p)
    {
      if domElement != null {
        return domElement;
      }
      p := new DomNode();
    }

    /**
      `show`: builds the element once, renders, displays it and marks the panel
      visible; then attaches another listener to the minimise button.
     */
    method Show() returns (shown: Content)
      modifies this, domElement
      ensures old(domElement) != null ==> domElement == old(domElement)
      ensures old(domElement) == null ==> domElement != null && fresh(domElement)
      ensures domElement != null && domElement.display == "flex"
      ensures isVisible && isMinimized == old(isMinimized) && currentTab == old(currentTab)
      ensures minimizeListeners == old(minimizeListeners) + 1
      ensures shown == RenderContent()
    {
      if domElement == null {
        domElement := CreatePanel();
      }
      shown := RenderContent();
      domElement.display := "flex";
      isVisible := true;
      minimizeListeners := minimizeListeners + 1;
    }

    /**
      `show` as intended: the same, except that the minimise listener is
      attached only when the element is built, so the button holds at most one.
     */
    method ShowAttachingOnce() returns (shown: Content)
      modifies this, domElement
      ensures old(domElement) != null ==> domElement == old(domElement)
      ensures old(domElement) == null ==> domElement != null && fresh(domElement)
      ensures domElement != null && domElement.display == "flex"
      ensures isVisible && isMinimized == old(isMinimized) && currentTab == old(currentTab)
      ensures minimizeListeners == if old(domElement) == null then old(minimizeListeners) + 1 else old(minimizeListeners)
      ensures shown == RenderContent()
    {
      if domElement == null {
        domElement := CreatePanel();
        minimizeListeners := minimizeListeners + 1;
      }
      shown := RenderContent();
      domElement.display := "flex";
      isVisible := true;
    }

    /** `hide`: undisplays the element, if any, and clears both flags. */
    method Hide()
      modifies this, domElement
      ensures !isVisible && !isMinimized
      ensures domElement == old(domElement) && currentTab == old(currentTab)
      ensures minimizeListeners == old(minimizeListeners)
      ensures domElement != null ==> domElement.display == "none"
    {
      if domElement != null {
        domElement.display := "none";
      }
      isVisible := false;
      isMinimized := false;
    }

    /** `toggle`: hides a visible panel and shows a hidden one. */
    method Toggle() returns (shown: Content)
      modifies this, domElement
      ensures isVisible == !old(isVisible) && currentTab == old(currentTab)
      ensures old(domElement) != null ==> domElement == old(domElement)
      ensures old(isVisible) ==>
        && !isMinimized && domElement == old(domElement) && shown == Nothing
        && minimizeListeners == old(minimizeListeners)
        && (domElement != null ==> domElement.display == "none")
      ensures !old(isVisible) ==>
        && isMinimized == old(isMinimized) && shown == RenderContent()
        && minimizeListeners == old(minimizeListeners) + 1
        && domElement != null && domElement.display == "flex"
        && (old(domElement) == null ==> fresh(domElement))
    {
      if isVisible {
        Hide();
        shown := Nothing;
      } else {
        shown := Show();
      }
    }

    /** `toggleMinimize` with `updateMinimizeState`, which re-renders an expanded panel. */
    method ToggleMinimize() returns (shown: Content)
      modifies this
      ensures isMinimized == !old(isMinimized)
      ensures isVisible == old(isVisible) && domElement == old(domElement) && currentTab == old(currentTab)
      ensures minimizeListeners == old(minimizeListeners)
      ensures shown == RenderContent()
    {
      isMinimized := !isMinimized;
      if domElement == null || isMinimized {
        shown := Nothing;
      } else {
        shown := RenderContent();
      }
    }

    /**
      A click on the minimise button: each listener on it runs
      `toggleMinimize` in turn. What is drawn is what the last run drew.
     */
    method MinimizeButtonClicked() returns (shown: Content)
      modifies this
      ensures isMinimized == MinimizeClicked(old(isMinimized), minimizeListeners)
      ensures isVisible == old(isVisible) && domElement == old(domElement) && currentTab == old(currentTab)
      ensures minimizeListeners == old(minimizeListeners)
      ensures minimizeListeners > 0 ==> shown == RenderContent()
    {
      var k := 0;
      shown := Nothing;
      while k < minimizeListeners
        invariant k <= minimizeListeners == old(minimizeListeners)
        invariant isMinimized == MinimizeClicked(old(isMinimized), k)
        invariant isVisible == old(isVisible) && domElement == old(domElement) && currentTab == old(currentTab)
        invariant k > 0 ==> shown == RenderContent()
      {
        shown := ToggleMinimize();
        k := k + 1;
      }
    }

    /** A tab button's click: remember the tab and render it. */
    method SelectTab(tab: string) returns (shown: Content)
      modifies this
      ensures currentTab == tab
      ensures isVisible == old(isVisible) && isMinimized == old(isMinimized) && domElement == old(domElement)
      ensures minimizeListeners == old(minimizeListeners)
      ensures shown == RenderContent()
    {
      currentTab := tab;
      shown := RenderContent();
    }
  }

  // ---------------------------------------------------------------------------
  // Listeners on the minimise button

  /**
    A minimise click runs every listener on the button, one `toggleMinimize`
    each; the flag ends flipped exactly when their number is odd.
   */
  function MinimizeClicked(minimized: bool, listeners: nat): (m: bool)
    ensures m == (if listeners % 2 == 0 then minimized else !minimized)
  {
    if listeners == 0 then minimized else !MinimizeClicked(minimized, listeners - 1)
  }

  /**
    As written: open, close and reopen a new panel, then click minimise once.
    Both listeners run, so the panel is not minimised.
   */
  method ReopenThenMinimize() returns (p: Panel)
    ensures p.minimizeListeners == 2 && p.isVisible && !p.isMinimized
  {
    p := new Panel();
    var _ := p.Show();
    p.Hide();
    var _ := p.Show();
    var _ := p.MinimizeButtonClicked();
  }

  /** As intended: with the listener attached once, the same clicks minimise the panel. */
  method ReopenThenMinimizeAttachingOnce() returns (p: Panel)
    ensures p.minimizeListeners == 1 && p.isVisible && p.isMinimized
  {
    p := new Panel();
    var _ := p.ShowAttachingOnce();
    p.Hide();
    var _ := p.ShowAttachingOnce();
    var _ := p.MinimizeButtonClicked();
  }
}
