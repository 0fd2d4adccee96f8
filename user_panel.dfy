/**
  The user's own outfit panel: the same three tabs as the bot panel, without
  a minimise button and without the notion of a default outfit.
 */
module UserPanel {
  import opened Wrappers
  import opened Text
  import opened Outfit
  import BotPanel

  // ---------------------------------------------------------------------------
  // Save-name gate

  /**
    The save button's test on the prompted name: a cancelled or empty prompt
    does nothing, any other name is saved trimmed. Nothing is refused.
   */
  function SaveGate(answer: Option<string>): (d: SaveDecision)
    ensures d != Reject
    ensures d.Save? <==> answer.Some? && answer.value != ""
    ensures d.Save? ==> d.name == Trim(answer.value)
  {
    match answer
    case None => Ignore
    case Some(n) => if n != "" then Save(Trim(n)) else Ignore
  }

  /** The user panel has no reserved name: `default` is saved like any other. */
  lemma SaveGateAcceptsDefault()
    ensures SaveGate(Some("default")) == Save("default")
  {
    assert Trim("default") == "default" by {
      assert forall i :: 0 <= i < |"default"| ==> !IsJsSpace("default"[i]);
    }
  }

  /** A name of white space alone passes the emptiness test and is saved as the empty name. */
  lemma SaveGateBlankName()
    ensures SaveGate(Some(" ")) == Save("")
  {
    assert IsJsSpace(" "[0]);
  }

  /** The bot panel's gate is this one plus the ban on every case variant of `default`. */
  lemma BotGateIsUserGatePlusBan(answer: Option<string>)
    ensures BotPanel.SaveGate(answer) ==
      if answer.Some? && Lower(answer.value) == Sentinel then Reject else SaveGate(answer)
  {
  }

  // ---------------------------------------------------------------------------
  // Outfits tab

  /** What the Outfits tab draws, from top to bottom. */
  datatype Row = EmptyNotice | PresetRow(name: string) | SaveButton

  /**
    `renderPresets`: the empty-state text when the manager has no preset,
    otherwise a row per preset in the manager's order, unfiltered; the save
    button comes last.
   */
  function PresetsTab(presets: seq<string>): seq<Row> {
    var body :=
      if |presets| == 0 then [EmptyNotice]
      else seq(|presets|, i requires 0 <= i < |presets| => PresetRow(presets[i]));
    body + [SaveButton]
  }

  /** The empty-state text appears exactly when the list is empty, and is then followed only by the save button. */
  lemma PresetsTabEmptyState(presets: seq<string>)
    ensures EmptyNotice in PresetsTab(presets) <==> |presets| == 0
    ensures |presets| == 0 ==> PresetsTab(presets) == [EmptyNotice, SaveButton]
  {
    if |presets| > 0 {
      var r := PresetsTab(presets);
      assert forall i :: 0 <= i < |r| ==> r[i] != EmptyNotice;
    }
  }

  /** A non-empty list is shown whole, in order, one row per entry, with the save button last. */
  lemma PresetsTabListsAll(presets: seq<string>)
    requires |presets| > 0
    ensures var r := PresetsTab(presets);
      && |r| == |presets| + 1
      && (forall i :: 0 <= i < |presets| ==> r[i] == PresetRow(presets[i]))
      && r[|presets|] == SaveButton
  {
  }

  /**
    With no stored sentinel and no default outfit, the two panels show the same
    presets in the same order, and the empty-state text in the same case.
   */
  lemma PresetsTabMatchesBot(presets: seq<string>)
    requires Sentinel !in presets
    ensures var u := PresetsTab(presets);
      var b := BotPanel.PresetsTab(presets, None, false);
      && |u| == |b|
      && (EmptyNotice in u <==> BotPanel.EmptyNotice in b)
      && forall i :: 0 <= i < |u| && u[i].PresetRow? ==> b[i].PresetRow? && b[i].name == u[i].name
  {
    var regular := BotPanel.RegularPresets(presets);
    assert regular == presets by {
      BotPanel.RegularPresetsOfRegular(presets);
    }
    PresetsTabEmptyState(presets);
    BotPanel.PresetsTabEmptyState(presets, None, false);
    if |presets| > 0 {
      assert presets[0] != Sentinel;
    }
  }

  /** The Outfits tab holds exactly one save button. */
  lemma PresetsTabOneSaveButton(presets: seq<string>)
    ensures multiset(PresetsTab(presets))[SaveButton] == 1
  {
    var r := PresetsTab(presets);
    var body := r[..|r| - 1];
    assert r == body + [SaveButton];
    assert SaveButton !in body by {
      if |presets| > 0 {
        assert forall i :: 0 <= i < |body| ==> body[i] == PresetRow(presets[i]);
      }
    }
    assert multiset(r) == multiset(body) + multiset{SaveButton};
  }

  /**
    `renderPresets(container)` as written: the empty branch replaces whatever
    the container holds by the notice, while the other branch appends one row
    per preset to the container's existing children; the save button is
    appended last in both.
   */
  function RenderPresetsInto(container: seq<Row>, presets: seq<string>): (r: seq<Row>)
    ensures |presets| == 0 ==> r == [EmptyNotice, SaveButton]
    ensures |presets| > 0 ==>
      && |r| == |container| + |presets| + 1
      && r[..|container|] == container
      && r[|container|..] == PresetsTab(presets)
  {
    if |presets| == 0 then [EmptyNotice, SaveButton] else container + PresetsTab(presets)
  }

  /** `renderContent` empties the content area before the call, so the tab is drawn alone. */
  lemma RenderPresetsIntoEmpty(presets: seq<string>)
    ensures RenderPresetsInto([], presets) == PresetsTab(presets)
  {
  }

  /**
    The delete and save handlers call `renderPresets` on the drawn container.
    While presets remain, the old list stays above the new one, so the tab
    shows two save buttons and is not the tab for the new list.
   */
  lemma RerenderStacksLists(before: seq<string>, after: seq<string>)
    requires |after| > 0
    ensures var r := RenderPresetsInto(PresetsTab(before), after);
      multiset(r)[SaveButton] == 2 && r != PresetsTab(after)
  {
    var drawn := PresetsTab(before);
    var r := RenderPresetsInto(drawn, after);
    assert r == drawn + PresetsTab(after);
    PresetsTabOneSaveButton(before);
    PresetsTabOneSaveButton(after);
    assert multiset(r) == multiset(drawn) + multiset(PresetsTab(after));
  }

  /**
    The re-render as intended: empty the container first, as `renderContent`
    does. `container` is what was drawn before; it is thrown away unread.
   */
  function Rerender(container: seq<Row>, presets: seq<string>): seq<Row> {
    RenderPresetsInto([], presets)
  }

  /** Whatever was drawn before, the intended re-render shows the current list and one save button. */
  lemma RerenderShowsCurrentList(container: seq<Row>, presets: seq<string>)
    ensures Rerender(container, presets) == PresetsTab(presets)
    ensures multiset(Rerender(container, presets))[SaveButton] == 1
  {
    RenderPresetsIntoEmpty(presets);
    PresetsTabOneSaveButton(presets);
  }

  // ---------------------------------------------------------------------------
  // Click handler

  /**
    The delete button: after confirmation the manager's `deletePreset` does the
    deletion and its message is reported; the panel edits nothing itself.
   */
  method DeleteClicked(settings: PresetTree, preset: string, confirmed: bool,
                       deletePreset: (Tree, string) -> ManagerReply, sysMessages: bool)
    returns (o: Outcome)
    modifies settings
    ensures !confirmed ==> o == Cancelled && settings.records == old(settings.records)
    ensures confirmed ==>
      var reply := deletePreset(old(settings.records), preset);
      settings.records == reply.tree && o == Completed(Reported(reply.message, sysMessages))
  {
    if !confirmed {
      return Cancelled;
    }
    var message := settings.DeleteThroughManager(preset, deletePreset);
    o := Completed(Reported(message, sysMessages));
  }

  // ---------------------------------------------------------------------------
  // The panel object

  class Panel {
    var isVisible: bool
    var domElement: DomNode?
    var currentTab: string

    constructor ()
      ensures !isVisible && domElement == null && currentTab == "clothing"
    {
      isVisible := false;
      domElement := null;
      currentTab := "clothing";
    }

    /** `renderContent`: nothing without an element, else the current tab. */
    function RenderContent(): (c: Content)
      reads this
      ensures domElement == null ==> c == Nothing
      ensures domElement != null ==> c == Dispatch(currentTab)
    {
      if domElement == null then Nothing else Dispatch(currentTab)
    }

    /** `createPanel`: an existing element is returned as it is; otherwise a new one is built. */
    method CreatePanel() returns (p: DomNode)
      ensures domElement != null ==> p == domElement
      ensures domElement == null ==> fresh(p)
    {
      if domElement != null {
        return domElement;
      }
      p := new DomNode();
    }

    /** `show`: builds the element once, renders, displays it and marks the panel visible. */
    method Show() returns (shown: Content)
      modifies this, domElement
      ensures old(domElement) != null ==> domElement == old(domElement)
      ensures old(domElement) == null ==> domElement != null && fresh(domElement)
      ensures domElement != null && domElement.display == "flex"
      ensures isVisible && currentTab == old(currentTab)
      ensures shown == RenderContent()
    {
      if domElement == null {
        domElement := CreatePanel();
      }
      shown := RenderContent();
      domElement.display := "flex";
      isVisible := true;
    }

    /** `hide`: undisplays the element, if any, and clears the flag. */
    method Hide()
      modifies this, domElement
      ensures !isVisible
      ensures domElement == old(domElement) && currentTab == old(currentTab)
      ensures domElement != null ==> domElement.display == "none"
    {
      if domElement != null {
        domElement.display := "none";
      }
      isVisible := false;
    }

    /** `toggle`: hides a visible panel and shows a hidden one. */
    method Toggle() returns (shown: Content)
      modifies this, domElement
      ensures isVisible == !old(isVisible) && currentTab == old(currentTab)
      ensures old(domElement) != null ==> domElement == old(domElement)
      ensures old(isVisible) ==>
        && domElement == old(domElement) && shown == Nothing
        && (domElement != null ==> domElement.display == "none")
      ensures !old(isVisible) ==>
        && shown == RenderContent()
        && domElement != null && domElement.display == "flex"
        && (old(domElement) == null ==> fresh(domElement))
    {
      if isVisible {
        Hide();
        shown := Nothing;
      } else {
        shown := Show();
      }
    }

    /** A tab button's click: remember the tab and render it. */
    method SelectTab(tab: string) returns (shown: Content)
      modifies this
      ensures currentTab == tab
      ensures isVisible == old(isVisible) && domElement == old(domElement)
      ensures shown == RenderContent()
    {
      currentTab := tab;
      shown := RenderContent();
    }
  }
}
