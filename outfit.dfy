/**
  What the bot panel and the user panel share: the shape of the saved-presets
  settings tree, the one in-place edit of it that the bot panel makes itself
  (drop the `'default'` entry of a character and prune the character when
  nothing is left), the outcome of a click handler, and the tab dispatch.
 */
module Outfit {
  import opened Wrappers

  /** Slot name to item value. */
  type Snapshot = map<string, string>

  /** Preset name to snapshot: the saved outfits of one character. */
  type Record = map<string, Snapshot>

  /** Character name to record: `extension_settings.outfit_tracker.presets.bot`. */
  type Tree = map<string, Record>

  /** The preset key under which an unnamed default outfit is stored. */
  const Sentinel: string := "default"

  /** No record in the tree is empty: a character without presets has no record at all. */
  ghost predicate Pruned(t: Tree) {
    forall c :: c in t ==> |t[c]| > 0
  }

  /**
    `delete tree[ch]['default']`, then `delete tree[ch]` if the record has no
    key left. Only the `'default'` key of `ch` goes; every other key of `ch` and
    every other character's record stay as they were; the record of `ch` is
    removed exactly when `'default'` was its only key.
   */
  function ClearedDefault(t: Tree, ch: string): (r: Tree)
    requires ch in t
    ensures forall c :: c != ch ==> (c in r <==> c in t)
    ensures forall c :: c != ch && c in r ==> r[c] == t[c]
    ensures ch in r <==> exists k :: k in t[ch] && k != Sentinel
    ensures ch in r ==> r[ch].Keys == t[ch].Keys - {Sentinel}
    ensures ch in r ==> forall k :: k in r[ch] ==> r[ch][k] == t[ch][k]
  {
    var rest := t[ch] - {Sentinel};
    if |rest| == 0 then
      t - {ch}
    else
      assert rest != map[];
      var k :| k in rest;
      assert k in t[ch] && k != Sentinel;
      t[ch := rest]
  }

  /** Clearing the default keeps every record non-empty, and leaves no `'default'` key behind. */
  lemma ClearedDefaultKeepsPruned(t: Tree, ch: string)
    requires ch in t && Pruned(t)
    ensures Pruned(ClearedDefault(t, ch))
    ensures ch in ClearedDefault(t, ch) ==> Sentinel !in ClearedDefault(t, ch)[ch]
  {
    var r := ClearedDefault(t, ch);
    if ch in r {
      var k :| k in t[ch] && k != Sentinel;
      assert k in r[ch];
    }
  }

  /**
    A second clear right after the first: when the first one pruned the record
    the second finds no record (the source then throws); otherwise the second
    changes nothing.
   */
  lemma ClearedDefaultTwice(t: Tree, ch: string)
    requires ch in t
    ensures (forall k :: k in t[ch] ==> k == Sentinel) ==> ch !in ClearedDefault(t, ch)
    ensures ch in ClearedDefault(t, ch) ==> ClearedDefault(ClearedDefault(t, ch), ch) == ClearedDefault(t, ch)
  {
    var r := ClearedDefault(t, ch);
    if ch in r {
      var r2 := ClearedDefault(r, ch);
      assert r2[ch] == r[ch];
      assert r2 == r;
    }
  }

  /** What the outfit manager's `deletePreset` leaves: the settings tree it wrote and its message. */
  datatype ManagerReply = ManagerReply(tree: Tree, message: string)

  /**
    How a click handler ends: dismissed at the confirmation (nothing happens),
    completed (settings saved, panel re-rendered, perhaps a notification), or
    aborted by a JavaScript `TypeError` before saving.
   */
  datatype Outcome = Cancelled | Completed(notice: Option<string>) | Threw

  /** The manager's message is shown only when it is non-empty and system messages are on. */
  function Reported(message: string, sysMessages: bool): (notice: Option<string>)
    ensures notice.Some? <==> message != "" && sysMessages
    ensures notice.Some? ==> notice.value == message
  {
    if message != "" && sysMessages then Some(message) else None
  }

  /** What the prompted name leads to: nothing, an alert and no save, or a save under `name`. */
  datatype SaveDecision = Ignore | Reject | Save(name: string)

  /** What `renderContent` draws into the content area. */
  datatype Content = Nothing | ClothingSlots | AccessorySlots | PresetList

  /** The `switch (currentTab)` of `renderContent`: a tab it does not know draws nothing. */
  function Dispatch(tab: string): (c: Content)
    ensures c == ClothingSlots <==> tab == "clothing"
    ensures c == AccessorySlots <==> tab == "accessories"
    ensures c == PresetList <==> tab == "outfits"
    ensures c == Nothing <==> tab != "clothing" && tab != "accessories" && tab != "outfits"
  {
    if tab == "clothing" then ClothingSlots
    else if tab == "accessories" then AccessorySlots
    else if tab == "outfits" then PresetList
    else Nothing
  }

  /** The panel's DOM element; only its `style.display` is modelled. */
  class DomNode {
    var display: string

    constructor ()
      ensures display == ""
    {
      display := "";
    }
  }

  /** The settings subtree of saved presets, which handlers edit in place. */
  class PresetTree {
    var records: Tree

    constructor (t: Tree)
      ensures records == t
    {
      records := t;
    }

    /**
      The three-line edit the bot panel repeats: delete the `'default'` key of
      `ch`'s record, then delete the record if it is empty. Indexing a missing
      record throws, and then nothing is changed.
     */
    method RemoveDefault(ch: string) returns (threw: bool)
      modifies this
      ensures threw <==> ch !in old(records)
      ensures records == if threw then old(records) else ClearedDefault(old(records), ch)
    {
      if ch !in records {
        return true;
      }
      records := records[ch := records[ch] - {Sentinel}];
      if |records[ch]| == 0 {
        records := records - {ch};
      }
      threw := false;
    }

    /** Calls the manager's `deletePreset(preset)`; whatever it writes is the new tree. */
    method DeleteThroughManager(preset: string, deletePreset: (Tree, string) -> ManagerReply)
      returns (message: string)
      modifies this
      ensures records == deletePreset(old(records), preset).tree
      ensures message == deletePreset(old(records), preset).message
    {
      var reply := deletePreset(records, preset);
      records := reply.tree;
      message := reply.message;
    }
  }
}
