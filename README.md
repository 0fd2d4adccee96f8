# Outfit panels of the ST-Outfits extension, modelled in Dafny

The extension draws two floating panels in a chat application: one for the bot
character's outfit (`BotOutfitPanel`) and one for the user's (`UserOutfitPanel`).
Each has three tabs (clothing slots, accessory slots, saved outfits). The outfit
state itself lives in an outfit manager object; the panels decide what to draw,
which buttons to show, which names are accepted for saving, and, in the bot
panel, edit the saved-presets settings tree directly when the default outfit is
cleared.

This project models those decisions:

- `Text` (`text.dfy`): JavaScript's `trim`, ASCII `toLowerCase`/`toUpperCase`, and
  `replace` with a string pattern and a replacement without `$` (first occurrence only).
- `SlotName` (`slot_name.dfy`): `formatSlotName`, which both panels define identically.
- `Outfit` (`outfit.dfy`): the settings tree `character → preset name → snapshot`,
  the "delete the `'default'` key and prune the empty record" edit (`ClearedDefault`,
  `PresetTree.RemoveDefault`), the outcome of a click handler, the tab dispatch,
  and the panel's DOM element reduced to its `display` style.
- `BotPanel` (`bot_panel.dfy`): the save-name gate, the Outfits tab (filtering of the
  sentinel preset, empty state, the "Current Setup" entry, per-row button visibility),
  the clear-default and delete click handlers, and the panel object
  (`isVisible`, `isMinimized`, `currentTab`, `domElement`, and the number of
  listeners on the minimise button).
- `UserPanel` (`user_panel.dfy`): the same for the user panel, which has no default
  outfit, no ban on the name `default` and no minimise button.

State that the source updates in place is modelled as classes: `Outfit.PresetTree`
holds the settings subtree and `BotPanel.Panel`/`UserPanel.Panel` hold the panel
fields. The rest is functions and lemmas.

Interfaces replaced by parameters:

- `confirm` and `prompt` answers are method or function parameters (`confirmed`, `answer`;
  a cancelled prompt is `None`).
- The outfit manager's `deletePreset` is a function parameter from the tree to the tree it
  leaves and the message it returns. The manager's preset list, default name and
  `hasDefaultOutfit()` are parameters of the Outfits tab functions.
- The `enableSysMessages` setting is the `sysMessages` parameter. A notification is
  returned as `Outcome.Completed(Some(text))` rather than shown.
- A `TypeError` thrown by the handler (for example, indexing a character record
  that does not exist) is `Outcome.Threw`. Otherwise `Completed` stands for "settings
  saved and the handler finished". What the user panel's handlers then draw is
  modelled separately (`UserPanel.RenderPresetsInto`, see Findings).

Facts about the code worth knowing before reading the model:

- Clearing the default is not idempotent. The handler indexes the character's
  record directly (src/BotOutfitPanel.js:146), so a second clear after the
  record was pruned throws (`Outfit.ClearedDefaultTwice`,
  `BotPanel.ClearDefaultClicked`). The same holds after a cascade delete when
  the manager has already removed the record.
- The ban on `default` is tested before trimming (see Findings).

## Model

| member | source | states |
|---|---|---|
| `SlotName.SplitCamel` | src/BotOutfitPanel.js:289 | the camelCase split makes the name one character longer per adjacent ASCII lower/upper pair and keeps the first character |
| `SlotName.SplitCamelPlaces` | src/BotOutfitPanel.js:289 | every character of the name is kept in order, shifted right by the pairs completed up to it, and each pair's lower-case letter is followed by the inserted space |
| `SlotName.SplitCamelNoUpper` | src/UserOutfitPanel.js:201 | a name with no ASCII upper-case letter comes out of the camelCase split unchanged |
| `SlotName.CapitalizeFirst` | src/BotOutfitPanel.js:290 | the first character is upper-cased, the rest is kept, and the length is unchanged |
| `SlotName.HyphensToSpaces` | src/BotOutfitPanel.js:291 | every hyphen becomes a space, no hyphen is left, all other characters stay, and the length is unchanged |
| `SlotName.FormatSlotNameLength` | src/BotOutfitPanel.js:287-293 | the slot label is as long as the name plus its number of camelCase pairs |
| `SlotName.FormatSlotNameHasNoHyphen` | src/BotOutfitPanel.js:288-292 | no slot label contains `-` |
| `SlotName.FormatSlotNameCapitalizes` | src/BotOutfitPanel.js:290 | a name starting with an ASCII lower-case letter gets a label starting with that letter in upper case, even when the last pass replaces an `underwear` |
| `SlotName.FormatSlotNameReplacesFirstOnly` | src/UserOutfitPanel.js:204 | only the first `underwear` becomes `Underwear`; every character outside that occurrence is as before the last pass, so later occurrences remain |
| `SlotName.FormatSlotNameWithoutUnderwear` | src/UserOutfitPanel.js:199-205 | without an `underwear` the last pass changes nothing |
| `Text.Lower` | src/BotOutfitPanel.js:262 | `toLowerCase()` keeps the length and lower-cases each character (ASCII mapping) |
| `Text.Trim` | src/BotOutfitPanel.js:263 | `trim()`: the result is the stretch of the string with only white space before and after it; neither end of the result is white space, a string without white space is unchanged, and the result is empty exactly when the string is all white space |
| `Text.ReplaceFirst` | src/BotOutfitPanel.js:292 | string-pattern `replace` with a literal replacement: with no occurrence the string is unchanged; otherwise exactly the first occurrence is replaced; the length is kept when pattern and replacement have the same length |
| `Outfit.ClearedDefault` | src/BotOutfitPanel.js:146-151 | removes only the key `'default'` of the character's record; other characters' records and other keys are unchanged; the record is removed exactly when `'default'` was its only key |
| `Outfit.ClearedDefaultKeepsPruned` | src/BotOutfitPanel.js:148-151 | if no record was empty before, none is after, and the character's remaining record has no `'default'` key |
| `Outfit.ClearedDefaultTwice` | src/BotOutfitPanel.js:143-151 | when the first clear prunes the record, a second finds no record; otherwise a second clear changes nothing |
| `Outfit.PresetTree.RemoveDefault` | src/BotOutfitPanel.js:234-239 | throws (and changes nothing) exactly when the character has no record; otherwise the tree becomes `ClearedDefault` of the old tree |
| `Outfit.PresetTree.DeleteThroughManager` | src/BotOutfitPanel.js:221 | the tree afterwards is exactly what the manager's `deletePreset(preset)` wrote, and its message is returned |
| `Outfit.Reported` | src/BotOutfitPanel.js:222-224 | the manager's message is shown iff it is non-empty and system messages are on, and then it is shown as it is |
| `Outfit.Dispatch` | src/BotOutfitPanel.js:67-77 | `clothing`, `accessories` and `outfits` draw the clothing slots, accessory slots and presets; any other tab draws nothing |
| `BotPanel.SaveGate` | src/BotOutfitPanel.js:261-271 | a name is saved iff it is non-empty and its lower case is not `default`, and then it is saved trimmed; the alert is shown iff the lower case is `default`; a cancelled or empty prompt does nothing |
| `BotPanel.SaveGateRejectsEveryCase` | src/BotOutfitPanel.js:269-270 | every ASCII case variant of `default` (for example `Default`, `DEFAULT`) gets the alert and no save |
| `BotPanel.SaveGateTrimsAfterBan` | src/BotOutfitPanel.js:262-263 | ` default ` passes the ban and is saved as `default` |
| `BotPanel.SaveGateIntendedIsSafe` | src/BotOutfitPanel.js:261-271 | corrected gate: a saved name is never empty, never a case variant of `default`, and already trimmed |
| `BotPanel.SaveGateIntendedAgrees` | src/BotOutfitPanel.js:262-269 | on a name with no surrounding white space the corrected gate decides as the code does |
| `BotPanel.RegularPresets` | src/BotOutfitPanel.js:113 | an entry is kept exactly when it is in the manager's list and is not `'default'` |
| `BotPanel.RegularPresetsCount` | src/BotOutfitPanel.js:113 | each entry other than `'default'` is kept as often as the manager lists it, and `'default'` never |
| `BotPanel.RegularPresetsConcat` | src/BotOutfitPanel.js:112-113 | filtering a concatenation concatenates the filtered parts, so order is preserved |
| `BotPanel.RegularPresetsOfRegular` | src/BotOutfitPanel.js:113 | a list without `'default'` is unchanged by the filter |
| `BotPanel.RegularPresetsDistinct` | src/BotOutfitPanel.js:110-113 | the filter keeps distinct names distinct |
| `BotPanel.PresetsTabEndsWithSave` | src/BotOutfitPanel.js:255-274 | the save button is always the last row of the tab, and the only save button |
| `BotPanel.PresetsTabEmptyState` | src/BotOutfitPanel.js:118-119 | the empty-state text is shown iff the filtered list is empty and there is no default outfit, and then only the save button follows |
| `BotPanel.PresetsTabSentinelOnly` | src/BotOutfitPanel.js:122-162 | when the default name is `'default'` (and the tab is not empty), only the "Current Setup" entry and the save button are shown |
| `BotPanel.PresetsTabListsRegular` | src/BotOutfitPanel.js:164-176 | otherwise one row per filtered preset in order; a row is default iff its name equals the default name; of Default and clear exactly one is shown, clear iff default; the delete label is `×` iff not default |
| `BotPanel.PresetRowFor` | src/BotOutfitPanel.js:166-175 | a row names its preset; it is default iff its name is the default's name; Default is shown iff not default, clear iff default; the delete label is `×` except on the default row |
| `BotPanel.PresetsTabDefaultIsNamed` | src/BotOutfitPanel.js:166 | every row marked default carries the default's name |
| `BotPanel.PresetsTabAtMostOneDefault` | src/BotOutfitPanel.js:165-166 | with distinct names from the manager, at most one row is marked default |
| `BotPanel.ClearDefaultClicked` | src/BotOutfitPanel.js:198-215 | unconfirmed: nothing; confirmed with no record: throws, tree unchanged; otherwise the tree becomes `ClearedDefault` and the notice is `Default outfit cleared.` when system messages are on |
| `BotPanel.DeleteClicked` | src/BotOutfitPanel.js:217-248 | unconfirmed: nothing; a non-default preset: the manager's tree and message only; the default preset: the manager's delete, then `ClearedDefault` of the tree it left, with the notice being its message plus ` Default outfit cleared.`, or a throw if it left no record |
| `BotPanel.MinimizeClicked` | src/BotOutfitPanel.js:299-302 | a click running n `toggleMinimize` listeners leaves the flag flipped iff n is odd |
| `BotPanel.Panel.MinimizeButtonClicked` | src/BotOutfitPanel.js:336-338 | one click runs `toggleMinimize` once per listener on the button: the flag afterwards is `MinimizeClicked` of the old flag and the listener count, and nothing else changes |
| `BotPanel.Panel.ShowAttachingOnce` | src/BotOutfitPanel.js:324-338 | corrected `show`: as `show`, but the minimise listener is added only when the element is built |
| `BotPanel.ReopenThenMinimize` | src/BotOutfitPanel.js:324-355 | as written: a new panel shown, hidden and shown again has two listeners, and one minimise click leaves it expanded |
| `BotPanel.ReopenThenMinimizeAttachingOnce` | src/BotOutfitPanel.js:324-355 | corrected: the same steps leave one listener, and the click minimises the panel |
| `BotPanel.Panel.constructor` | src/BotOutfitPanel.js:9-12 | a new panel is hidden, expanded, has no element and shows the clothing tab |
| `BotPanel.Panel.RenderContent` | src/BotOutfitPanel.js:59-60 | nothing is drawn without an element or while minimised; otherwise the current tab's dispatch |
| `BotPanel.Panel.CreatePanel` | src/BotOutfitPanel.js:16-19 | an existing element is returned unchanged; otherwise a new one |
| `BotPanel.Panel.Show` | src/BotOutfitPanel.js:324-338 | the element is created only if absent and kept otherwise; it is displayed, the panel is visible, minimised state and tab are unchanged, and the current tab is drawn |
| `BotPanel.Panel.Hide` | src/BotOutfitPanel.js:349-355 | `isVisible` and `isMinimized` become false and an existing element is undisplayed |
| `BotPanel.Panel.Toggle` | src/BotOutfitPanel.js:295-297 | flips `isVisible`, hiding (and expanding) a visible panel or showing a hidden one |
| `BotPanel.Panel.ToggleMinimize` | src/BotOutfitPanel.js:299-322 | flips `isMinimized`, nothing else changes, and the tab is redrawn only when the panel exists and is now expanded |
| `BotPanel.Panel.SelectTab` | src/BotOutfitPanel.js:46-49 | a tab click sets `currentTab` and draws that tab |
| `UserPanel.SaveGate` | src/UserOutfitPanel.js:154-162 | any non-empty name is saved trimmed, nothing is refused, and a cancelled or empty prompt does nothing |
| `UserPanel.SaveGateAcceptsDefault` | src/UserOutfitPanel.js:155-156 | `default` is saved like any other name |
| `UserPanel.SaveGateBlankName` | src/UserOutfitPanel.js:154-156 | a name of white space alone is saved under the empty name |
| `UserPanel.BotGateIsUserGatePlusBan` | src/UserOutfitPanel.js:155 | the bot panel's gate equals the user panel's except that case variants of `default` get the alert |
| `UserPanel.PresetsTabEmptyState` | src/UserOutfitPanel.js:112-113 | the empty-state text is shown iff the manager's list has length 0 |
| `UserPanel.PresetsTabListsAll` | src/UserOutfitPanel.js:114-165 | a non-empty list is drawn whole and unfiltered, in order, followed by the save button |
| `UserPanel.PresetsTabOneSaveButton` | src/UserOutfitPanel.js:150-165 | a freshly drawn Outfits tab holds exactly one save button |
| `UserPanel.RenderPresetsInto` | src/UserOutfitPanel.js:109-166 | with no presets the container is replaced by the notice and the save button; otherwise the container's old children stay and the list plus a save button follow them |
| `UserPanel.RenderPresetsIntoEmpty` | src/UserOutfitPanel.js:58-77 | drawn from `renderContent`, which empties the content area first, the tab is exactly the list |
| `UserPanel.RerenderStacksLists` | src/UserOutfitPanel.js:135-161 | after a delete or save that leaves presets, the old tab stays above the new one: two save buttons, and not the tab for the new list |
| `UserPanel.RerenderShowsCurrentList` | src/UserOutfitPanel.js:65 | corrected re-render (empty the container first): whatever was drawn, the tab is the current list with one save button |
| `UserPanel.PresetsTabMatchesBot` | src/UserOutfitPanel.js:109-148 | without a stored `'default'` entry and without a default outfit, both panels list the same names in the same order and agree on the empty state |
| `UserPanel.DeleteClicked` | src/UserOutfitPanel.js:135-143 | only after confirmation, and only through the manager: the tree afterwards is what the manager wrote, and its message is reported |
| `UserPanel.Panel.constructor` | src/UserOutfitPanel.js:10-12 | a new panel is hidden, has no element and shows the clothing tab |
| `UserPanel.Panel.RenderContent` | src/UserOutfitPanel.js:58-77 | nothing is drawn without an element; otherwise the current tab's dispatch |
| `UserPanel.Panel.CreatePanel` | src/UserOutfitPanel.js:16-19 | an existing element is returned unchanged; otherwise a new one |
| `UserPanel.Panel.Show` | src/UserOutfitPanel.js:211-218 | the element is created only if absent and kept otherwise; it is displayed, the panel is visible, and the current tab is drawn |
| `UserPanel.Panel.Hide` | src/UserOutfitPanel.js:232-237 | `isVisible` becomes false and an existing element is undisplayed |
| `UserPanel.Panel.Toggle` | src/UserOutfitPanel.js:207-209 | flips `isVisible` by hiding or showing |
| `UserPanel.Panel.SelectTab` | src/UserOutfitPanel.js:45-48 | a tab click sets `currentTab` and draws that tab |

`SlotName.FormatSlotName`, `BotPanel.PresetsTab` and `UserPanel.PresetsTab`
(src/BotOutfitPanel.js:287-293, src/UserOutfitPanel.js:199-205,
src/BotOutfitPanel.js:109-176, src/UserOutfitPanel.js:109-166) and
`UserPanel.Rerender` are specification functions with no contract of their own:
what they promise is stated by the lemmas above that are named after them.

## Left out

- DOM construction (`innerHTML` templates, `querySelector`, `classList`, the active-tab class on tab buttons, the minimise button's text and the content area's styles): only the decisions are modelled.
- In the real DOM, `renderContent` also returns early when the content area is missing. The panel's own markup always contains it, so the model does not represent that case.
- `toastr` notifications and the user panel's `/sys` chat dispatch with nested `setTimeout`s (src/UserOutfitPanel.js:168-197): timer-driven I/O. The model returns the notification text instead.
- `saveSettingsDebounced` and `dragElement`: calls into code that is not part of this model. `Outcome.Completed` stands for "saved and finished".
- The outfit manager (`getPresets`, `getDefaultPresetName`, `hasDefaultOutfit`, `savePreset`, `loadPreset`, `loadDefaultOutfit`, `setPresetAsDefault`, `deletePreset`, `changeOutfitItem`, `getOutfitData`, `initializeOutfit`, `setCharacter`): not part of this model. Its answers are parameters, and its `deletePreset` is an uninterpreted function parameter.
- The wear, set-default and slot-change handlers (src/BotOutfitPanel.js:96-103, 134-141, 179-195; src/UserOutfitPanel.js:96-103, 126-133): each calls the manager, reports its message, saves the settings and re-renders the content.
- The refresh handlers and `updateCharacter` (src/BotOutfitPanel.js:340-343, 357-364; src/UserOutfitPanel.js:222-225): they call the manager and re-render without reporting anything; `updateCharacter` also rewrites the header text. The panel's own code in these handlers and in those above writes neither the panel's fields nor the settings tree; whatever the manager's calls write there is not modelled.
- `renderSlots` (src/BotOutfitPanel.js:80-107): it draws the manager's slot data. Only its label function `formatSlotName` is modelled.
- `async`/`await` around manager calls. In the model, each handler runs to completion in one step.
- The listeners that every `show()` adds again to the minimise, refresh and close buttons (src/BotOutfitPanel.js:333-346, src/UserOutfitPanel.js:220-229): the element is built once, so after the n-th `show()` one click runs its handler n times. For the minimise button this is a Finding: `BotPanel.Panel.minimizeListeners` counts the listeners and `Panel.MinimizeButtonClicked` runs `Panel.ToggleMinimize` once per listener. The repeated `initializeOutfit` and `hide` runs are not modelled.
- The user panel's delete and save handlers redraw into the existing container (src/UserOutfitPanel.js:142, 161) rather than through `renderContent`. `UserPanel.DeleteClicked` returns only the outcome; what the tab then shows is stated by `UserPanel.RenderPresetsInto` and `UserPanel.RerenderStacksLists` (see Findings).
- A manager message that is not a string (for example `undefined`): the model takes messages as strings, so the bot panel's `undefined Default outfit cleared.` text is not represented.
- `Text.UpperChar`, `Text.LowerChar`: only ASCII letters are case-mapped. JavaScript also maps other letters, some of them to several characters. For that reason `SlotName.FormatSlotNameLength` is stated for the ASCII mapping only.
- `Text.ReplaceFirst`: the replacement is inserted literally. JavaScript expands the `$` patterns (`$&`, `$$`, `` $` ``, `$'`) of a string replacement, which this function does not do. The one call passes `Underwear`, which holds no `$`, so the slot label is unaffected.
- `SlotName.CapitalizeFirst`: `/^./` does not match a leading line terminator. Upper-casing never changes such characters, so the model upper-cases the first character unconditionally.

## Findings

| source | as written | input that shows it | evidently intended | confidence | as-written member | corrected member |
|---|---|---|---|---|---|---|
| src/BotOutfitPanel.js:262-263 | the ban on `default` is tested on the untrimmed name, then the trimmed name is passed to `savePreset` | the prompt answer ` default ` (with surrounding spaces) is saved as `default`, the key reserved for the unnamed default outfit; likewise a blank answer is saved as the empty name | test the trimmed name: refuse any case variant of `default`, ignore a blank name | medium, not executed; the manager's `savePreset` is not part of this model and might refuse the name itself | `BotPanel.SaveGateTrimsAfterBan` | `BotPanel.SaveGateIntendedIsSafe` |
| src/UserOutfitPanel.js:142-161 | after a delete or a save the handler calls `renderPresets(container)` on the container already drawn; only the empty-list branch (line 113) replaces its content, while the rows (line 146) and the save button (line 165) are appended | with presets `a` and `b` drawn, deleting `a` leaves the old rows `a`, `b` and the old save button, followed by a new row `b` and a second save button | redraw the tab on an emptied container, as `renderContent` does (line 65) and as the bot panel does after every handler | high, not executed | `UserPanel.RerenderStacksLists` | `UserPanel.RerenderShowsCurrentList` |
| src/BotOutfitPanel.js:333-338 | every `show()` attaches another click listener to the minimise button of the one element `createPanel` builds | show, hide, show, then one minimise click: `toggleMinimize` runs twice and the panel stays expanded | attach the listener once, when the element is built, so each click minimises or expands the panel. This alone does not make a reopened panel right: `hide()` clears `isMinimized` without calling `updateMinimizeState` (lines 349-355), so a panel minimised, closed and shown again keeps its tabs and content hidden and its button reading `+` (lines 311-315) while `isMinimized` is false, and its first click leaves it collapsed; those styles are not modelled | high, not executed | `BotPanel.ReopenThenMinimize` | `BotPanel.ReopenThenMinimizeAttachingOnce` |
