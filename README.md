# Code spellbook: a verified model of its state rules

The code spellbook is a small React widget for storing code snippets
("spells"). A spell has an id, a title, the code, a language and a
creation timestamp. The page keeps the spells in one list, newest first, and
writes the whole list back to local storage after every change. A form
harvests new spells. A spellbook panel lists them, each with an icon for its
language, and shows the selected one. A command palette searches them by
title or language.

This project models the parts of the widget that are rules rather than
markup, and proves what those rules guarantee:

- `spells.dfy` (module `Spells`) holds the page's collection as a class.
  `HarvestCode` prepends a record. `DeleteSpell` keeps the records whose id
  differs. Both raise a toast and rewrite the persisted copy. The proofs
  cover the order and contents after each change, distinct ids, delete's
  idempotence and its effect on length, and the toast that names the title.
- `palette.dfy` (module `Palette`) holds the case-insensitive search over
  title and language, the palette's three-valued item score, and the
  open/closed state driven by Ctrl/Meta+K and Escape. One proof shows that
  the 0.5 score can never be returned: when a word of the text begins with
  the search, the search already occurs in the lower-cased text, so the
  first test returns 1.
- `editor.dfy` (module `Editor`) holds the harvest form as a class. The
  trim-based guard, the disabled button and the preview rule are
  functions; their contracts state them in terms of whitespace characters.
  The animation delay is split into two steps: the click, which schedules
  the hand-over of the values it captured, and the timer firing.
- `spellbook.dfy` (module `Spellbook`) holds the language-to-icon `switch`,
  the selection and the detail-pane lookup by id, and the count label.
- `app.dfy` (module `App`) wires the form's completion into the page's
  `handleCodeHarvest`. It also proves that every language the form offers
  has an icon of its own.
- `text.dfy` (module `Text`) gives the JavaScript string operations the
  widget calls (`toLowerCase`, `trim`, `includes`, `startsWith`, `split`)
  as functions, with their characterising lemmas. `seqs.dfy` (module
  `Seqs`) gives `Array.prototype.filter`. `wrappers.dfy` gives `Option`.

## Behaviour as the code has it

- Creating a spell does not validate anything. Only the form refuses a blank
  code or title, and it does so before calling the page.
- Deleting returns nothing. It raises "Spell Removed" even when no spell had
  the id.
- The initial load uses the stored value whenever it is a non-empty string.
  A value that is not valid JSON makes `JSON.parse` throw; it is not turned
  into an empty list.
- The record has a numeric `timestamp`, as declared in `src/pages/Index.tsx`.
  The `createdAt`/`tags`/`description` shape in `src/types/types.ts` is not
  used by the page, and the palette reads only the fields both shapes share.
- The empty string is falsy in JavaScript. So a selected id `""` shows no
  detail pane (`ShownSpell`), and a stored value `""` loads as an empty list.

## Model

| member | source | states |
|---|---|---|
| `Text.Lower` | src/components/CommandPalette.tsx:39-40 | `toLowerCase` keeps the length and maps each character through the case map |
| `Text.ContainsIffOccurs` | src/components/CommandPalette.tsx:39-40 | `includes` (the scan `Text.Contains`, which tries `startsWith` at each position) is true exactly when the needle occurs at some index of the string |
| `Text.LowerKeepsContains` | src/components/CommandPalette.tsx:50-51 | lower-casing both strings keeps an occurrence |
| `Text.Split` | src/components/CommandPalette.tsx:51 | `split(' ')` gives at least one piece and no piece holds the separator |
| `Text.JoinSplit` | src/components/CommandPalette.tsx:51 | joining the pieces of `split` with the separator gives back the string |
| `Text.SplitWordsInString` | src/components/CommandPalette.tsx:51 | every piece of `split` is a substring of the string split |
| `Text.Trim` | src/components/CodeEditor.tsx:20 | `trim` yields a string that neither begins nor ends with whitespace, and it is empty exactly when the input is all whitespace |
| `Text.TrimStripsOnlyEnds` | src/components/CodeEditor.tsx:20 | what `trim` returns occurs in the input with nothing but whitespace before it and after it, so only the two ends are cut |
| `Seqs.Filter` | src/pages/Index.tsx:49 | `filter` yields an order-preserving subsequence that holds each element passing the test exactly as many times as the input does, and no other element |
| `Seqs.FilterKeepsAll` | src/pages/Index.tsx:49 | filtering with a test every element passes changes nothing |
| `Seqs.FilterCongruent` | src/components/CommandPalette.tsx:38-41 | tests that agree on every element select the same elements |
| `Spells.HarvestKeepsIdsUnique` | src/pages/Index.tsx:33-40 | prepending a record whose id is absent keeps all ids distinct |
| `Spells.WithoutId` | src/pages/Index.tsx:49 | delete's updater yields the order-preserving subsequence of the records whose id differs, each as many times as before, and no record carrying the id |
| `Spells.WithoutAbsentId` | src/pages/Index.tsx:49 | deleting an id no record carries leaves the collection unchanged |
| `Spells.WithoutIdIdempotent` | src/pages/Index.tsx:49 | deleting the same id twice gives the same collection as deleting it once |
| `Spells.WithoutIdLength` | src/pages/Index.tsx:49 | with distinct ids, delete shortens the collection by one when the id is present and by none otherwise |
| `Spells.WithoutIdKeepsIdsUnique` | src/pages/Index.tsx:49 | delete keeps all ids distinct |
| `Spells.HarvestedToast` | src/pages/Index.tsx:42-45 | the harvest toast is not destructive and its description contains the title |
| `Spells.SpellStore.constructor` | src/pages/Index.tsx:21-29 | the collection starts as the stored one, or empty when nothing is stored, and the persisted copy equals it |
| `Spells.SpellStore.HarvestCode` | src/pages/Index.tsx:31-46 | the new collection is the record built from the unchecked arguments, the supplied id and time, followed by the old records in order; the success toast is raised; the persisted copy equals the collection; a fresh id keeps the ids distinct |
| `Spells.SpellStore.DeleteSpell` | src/pages/Index.tsx:48-56 | the new collection is the old one without the records carrying the id; "Spell Removed" is raised in every case; the persisted copy equals the collection; an absent id changes nothing; with distinct ids the length drops by one exactly when the id was present |
| `Palette.MatchesQuery` | src/components/CommandPalette.tsx:38-41 | a spell matches exactly when the lower-cased query occurs at some index of its lower-cased title or of its lower-cased language |
| `Palette.FilterSpells` | src/components/CommandPalette.tsx:38-41 | the listed spells are the order-preserving subsequence of the spells that match, each as many times as in the input, and no spell that does not match |
| `Palette.EmptyQueryListsAll` | src/components/CommandPalette.tsx:38-41 | the empty query lists every spell, unchanged and in order |
| `Palette.SearchIgnoresCase` | src/components/CommandPalette.tsx:38-41 | two queries with the same lower case list the same spells |
| `Palette.SearchByLowerCase` | src/components/CommandPalette.tsx:38-41 | a query and its lower case list the same spells |
| `Palette.SearchIgnoresCode` | src/components/CommandPalette.tsx:38-41 | whether a spell matches does not depend on its code |
| `Palette.WordPrefixIsSubstring` | src/components/CommandPalette.tsx:50-51 | a word of the text that begins with the search implies that the lower-cased text contains the lower-cased search |
| `Palette.CommandScore` | src/components/CommandPalette.tsx:48-53 | the score is 1 exactly when the lower-cased text contains the lower-cased search and 0 otherwise; the 0.5 branch, kept as written, is never taken |
| `Palette.EmptySearchScoresOne` | src/components/CommandPalette.tsx:50 | the empty search scores every item 1 |
| `Palette.NextOpen` | src/components/CommandPalette.tsx:21-31 | Ctrl/Meta+K toggles the open state, Escape leaves the palette closed, and any other key changes nothing |
| `Palette.ShortcutTwiceRestores` | src/components/CommandPalette.tsx:22-25 | pressing the shortcut twice restores the open state |
| `Palette.EscapeWhenClosed` | src/components/CommandPalette.tsx:28-30 | Escape on a closed palette leaves it closed |
| `Palette.CommandPalette.constructor` | src/components/CommandPalette.tsx:16-17 | the search text starts empty and no callback has been called |
| `Palette.CommandPalette.Listed` | src/components/CommandPalette.tsx:38-41 | the palette lists the order-preserving subsequence of the spells matching its current search text, each as many times as in the input |
| `Palette.CommandPalette.KeyDown` | src/components/CommandPalette.tsx:21-31 | the handler moves the open state as `NextOpen` says and touches nothing else |
| `Palette.CommandPalette.SetSearchQuery` | src/components/CommandPalette.tsx:58-59 | typing replaces the search text and nothing else |
| `Palette.CommandPalette.SelectHarvestCommand` | src/components/CommandPalette.tsx:69-72 | selecting the harvest command calls the harvest callback and closes the palette |
| `Palette.CommandPalette.SelectSpell` | src/components/CommandPalette.tsx:93-96 | selecting a spell closes the palette and calls nothing |
| `Palette.CommandPalette.DeleteButton` | src/components/CommandPalette.tsx:108-111 | the delete button calls delete with that spell's id and leaves the palette open or closed as it was |
| `Editor.CanHarvest` | src/components/CodeEditor.tsx:20 | the guard of `handleHarvest` passes exactly when both the code and the title hold a character other than whitespace |
| `Editor.ButtonDisabled` | src/components/CodeEditor.tsx:90 | the button is disabled exactly while a harvest runs or when the code or the title is whitespace only, empty included |
| `Editor.ShowsPreview` | src/components/CodeEditor.tsx:100 | the empty code is not previewed; every code holding a character other than whitespace is previewed |
| `Editor.ButtonEnabledIff` | src/components/CodeEditor.tsx:90 | the button is enabled exactly when no harvest is running and both trimmed code and trimmed title are non-empty |
| `Editor.WhitespaceCodePreviewedNotHarvestable` | src/components/CodeEditor.tsx:90-100 | whitespace-only code shows a preview, yet the button stays disabled and the guard refuses it |
| `Editor.CodeEditor.constructor` | src/components/CodeEditor.tsx:14-17 | the form starts with empty code and title, language "javascript", and no harvest running |
| `Editor.CodeEditor.SetCode` | src/components/CodeEditor.tsx:81 | editing the code changes only the code |
| `Editor.CodeEditor.SetTitle` | src/components/CodeEditor.tsx:42 | editing the title changes only the title |
| `Editor.CodeEditor.SetLanguage` | src/components/CodeEditor.tsx:52-71 | choosing a language changes only the language, which stays one of the thirteen options |
| `Editor.CodeEditor.HandleHarvest` | src/components/CodeEditor.tsx:19-23 | a blank code or title changes nothing and schedules nothing; otherwise a harvest is running and a hand-over of the untrimmed code, language and title is scheduled, whether or not one was already running |
| `Editor.CodeEditor.ClickHarvestButton` | src/components/CodeEditor.tsx:88-90 | a disabled button does nothing; an enabled one starts a harvest; harvests never overlap |
| `Editor.CodeEditor.CompleteHarvest` | src/components/CodeEditor.tsx:23-28 | the timer hands over the values captured at the click, ends the harvest, clears code and title, and keeps the language |
| `Editor.CodeEditor.HarvestCycle` | src/components/CodeEditor.tsx:19-29 | click then timer: the page receives exactly the code, language and title held at the click, and the form ends idle with empty code and title |
| `Spellbook.SpellIcon` | src/components/CodeSpellbook.tsx:34-65 | the icon is the default scroll exactly when the language is not one of the thirteen listed ones |
| `Spellbook.IconRoundTrip` | src/components/CodeSpellbook.tsx:34-65 | each of the thirteen listed languages is read back from its icon |
| `Spellbook.IconsDistinct` | src/components/CodeSpellbook.tsx:35-61 | two different listed languages never share an icon |
| `Spellbook.IconIsCaseSensitive` | src/components/CodeSpellbook.tsx:35-41 | "Python" gets the default icon while "python" does not |
| `Spellbook.FindById` | src/components/CodeSpellbook.tsx:125 | `find` yields nothing exactly when no spell has the id, and otherwise the first spell that has it |
| `Spellbook.InitialActive` | src/components/CodeSpellbook.tsx:25 | the first selection is the first spell's id, or none for an empty list |
| `Spellbook.ShownSpell` | src/components/CodeSpellbook.tsx:122-126 | the detail pane shows the first spell whose id is the selected one, and shows nothing exactly when no id is selected, the id is empty, or no spell has it |
| `Spellbook.InitiallyShowsFirst` | src/components/CodeSpellbook.tsx:122-126 | on mount the detail pane shows the first spell (non-empty id) |
| `Spellbook.SelectedSpellIsShown` | src/components/CodeSpellbook.tsx:122-126 | with distinct ids, the clicked spell (non-empty id) is the one shown |
| `Spellbook.DeletedSpellNotShown` | src/components/CodeSpellbook.tsx:122-126 | after the selected spell is deleted the detail pane shows nothing |
| `Spellbook.CountNoun` | src/components/CodeSpellbook.tsx:90 | the noun is "spell" exactly when the count is 1, and "spells" otherwise |
| `Spellbook.SpellbookPanel` | src/components/CodeSpellbook.tsx:67-90 | an empty list renders the empty-state card; otherwise the header shows the count, followed by "spell" exactly when it is 1 and "spells" for every other count |
| `Spellbook.SpellbookView.constructor` | src/components/CodeSpellbook.tsx:25-26 | the selection starts as the first spell's id and no copy feedback shows |
| `Spellbook.SpellbookView.Shown` | src/components/CodeSpellbook.tsx:122-126 | the pane shows the first listed spell carrying the selected id, and nothing exactly when no id is selected, the id is empty, or no spell has it |
| `Spellbook.SpellbookView.SelectSpell` | src/components/CodeSpellbook.tsx:105 | clicking an entry selects its id |
| `Spellbook.SpellbookView.CopyToClipboard` | src/components/CodeSpellbook.tsx:28-30 | the spell's code goes to the clipboard and the feedback shows for that spell |
| `Spellbook.SpellbookView.CopyFeedbackExpires` | src/components/CodeSpellbook.tsx:31 | the feedback timer clears the feedback |
| `App.FormLanguagesHaveIcons` | src/components/CodeEditor.tsx:58-70 | every language the form offers has an icon other than the default |
| `App.Page.constructor` | src/pages/Index.tsx:21-29 | the page loads the stored collection, or an empty one, with no toast raised, and mounts an idle form with empty code and title and language "javascript" |
| `App.Page.HarvestTimerFires` | src/pages/Index.tsx:79 | the form's completion files a record with the values captured at the click at the head of the collection and raises the success toast; the record's language has its own icon; the form's code and title are cleared and its language kept |

## Left out

- Local storage and JSON: the persisted copy is a ghost field equal to the collection after each write. The constructor takes the stored value already decoded. A value that `JSON.parse` rejects throws in the code; the model cannot express that.
- `uuidv4` and `Date.now`: they are parameters of `HarvestCode`. Fresh ids are a hypothesis of its distinct-ids guarantee, not something the model produces.
- Text.Lower: maps only the ASCII capitals A–Z. Full Unicode case mapping is not modelled, including mappings that change a string's length. The search lemmas rely on two properties of this map: it works one character at a time, and it is idempotent (`Text.LowerIdempotent`, used by `Palette.SearchByLowerCase`).
- How the palette's `Command` component uses the score to hide and order items: that logic lives in the UI library, which is not part of this model. Only the scoring function is modelled.
- The palette items "settings", "tips" and "docs": their handlers do nothing.
- Editor.CodeEditor.CompleteHarvest: requires a scheduled hand-over, because a timer fires only after it is scheduled. The 1.5 s delays themselves are not modelled, here or for the copy feedback. Overlapping copy timers are not tracked; the first to fire clears the feedback.
- The palette's open state belongs to its parent and is modelled as a field of the palette. The page in `src/pages/Index.tsx` does not render the palette. Adding and removing the window listener is not modelled.
- Toast rendering, the clipboard (the copied text is returned instead), syntax highlighting, date formatting, markup and styling.
- `src/components/MagicSparkles.tsx` (decorative animation) and `vite.config.ts` (build configuration) are not part of this model.
