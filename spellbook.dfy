/** The spellbook panel (`src/components/CodeSpellbook.tsx`): the list of
    spells with an icon per language, the spell selected for the detail
    pane, and the copy-to-clipboard feedback. */
module Spellbook {
  import opened Wrappers
  import opened Spells

  // ---------------------------------------------------------------------
  // Icons
  // ---------------------------------------------------------------------

  /** The languages that have an icon of their own, in the order of the
      `switch`. */
  const IconLanguages: seq<string> :=
    ["javascript", "typescript", "python", "java", "csharp", "cpp", "ruby",
     "go", "rust", "php", "html", "css", "sql"]

  /** The scroll, for every other language. */
  const DefaultIcon: string := "\U{1F4DC}"

  /** `getSpellIcon`: a case-sensitive `switch` on the language, with the
      scroll as its default. */
  function SpellIcon(language: string): (icon: string)
    ensures icon == DefaultIcon <==> language !in IconLanguages
    ensures |icon| >= 1
  {
    match language
    case "javascript" => "\U{26A1}"          // high voltage
    case "typescript" => "\U{1F537}"         // large blue diamond
    case "python" => "\U{1F40D}"             // snake
    case "java" => "\U{2615}"                // hot beverage
    case "csharp" => "\U{1F527}"             // wrench
    case "cpp" => "\U{2699}\U{FE0F}"         // gear, emoji presentation
    case "ruby" => "\U{1F48E}"               // gem stone
    case "go" => "\U{1F535}"                 // large blue circle
    case "rust" => "\U{1F980}"               // crab
    case "php" => "\U{1F418}"                // elephant
    case "html" => "\U{1F310}"               // globe with meridians
    case "css" => "\U{1F3A8}"                // artist palette
    case "sql" => "\U{1F5C4}\U{FE0F}"        // file cabinet, emoji presentation
    case _ => DefaultIcon
  }

  /** Which listed language an icon stands for: the inverse of the
      `switch`, with nothing for the scroll or any other text. */
  function IconLanguage(icon: string): Option<string>
  {
    match icon
    case "\U{26A1}" => Some("javascript")
    case "\U{1F537}" => Some("typescript")
    case "\U{1F40D}" => Some("python")
    case "\U{2615}" => Some("java")
    case "\U{1F527}" => Some("csharp")
    case "\U{2699}\U{FE0F}" => Some("cpp")
    case "\U{1F48E}" => Some("ruby")
    case "\U{1F535}" => Some("go")
    case "\U{1F980}" => Some("rust")
    case "\U{1F418}" => Some("php")
    case "\U{1F310}" => Some("html")
    case "\U{1F3A8}" => Some("css")
    case "\U{1F5C4}\U{FE0F}" => Some("sql")
    case _ => None
  }

  /** Every listed language can be read back from its icon. */
  lemma IconRoundTrip(language: string)
    requires language in IconLanguages
    ensures IconLanguage(SpellIcon(language)) == Some(language)
  {
  }

  /** No two languages of the `switch` share an icon. */
  lemma IconsDistinct(a: string, b: string)
    requires a in IconLanguages && b in IconLanguages && a != b
    ensures SpellIcon(a) != SpellIcon(b)
  {
    IconRoundTrip(a);
    IconRoundTrip(b);
  }

  /** The match is on the exact string: a capitalised name gets the scroll. */
  lemma IconIsCaseSensitive()
    ensures SpellIcon("Python") == DefaultIcon
    ensures SpellIcon("python") != DefaultIcon
  {
  }

  // ---------------------------------------------------------------------
  // Selection and the detail pane
  // ---------------------------------------------------------------------

  /** `spells.find(s => s.id === id)`: the first spell with that id. */
  function FindById(spells: seq<Spell>, id: string): (r: Option<Spell>)
    ensures r.None? <==> !HasId(spells, id)
    ensures r.Some? ==> exists i :: 0 <= i < |spells| && spells[i] == r.value && FirstWithId(spells, id, i)
    decreases |spells|
  {
    if spells == [] then None
    else if spells[0].id == id then
      assert FirstWithId(spells, id, 0);
      Some(spells[0])
    else
      var r := FindById(spells[1..], id);
      FindPastHead(spells, id, r);
      r
  }

  /** What a search of the tail says about the whole list when the head
      does not carry the id. */
  lemma FindPastHead(spells: seq<Spell>, id: string, r: Option<Spell>)
    requires spells != [] && spells[0].id != id
    requires r.None? <==> !HasId(spells[1..], id)
    requires r.Some? ==> exists i :: 0 <= i < |spells[1..]| && spells[1..][i] == r.value && FirstWithId(spells[1..], id, i)
    ensures r.None? <==> !HasId(spells, id)
    ensures r.Some? ==> exists i :: 0 <= i < |spells| && spells[i] == r.value && FirstWithId(spells, id, i)
  {
    var rest := spells[1..];
    if HasId(rest, id) {
      var i :| 0 <= i < |rest| && rest[i].id == id;
      assert spells[i + 1] == rest[i];
    }
    if HasId(spells, id) {
      var i :| 0 <= i < |spells| && spells[i].id == id;
      assert rest[i - 1] == spells[i];
    }
    if r.Some? {
      var i :| 0 <= i < |rest| && rest[i] == r.value && FirstWithId(rest, id, i);
      assert FirstWithId(spells, id, i + 1) by {
        forall j | 0 <= j < i + 1 ensures spells[j].id != id {
          if j > 0 {
            assert spells[j] == rest[j - 1];
          }
        }
      }
    }
  }

  /** `spells[i]` carries `id` and no earlier spell does. */
  ghost predicate FirstWithId(spells: seq<Spell>, id: string, i: int)
  {
    0 <= i < |spells| && spells[i].id == id && forall j :: 0 <= j < i ==> spells[j].id != id
  }

  /** The `useState` initialiser: the first spell's id, or null for an empty
      list. It runs once, when the panel mounts. */
  function InitialActive(spells: seq<Spell>): (active: Option<string>)
    ensures active.None? <==> spells == []
    ensures active.Some? ==> active.value == spells[0].id
  {
    if |spells| > 0 then Some(spells[0].id) else None
  }

  /** The spell in the detail pane: nothing when no id is selected (null,
      or the falsy empty string), else the first spell with the selected
      id, if any. */
  function ShownSpell(spells: seq<Spell>, active: Option<string>): (r: Option<Spell>)
    ensures r.Some? ==> r.value in spells && active == Some(r.value.id)
    ensures r.Some? ==> exists i :: FirstWithId(spells, active.value, i) && spells[i] == r.value
    ensures r.None? <==> active.None? || active.value == "" || !HasId(spells, active.value)
  {
    if active.None? || active.value == "" then None else FindById(spells, active.value)
  }

  /** On mount the detail pane shows the newest spell (given a non-empty
      id). */
  lemma InitiallyShowsFirst(spells: seq<Spell>)
    requires spells != [] && spells[0].id != ""
    ensures ShownSpell(spells, InitialActive(spells)) == Some(spells[0])
  {
    assert FindById(spells, spells[0].id) == Some(spells[0]);
  }

  /** With distinct ids, selecting a listed spell shows that spell. */
  lemma SelectedSpellIsShown(spells: seq<Spell>, i: int)
    requires UniqueIds(spells) && 0 <= i < |spells| && spells[i].id != ""
    ensures ShownSpell(spells, Some(spells[i].id)) == Some(spells[i])
  {
    assert HasId(spells, spells[i].id);
    var r := FindById(spells, spells[i].id);
    var k :| 0 <= k < |spells| && spells[k] == r.value && FirstWithId(spells, spells[i].id, k);
    assert k == i;
  }

  /** Once the selected spell is deleted the detail pane is empty: the
      selection is not moved to another spell. */
  lemma DeletedSpellNotShown(spells: seq<Spell>, id: string)
    ensures ShownSpell(WithoutId(spells, id), Some(id)) == None
  {
    assert !HasId(WithoutId(spells, id), id);
  }

  // ---------------------------------------------------------------------
  // The panel
  // ---------------------------------------------------------------------

  /** What the panel renders: the empty-state card, or the list headed by
      the number of spells and a noun. */
  datatype Panel = EmptyState | Listing(count: nat, noun: string)

  /** The noun after the count. */
  function CountNoun(n: nat): (noun: string)
    ensures noun == "spell" <==> n == 1
    ensures noun == "spell" || noun == "spells"
  {
    if n == 1 then "spell" else "spells"
  }

  function SpellbookPanel(spells: seq<Spell>): (p: Panel)
    ensures p.EmptyState? <==> spells == []
    ensures p.Listing? ==> p.count == |spells| && (p.noun == "spell" <==> |spells| == 1)
    ensures p.Listing? ==> p.noun == "spell" || p.noun == "spells"
  {
    if |spells| == 0 then EmptyState else Listing(|spells|, CountNoun(|spells|))
  }

  /** The panel's own state: the selected id and the id whose copy feedback
      is showing. */
  class SpellbookView {
    var activeSpell: Option<string>
    var copying: Option<string>

    constructor (spells: seq<Spell>)
      ensures activeSpell == InitialActive(spells) && copying == None
    {
      activeSpell := InitialActive(spells);
      copying := None;
    }

    /** The detail pane for the current spells. */
    function Shown(spells: seq<Spell>): (r: Option<Spell>)
      reads this
      ensures r.Some? ==> r.value in spells && activeSpell == Some(r.value.id)
      ensures r.Some? ==> exists i :: FirstWithId(spells, activeSpell.value, i) && spells[i] == r.value
      ensures r.None? <==> activeSpell.None? || activeSpell.value == "" || !HasId(spells, activeSpell.value)
    {
      ShownSpell(spells, activeSpell)
    }

    /** A click on a list entry selects it. */
    method SelectSpell(spell: Spell)
      modifies this
      ensures activeSpell == Some(spell.id) && copying == old(copying)
    {
      activeSpell := Some(spell.id);
    }

    /** The copy button: the spell's code is what goes to the clipboard
        (returned), and the feedback shows for that spell. */
    method CopyToClipboard(spell: Spell) returns (clipboard: string)
      modifies this
      ensures clipboard == spell.code
      ensures copying == Some(spell.id) && activeSpell == old(activeSpell)
    {
      clipboard := spell.code;
      copying := Some(spell.id);
    }

    /** The feedback timer fires. */
    method CopyFeedbackExpires()
      modifies this
      ensures copying == None && activeSpell == old(activeSpell)
    {
      copying := None;
    }
  }
}
