/** The command palette (`src/components/CommandPalette.tsx`): a dialog that
    lists the spells matching a search text, ranks its items with a custom
    scoring function, and opens and closes from the keyboard. */
module Palette {
  import opened Text
  import opened Seqs
  import opened Spells

  // ---------------------------------------------------------------------
  // Searching the spells
  // ---------------------------------------------------------------------

  /** A spell matches when the lower-cased query occurs, at some index, in
      its lower-cased title or in its lower-cased language; the code is not
      searched. */
  function MatchesQuery(spell: Spell, query: string): (m: bool)
    ensures m <==> Occurs(Lower(spell.title), Lower(query)) || Occurs(Lower(spell.language), Lower(query))
  {
    ContainsIffOccurs(Lower(spell.title), Lower(query));
    ContainsIffOccurs(Lower(spell.language), Lower(query));
    Contains(Lower(spell.title), Lower(query)) || Contains(Lower(spell.language), Lower(query))
  }

  /** `filteredSpells`: the matching spells, in the order they were given
      and with their duplicates. */
  function FilterSpells(spells: seq<Spell>, query: string): (r: seq<Spell>)
    ensures IsSubsequence(r, spells)
    ensures forall i :: 0 <= i < |r| ==> r[i] in spells && MatchesQuery(r[i], query)
    ensures forall i :: 0 <= i < |spells| && MatchesQuery(spells[i], query) ==> spells[i] in r
    ensures forall sp :: multiset(r)[sp] == if MatchesQuery(sp, query) then multiset(spells)[sp] else 0
  {
    Filter(spells, (sp: Spell) => MatchesQuery(sp, query))
  }

  /** The empty query lists every spell, in order. */
  lemma EmptyQueryListsAll(spells: seq<Spell>)
    ensures FilterSpells(spells, "") == spells
  {
    forall i | 0 <= i < |spells| ensures MatchesQuery(spells[i], "") {
      ContainsEmpty(Lower(spells[i].title));
    }
    FilterKeepsAll(spells, (sp: Spell) => MatchesQuery(sp, ""));
  }

  /** The search ignores letter case: two queries with the same lower case
      list the same spells. */
  lemma SearchIgnoresCase(spells: seq<Spell>, q1: string, q2: string)
    requires Lower(q1) == Lower(q2)
    ensures FilterSpells(spells, q1) == FilterSpells(spells, q2)
  {
    FilterCongruent(spells, (sp: Spell) => MatchesQuery(sp, q1), (sp: Spell) => MatchesQuery(sp, q2));
  }

  /** In particular a query and its lower case list the same spells. */
  lemma SearchByLowerCase(spells: seq<Spell>, query: string)
    ensures FilterSpells(spells, Lower(query)) == FilterSpells(spells, query)
  {
    LowerIdempotent(query);
    SearchIgnoresCase(spells, Lower(query), query);
  }

  /** Whether a spell matches does not depend on its code. */
  lemma SearchIgnoresCode(spell: Spell, code: string, query: string)
    ensures MatchesQuery(spell.(code := code), query) == MatchesQuery(spell, query)
  {
  }

  // ---------------------------------------------------------------------
  // Ranking the palette's items
  // ---------------------------------------------------------------------

  /** The three values the palette's scoring function returns: 0, 0.5
      and 1. */
  datatype Rank = Zero | Half | One

  /** The palette's `filter`: 1 when the lower-cased search occurs in the
      lower-cased item text, else 0.5 when some space-separated word of the
      text, lower-cased, begins with it, else 0. The 0.5 branch is never
      taken: a word that begins with the search puts the search inside the
      whole text, so the score is 1 exactly on containment and 0
      otherwise. */
  function CommandScore(value: string, search: string): (rank: Rank)
    ensures rank == One <==> Contains(Lower(value), Lower(search))
    ensures rank == Zero <==> !Contains(Lower(value), Lower(search))
    ensures rank != Half
  {
    var q := Lower(search);
    var words := Split(value, ' ');
    WordPrefixesAreSubstrings(value, search);
    if Contains(Lower(value), q) then One
    else if exists k | 0 <= k < |words| :: StartsWith(Lower(words[k]), q) then Half
    else Zero
  }

  /** A word of the text that begins with the search puts the search inside
      the whole text as well, once both are lower-cased one character at a
      time. */
  lemma WordPrefixIsSubstring(value: string, search: string, k: int)
    requires 0 <= k < |Split(value, ' ')|
    requires StartsWith(Lower(Split(value, ' ')[k]), Lower(search))
    ensures Contains(Lower(value), Lower(search))
  {
    var word := Split(value, ' ')[k];
    SplitWordsInString(value, ' ', k);
    LowerKeepsContains(value, word);
    StartsWithContains(Lower(word), Lower(search));
    ContainsTransitive(Lower(value), Lower(word), Lower(search));
  }

  /** The same for every word at once. */
  lemma WordPrefixesAreSubstrings(value: string, search: string)
    ensures forall k | 0 <= k < |Split(value, ' ')| ::
              StartsWith(Lower(Split(value, ' ')[k]), Lower(search)) ==> Contains(Lower(value), Lower(search))
  {
    forall k | 0 <= k < |Split(value, ' ')| && StartsWith(Lower(Split(value, ' ')[k]), Lower(search))
      ensures Contains(Lower(value), Lower(search))
    {
      WordPrefixIsSubstring(value, search, k);
    }
  }

  /** The empty search gives every item the top score. */
  lemma EmptySearchScoresOne(value: string)
    ensures CommandScore(value, "") == One
  {
    ContainsEmpty(Lower(value));
  }

  // ---------------------------------------------------------------------
  // Opening and closing
  // ---------------------------------------------------------------------

  /** The parts of a `keydown` event the handler reads. */
  datatype KeyEvent = KeyEvent(key: string, ctrlKey: bool, metaKey: bool)

  /** Ctrl+K or Meta+K; the key is compared case-sensitively. */
  predicate IsShortcut(e: KeyEvent)
  {
    (e.ctrlKey || e.metaKey) && e.key == "k"
  }

  /** The open state after the `keydown` handler: the shortcut toggles it,
      Escape closes an open palette, and any other key leaves it alone. */
  function NextOpen(isOpen: bool, e: KeyEvent): (open: bool)
    ensures IsShortcut(e) ==> open == !isOpen
    ensures e.key == "Escape" ==> !open
    ensures !IsShortcut(e) && e.key != "Escape" ==> open == isOpen
  {
    var toggled := if IsShortcut(e) then !isOpen else isOpen;
    if e.key == "Escape" && isOpen then false else toggled
  }

  /** Pressing the shortcut twice restores the open state. */
  lemma ShortcutTwiceRestores(isOpen: bool, e: KeyEvent)
    requires IsShortcut(e)
    ensures NextOpen(NextOpen(isOpen, e), e) == isOpen
  {
  }

  /** Escape on a closed palette changes nothing. */
  lemma EscapeWhenClosed(e: KeyEvent)
    requires e.key == "Escape"
    ensures NextOpen(false, e) == false
  {
  }

  /** The callbacks the palette invokes on its parent. */
  datatype Callback = HarvestCalled | DeleteCalled(id: string)

  /** The palette's state: whether the dialog is open (a prop the parent
      owns, updated through `setIsOpen`), the search text, and the callbacks
      invoked so far. */
  class CommandPalette {
    var isOpen: bool
    var searchQuery: string
    var calls: seq<Callback>

    constructor (open: bool)
      ensures isOpen == open && searchQuery == "" && calls == []
    {
      isOpen := open;
      searchQuery := "";
      calls := [];
    }

    /** The spells the palette lists for the current search text. */
    function Listed(spells: seq<Spell>): (r: seq<Spell>)
      reads this
      ensures IsSubsequence(r, spells)
      ensures forall i :: 0 <= i < |r| ==> MatchesQuery(r[i], searchQuery)
      ensures forall i :: 0 <= i < |spells| && MatchesQuery(spells[i], searchQuery) ==> spells[i] in r
      ensures forall sp :: multiset(r)[sp] == if MatchesQuery(sp, searchQuery) then multiset(spells)[sp] else 0
    {
      FilterSpells(spells, searchQuery)
    }

    /** The `keydown` handler. Both tests read the open state captured when
        the handler was installed; at most one of them fires, since a key
        is never both "k" and "Escape". */
    method KeyDown(e: KeyEvent)
      modifies this
      ensures isOpen == NextOpen(old(isOpen), e)
      ensures searchQuery == old(searchQuery) && calls == old(calls)
    {
      var wasOpen := isOpen;
      if IsShortcut(e) {
        isOpen := !wasOpen;
      }
      if e.key == "Escape" && wasOpen {
        isOpen := false;
      }
    }

    /** The input's `onValueChange`. */
    method SetSearchQuery(query: string)
      modifies this
      ensures searchQuery == query
      ensures isOpen == old(isOpen) && calls == old(calls)
    {
      searchQuery := query;
    }

    /** Selecting the "new harvest" command: calls `onHarvestCode`, then
        closes the palette. */
    method SelectHarvestCommand()
      modifies this
      ensures calls == old(calls) + [HarvestCalled]
      ensures !isOpen && searchQuery == old(searchQuery)
    {
      calls := calls + [HarvestCalled];
      isOpen := false;
    }

    /** Selecting a listed spell only closes the palette. */
    method SelectSpell(spell: Spell)
      modifies this
      ensures !isOpen
      ensures searchQuery == old(searchQuery) && calls == old(calls)
    {
      isOpen := false;
    }

    /** A spell's delete button: calls `onDeleteSpell` with that spell's id;
        the click does not reach the item, so the palette stays as it was. */
    method DeleteButton(spell: Spell)
      modifies this
      ensures calls == old(calls) + [DeleteCalled(spell.id)]
      ensures isOpen == old(isOpen) && searchQuery == old(searchQuery)
    {
      calls := calls + [DeleteCalled(spell.id)];
    }
  }
}
