/** The spell collection kept by the page component (`src/pages/Index.tsx`):
    an ordered list of records, newest first, that is written back to local
    storage after every change. */
module Spells {
  import opened Wrappers
  import opened Text
  import opened Seqs

  /** One stored snippet. `timestamp` is the creation time in milliseconds. */
  datatype Spell = Spell(id: string, title: string, code: string, language: string, timestamp: int)

  /** A toast: its heading, its text, and whether it uses the "destructive"
      variant. */
  datatype Toast = Toast(title: string, description: string, destructive: bool)

  ghost predicate HasId(spells: seq<Spell>, id: string)
  {
    exists i :: 0 <= i < |spells| && spells[i].id == id
  }

  /** No two records share an id. */
  ghost predicate UniqueIds(spells: seq<Spell>)
  {
    forall i, j :: 0 <= i < |spells| && 0 <= j < |spells| && i != j ==> spells[i].id != spells[j].id
  }

  // ---------------------------------------------------------------------
  // The two updaters handed to `setSpells`
  // ---------------------------------------------------------------------

  /** Prepending a record whose id is fresh keeps the ids distinct. */
  lemma HarvestKeepsIdsUnique(prev: seq<Spell>, spell: Spell)
    requires UniqueIds(prev) && !HasId(prev, spell.id)
    ensures UniqueIds([spell] + prev)
  {
    var s := [spell] + prev;
    forall i, j | 0 <= i < |s| && 0 <= j < |s| && i != j
      ensures s[i].id != s[j].id
    {
      if i > 0 && j > 0 {
        assert s[i] == prev[i - 1] && s[j] == prev[j - 1];
      } else if i == 0 {
        assert s[j] == prev[j - 1];
      } else {
        assert s[i] == prev[i - 1];
      }
    }
  }

  /** `prev.filter(spell => spell.id !== id)`: the records whose id differs,
      in their original order and with their duplicates. */
  function WithoutId(spells: seq<Spell>, id: string): (r: seq<Spell>)
    ensures IsSubsequence(r, spells)
    ensures forall i :: 0 <= i < |r| ==> r[i].id != id && r[i] in spells
    ensures forall i :: 0 <= i < |spells| && spells[i].id != id ==> spells[i] in r
    ensures forall sp :: multiset(r)[sp] == if sp.id != id then multiset(spells)[sp] else 0
  {
    Filter(spells, (sp: Spell) => sp.id != id)
  }

  /** Deleting an id that no record carries changes nothing. */
  lemma WithoutAbsentId(spells: seq<Spell>, id: string)
    requires !HasId(spells, id)
    ensures WithoutId(spells, id) == spells
  {
    FilterKeepsAll(spells, (sp: Spell) => sp.id != id);
  }

  /** Deleting the same id twice is deleting it once. */
  lemma WithoutIdIdempotent(spells: seq<Spell>, id: string)
    ensures WithoutId(WithoutId(spells, id), id) == WithoutId(spells, id)
  {
    var once := WithoutId(spells, id);
    assert !HasId(once, id);
    WithoutAbsentId(once, id);
  }

  /** The tail of a collection with distinct ids has distinct ids, none of
      them the head's. */
  lemma UniqueIdsTail(spells: seq<Spell>)
    requires spells != [] && UniqueIds(spells)
    ensures UniqueIds(spells[1..]) && !HasId(spells[1..], spells[0].id)
  {
    var rest := spells[1..];
    forall i | 0 <= i < |rest| ensures rest[i].id != spells[0].id {
      assert rest[i] == spells[i + 1];
    }
    forall i, j | 0 <= i < |rest| && 0 <= j < |rest| && i != j
      ensures rest[i].id != rest[j].id
    {
      assert rest[i] == spells[i + 1] && rest[j] == spells[j + 1];
    }
  }

  /** When the head does not carry `id`, the tail carries it exactly when
      the whole collection does. */
  lemma HasIdPastHead(spells: seq<Spell>, id: string)
    requires spells != [] && spells[0].id != id
    ensures HasId(spells, id) <==> HasId(spells[1..], id)
  {
    var rest := spells[1..];
    if HasId(spells, id) {
      var i :| 0 <= i < |spells| && spells[i].id == id;
      assert rest[i - 1] == spells[i];
    }
    if HasId(rest, id) {
      var i :| 0 <= i < |rest| && rest[i].id == id;
      assert spells[i + 1] == rest[i];
    }
  }

  /** With distinct ids, a delete removes one record if the id is present
      and none otherwise. */
  lemma {:induction false} WithoutIdLength(spells: seq<Spell>, id: string)
    requires UniqueIds(spells)
    ensures |WithoutId(spells, id)| == if HasId(spells, id) then |spells| - 1 else |spells|
    decreases |spells|
  {
    if spells != [] {
      var rest := spells[1..];
      UniqueIdsTail(spells);
      if spells[0].id == id {
        WithoutAbsentId(rest, id);
        assert WithoutId(spells, id) == WithoutId(rest, id);
      } else {
        WithoutIdLength(rest, id);
        assert WithoutId(spells, id) == [spells[0]] + WithoutId(rest, id);
        HasIdPastHead(spells, id);
      }
    }
  }

  /** A delete keeps the ids distinct. */
  lemma {:induction false} WithoutIdKeepsIdsUnique(spells: seq<Spell>, id: string)
    requires UniqueIds(spells)
    ensures UniqueIds(WithoutId(spells, id))
    decreases |spells|
  {
    if spells != [] {
      var rest := spells[1..];
      UniqueIdsTail(spells);
      WithoutIdKeepsIdsUnique(rest, id);
      if spells[0].id != id {
        var tail := WithoutId(rest, id);
        assert WithoutId(spells, id) == [spells[0]] + tail;
        assert !HasId(tail, spells[0].id) by {
          forall i | 0 <= i < |tail| ensures tail[i].id != spells[0].id {
            var k :| 0 <= k < |rest| && rest[k] == tail[i];
          }
        }
        HarvestKeepsIdsUnique(tail, spells[0]);
      } else {
        assert WithoutId(spells, id) == WithoutId(rest, id);
      }
    }
  }

  // ---------------------------------------------------------------------
  // Notifications
  // ---------------------------------------------------------------------

  /** The toast raised by a harvest; its text quotes the spell's title. */
  function HarvestedToast(title: string): (t: Toast)
    ensures Contains(t.description, title)
    ensures !t.destructive
  {
    var tail := "\" spell has been added to your magical spellbook.";
    StartsWithContains(title + tail, title);
    ContainsInSuffix("Your \"", title + tail, title);
    assert "Your \"" + title + tail == "Your \"" + (title + tail);
    Toast("Code Spell Harvested!", "Your \"" + title + tail, false)
  }

  /** The toast raised by every delete, whether or not a record was removed. */
  const RemovedToast := Toast("Spell Removed", "The spell has been removed from your spellbook.", true)

  // ---------------------------------------------------------------------
  // The page's state
  // ---------------------------------------------------------------------

  /** The `spells` state cell of the page, together with the copy last
      written to local storage under the key "codeSpells" and the toasts
      raised so far. */
  class SpellStore {
    var spells: seq<Spell>
    ghost var persisted: seq<Spell>
    var toasts: seq<Toast>

    /** The effect that writes the collection back has run since the last
        change. */
    ghost predicate Valid()
      reads this
    {
      persisted == spells
    }

    /** The lazy initial state: the decoded stored collection if the key
        holds a non-empty value (`saved`), the empty collection otherwise.
        The write-back effect also runs once on mount. */
    constructor (saved: Option<seq<Spell>>)
      ensures Valid()
      ensures saved.None? ==> spells == []
      ensures saved.Some? ==> spells == saved.value
      ensures toasts == []
    {
      spells := if saved.Some? then saved.value else [];
      toasts := [];
      persisted := spells;
    }

    /** `handleCodeHarvest`: prepends a record built from the arguments, the
        id the uuid source supplied (`freshId`) and the clock (`now`),
        without checking any of them; raises the success toast; and writes
        the collection back. */
    method HarvestCode(code: string, language: string, title: string, freshId: string, now: int)
      requires Valid()
      modifies this
      ensures Valid()
      ensures spells == [Spell(freshId, title, code, language, now)] + old(spells)
      ensures toasts == old(toasts) + [HarvestedToast(title)]
      ensures UniqueIds(old(spells)) && !HasId(old(spells), freshId) ==> UniqueIds(spells)
    {
      var spell := Spell(freshId, title, code, language, now);
      spells := [spell] + spells;
      toasts := toasts + [HarvestedToast(title)];
      persisted := spells;
      if UniqueIds(old(spells)) && !HasId(old(spells), freshId) {
        HarvestKeepsIdsUnique(old(spells), spell);
      }
    }

    /** `handleDeleteSpell`: keeps the records whose id differs, raises the
        "Spell Removed" toast whether or not one was removed, and writes the
        collection back. */
    method DeleteSpell(id: string)
      requires Valid()
      modifies this
      ensures Valid()
      ensures spells == WithoutId(old(spells), id)
      ensures toasts == old(toasts) + [RemovedToast]
      ensures !HasId(old(spells), id) ==> spells == old(spells)
      ensures UniqueIds(old(spells)) ==> UniqueIds(spells)
      ensures UniqueIds(old(spells)) ==>
                |spells| == if HasId(old(spells), id) then |old(spells)| - 1 else |old(spells)|
    {
      spells := WithoutId(spells, id);
      toasts := toasts + [RemovedToast];
      persisted := spells;
      if !HasId(old(spells), id) {
        WithoutAbsentId(old(spells), id);
      }
      if UniqueIds(old(spells)) {
        WithoutIdKeepsIdsUnique(old(spells), id);
        WithoutIdLength(old(spells), id);
      }
    }
  }
}
