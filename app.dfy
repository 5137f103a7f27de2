/** The page (`src/pages/Index.tsx`) as the owner of both the collection and
    the harvest form: the form's `onCodeHarvest` is the page's
    `handleCodeHarvest`, and the spellbook renders the page's collection. */
module App {
  import opened Spells
  import opened Editor
  import opened Spellbook

  /** Every language the form offers has an icon of its own in the
      spellbook, so a harvested spell never shows the scroll. */
  lemma FormLanguagesHaveIcons(language: string)
    requires language in LanguageOptions
    ensures SpellIcon(language) != DefaultIcon
  {
    assert LanguageOptions == IconLanguages;
  }

  class Page {
    const store: SpellStore
    const editor: CodeEditor

    ghost predicate Valid()
      reads this, store, editor
    {
      store.Valid() && editor.Valid()
    }

    constructor (saved: Wrappers.Option<seq<Spell>>)
      ensures Valid() && fresh(store) && fresh(editor)
      ensures saved.None? ==> store.spells == []
      ensures saved.Some? ==> store.spells == saved.value
      ensures store.toasts == []
      ensures editor.code == "" && editor.title == "" && editor.language == "javascript"
      ensures !editor.isHarvesting && editor.pending == [] && editor.OneAtATime()
    {
      store := new SpellStore(saved);
      editor := new CodeEditor();
    }

    /** The form's timer fires: the captured values go to
        `handleCodeHarvest`, which files them under the id and time the
        environment supplies. The new head of the collection holds the
        untrimmed code, language and title of the click, its language has
        an icon of its own, and the form's code and title are cleared
        while its language stays. */
    method HarvestTimerFires(freshId: string, now: int)
      requires Valid() && editor.pending != []
      modifies store, editor
      ensures Valid()
      ensures var h := old(editor.pending)[0];
        store.spells == [Spell(freshId, h.title, h.code, h.language, now)] + old(store.spells)
      ensures store.toasts == old(store.toasts) + [HarvestedToast(old(editor.pending)[0].title)]
      ensures SpellIcon(store.spells[0].language) != DefaultIcon
      ensures editor.pending == old(editor.pending)[1..]
      ensures !editor.isHarvesting && editor.code == "" && editor.title == ""
      ensures editor.language == old(editor.language)
    {
      var h := editor.CompleteHarvest();
      assert h.language in LanguageOptions;
      store.HarvestCode(h.code, h.language, h.title, freshId, now);
      FormLanguagesHaveIcons(h.language);
    }
  }
}
