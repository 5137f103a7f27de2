/** The harvest form (`src/components/CodeEditor.tsx`): a title, a language
    and the code, and a button that hands them to the page after a short
    animation delay. The delay is modelled as two steps: the click that
    schedules the hand-over, and the timer firing. */
module Editor {
  import opened Text

  /** The values of the language `<select>`, in the order shown. */
  const LanguageOptions: seq<string> :=
    ["javascript", "typescript", "python", "java", "csharp", "cpp", "ruby",
     "go", "rust", "php", "html", "css", "sql"]

  /** `!s.trim()`: nothing but whitespace. */
  predicate IsBlank(s: string)
  {
    Trim(s) == []
  }

  /** The guard of `handleHarvest`: it passes exactly when both the code and
      the title hold a character other than whitespace. */
  function CanHarvest(code: string, title: string): (ok: bool)
    ensures ok <==> !AllWhitespace(code) && !AllWhitespace(title)
  {
    !IsBlank(code) && !IsBlank(title)
  }

  /** The button's `disabled` attribute: set while a harvest runs, and
      whenever the code or the title is whitespace only (empty included). */
  function ButtonDisabled(isHarvesting: bool, code: string, title: string): (disabled: bool)
    ensures disabled <==> isHarvesting || AllWhitespace(code) || AllWhitespace(title)
  {
    isHarvesting || IsBlank(code) || IsBlank(title)
  }

  /** The preview is rendered when the code is a non-empty string; it is not
      trimmed, so every code the guard accepts is previewed, and the empty
      code never is. */
  function ShowsPreview(code: string): (shown: bool)
    ensures code == "" ==> !shown
    ensures !AllWhitespace(code) ==> shown
  {
    code != []
  }

  /** The button is enabled exactly when no harvest is running and the
      guard of `handleHarvest` passes. */
  lemma ButtonEnabledIff(isHarvesting: bool, code: string, title: string)
    ensures !ButtonDisabled(isHarvesting, code, title) <==> !isHarvesting && CanHarvest(code, title)
  {
  }

  /** Code made of whitespace only is previewed, yet the button stays
      disabled for it. */
  lemma WhitespaceCodePreviewedNotHarvestable(code: string, title: string, isHarvesting: bool)
    requires code != [] && forall i :: 0 <= i < |code| ==> IsWhitespace(code[i])
    ensures ShowsPreview(code)
    ensures ButtonDisabled(isHarvesting, code, title)
    ensures !CanHarvest(code, title)
  {
  }

  /** The arguments of one `onCodeHarvest` call. */
  datatype Harvest = Harvest(code: string, language: string, title: string)

  /** The form's state. `pending` holds, oldest first, the hand-overs that
      `setTimeout` has scheduled and not yet run, each with the values its
      callback captured. */
  class CodeEditor {
    var code: string
    var language: string
    var title: string
    var isHarvesting: bool
    var pending: seq<Harvest>

    /** The language, and every language captured for a hand-over, is one
        of the select's options, and a running harvest has a hand-over
        scheduled. */
    ghost predicate Valid()
      reads this
    {
      && language in LanguageOptions
      && (forall k :: 0 <= k < |pending| ==> pending[k].language in LanguageOptions)
      && (isHarvesting ==> pending != [])
    }

    /** Harvests never overlap: a harvest is running exactly when one
        hand-over is scheduled. The disabled button keeps this so. */
    ghost predicate OneAtATime()
      reads this
    {
      if isHarvesting then |pending| == 1 else pending == []
    }

    constructor ()
      ensures Valid() && OneAtATime()
      ensures code == "" && language == "javascript" && title == "" && !isHarvesting
      ensures pending == []
    {
      code := "";
      language := "javascript";
      title := "";
      isHarvesting := false;
      pending := [];
    }

    /** The code textarea's `onChange`. */
    method SetCode(s: string)
      requires Valid()
      modifies this
      ensures Valid() && (old(OneAtATime()) ==> OneAtATime())
      ensures code == s
      ensures language == old(language) && title == old(title)
      ensures isHarvesting == old(isHarvesting) && pending == old(pending)
    {
      code := s;
    }

    /** The title input's `onChange`. */
    method SetTitle(s: string)
      requires Valid()
      modifies this
      ensures Valid() && (old(OneAtATime()) ==> OneAtATime())
      ensures title == s
      ensures code == old(code) && language == old(language)
      ensures isHarvesting == old(isHarvesting) && pending == old(pending)
    {
      title := s;
    }

    /** The language select's `onChange`, which only ever reports one of its
        options. */
    method SetLanguage(l: string)
      requires Valid() && l in LanguageOptions
      modifies this
      ensures Valid() && (old(OneAtATime()) ==> OneAtATime())
      ensures language == l
      ensures code == old(code) && title == old(title)
      ensures isHarvesting == old(isHarvesting) && pending == old(pending)
    {
      language := l;
    }

    /** `handleHarvest`: when the code or the title is blank it does
        nothing; otherwise it marks the harvest as running and schedules the
        hand-over of the current, untrimmed values. It does not look at
        `isHarvesting` itself. */
    method HandleHarvest()
      requires Valid()
      modifies this
      ensures Valid()
      ensures code == old(code) && language == old(language) && title == old(title)
      ensures CanHarvest(old(code), old(title)) ==>
                isHarvesting && pending == old(pending) + [Harvest(old(code), old(language), old(title))]
      ensures !CanHarvest(old(code), old(title)) ==>
                isHarvesting == old(isHarvesting) && pending == old(pending)
    {
      if CanHarvest(code, title) {
        isHarvesting := true;
        pending := pending + [Harvest(code, language, title)];
      }
    }

    /** A click on the harvest button, which reaches `handleHarvest` only
        when the button is enabled. */
    method ClickHarvestButton()
      requires Valid()
      modifies this
      ensures Valid() && (old(OneAtATime()) ==> OneAtATime())
      ensures code == old(code) && language == old(language) && title == old(title)
      ensures ButtonDisabled(old(isHarvesting), old(code), old(title)) ==>
                isHarvesting == old(isHarvesting) && pending == old(pending)
      ensures !ButtonDisabled(old(isHarvesting), old(code), old(title)) ==>
                isHarvesting && pending == old(pending) + [Harvest(old(code), old(language), old(title))]
    {
      if !ButtonDisabled(isHarvesting, code, title) {
        HandleHarvest();
      }
    }

    /** The oldest scheduled timer fires: it calls `onCodeHarvest` with the
        values captured when it was scheduled (returned as `call`), ends the
        harvest and clears the code and the title. The language stays. */
    method CompleteHarvest() returns (call: Harvest)
      requires Valid() && pending != []
      modifies this
      ensures Valid() && (old(OneAtATime()) ==> OneAtATime())
      ensures call == old(pending)[0] && pending == old(pending)[1..]
      ensures !isHarvesting && code == "" && title == ""
      ensures language == old(language)
    {
      call := pending[0];
      pending := pending[1..];
      isHarvesting := false;
      code := "";
      title := "";
    }

    /** A whole harvest from an idle form: the click, then the timer. The
        page receives exactly the values the form held at the click, and
        the form ends idle with empty code and title and the same
        language. */
    method HarvestCycle() returns (call: Harvest)
      requires Valid() && OneAtATime() && !isHarvesting
      requires CanHarvest(code, title)
      modifies this
      ensures Valid() && OneAtATime()
      ensures call == Harvest(old(code), old(language), old(title))
      ensures !isHarvesting && code == "" && title == "" && language == old(language)
    {
      ClickHarvestButton();
      call := CompleteHarvest();
    }
  }
}
