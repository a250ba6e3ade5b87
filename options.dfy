/**
 * The model and language dialog of main.py: two static label-to-code tables,
 * the first-match lookup `next((val for (label, val) in T if label == x), None)`,
 * and the `selected` dictionary that the OK button fills and Cancel leaves alone.
 * The window itself is replaced by the event that ends it.
 */
module Options {
  import opened Wrappers

  type Table = seq<(string, string)>

  /** Models offered in the dropdown, as (label, model name). */
  const ModelOptions: Table := [
    ("tiny (Multilingual)", "tiny"),
    ("tiny.en (English-only)", "tiny.en"),
    ("base (Multilingual)", "base"),
    ("base.en (English-only)", "base.en"),
    ("small (Multilingual)", "small"),
    ("small.en (English-only)", "small.en"),
    ("medium (Multilingual)", "medium"),
    ("medium.en (English-only)", "medium.en"),
    ("large (Multilingual)", "large"),
    ("turbo (Multilingual)", "turbo")
  ]

  /** Languages offered in the dropdown, as (label, language code). */
  const LanguageOptions: Table := [
    ("English", "en"),
    ("Portuguese (Brazil)", "pt"),
    ("Spanish", "es"),
    ("French", "fr"),
    ("German", "de"),
    ("Italian", "it"),
    ("Chinese", "zh"),
    ("Japanese", "ja")
  ]

  predicate HasLabel(table: Table, caption: string) {
    exists i :: 0 <= i < |table| && table[i].0 == caption
  }

  predicate DistinctLabels(table: Table) {
    forall i, j :: 0 <= i < j < |table| ==> table[i].0 != table[j].0
  }

  /**
   * The first-match search: the code of the first entry whose label is
   * `caption`, or None when no entry has that label.
   */
  function Lookup(table: Table, caption: string): (r: Option<string>)
    ensures r.None? <==> !HasLabel(table, caption)
    ensures r.Some? ==> exists k :: 0 <= k < |table| && table[k] == (caption, r.value)
                                    && forall j :: 0 <= j < k ==> table[j].0 != caption
  {
    if table == [] then None
    else if table[0].0 == caption then Some(table[0].1)
    else
      var r := Lookup(table[1..], caption);
      assert HasLabel(table[1..], caption) ==> HasLabel(table, caption);
      assert HasLabel(table, caption) ==> HasLabel(table[1..], caption) by {
        if HasLabel(table, caption) {
          var i :| 0 <= i < |table| && table[i].0 == caption;
          assert table[1..][i - 1].0 == caption;
        }
      }
      if r.Some? then
        var k :| 0 <= k < |table[1..]| && table[1..][k] == (caption, r.value)
                 && forall j :: 0 <= j < k ==> table[1..][j].0 != caption;
        assert table[k + 1] == (caption, r.value);
        assert forall j :: 1 <= j < k + 1 ==> table[j] == table[1..][j - 1];
        r
      else r
  }

  /** With distinct labels, first match is the unique match: every entry is found by its label. */
  lemma {:induction false} LookupFindsEntry(table: Table, i: nat)
    requires DistinctLabels(table) && i < |table|
    ensures Lookup(table, table[i].0) == Some(table[i].1)
  {
    var r := Lookup(table, table[i].0);
    assert HasLabel(table, table[i].0);
    var k :| 0 <= k < |table| && table[k] == (table[i].0, r.value)
             && forall j :: 0 <= j < k ==> table[j].0 != table[i].0;
    assert k == i;
  }

  /** No two entries of either table share a label. */
  lemma TablesHaveDistinctLabels()
    ensures DistinctLabels(ModelOptions) && DistinctLabels(LanguageOptions)
  {
  }

  /** Every label the readonly dropdown can show maps to its own code, and codes are never empty. */
  lemma EveryOptionResolves(table: Table, i: nat)
    requires table == ModelOptions || table == LanguageOptions
    requires i < |table|
    ensures Lookup(table, table[i].0) == Some(table[i].1) && table[i].1 != ""
  {
    TablesHaveDistinctLabels();
    LookupFindsEntry(table, i);
  }

  /** The `selected` dictionary of the dialog. */
  class Selection {
    var model: Option<string>
    var language: Option<string>

    /** `selected = {"model": None, "language": None}`. */
    constructor ()
      ensures model == None && language == None
    {
      model := None;
      language := None;
    }

    /** The OK callback: look both dropdown labels up in their tables. */
    method OnOk(modelLabel: string, languageLabel: string)
      modifies this
      ensures model == Lookup(ModelOptions, modelLabel)
      ensures language == Lookup(LanguageOptions, languageLabel)
    {
      model := Lookup(ModelOptions, modelLabel);
      language := Lookup(LanguageOptions, languageLabel);
    }

    /** The Cancel callback only closes the window. */
    method OnCancel()
      ensures model == old(model) && language == old(language)
    {
    }
  }

  /**
   * How the dialog's event loop ends: OK with the labels the two dropdowns
   * show, the Cancel button, or the window being closed.
   */
  datatype DialogEvent = Confirm(modelLabel: string, languageLabel: string) | Cancel | Close

  /** OK pressed without touching the dropdowns, which start on their first entries. */
  const ConfirmDefaults: DialogEvent := Confirm(ModelOptions[0].0, LanguageOptions[0].0)

  /** What the dialog returns for an event: the looked-up codes on OK, nothing otherwise. */
  function DialogResult(event: DialogEvent): (Option<string>, Option<string>) {
    match event
    case Confirm(m, l) => (Lookup(ModelOptions, m), Lookup(LanguageOptions, l))
    case _ => (None, None)
  }

  /** `choose_model_and_language_gui`, with the event loop's outcome as input. */
  method ChooseModelAndLanguage(event: DialogEvent) returns (model: Option<string>, language: Option<string>)
    ensures (model, language) == DialogResult(event)
    ensures event.Confirm? && HasLabel(ModelOptions, event.modelLabel) ==> model.Some?
    ensures event.Confirm? && HasLabel(LanguageOptions, event.languageLabel) ==> language.Some?
    ensures !event.Confirm? ==> model.None? && language.None?
  {
    var selected := new Selection();
    match event {
      case Confirm(m, l) => selected.OnOk(m, l);
      case _ => selected.OnCancel();
    }
    model, language := selected.model, selected.language;
  }

  /** Confirming the untouched dialog selects model "tiny" and language "en". */
  lemma DefaultSelection()
    ensures DialogResult(ConfirmDefaults) == (Some("tiny"), Some("en"))
  {
    EveryOptionResolves(ModelOptions, 0);
    EveryOptionResolves(LanguageOptions, 0);
  }
}
