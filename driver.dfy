/**
 * `transcribe_audio` (main.py): a linear chain of steps, each of which may
 * end the run early. The dialogs' results are inputs; the calls into the
 * speech model and the file system are recorded, in order, as effects, so
 * that "returns before the model is loaded" and "no file is written" can be
 * stated. The segments the model would return are an input as well.
 */
module Driver {
  import opened Wrappers
  import opened Options
  import opened Srt

  /** A call that leaves the program: loading a model, transcribing, writing the output file. */
  datatype Effect =
    | LoadModel(model: string)
    | Transcribe(audio: string, language: string)
    | WriteFile(path: string, contents: string)

  /** How a run ends: one of the three early exits, or with the file saved. */
  datatype Exit = NoModelOrLanguage | NoAudioFile | NoOutputFile | Saved(path: string)

  /** Python truthiness of an optional string: present and not empty. */
  predicate Given(s: Option<string>) {
    s.Some? && s.value != ""
  }

  /**
   * One run. `event` ends the option dialog, `audio` and `output` are what the
   * open and save dialogs return (None or "" when cancelled), and `segments`
   * is what the speech model produces for the audio.
   */
  method TranscribeAudio(event: DialogEvent, audio: Option<string>, output: Option<string>, segments: seq<Segment>)
    returns (exit: Exit, effects: seq<Effect>)
    ensures var (model, language) := DialogResult(event);
      && (!Given(model) || !Given(language) ==> exit == NoModelOrLanguage && effects == [])
      && (Given(model) && Given(language) && !Given(audio) ==> exit == NoAudioFile && effects == [])
      && (Given(model) && Given(language) && Given(audio) && !Given(output) ==> exit == NoOutputFile && effects == [])
      && (Given(model) && Given(language) && Given(audio) && Given(output) ==>
            exit == Saved(output.value)
            && effects == [LoadModel(model.value), Transcribe(audio.value, language.value),
                           WriteFile(output.value, Document(segments))])
  {
    var model, language := ChooseModelAndLanguage(event);
    if !Given(model) || !Given(language) {
      return NoModelOrLanguage, [];
    }
    if !Given(audio) {
      return NoAudioFile, [];
    }
    if !Given(output) {
      return NoOutputFile, [];
    }
    var contents := WriteSrt(segments);
    effects := [LoadModel(model.value), Transcribe(audio.value, language.value), WriteFile(output.value, contents)];
    exit := Saved(output.value);
  }

  /** Confirming the untouched dialog passes the first guard with model "tiny" and language "en". */
  lemma DefaultsPassFirstGuard()
    ensures Given(DialogResult(ConfirmDefaults).0) && Given(DialogResult(ConfirmDefaults).1)
    ensures DialogResult(ConfirmDefaults).0.value == "tiny" && DialogResult(ConfirmDefaults).1.value == "en"
  {
    DefaultSelection();
  }

  /** Any pair of entries the readonly dropdowns offer passes the first guard. */
  lemma OfferedChoicePassesFirstGuard(i: nat, j: nat)
    requires i < |ModelOptions| && j < |LanguageOptions|
    ensures DialogResult(Confirm(ModelOptions[i].0, LanguageOptions[j].0))
         == (Some(ModelOptions[i].1), Some(LanguageOptions[j].1))
    ensures Given(Some(ModelOptions[i].1)) && Given(Some(LanguageOptions[j].1))
  {
    EveryOptionResolves(ModelOptions, i);
    EveryOptionResolves(LanguageOptions, j);
  }
}
