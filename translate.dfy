/** `translate_fr`: best-effort translation to French. */
module Translate {
  import opened Wrappers

  /** `translate` is the translation service: the translated text, or `None` when the call
      raised. An empty text is returned as `""` without calling it; a failed call returns the
      text unchanged. */
  function TranslateFr(text: string, translate: string -> Option<string>): (r: string)
    ensures text == "" ==> r == ""
    ensures text != "" && translate(text).None? ==> r == text
    ensures text != "" && translate(text).Some? ==> r == translate(text).value
  {
    if text == "" then "" else translate(text).GetOr(text)
  }

  /** The result is the text itself or the service's answer for it, and an empty text does
      not depend on the service. */
  lemma TranslateFrSources(text: string, translate: string -> Option<string>, other: string -> Option<string>)
    ensures var r := TranslateFr(text, translate);
      r == text || translate(text) == Some(r)
    ensures TranslateFr("", translate) == TranslateFr("", other)
  {
  }
}
