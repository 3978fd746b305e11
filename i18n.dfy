/**
 * `I18n`: the message table used as the fallback text of translated messages.
 * The bundled language resources are a parameter: a map from language code to
 * the resource "assets/x-backup/lang/<code>.json", which either decodes to a
 * map of strings or does not.
 */
module I18n {
  import opened Wrappers

  const DefaultLanguage: string := "en_us"

  /** A bundled language resource: a JSON object of strings, or text that does not decode as one. */
  datatype LangFile = Json(entries: map<string, string>) | Malformed

  /** Why loading a language fails: `getLanguageFile`'s `IllegalArgumentException`, or the decoder's exception. */
  datatype LoadError = NotFound(lang: string) | NotDecodable(lang: string)

  /** `setLanguage`'s `IllegalStateException`: English failed too, with the first failure suppressed. */
  datatype LanguageError = DefaultLanguageFailed(cause: LoadError, suppressed: LoadError)

  /** `getLanguageFile(lang).use { Json.decodeFromStream(it) }`. */
  function Load(resources: map<string, LangFile>, lang: string): (r: Result<map<string, string>, LoadError>)
    ensures r == Failure(NotFound(lang)) <==> lang !in resources
    ensures r.Success? <==> lang in resources && resources[lang].Json?
    ensures r.Success? ==> r.value == resources[lang].entries
  {
    if lang !in resources then Failure(NotFound(lang))
    else if resources[lang].Malformed? then Failure(NotDecodable(lang))
    else Success(resources[lang].entries)
  }

  /** `putAll(english)` then `putAll(lang)` on an empty map. */
  function Overlay(english: map<string, string>, lang: map<string, string>): map<string, string>
  {
    english + lang
  }

  /** In the overlay every key of either map is present, and the requested language wins. */
  lemma OverlayLookup(english: map<string, string>, lang: map<string, string>)
    ensures forall k :: k in Overlay(english, lang) <==> k in english || k in lang
    ensures forall k :: k in lang ==> Overlay(english, lang)[k] == lang[k]
    ensures forall k :: k in english && k !in lang ==> Overlay(english, lang)[k] == english[k]
  {
  }

  /** Overlaying English on itself changes nothing, so asking for English gives the English table. */
  lemma OverlaySelf(english: map<string, string>)
    ensures Overlay(english, english) == english
  {
  }

  /** The `I18n` object: the current table and the bundled resources. */
  class Translations {
    var langMap: map<string, string>
    const resources: map<string, LangFile>

    constructor(resources: map<string, LangFile>)
      ensures langMap == map[] && this.resources == resources
    {
      langMap := map[];
      this.resources := resources;
    }

    /** The fallback text `translate` passes for `key`: the table's entry, or `null`. */
    function Fallback(key: string): (r: Option<string>)
      reads this
      ensures r.Some? <==> key in langMap
      ensures r.Some? ==> r.value == langMap[key]
    {
      if key in langMap then Some(langMap[key]) else None
    }

    /**
     * `setLanguage`: load the requested language, then English; on success the table
     * is English overlaid by the requested language. If either load fails, the table
     * is English alone; if English fails then too, the call throws and the table is
     * left as it was.
     */
    method SetLanguage(lang: string) returns (err: Option<LanguageError>)
      modifies this
      ensures var requested := Load(resources, lang);
        var english := Load(resources, DefaultLanguage);
        if requested.Success? && english.Success? then
          err.None? && langMap == Overlay(english.value, requested.value)
        else if english.Success? then
          err.None? && langMap == english.value
        else
          langMap == old(langMap) &&
          err == Some(DefaultLanguageFailed(english.error, if requested.Failure? then requested.error else english.error))
    {
      var requested := Load(resources, lang);
      var first: LoadError;
      if requested.Success? {
        var english := Load(resources, DefaultLanguage);
        if english.Success? {
          langMap := map[];
          langMap := langMap + english.value;
          langMap := langMap + requested.value;
          return None;
        }
        first := english.error;
      } else {
        first := requested.error;
      }
      // the fallback: English alone
      var english := Load(resources, DefaultLanguage);
      if english.Failure? {
        return Some(DefaultLanguageFailed(english.error, first));
      }
      langMap := map[];
      langMap := langMap + english.value;
      err := None;
    }
  }
}
