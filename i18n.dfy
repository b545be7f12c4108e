/** The library's translation shortcuts t() and tp(). When a translation
    service is running the call is handed to it; otherwise the message id
    comes back as it is. */
module I18n {
  import opened Php

  /** The optional QCubed\I18n\TranslationService with a translator: what its
      translate and translatePlural calls return. */
  datatype Translator =
    | NoService
    | Service(translate: (string, Option<string>) -> string,
              translatePlural: (string, string, int, Option<string>) -> string)

  /** t(): translates a message id. */
  function T(service: Translator, msgId: string, context: Option<string>): (r: string)
    ensures service.NoService? ==> r == msgId
    ensures service.Service? ==> r == service.translate(msgId, context)
  {
    match service
    case NoService => msgId
    case Service(translate, _) => translate(msgId, context)
  }

  /** tp(): picks the singular or the plural form for `n`. */
  function Tp(service: Translator, singular: string, plural: string, n: int, context: Option<string>): (r: string)
    ensures service.NoService? && n == 1 ==> r == singular
    ensures service.NoService? && n != 1 ==> r == plural
    ensures service.Service? ==> r == service.translatePlural(singular, plural, n, context)
  {
    match service
    case NoService => if n == 1 then singular else plural
    case Service(_, translatePlural) => translatePlural(singular, plural, n, context)
  }

  /** Without a service the context argument changes nothing. */
  lemma FallbackIgnoresContext(msgId: string, singular: string, plural: string, n: int, c1: Option<string>, c2: Option<string>)
    ensures T(NoService, msgId, c1) == T(NoService, msgId, c2)
    ensures Tp(NoService, singular, plural, n, c1) == Tp(NoService, singular, plural, n, c2)
  {
  }
}
