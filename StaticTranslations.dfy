// The renderer's translation helpers (src/public/scripts/modules/
// staticTranslations.js): how a `data-i18n` attribute or a key given to
// `window.t` becomes the (key, namespace) pair sent to the main process,
// and what `t` answers when the key is unusable or the request fails.
//
// The request itself is an input: `lookup(key, namespace)` is the message
// getLanguageMessage resolves to, None when its promise rejects. Writing
// the text into the element (title, placeholder, value, textContent) and
// the MutationObserver are DOM work and are left out.

module StaticTranslations {
  import opened Common

  /** The arguments of getLanguageMessage. */
  datatype Request = Request(namespace: string, key: string)

  /** The namespace used by `t` for a key without a '.'. */
  const DefaultNamespace := "ui"

  /** `split('.')`; with more than one part the first is the namespace and
      the others, joined again by '.', the key; otherwise the whole input is
      the key and `defaultNamespace` the namespace. */
  function SplitKey(input: string, defaultNamespace: string): (r: Request)
    ensures '.' in input ==> '.' !in r.namespace && r.namespace + "." + r.key == input
    ensures '.' !in input ==> r == Request(defaultNamespace, input)
  {
    var parts := Split(input, '.');
    SplitSingleIffNoSep(input, '.');
    if |parts| > 1 then
      SplitPiecesFree(input, '.');
      JoinSplit(input, '.');
      Request(parts[0], Join(parts[1..], '.'))
    else
      Request(defaultNamespace, input)
  }

  /** A dotted input is cut at its first '.': the namespace is everything
      before it, the key everything after, dots included. */
  lemma SplitAtFirstDot(input: string, defaultNamespace: string, i: nat)
    requires i < |input| && input[i] == '.' && '.' !in input[..i]
    ensures SplitKey(input, defaultNamespace) == Request(input[..i], input[i + 1..])
  {
    var r := SplitKey(input, defaultNamespace);
    assert input[i] in input;
    var n := |r.namespace|;
    assert input[n] == '.' by {
      assert input == r.namespace + "." + r.key;
    }
    assert input == input[..i] + "." + input[i + 1..];
  }

  /** `element.dataset.i18nNamespace || 'ui'`: a missing or empty attribute
      falls back to 'ui'. */
  function ElementNamespace(nsAttr: Option<string>): (r: string)
    ensures r != ""
    ensures nsAttr.Some? && nsAttr.value != "" ==> r == nsAttr.value
    ensures nsAttr.None? || nsAttr.value == "" ==> r == DefaultNamespace
  {
    if nsAttr.Some? && nsAttr.value != "" then nsAttr.value else DefaultNamespace
  }

  /** processElement: the request made for an element with attribute
      `data-i18n` = `attr` (None when absent) and `data-i18n-namespace` =
      `nsAttr`; None when the element is skipped. */
  function ElementRequest(attr: Option<string>, nsAttr: Option<string>): (r: Option<Request>)
    ensures r.None? <==> attr.None? || attr.value == ""
    ensures r.Some? && '.' in attr.value ==>
      '.' !in r.value.namespace && r.value.namespace + "." + r.value.key == attr.value
    ensures r.Some? && '.' !in attr.value ==> r.value == Request(ElementNamespace(nsAttr), attr.value)
  {
    if attr.None? || attr.value == "" then None
    else Some(SplitKey(attr.value, ElementNamespace(nsAttr)))
  }

  /** processElement: the text written into the element, None when nothing
      is written (no attribute, or the request failed and was only logged). */
  function ElementText(attr: Option<string>, nsAttr: Option<string>, lookup: (string, string) -> Option<string>): (r: Option<string>)
    ensures r.Some? ==> attr.Some? && attr.value != ""
    ensures ElementRequest(attr, nsAttr).None? ==> r.None?
    ensures ElementRequest(attr, nsAttr).Some? ==>
      r == lookup(ElementRequest(attr, nsAttr).value.key, ElementRequest(attr, nsAttr).value.namespace)
  {
    match ElementRequest(attr, nsAttr)
    case None => None
    case Some(req) => lookup(req.key, req.namespace)
  }

  /** `window.t`: `i18nKey` is None for an argument that is not a string. */
  function T(i18nKey: Option<string>, lookup: (string, string) -> Option<string>): (r: string)
  {
    if i18nKey.None? || i18nKey.value == "" then ""
    else
      var req := SplitKey(i18nKey.value, DefaultNamespace);
      match lookup(req.key, req.namespace)
      case Some(message) => message
      case None => i18nKey.value
  }

  /** t answers '' for an empty or non-string key without asking, the
      message when the request succeeds, and the key itself when it fails. */
  lemma TFallbacks(i18nKey: Option<string>, lookup: (string, string) -> Option<string>)
    ensures i18nKey.None? || i18nKey.value == "" ==> T(i18nKey, lookup) == ""
    ensures i18nKey.Some? && i18nKey.value != "" ==>
      var req := SplitKey(i18nKey.value, DefaultNamespace);
      && (lookup(req.key, req.namespace).None? ==> T(i18nKey, lookup) == i18nKey.value)
      && (lookup(req.key, req.namespace).Some? ==> T(i18nKey, lookup) == lookup(req.key, req.namespace).value)
  {
  }

  /** A usable key that cannot be resolved is shown as itself, never as ''. */
  lemma TFailureVisible(key: string, lookup: (string, string) -> Option<string>)
    requires key != ""
    requires forall k, ns :: lookup(k, ns).None?
    ensures T(Some(key), lookup) == key && T(Some(key), lookup) != ""
  {
  }

  /** An element and `t` ask for the same message for a dotted key, and for
      an undotted one exactly when the element's namespace is 'ui' (or
      absent). */
  lemma ElementAgreesWithT(key: string, nsAttr: Option<string>, lookup: (string, string) -> Option<string>)
    requires key != ""
    ensures '.' in key ==> ElementText(Some(key), nsAttr, lookup) == lookup(SplitKey(key, DefaultNamespace).key, SplitKey(key, DefaultNamespace).namespace)
    ensures ElementRequest(Some(key), nsAttr) == Some(SplitKey(key, DefaultNamespace)) <==>
      '.' in key || ElementNamespace(nsAttr) == DefaultNamespace
  {
  }
}
