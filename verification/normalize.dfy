/** The two `normalizeImageValue` helpers that turn a host image reference into
    a URL: the controller's (outfit-board index.js) and the canvas view's
    (OutfitBoard.web.js). They disagree on zero, on a non-string nested
    `image.uri`, and on which object fields they try. */
module Normalize {
  import opened Base
  import opened Js

  /** The controller's result: `url` is `None` for a bundled-asset number. The
      native `rnSource` half is not modelled. */
  datatype Resolved = Resolved(url: Option<string>)

  /** `img?.uri || img?.image?.uri || img?.url || img?.data?.uri`. */
  function MaybeUri(img: Value): Value {
    Or(Get(img, "uri"), Or(Get(Get(img, "image"), "uri"),
       Or(Get(img, "url"), Get(Get(img, "data"), "uri"))))
  }

  /** The strings the controller's normalizer may return as a URL. */
  predicate FromInput(img: Value, u: string) {
    (img.Str? && u == img.s)
    || Get(img, "uri") == Str(u)
    || Get(Get(img, "image"), "uri") == Str(u)
    || Get(Get(img, "data"), "uri") == Str(u)
    || Get(img, "url") == Str(u)
    || (!img.Num? && u == ToText(img))
  }

  /** normalizeImageValue of the controller. Falsy values other than 0 give
      null; a string is its own URL; a number has no URL; an object yields the
      first non-empty string among `uri`, `image.uri`, `data.uri` and `url`,
      else its `String()` text when that is non-empty. Any URL it returns is a
      non-empty string taken from the input. */
  function NormalizeImageValue(img: Value): (r: Option<Resolved>)
    ensures !Truthy(img) && img != Num(0.0) ==> r == None
    ensures img.Str? && img.s != [] ==> r == Some(Resolved(Some(img.s)))
    ensures img.Num? ==> r == Some(Resolved(None))
    ensures img.Obj? && IsUrlString(Get(img, "uri")) ==> r == Some(Resolved(Some(Get(img, "uri").s)))
    ensures r.Some? && r.value.url.Some? ==> r.value.url.value != [] && FromInput(img, r.value.url.value)
  {
    if !Truthy(img) && img != Num(0.0) then None
    else if img.Str? then Some(Resolved(Some(img.s)))
    else if img.Num? then Some(Resolved(None))
    else if img.Obj? && IsUrlString(Get(img, "uri")) then
      Some(Resolved(Some(Get(img, "uri").s)))
    else if img.Obj? && Truthy(Get(img, "image")) && IsUrlString(Get(Get(img, "image"), "uri")) then
      Some(Resolved(Some(Get(Get(img, "image"), "uri").s)))
    else if img.Obj? && Truthy(Get(img, "data")) && IsUrlString(Get(Get(img, "data"), "uri")) then
      Some(Resolved(Some(Get(Get(img, "data"), "uri").s)))
    else if img.Obj? && IsUrlString(Get(img, "url")) then
      Some(Resolved(Some(Get(img, "url").s)))
    else if img.Obj? && IsUrlString(MaybeUri(img)) then
      Some(Resolved(Some(MaybeUri(img).s)))
    else if ToText(img) != [] then Some(Resolved(Some(ToText(img))))
    else None
  }

  /** The URL the controller de-duplicates on (`normalized?.url || null`). */
  function UrlOf(img: Value): Option<string> {
    match NormalizeImageValue(img)
    case Some(Resolved(u)) => u
    case None => None
  }

  /** The object fields are tried in order `uri`, `image.uri`, `data.uri`,
      `url`: a later field is used only when the earlier ones are not strings. */
  lemma NormalizeFieldPriority(img: Value, u: string)
    requires img.Obj? && u != []
    ensures (Get(Get(img, "image"), "uri") == Str(u) && !IsUrlString(Get(img, "uri")))
              ==> UrlOf(img) == Some(u)
    ensures (Get(Get(img, "data"), "uri") == Str(u) && !IsUrlString(Get(img, "uri"))
             && !IsUrlString(Get(Get(img, "image"), "uri")))
              ==> UrlOf(img) == Some(u)
    ensures (Get(img, "url") == Str(u) && !IsUrlString(Get(img, "uri"))
             && !IsUrlString(Get(Get(img, "image"), "uri"))
             && !IsUrlString(Get(Get(img, "data"), "uri")))
              ==> UrlOf(img) == Some(u)
  {
  }

  /** The last field probe (`maybeUri`) never yields a URL the four earlier
      probes missed: its first truthy field is a non-empty string only when one
      of them already matched. */
  lemma MaybeUriIsRedundant(img: Value)
    requires img.Obj?
    requires !IsUrlString(Get(img, "uri"))
    requires !IsUrlString(Get(Get(img, "image"), "uri"))
    requires !IsUrlString(Get(Get(img, "data"), "uri"))
    requires !IsUrlString(Get(img, "url"))
    ensures !IsUrlString(MaybeUri(img))
  {
  }

  /** The canvas view's result: `url` is whatever value it settles on, `Null`
      for a number. */
  datatype WebResolved = WebResolved(url: Value)

  /** normalizeImageValue of the canvas view. Every falsy value, 0 included,
      gives null; a string is its own URL; an object with a non-empty string
      `uri` gives it; a truthy nested `image.uri` is taken without checking
      that it is a string; a number gives a null URL; otherwise the first
      truthy of `uri`, `image.uri` and `String(img)`. */
  function WebNormalizeImageValue(img: Value): (r: Option<WebResolved>)
    ensures !Truthy(img) ==> r == None
    ensures img.Str? && img.s != [] ==> r == Some(WebResolved(img))
    ensures img.Obj? && IsUrlString(Get(img, "uri")) ==> r == Some(WebResolved(Get(img, "uri")))
    ensures img.Num? && img.n != 0.0 ==> r == Some(WebResolved(Null))
    ensures r.Some? ==> r.value.url == Null || Truthy(r.value.url)
  {
    if !Truthy(img) then None
    else if img.Str? then Some(WebResolved(img))
    else if img.Obj? && IsUrlString(Get(img, "uri")) then Some(WebResolved(Get(img, "uri")))
    else if Truthy(Get(img, "image")) && Truthy(Get(Get(img, "image"), "uri")) then
      Some(WebResolved(Get(Get(img, "image"), "uri")))
    else if img.Num? then Some(WebResolved(Null))
    else
      var maybeUri := Or(Get(img, "uri"), Or(Get(Get(img, "image"), "uri"), Str(ToText(img))));
      if Truthy(maybeUri) then Some(WebResolved(maybeUri)) else None
  }

  /** Both helpers agree on strings and on objects with a string `uri`. */
  lemma NormalizersAgree(img: Value)
    requires img.Str? || (img.Obj? && IsUrlString(Get(img, "uri")))
    ensures UrlOf(img).Some? <==> WebNormalizeImageValue(img).Some?
    ensures UrlOf(img).Some? ==> WebNormalizeImageValue(img).value.url == Str(UrlOf(img).value)
  {
  }

  /** They disagree on 0 (a bundled asset id): the controller returns a result
      without a URL, the canvas view returns nothing. */
  lemma NormalizersDisagreeOnZero()
    ensures NormalizeImageValue(Num(0.0)) == Some(Resolved(None))
    ensures WebNormalizeImageValue(Num(0.0)) == None
  {
  }

  /** The canvas view passes a non-string nested `image.uri` through as the
      URL, where the controller falls back to `String(img)`. */
  lemma NestedUriNotChecked(shown: string)
    requires shown != []
    ensures var img := Obj(map["image" := Obj(map["uri" := Num(5.0)], "[object Object]")], shown);
            WebNormalizeImageValue(img) == Some(WebResolved(Num(5.0)))
            && UrlOf(img) == Some(shown)
  {
    var inner := Obj(map["uri" := Num(5.0)], "[object Object]");
    var img := Obj(map["image" := inner], shown);
    assert Get(img, "image") == inner;
    assert Get(img, "uri") == Undefined && Get(img, "url") == Undefined && Get(img, "data") == Undefined;
    assert Get(inner, "uri") == Num(5.0);
  }
}
