/**
 * The envelope convention of `HttpClient.wrap_envelope` and `HttpClient.unwrap_envelope`.
 * Unwrapping follows Python on every decoded shape: `"items" in body` is a key test on an
 * object, an element test on a list and a substring test on a string, and raises on a
 * scalar; `body["items"]` only succeeds on an object; iterating the `items` value yields an
 * array's elements, a string's characters or an object's keys, and raises on a scalar.
 */
module Envelope {
  import opened Wrappers
  import opened Json
  import opened Errors

  /** A decoded body after unwrapping: one value, or the list of the `items` elements. */
  datatype Unwrapped = Single(value: Json) | Many(items: seq<Json>)

  /** `wrap_envelope`: the body under the container name, as the only member. */
  function Wrap(container: string, body: Json): (envelope: Json)
    ensures envelope.JObject? && Keys(envelope.members) == [container]
    ensures HasKey(envelope.members, container) && Get(envelope.members, container) == body
  {
    var envelope := JObject([(container, body)]);
    assert LastBindingAt(envelope.members, container, 0);
    envelope
  }

  /** The texts of the string values in `js`, joined in order; other values add nothing. */
  function Join(js: seq<Json>): string
  {
    if js == [] then ""
    else Join(js[..|js| - 1]) + (if js[|js| - 1].JString? then js[|js| - 1].text else "")
  }

  /** The characters of a string, each as a one-character string. */
  function Characters(s: string): (cs: seq<Json>)
    ensures |cs| == |s|
    ensures forall c :: c in cs ==> c.JString? && |c.text| == 1
    ensures Join(cs) == s
  {
    if s == [] then []
    else
      var cs := Characters(s[..|s| - 1]) + [JString([s[|s| - 1]])];
      assert cs[..|cs| - 1] == Characters(s[..|s| - 1]);
      assert s == s[..|s| - 1] + [s[|s| - 1]];
      cs
  }

  /** The keys of an object, each as a string value. */
  function KeyStrings(ks: seq<string>): (js: seq<Json>)
  {
    seq(|ks|, i requires 0 <= i < |ks| => JString(ks[i]))
  }

  /** `[item for item in v]`: what iterating a decoded value yields, or the `TypeError`. */
  function Iterate(v: Json): (r: Option<seq<Json>>)
    ensures v.JArray? ==> r == Some(v.elements)
    ensures v.JString? ==> r == Some(Characters(v.text))
    ensures v.JObject? ==> r == Some(KeyStrings(Keys(v.members)))
    ensures (v.JNull? || v.JBool? || v.JNumber?) <==> r.None?
  {
    match v
    case JArray(elements) => Some(elements)
    case JString(text) => Some(Characters(text))
    case JObject(members) => Some(KeyStrings(Keys(members)))
    case _ => None
  }

  /** `unwrap_envelope` (with `munchify` as the identity on data). */
  function Unwrap(body: Json): (r: Result<Unwrapped, Error>)
    ensures r.Success? && r.value.Many? ==>
              body.JObject? && HasKey(body.members, "items") &&
              Iterate(Get(body.members, "items")) == Some(r.value.items)
    ensures r.Success? && r.value.Single? ==> r.value.value == body
    ensures r.Failure? ==> r.error == UnwrapTypeError
    ensures body.JObject? && !HasKey(body.members, "items") ==> r == Success(Single(body))
    ensures body.JObject? && HasKey(body.members, "items") ==>
              (r.Success? <==> Iterate(Get(body.members, "items")).Some?)
    ensures (body.JNull? || body.JBool? || body.JNumber?) ==> r.Failure?
    ensures body.JObject? && HasKey(body.members, "items") && r.Success? ==> r.value.Many?
    ensures body.JArray? ==> (r.Failure? <==> JString("items") in body.elements)
    ensures body.JString? ==> (r.Failure? <==> Contains(body.text, "items"))
  {
    match body
    case JObject(members) =>
      if HasKey(members, "items") then
        match Iterate(Get(members, "items"))
        case Some(items) => Success(Many(items))
        case None => Failure(UnwrapTypeError)
      else Success(Single(body))
    case JArray(elements) =>
      // `"items" in list` holds, then indexing a list with a string raises.
      if JString("items") in elements then Failure(UnwrapTypeError) else Success(Single(body))
    case JString(text) =>
      // `"items" in str` is a substring test; indexing a string with a string raises.
      if Contains(text, "items") then Failure(UnwrapTypeError) else Success(Single(body))
    case _ =>
      // `"items" in` a number, a boolean or None raises.
      Failure(UnwrapTypeError)
  }

  /** A paginated body `{..., "items": [a, b, c], ...}` unwraps to `[a, b, c]`, in order. */
  lemma UnwrapPage(members: seq<(string, Json)>, i: int, page: seq<Json>)
    requires 0 <= i < |members| && members[i] == ("items", JArray(page))
    requires forall j :: i < j < |members| ==> members[j].0 != "items"
    ensures Unwrap(JObject(members)) == Success(Many(page))
  {
  }

  /**
   * Round trip: an envelope whose container is not `items` comes back whole, and the
   * payload under the container is the body that was wrapped.
   */
  lemma WrapThenUnwrap(container: string, body: Json)
    requires container != "items"
    ensures Unwrap(Wrap(container, body)) == Success(Single(Wrap(container, body)))
    ensures Get(Unwrap(Wrap(container, body)).value.value.members, container) == body
  {
    var envelope := Wrap(container, body);
    assert !HasKey(envelope.members, "items") by {
      assert Keys(envelope.members) == [container];
    }
  }

  /** Round trip under the container `items`: wrapping a list and unwrapping gives back its elements. */
  lemma WrapItemsThenUnwrap(page: seq<Json>)
    ensures Unwrap(Wrap("items", JArray(page))) == Success(Many(page))
  {
  }

  /** Unwrapping fails only with the `TypeError`, and never on an object whose `items` is a list. */
  lemma UnwrapObjectWithListSucceeds(members: seq<(string, Json)>)
    requires HasKey(members, "items") ==> Get(members, "items").JArray?
    ensures Unwrap(JObject(members)).Success?
  {
  }
}
