/** The style document as the store sees it: a record whose `id` and `created`
    fields the store fills in, plus the opaque serialisation it is written in. */
module StyleDoc {
  import opened Wrappers

  /** JSON values, for the parts of a style the store passes through untouched. */
  datatype Json =
    | JNull
    | JBool(b: bool)
    | JNumber(n: int)
    | JString(s: string)
    | JArray(elems: seq<Json>)
    | JObject(members: map<string, Json>)

  /** A point in time (`new Date()`), as milliseconds since the epoch. */
  type Timestamp = int

  /** A map style. `id` and `created` may be missing until the store sets them;
      `rest` holds every other top-level field. */
  datatype Style = Style(
    id: Option<string>,
    created: Option<Timestamp>,
    version: int,
    sources: map<string, Json>,
    layers: seq<Json>,
    rest: map<string, Json>)

  /** The top-level fields the record names. */
  const FieldNames: set<string> := {"id", "created", "version", "sources", "layers"}

  /** `rest` holds no field the record already names, so that every JSON object
      corresponds to at most one `Style`. */
  predicate WellFormed(s: Style)
  {
    s.rest.Keys !! FieldNames
  }

  /** `ensureOptionalStyleProps`. `hasId` and `hasCreated` are the outcomes of the
      source's presence tests (`'id' in mapStyle`, `"created" in mapStyle`), taken as
      given: the source applies the JavaScript `in` operator to an Immutable.Map, which
      looks at the object's own properties and not at its entries. A field is replaced
      by the fresh value exactly when its test fails; nothing else changes. */
  function EnsureOptionalStyleProps(s: Style, hasId: bool, hasCreated: bool,
                                    freshId: string, now: Timestamp): (r: Style)
    ensures r.id == (if hasId then s.id else Some(freshId))
    ensures r.created == (if hasCreated then s.created else Some(now))
    ensures r.version == s.version && r.sources == s.sources
    ensures r.layers == s.layers && r.rest == s.rest
    ensures WellFormed(r) <==> WellFormed(s)
  {
    var withId := if !hasId then s.(id := Some(freshId)) else s;
    if !hasCreated then withId.(created := Some(now)) else withId
  }

  /** With presence tests that report the fields truthfully, the result always has
      both fields and keeps the ones already there; calling it again on the result
      changes nothing. */
  lemma OptionalPropsWithTruthfulTests(s: Style, freshId: string, now: Timestamp,
                                       freshId2: string, now2: Timestamp)
    ensures var r := EnsureOptionalStyleProps(s, s.id.Some?, s.created.Some?, freshId, now);
            && r.id.Some? && r.created.Some?
            && (s.id.Some? ==> r.id == s.id)
            && (s.created.Some? ==> r.created == s.created)
            && EnsureOptionalStyleProps(r, r.id.Some?, r.created.Some?, freshId2, now2) == r
  {
  }

  /** With the tests as the source evaluates them on an Immutable.Map (both false),
      every call hands out the fresh id and timestamp, whatever the style held. */
  lemma OptionalPropsWithFailingTests(s: Style, freshId: string, now: Timestamp)
    ensures var r := EnsureOptionalStyleProps(s, false, false, freshId, now);
            r.id == Some(freshId) && r.created == Some(now)
            && r == s.(id := Some(freshId), created := Some(now))
  {
  }

  /** Characters of `Math.random().toString(36)`: the base-36 digits. */
  predicate IsBase36Digit(c: char)
  {
    '0' <= c <= '9' || 'a' <= c <= 'z'
  }

  /** An id as `Math.random().toString(36).substr(2, 9)` makes them: at most nine
      base-36 digits. */
  predicate IsGeneratedId(s: string)
  {
    |s| <= 9 && forall i :: 0 <= i < |s| ==> IsBase36Digit(s[i])
  }

  lemma GeneratedIdHasNoColon(s: string)
    requires IsGeneratedId(s)
    ensures ':' !in s
  {
  }

  /** The style `{version: 8, sources: {}, layers: []}` before its optional props. */
  const BlankStyle: Style := Style(None, None, 8, map[], [], map[])

  /** The shape of `emptyStyle`: version 8, no sources, no layers, no other
      field, and an id and a creation time. */
  predicate IsEmptyStyle(s: Style)
  {
    s.id.Some? && s.created.Some? && s.version == 8
    && s.sources == map[] && s.layers == [] && s.rest == map[]
  }

  /** `emptyStyle`: the blank style passed once through `ensureOptionalStyleProps`
      when the module loads, with the id and time drawn then. */
  function EmptyStyle(freshId: string, now: Timestamp): (r: Style)
    ensures r == Style(Some(freshId), Some(now), 8, map[], [], map[])
    ensures IsEmptyStyle(r) && WellFormed(r)
  {
    EnsureOptionalStyleProps(BlankStyle, false, false, freshId, now)
  }

  /** The error `JSON.parse` throws on text that is not JSON. */
  datatype ParseError = SyntaxError

  /** The serialisation of a style (`JSON.stringify(style.toJS())`) and its reverse
      (`Immutable.fromJS(JSON.parse(text))`, `None` where `JSON.parse` throws). */
  datatype Codec = Codec(encode: Style -> string, decode: string -> Option<Style>)

  /** What the store relies on: decoding what was encoded gives a well-formed style
      back, and decoding only ever yields well-formed styles. */
  ghost predicate RoundTrips(c: Codec)
  {
    && (forall s :: WellFormed(s) ==> c.decode(c.encode(s)) == Some(s))
    && (forall text :: c.decode(text).Some? ==> WellFormed(c.decode(text).value))
  }

  /** Parse stored text, turning a `JSON.parse` failure into an error value. */
  function Parse(c: Codec, text: string): (r: Result<Style, ParseError>)
    ensures r.Success? <==> c.decode(text).Some?
    ensures r.Success? ==> Some(r.value) == c.decode(text)
  {
    match c.decode(text)
    case Some(s) => Success(s)
    case None => Failure(SyntaxError)
  }

  /** Parsing what was encoded gives the encoded style. */
  lemma ParseEncoded(c: Codec, s: Style)
    requires RoundTrips(c) && WellFormed(s)
    ensures Parse(c, c.encode(s)) == Success(s)
  {
    assert c.decode(c.encode(s)) == Some(s);
  }

  /** How the default-style request ended: loaded with an HTTP status and body, or
      a transport error (`onerror`). */
  datatype Response = Loaded(status: int, body: string) | TransportError

  /** The style `loadDefaultStyle` hands its callback: the parsed body when the
      status is in [200, 400), the module's `emptyStyle` (built from the id and
      time drawn at load) on any other status or a transport error. A `Failure`
      is a body `JSON.parse` rejects: the exception escapes `onload` and the
      callback is never called. */
  function DefaultStyleFrom(resp: Response, c: Codec, loadId: string, loadTime: Timestamp)
    : (r: Result<Style, ParseError>)
    ensures !(resp.Loaded? && 200 <= resp.status < 400) ==>
              r == Success(EmptyStyle(loadId, loadTime)) && IsEmptyStyle(r.value)
    ensures resp.Loaded? && 200 <= resp.status < 400 ==> r == Parse(c, resp.body)
    ensures r.Failure? ==> resp.Loaded? && 200 <= resp.status < 400 && c.decode(resp.body).None?
  {
    match resp
    case Loaded(status, body) =>
      if status >= 200 && status < 400 then Parse(c, body) else Success(EmptyStyle(loadId, loadTime))
    case TransportError => Success(EmptyStyle(loadId, loadTime))
  }
}
