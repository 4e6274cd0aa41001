# Style persistence of the map style editor, in Dafny

This project models the style store of the editor (`src/stylestore.js`). The store keeps
map style documents and an access token in the browser's `localStorage`:

- every style is stored under the key `"mapolo:" + id`;
- a pointer under `"mapololatest_style"` holds the id of the style saved last;
- the token is stored under `"mapoloaccess_token"`.

The model has six modules:

- `Wrappers`: `Option` and `Result`.
- `JsStrings`: the two JavaScript builtins the key code relies on, `String.prototype.split` on
  one character and `Array.prototype.join`. `Split` is specified by `Join`: joining the parts
  gives back the input, and no part contains the separator.
- `StyleKeys`: the prefix, the two fixed keys, `isStyleKey`, `fromKey` and `styleKey`.
  `fromKey` returns a `Result`; its `Failure` stands for the thrown "Key is not a valid
  style key".
- `StyleDoc`: the style document, `ensureOptionalStyleProps`, the empty style, the
  serialisation, and the status rule of `loadDefaultStyle`.
  - The document is a record. Its fields are `id`, `created`, `version`, `sources`,
    `layers`, plus the remaining top-level fields (`rest`). `WellFormed` says that `rest`
    repeats none of the five named fields, so one JSON object is one `Style`.
  - Serialisation is a `Codec`: a pair of functions for `JSON.stringify(style.toJS())` and
    `Immutable.fromJS(JSON.parse(text))`. Where a property needs the round trip, it is the
    precondition `RoundTrips(codec)`: well-formed styles survive encoding and decoding, and
    decoding yields only well-formed styles.
- `LocalStorage`: the browser storage as a class. `keys` is the enumeration order and `items`
  holds the entries. `setItem` keeps a present key in place and lists a new key last.
- `StyleStore`: `loadStoredStyles` as a loop proved against the specification function
  `StyleIds`, plus the classes `StyleStore` and `SettingsStore`.

The random id (`Math.random().toString(36).substr(2, 9)`) and the timestamp
(`new Date()`) are parameters of the operations that draw them.

Two behaviours of the code are kept as written:

- **The pointer key has no colon.** The pointer and token keys are built with `join('')`, so
  the pointer key is `"mapololatest_style"`, not `"mapolo:latest_style"`. The pointer is
  therefore never taken for a style key (`FixedKeysAreNotStyleKeys`), so the pointer never
  shows up in the style listing.
- **The presence tests are modelled as given.** `ensureOptionalStyleProps` tests
  `'id' in mapStyle` and `"created" in mapStyle` on an `Immutable.Map`. The JavaScript `in`
  operator checks the object's properties, not its entries.
  - The outcomes of these tests are boolean inputs (`hasId`, `hasCreated`).
  - `OptionalPropsWithTruthfulTests`: if the tests report the fields truthfully, the id and
    the creation time are kept.
  - `OptionalPropsWithFailingTests`: if both tests fail, every call hands out a fresh id and
    timestamp.
  - The model does not claim that ids stay stable across saves.

## Model

| member | source | states |
|---|---|---|
| `JsStrings.Join` | src/stylestore.js:70 | `parts.join(sep)`: two parts are glued around one separator; separator-free parts joined with a one-character separator give text holding exactly one separator between each pair |
| `JsStrings.Split` | src/stylestore.js:53 | `key.split(":")`: one more part than there are separators, no part holds the separator, and joining the parts with it gives the key back |
| `StyleKeys.FixedKeyValues` | src/stylestore.js:4-8 | the pointer key is `"mapololatest_style"` and the token key `"mapoloaccess_token"`; neither holds ':' and they differ |
| `StyleKeys.FixedKeysAreNotStyleKeys` | src/stylestore.js:52-55 | neither the pointer key nor the token key passes `isStyleKey` |
| `StyleKeys.IsStyleKey` | src/stylestore.js:52-55 | `key.split(":")` has two parts with the prefix first exactly when the key is `"mapolo:"` followed by text with no further ':' (both directions) |
| `StyleKeys.StyleKey` | src/stylestore.js:69-71 | the key of a style is `"mapolo:"` followed by the id itself |
| `StyleKeys.StyleKeyIsNotFixed` | src/stylestore.js:69-71 | no style's key equals the pointer key or the token key |
| `StyleKeys.FromKey` | src/stylestore.js:58-66 | fails with "not a valid style key" exactly on the keys `isStyleKey` rejects; otherwise yields an id without ':' from which `styleKey` rebuilds the key |
| `StyleKeys.StyleKeyRoundTrip` | src/stylestore.js:52-71 | `styleKey(id)` is a style key iff `id` has no ':', and then `fromKey` gives `id` back |
| `StyleKeys.FromKeyRoundTrip` | src/stylestore.js:58-71 | for a style key, `fromKey` yields the text after `"mapolo:"` and `styleKey` of it is the key again |
| `StyleKeys.FromKeyInjective` | src/stylestore.js:58-66 | distinct style keys carry distinct ids |
| `StyleDoc.EnsureOptionalStyleProps` | src/stylestore.js:74-82 | `id` (resp. `created`) is replaced by the fresh value exactly when its presence test fails; version, sources, layers and every other field are unchanged, so well-formedness is kept |
| `StyleDoc.OptionalPropsWithTruthfulTests` | src/stylestore.js:74-82 | with truthful presence tests the result has both fields, keeps existing ones, and a second pass changes nothing |
| `StyleDoc.OptionalPropsWithFailingTests` | src/stylestore.js:75-79 | with both tests failing, the result carries the fresh id and timestamp whatever the input held, and differs from it only there |
| `StyleDoc.GeneratedIdHasNoColon` | src/stylestore.js:76 | an id made of base-36 digits never holds ':' |
| `StyleDoc.EmptyStyle` | src/stylestore.js:11-15 | the empty style is version 8, no sources, no layers, nothing else, with the id and time drawn at load; it has the `IsEmptyStyle` shape and is well-formed |
| `StyleDoc.Parse` | src/stylestore.js:108 | parsing succeeds exactly when the text decodes, and then yields the decoded style |
| `StyleDoc.ParseEncoded` | src/stylestore.js:118 | parsing the text `save` writes gives a well-formed saved style back, given a round-tripping serialisation |
| `StyleDoc.DefaultStyleFrom` | src/stylestore.js:24-35 | a transport error or a status outside [200, 400) yields the module's version-8 empty style, built from the id and time drawn at load; inside it the body is parsed, and only a body that fails to parse yields no style |
| `StyleStore.StyleIdsAppend` | src/stylestore.js:41-50 | the scan keeps storage enumeration order: scanning `a + b` lists the ids of `a`, then those of `b` |
| `StyleStore.StyleIdsBounds` | src/stylestore.js:41-50 | the scan lists no more ids than there are keys, and no listed id holds ':' |
| `StyleStore.StyleIdsMembership` | src/stylestore.js:41-50 | an id is listed exactly when it holds no ':' and its style key is stored (both directions) |
| `StyleStore.StyleIdsDistinct` | src/stylestore.js:41-50 | since storage keys are unique, every id is listed once |
| `StyleStore.StyleIdsAfterPut` | src/stylestore.js:41-50 | after `setItem(k, _)` the listing gains the id of `k` at the end when `k` is a new style key, and is unchanged otherwise |
| `StyleStore.LoadStoredStyles` | src/stylestore.js:41-50 | the loop over `key(0) … key(length - 1)` returns exactly the ids of the style keys, in enumeration order |
| `StyleStore.SavedEntries` | src/stylestore.js:117-119 | after the two writes of `save`, the style entry holds the encoded style, the pointer holds the id and resolves to that entry, and the token entry is untouched |
| `StyleStore.SavedListing` | src/stylestore.js:117-119 | after `save`, the listing gains the saved id once, at the end, when its entry is new and the id has no ':'; otherwise it is unchanged |
| `StyleStore.StyleStore.constructor` | src/stylestore.js:99-101 | the store snapshots exactly the ids `loadStoredStyles` finds; its empty style is the module's `emptyStyle`, built from the id and time drawn at load |
| `StyleStore.StyleStore.LatestStyle` | src/stylestore.js:104-109 | with an empty snapshot, the empty style (version 8, no sources, no layers, nothing else); otherwise the parse of the entry the latest pointer names |
| `StyleStore.StyleStore.Save` | src/stylestore.js:112-121 | returns the style with its optional props filled in; writes exactly the style entry (encoded style) and the pointer (its id); every other entry, the key order of existing keys and the snapshot are unchanged |
| `StyleStore.SaveThenLatest` | src/stylestore.js:97-121 | after a save, `latestStyle` returns the saved style when the snapshot is non-empty, and the version-8 empty style when it is empty, because `save` never refreshes the snapshot |
| `StyleStore.SavedGeneratedIdListedOnce` | src/stylestore.js:76 | after the writes of `save` under a base-36 generated id, the listing holds that id, and holds it once |
| `StyleStore.SaveListsGeneratedId` | src/stylestore.js:112-121 | `save` with failing presence tests stores the style under the fresh id and time, and the stored listing then holds that id exactly once |
| `StyleStore.TokenRoundTrip` | src/stylestore.js:86-92 | reading the token after writing `v` gives `v`, including `""` |
| `StyleStore.TokenWriteLeavesStyles` | src/stylestore.js:90-92 | writing the token leaves every style entry, the pointer and the style listing unchanged |
| `StyleStore.SettingsStore.AccessToken` | src/stylestore.js:86-89 | the stored token, or `""` exactly when none is stored or it is empty |
| `StyleStore.SettingsStore.SetAccessToken` | src/stylestore.js:90-92 | writes the token entry and nothing else |

## Left out

- `src/components/Block.jsx`: a React presentational wrapper with no state logic worth stating.
- The network request of `loadDefaultStyle` (`XMLHttpRequest`, callbacks): only the rule that decides which style the callback receives is modelled (`DefaultStyleFrom`).
- `JSON.stringify`, `JSON.parse`, `Immutable.fromJS` and `toJS`: foreign library code. They are the abstract `Codec`, and its round trip is a precondition where needed. The codec also hides that `JSON.stringify` turns the `created` date into a string.
- `StyleStore.SaveThenLatest`: requires a well-formed style. A `Style` whose `rest` repeats a named field corresponds to no JSON object, so no codec could bring it back.
- JSON numbers inside sources, layers and other fields are integers (`JNumber`), not floating point: the store only passes these values through.
- `Math.random()` and `new Date()`: nondeterministic, so they are parameters.
- The conversion at the start of `save` (`instanceof Immutable.Map`, lines 113-115): the model's style is already the record.
- `StyleStore.StyleStore.LatestStyle`: with a non-empty snapshot, it requires that the pointer is stored and names a stored entry. The source does not check this:
  - If no entry is stored under the key of the latest id, `getItem` returns null. `JSON.parse(null)` parses the text `"null"`, and `Immutable.fromJS(null)` is null, so `latestStyle` returns null.
  - If the pointer itself is missing, `styleKey(null)` is `"mapolo:"`, because `join` turns null into "". It then reads and parses that entry.
  - The model does not return null styles, so it requires a resolving pointer instead.
- `StyleStore.StyleStore.Save`: requires that a presence test reporting `id` present sees an actual id. Otherwise the source would read `undefined` for the id. It would write the style under the key `"mapolo:"`, since `join` turns `undefined` into "". It would store the text `"undefined"` as the pointer's value under `"mapololatest_style"`. On an `Immutable.Map` the test is false in practice, so real calls meet this requirement.
- Storage enumeration order: browsers do not promise one. The model fixes one order: insertion order, with a rewritten key keeping its place.
- `setItem` quota errors, and non-string values that `setItem` would stringify: not modelled.
- `console.log` and the unused `colorizeLayers` import.
