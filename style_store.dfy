/** The persistence layer proper: the directory scan, the style store with its
    snapshot of stored ids, and the settings store holding the access token. */
module StyleStore {
  import opened Wrappers
  import opened StyleKeys
  import opened StyleDoc
  import opened LocalStorage

  /** The ids of the style keys among `keys`, in the order of `keys`: what
      `loadStoredStyles` collects. */
  function StyleIds(keys: seq<string>): seq<string>
  {
    if keys == [] then []
    else
      var last := keys[|keys| - 1];
      StyleIds(keys[..|keys| - 1]) + (if IsStyleKey(last) then [FromKey(last).value] else [])
  }

  /** The scan keeps enumeration order: scanning two runs of keys is scanning the
      first, then the second. */
  lemma {:induction false} StyleIdsAppend(a: seq<string>, b: seq<string>)
    ensures StyleIds(a + b) == StyleIds(a) + StyleIds(b)
    decreases |b|
  {
    if b != [] {
      var ab := a + b;
      assert ab[..|ab| - 1] == a + b[..|b| - 1];
      assert ab[|ab| - 1] == b[|b| - 1];
      StyleIdsAppend(a, b[..|b| - 1]);
    } else {
      assert a + b == a;
    }
  }

  /** The scan returns no more ids than there are keys, and none holds ':'. */
  lemma {:induction false} StyleIdsBounds(keys: seq<string>)
    ensures |StyleIds(keys)| <= |keys|
    ensures forall i :: 0 <= i < |StyleIds(keys)| ==> ':' !in StyleIds(keys)[i]
  {
    if keys != [] {
      StyleIdsBounds(keys[..|keys| - 1]);
    }
  }

  /** An id is listed exactly when it holds no ':' and its style key is stored. */
  lemma {:induction false} StyleIdsMembership(keys: seq<string>, styleId: string)
    ensures styleId in StyleIds(keys) <==> ':' !in styleId && StyleKey(styleId) in keys
  {
    if keys != [] {
      var init, last := keys[..|keys| - 1], keys[|keys| - 1];
      assert keys == init + [last];
      StyleIdsMembership(init, styleId);
      StyleKeyRoundTrip(styleId);
      if IsStyleKey(last) {
        FromKeyRoundTrip(last);
      }
    }
  }

  /** Keys are stored once each, so each style id is listed once. */
  lemma {:induction false} StyleIdsDistinct(keys: seq<string>)
    requires Distinct(keys)
    ensures Distinct(StyleIds(keys))
  {
    if keys != [] {
      var init, last := keys[..|keys| - 1], keys[|keys| - 1];
      StyleIdsDistinct(init);
      if IsStyleKey(last) {
        var id := FromKey(last).value;
        StyleIdsMembership(init, id);
        assert StyleKey(id) == last;
        assert last !in init;
      }
    }
  }

  /** The listing after `setItem(k, _)`: one more id when `k` is a new style key,
      unchanged otherwise. */
  lemma StyleIdsAfterPut(keys: seq<string>, k: string)
    ensures StyleIds(Put(keys, k)) ==
              if k in keys || !IsStyleKey(k) then StyleIds(keys)
              else StyleIds(keys) + [FromKey(k).value]
  {
    if k !in keys {
      StyleIdsAppend(keys, [k]);
      assert StyleIds([k]) == StyleIds([]) + (if IsStyleKey(k) then [FromKey(k).value] else []);
    }
  }

  /** `loadStoredStyles`: walk the storage by index and collect the id of every
      style key. */
  method LoadStoredStyles(storage: Storage) returns (styles: seq<string>)
    requires storage.Valid()
    ensures styles == StyleIds(storage.keys)
  {
    styles := [];
    var i := 0;
    while i < storage.Length()
      invariant 0 <= i <= |storage.keys|
      invariant styles == StyleIds(storage.keys[..i])
    {
      var key := storage.Key(i);
      assert storage.keys[..i + 1][..i] == storage.keys[..i];
      if IsStyleKey(key) {
        styles := styles + [FromKey(key).value];
      }
      i := i + 1;
    }
    assert storage.keys[..i] == storage.keys;
  }

  /** The latest pointer is stored and names a stored style entry. */
  ghost predicate PointerResolves(items: map<string, string>)
  {
    LatestKey in items && StyleKey(items[LatestKey]) in items
  }

  /** Storage after `save` wrote `text` for the style `styleId`: both entries hold
      what was written, the pointer resolves to the style's entry, and the access
      token is untouched. */
  lemma SavedEntries(items: map<string, string>, styleId: string, text: string)
    ensures var after := items[StyleKey(styleId) := text][LatestKey := styleId];
            && after[LatestKey] == styleId
            && after[StyleKey(styleId)] == text
            && PointerResolves(after)
            && (AccessTokenKey in after <==> AccessTokenKey in items)
            && (AccessTokenKey in items ==> after[AccessTokenKey] == items[AccessTokenKey])
  {
    StyleKeyIsNotFixed(styleId);
    FixedKeyValues();
  }

  /** The listing after `save` wrote the style `styleId`: the id is added at the
      end if its entry is new (listed once either way); an id holding ':' never
      shows up, since its key is not a style key. */
  lemma SavedListing(keys: seq<string>, styleId: string)
    ensures var after := Put(Put(keys, StyleKey(styleId)), LatestKey);
            StyleIds(after) ==
              if ':' in styleId || StyleKey(styleId) in keys then StyleIds(keys)
              else StyleIds(keys) + [styleId]
  {
    var mid := Put(keys, StyleKey(styleId));
    StyleIdsAfterPut(keys, StyleKey(styleId));
    StyleKeyRoundTrip(styleId);
    StyleIdsAfterPut(mid, LatestKey);
    FixedKeysAreNotStyleKeys();
  }

  /** `StyleStore`: a snapshot of the ids stored when it was built, never refreshed
      afterwards, over the shared storage. */
  class StyleStore {
    const storage: Storage
    /** The module-level `emptyStyle`, computed once at load. */
    const emptyStyle: Style
    const codec: Codec
    var mapStyles: seq<string>

    ghost predicate Valid()
      reads this, storage
    {
      storage.Valid() && IsEmptyStyle(emptyStyle)
    }

    /** The constructor snapshots the stored style ids. `loadId` and `loadTime` are
      the id and time drawn for `emptyStyle` when the module loaded. */
    constructor (storage: Storage, codec: Codec, loadId: string, loadTime: Timestamp)
      requires storage.Valid()
      ensures Valid()
      ensures this.storage == storage && this.codec == codec
      ensures emptyStyle == EmptyStyle(loadId, loadTime)
      ensures mapStyles == StyleIds(storage.keys)
    {
      var ids := LoadStoredStyles(storage);
      this.storage := storage;
      this.emptyStyle := EmptyStyle(loadId, loadTime);
      this.codec := codec;
      mapStyles := ids;
    }

    /** `latestStyle`: the empty style when the snapshot is empty, otherwise the
      parsed entry the latest pointer names. */
    method LatestStyle() returns (r: Result<Style, ParseError>)
      requires Valid()
      requires |mapStyles| > 0 ==> PointerResolves(storage.items)
      ensures |mapStyles| == 0 ==> r == Success(emptyStyle) && IsEmptyStyle(r.value)
      ensures |mapStyles| > 0 ==>
                r == Parse(codec, storage.items[StyleKey(storage.items[LatestKey])])
    {
      if |mapStyles| == 0 {
        return Success(emptyStyle);
      }
      var styleId := storage.GetItem(LatestKey);
      var styleItem := storage.GetItem(StyleKey(styleId.value));
      r := Parse(codec, styleItem.value);
    }

    /** `save`: fill in the optional props, write the style under its key and point
      the latest pointer at it. Only the storage changes, in these two entries. */
    method Save(mapStyle: Style, hasId: bool, hasCreated: bool, freshId: string, now: Timestamp)
      returns (r: Style)
      requires Valid()
      requires hasId ==> mapStyle.id.Some?
      modifies storage
      ensures Valid()
      ensures r == EnsureOptionalStyleProps(mapStyle, hasId, hasCreated, freshId, now)
      ensures r.id.Some?
      ensures storage.items ==
                old(storage.items)[StyleKey(r.id.value) := codec.encode(r)][LatestKey := r.id.value]
      ensures storage.keys == Put(Put(old(storage.keys), StyleKey(r.id.value)), LatestKey)
      ensures mapStyles == old(mapStyles)
    {
      r := EnsureOptionalStyleProps(mapStyle, hasId, hasCreated, freshId, now);
      var key := StyleKey(r.id.value);
      storage.SetItem(key, codec.encode(r));
      storage.SetItem(LatestKey, r.id.value);
    }
  }

  /** A save followed by `latestStyle`: with a non-empty snapshot the saved style
      comes back; with an empty one the empty style does, however many saves
      happened, since `save` never refreshes the snapshot. */
  method SaveThenLatest(store: StyleStore, mapStyle: Style, hasId: bool, hasCreated: bool,
                        freshId: string, now: Timestamp)
    returns (saved: Style, latest: Result<Style, ParseError>)
    requires store.Valid() && RoundTrips(store.codec)
    requires hasId ==> mapStyle.id.Some?
    requires WellFormed(mapStyle)
    modifies store.storage
    ensures store.Valid()
    ensures |store.mapStyles| == 0 ==> latest == Success(store.emptyStyle) && IsEmptyStyle(latest.value)
    ensures |store.mapStyles| > 0 ==> latest == Success(saved)
  {
    saved := store.Save(mapStyle, hasId, hasCreated, freshId, now);
    SavedEntries(old(store.storage.items), saved.id.value, store.codec.encode(saved));
    ParseEncoded(store.codec, saved);
    latest := store.LatestStyle();
  }

  /** A save under a generated id (the id test failing, as on an Immutable.Map)
      lists that id, and lists it once. */
  lemma SavedGeneratedIdListedOnce(keys: seq<string>, freshId: string)
    requires Distinct(keys) && IsGeneratedId(freshId)
    ensures var ids := StyleIds(Put(Put(keys, StyleKey(freshId)), LatestKey));
            freshId in ids && Distinct(ids)
  {
    var after := Put(Put(keys, StyleKey(freshId)), LatestKey);
    GeneratedIdHasNoColon(freshId);
    StyleIdsMembership(after, freshId);
    StyleIdsDistinct(after);
  }

  /** `save` of a style whose presence tests fail: the stored listing then holds
      the fresh id, exactly once. */
  method SaveListsGeneratedId(store: StyleStore, mapStyle: Style, freshId: string, now: Timestamp)
    returns (saved: Style)
    requires store.Valid() && IsGeneratedId(freshId)
    modifies store.storage
    ensures store.Valid()
    ensures saved.id == Some(freshId) && saved.created == Some(now)
    ensures freshId in StyleIds(store.storage.keys) && Distinct(StyleIds(store.storage.keys))
  {
    saved := store.Save(mapStyle, false, false, freshId, now);
    SavedGeneratedIdListedOnce(old(store.storage.keys), freshId);
  }

  /** The value the `accessToken` getter reports for these storage contents:
      the stored token, or "" when none is stored or it is empty. */
  function StoredToken(items: map<string, string>): string
  {
    if AccessTokenKey in items && items[AccessTokenKey] != "" then items[AccessTokenKey] else ""
  }

  /** Reading the token after writing `v` gives `v` back, whatever was stored. */
  lemma TokenRoundTrip(items: map<string, string>, v: string)
    ensures StoredToken(items[AccessTokenKey := v]) == v
  {
  }

  /** Writing the token leaves every style entry, the latest pointer and the style
      listing as they were. */
  lemma TokenWriteLeavesStyles(items: map<string, string>, keys: seq<string>, v: string, styleId: string)
    ensures var after := items[AccessTokenKey := v];
            && (StyleKey(styleId) in after <==> StyleKey(styleId) in items)
            && (StyleKey(styleId) in items ==> after[StyleKey(styleId)] == items[StyleKey(styleId)])
            && (LatestKey in after <==> LatestKey in items)
            && (LatestKey in items ==> after[LatestKey] == items[LatestKey])
    ensures StyleIds(Put(keys, AccessTokenKey)) == StyleIds(keys)
  {
    StyleKeyIsNotFixed(styleId);
    FixedKeyValues();
    FixedKeysAreNotStyleKeys();
    StyleIdsAfterPut(keys, AccessTokenKey);
  }

  /** `SettingsStore`: the access token, kept under its fixed key. */
  class SettingsStore {
    const storage: Storage

    constructor (storage: Storage)
      ensures this.storage == storage
    {
      this.storage := storage;
    }

    /** The `accessToken` getter. */
    method AccessToken() returns (token: string)
      requires storage.Valid()
      ensures token == StoredToken(storage.items)
      ensures token == "" <==> AccessTokenKey !in storage.items || storage.items[AccessTokenKey] == ""
    {
      var stored := storage.GetItem(AccessTokenKey);
      token := if stored.Some? && stored.value != "" then stored.value else "";
    }

    /** The `accessToken` setter: overwrite the token, nothing else. */
    method SetAccessToken(v: string)
      requires storage.Valid()
      modifies storage
      ensures storage.Valid()
      ensures storage.items == old(storage.items)[AccessTokenKey := v]
      ensures storage.keys == Put(old(storage.keys), AccessTokenKey)
    {
      storage.SetItem(AccessTokenKey, v);
    }
  }
}
