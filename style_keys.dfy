/** The storage key conventions of the style store: a fixed namespace prefix,
    style entries under "<prefix>:<id>", and two fixed keys built by gluing the
    prefix to a name WITHOUT a separator. */
module StyleKeys {
  import opened Wrappers
  import opened JsStrings

  const StoragePrefix: string := "mapolo"

  /** The key of the latest-style pointer, `[prefix, 'latest_style'].join('')`. */
  const LatestKey: string := Join([StoragePrefix, "latest_style"], "")

  /** The key of the access token, `[prefix, 'access_token'].join('')`. */
  const AccessTokenKey: string := Join([StoragePrefix, "access_token"], "")

  /** Length of "<prefix>:", the part of a style key before the id. */
  const StyleKeyHead: nat := |StoragePrefix| + 1

  /** The thrown "Key is not a valid style key". */
  datatype KeyError = NotAStyleKey

  /** `isStyleKey`: splitting on ':' gives exactly two parts, the first being the
      prefix. That is: the key is "<prefix>:" followed by text with no further ':',
      so it holds exactly one ':'. */
  predicate IsStyleKey(key: string): (b: bool)
    ensures b <==> |key| >= StyleKeyHead && key[..StyleKeyHead] == StoragePrefix + ":"
                   && ':' !in key[StyleKeyHead..]
  {
    SplitShape(key);
    var parts := Split(key, ':');
    |parts| == 2 && parts[0] == StoragePrefix
  }

  /** The split of a key is the prefix and one more part exactly when the key is
      "<prefix>:" followed by colon-free text. */
  lemma SplitShape(key: string)
    ensures var parts := Split(key, ':');
            (|parts| == 2 && parts[0] == StoragePrefix) <==>
              (|key| >= StyleKeyHead && key[..StyleKeyHead] == StoragePrefix + ":"
               && ':' !in key[StyleKeyHead..])
  {
    if |key| >= StyleKeyHead && key[..StyleKeyHead] == StoragePrefix + ":"
       && ':' !in key[StyleKeyHead..] {
      var id := key[StyleKeyHead..];
      assert key == StoragePrefix + [':'] + id;
      SplitJoinPair(StoragePrefix, ':', id);
    }
    var parts := Split(key, ':');
    if |parts| == 2 && parts[0] == StoragePrefix {
      assert parts == [parts[0], parts[1]];
      assert key == parts[0] + ":" + parts[1];
    }
  }

  /** `styleKey`: the storage key of the style with the given id. */
  function StyleKey(styleId: string): (key: string)
    ensures |key| == StyleKeyHead + |styleId|
    ensures key[..StyleKeyHead] == StoragePrefix + ":" && key[StyleKeyHead..] == styleId
  {
    Join([StoragePrefix, styleId], ":")
  }

  /** `fromKey`: the style id of a style key; any other key is an error. */
  function FromKey(key: string): (r: Result<string, KeyError>)
    ensures r.Success? <==> IsStyleKey(key)
    ensures r.Failure? ==> r.error == NotAStyleKey
    ensures r.Success? ==> ':' !in r.value && key == StyleKey(r.value)
  {
    if !IsStyleKey(key) then Failure(NotAStyleKey)
    else
      var parts := Split(key, ':');
      assert parts == [parts[0], parts[1]];
      Success(parts[1])
  }

  /** Round trip from ids: an id free of ':' gives a style key whose id is itself;
      an id holding ':' gives a key that is not a style key at all. */
  lemma StyleKeyRoundTrip(styleId: string)
    ensures IsStyleKey(StyleKey(styleId)) <==> ':' !in styleId
    ensures ':' !in styleId ==> FromKey(StyleKey(styleId)) == Success(styleId)
  {
  }

  /** Round trip from keys: a style key is rebuilt from its id, and `fromKey`
      yields the text after the colon. */
  lemma FromKeyRoundTrip(key: string)
    requires IsStyleKey(key)
    ensures FromKey(key) == Success(key[StyleKeyHead..])
    ensures StyleKey(FromKey(key).value) == key
  {
  }

  /** Distinct style keys carry distinct ids. */
  lemma FromKeyInjective(k1: string, k2: string)
    requires IsStyleKey(k1) && IsStyleKey(k2) && k1 != k2
    ensures FromKey(k1).value != FromKey(k2).value
  {
  }

  /** The two fixed keys are the prefix glued to a name with no ':' in between. */
  lemma FixedKeyValues()
    ensures LatestKey == "mapololatest_style" && AccessTokenKey == "mapoloaccess_token"
    ensures ':' !in LatestKey && ':' !in AccessTokenKey
    ensures LatestKey != AccessTokenKey
  {
    assert LatestKey == StoragePrefix + "" + "latest_style";
    assert AccessTokenKey == StoragePrefix + "" + "access_token";
  }

  /** Hence neither fixed key is ever taken for a style key... */
  lemma FixedKeysAreNotStyleKeys()
    ensures !IsStyleKey(LatestKey) && !IsStyleKey(AccessTokenKey)
  {
    FixedKeyValues();
    SplitWithoutSeparator(LatestKey, ':');
    SplitWithoutSeparator(AccessTokenKey, ':');
  }

  /** ...nor equals the key of any style. */
  lemma StyleKeyIsNotFixed(styleId: string)
    ensures StyleKey(styleId) != LatestKey && StyleKey(styleId) != AccessTokenKey
  {
    FixedKeyValues();
    assert StyleKey(styleId)[6] == ':';
  }
}
