/** The pure part of the object-storage adapter: the public URL of an uploaded key. */
module Storage {
  import opened Text

  /** The directory every uploaded object key starts with. */
  const MediaPrefix := "media_resources/"

  /** The object key under which an uploaded file is stored:
      the prefix, a fresh identifier, a dash, and the client's file name. */
  function ObjectKey(uuid: string, originalName: string): string {
    MediaPrefix + uuid + "-" + originalName
  }

  /** `path.replace(/^media_resources\//, "")`: the anchored prefix is removed once,
      any other path is returned as it is. */
  function StripMediaPrefix(path: string): (rel: string)
    ensures StartsWith(path, MediaPrefix) ==> MediaPrefix + rel == path
    ensures !StartsWith(path, MediaPrefix) ==> rel == path
  {
    if StartsWith(path, MediaPrefix) then path[|MediaPrefix|..] else path
  }

  /** `getPublicUrl`: the configured base URL, a slash, and the key relative to the prefix. */
  function PublicUrl(baseUrl: string, path: string): (url: string)
    ensures |url| == |baseUrl| + 1 + |StripMediaPrefix(path)|
    ensures StartsWith(url, baseUrl + "/")
    ensures url[|baseUrl| + 1..] == StripMediaPrefix(path)
  {
    baseUrl + "/" + StripMediaPrefix(path)
  }

  /** The URL of a freshly generated key is the base, the identifier and the name. */
  lemma PublicUrlOfObjectKey(baseUrl: string, uuid: string, originalName: string)
    ensures PublicUrl(baseUrl, ObjectKey(uuid, originalName)) == baseUrl + "/" + uuid + "-" + originalName
  {
    var key := ObjectKey(uuid, originalName);
    assert key == MediaPrefix + (uuid + "-" + originalName);
    assert StartsWith(key, MediaPrefix);
    assert key[|MediaPrefix|..] == uuid + "-" + originalName;
  }

  /** A doubled prefix loses only its first copy. */
  lemma StripsOnlyOnce(rest: string)
    ensures StripMediaPrefix(MediaPrefix + MediaPrefix + rest) == MediaPrefix + rest
  {
    var p := MediaPrefix + MediaPrefix + rest;
    assert p == MediaPrefix + (MediaPrefix + rest);
    assert p[|MediaPrefix|..] == MediaPrefix + rest;
  }

  /** The prefix occurring anywhere but at position 0 is kept: the match is anchored, so that
      copy and everything after it survive whether or not the path also starts with the prefix. */
  lemma UnanchoredPrefixKept(before: string, after: string)
    requires |before| > 0
    ensures var r := StripMediaPrefix(before + MediaPrefix + after);
            |r| >= |MediaPrefix| + |after| && r[|r| - |MediaPrefix| - |after|..] == MediaPrefix + after
  {
    var path := before + MediaPrefix + after;
    assert path[|before|..|before| + |MediaPrefix|] == MediaPrefix;
    if StartsWith(path, MediaPrefix) {
      if |before| < |MediaPrefix| {
        PrefixStartsOnlyAtZero(path, |before|);
        assert false;
      }
      assert path[|MediaPrefix|..] == before[|MediaPrefix|..] + MediaPrefix + after;
    }
  }

  /** The prefix cannot overlap itself: its only 'm' is its first character. */
  lemma PrefixStartsOnlyAtZero(path: string, k: nat)
    requires StartsWith(path, MediaPrefix) && 0 < k < |MediaPrefix| && k + |MediaPrefix| <= |path|
    ensures path[k..k + |MediaPrefix|] != MediaPrefix
  {
    assert path[k] == MediaPrefix[k] != MediaPrefix[0];
    assert path[k..k + |MediaPrefix|][0] == path[k];
  }

  /** Concrete instance: the slash after "media" is not at position 0, so nothing is stripped. */
  lemma UnanchoredExample()
    ensures StripMediaPrefix("x/media_resources/a.png") == "x/media_resources/a.png"
  {
    assert "x/media_resources/a.png"[0] != MediaPrefix[0];
  }

  /** Distinct generated keys have distinct public URLs. */
  lemma {:induction false} PublicUrlInjectiveOnKeys(baseUrl: string, k1: string, k2: string)
    requires StartsWith(k1, MediaPrefix) && StartsWith(k2, MediaPrefix)
    requires PublicUrl(baseUrl, k1) == PublicUrl(baseUrl, k2)
    ensures k1 == k2
  {
    var u := PublicUrl(baseUrl, k1);
    assert StripMediaPrefix(k1) == u[|baseUrl| + 1..] == StripMediaPrefix(k2);
    assert k1 == MediaPrefix + StripMediaPrefix(k1);
    assert k2 == MediaPrefix + StripMediaPrefix(k2);
  }

  /** Off the generated keys the URL is not injective: a prefixed key and its bare
      remainder share one URL. */
  lemma PrefixedAndBareCollide(baseUrl: string, rest: string)
    requires !StartsWith(rest, MediaPrefix)
    ensures PublicUrl(baseUrl, MediaPrefix + rest) == PublicUrl(baseUrl, rest)
  {
    var k := MediaPrefix + rest;
    assert k[|MediaPrefix|..] == rest;
  }
}
