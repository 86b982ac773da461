/** The shape of a search result, and how a post's media keys become image URLs: a dictionary
    from media key to URL built from the response's `includes`, then one lookup per key. */
module Media {
  import opened Wrappers

  /** An expanded media object: its key and its URL (absent for media that are not photos). */
  datatype MediaObject = MediaObject(key: string, url: Option<string>)

  /** A post: identifier, text and, when it has attachments with media, its media keys. */
  datatype Tweet = Tweet(id: nat, text: string, mediaKeys: Option<seq<string>>)

  /** No later entry has the same key as entry `i`: entry `i` is the one the dictionary keeps. */
  ghost predicate LastWithKey(media: seq<MediaObject>, i: int) {
    0 <= i < |media| && forall j :: i < j < |media| ==> media[j].key != media[i].key
  }

  /** `{media.media_key: media.url for media in includes.get("media", [])}`; `MediaMapKeys` and
      `MediaMapLastWins` state what it holds. */
  function MediaMap(media: seq<MediaObject>): map<string, Option<string>> {
    if media == [] then map[]
    else MediaMap(media[..|media| - 1])[media[|media| - 1].key := media[|media| - 1].url]
  }

  /** Every media key in the response is in the dictionary, and nothing else is. */
  lemma {:induction false} MediaMapKeys(media: seq<MediaObject>, k: string)
    ensures k in MediaMap(media) <==> exists i :: 0 <= i < |media| && media[i].key == k
  {
    if media != [] {
      var init := media[..|media| - 1];
      MediaMapKeys(init, k);
      if i :| 0 <= i < |init| && init[i].key == k {
        assert media[i] == init[i];
      }
      if i :| 0 <= i < |media| && media[i].key == k {
        if i < |init| {
          assert init[i] == media[i];
        }
      }
    }
  }

  /** For a key given more than once the dictionary keeps the URL of the last entry. */
  lemma {:induction false} MediaMapLastWins(media: seq<MediaObject>, i: int)
    requires LastWithKey(media, i)
    ensures media[i].key in MediaMap(media) && MediaMap(media)[media[i].key] == media[i].url
  {
    var init := media[..|media| - 1];
    if i < |init| {
      assert init[i] == media[i];
      assert LastWithKey(init, i) by {
        forall j | i < j < |init| ensures init[j].key != init[i].key {
          assert init[j] == media[j];
        }
      }
      MediaMapLastWins(init, i);
      assert media[|media| - 1].key != media[i].key;
    }
  }

  /** `tweet.attachments.get("media_keys", []) if tweet.attachments else []` */
  function KeysOf(t: Tweet): seq<string> {
    match t.mediaKeys
    case None => []
    case Some(keys) => keys
  }

  /** `[media_map[key] for key in media_keys]`: `None` when some key is missing from the map
      (the `KeyError` the comprehension raises); otherwise one URL per key, in the same order. */
  function Resolve(m: map<string, Option<string>>, keys: seq<string>): (r: Option<seq<Option<string>>>)
    ensures r.Some? <==> forall i :: 0 <= i < |keys| ==> keys[i] in m
    ensures r.Some? ==> |r.value| == |keys| && forall i :: 0 <= i < |keys| ==> r.value[i] == m[keys[i]]
  {
    if keys == [] then Some([])
    else if keys[0] !in m then None
    else
      match Resolve(m, keys[1..])
      case None => None
      case Some(urls) => Some([m[keys[0]]] + urls)
  }

  /** The image list of one post (lines 123-124 together): a post without attachments has no
      images; otherwise one URL per media key, in key order, or `None` for a key the
      dictionary lacks. */
  function ImagesOf(m: map<string, Option<string>>, t: Tweet): (r: Option<seq<Option<string>>>)
    ensures t.mediaKeys.None? ==> r == Some([])
    ensures r.None? <==> exists i :: 0 <= i < |KeysOf(t)| && KeysOf(t)[i] !in m
    ensures r.Some? ==> |r.value| == |KeysOf(t)|
    ensures r.Some? ==> forall i :: 0 <= i < |KeysOf(t)| ==> r.value[i] == m[KeysOf(t)[i]]
  {
    Resolve(m, KeysOf(t))
  }
}
