/**
 * The object store the services share: one bucket holding the generated
 * media under `card_images/...` and the deck documents under `json/...`.
 * Deck documents are kept already parsed, so JSON reading and writing is
 * not part of this model. Each call that can fail in the store takes the
 * failure as an input, since the store's own reasons are out of view.
 */
module Store {
  import opened Text
  import opened Cards

  newtype byte = x: int | 0 <= x < 256

  type Bytes = seq<byte>

  /** Which of the store calls made by one request fail (an exception inside
      the helper, which it reports as `False`). */
  datatype StoreFaults = StoreFaults(putFails: bool, deleteFails: bool, deckWriteFails: bool)

  /** The configured key prefixes of the bucket. */
  const JsonPrefix: string := "json"
  const ImagesPrefix: string := "card_images"

  const PublicBase: string := "https://storage.googleapis.com/"

  class Bucket {
    const name: string
    /** Image blobs by key. */
    var media: map<string, Bytes>
    /** Parsed deck documents by key. */
    var decks: map<string, Deck>

    constructor (name: string, media: map<string, Bytes>, decks: map<string, Deck>)
      ensures this.name == name && this.media == media && this.decks == decks
    {
      this.name := name;
      this.media := media;
      this.decks := decks;
    }

    /** The public URL of a blob: the bucket's base address followed by the key. */
    function PublicUrl(key: string): (url: string)
      ensures StartsWith(url, PublicBase + name + "/")
      ensures EndsWith(url, key)
      ensures |url| == |PublicBase + name + "/"| + |key|
    {
      PublicBase + name + "/" + key
    }

    /** Writes a blob; a failing upload leaves the store as it was. */
    method Put(key: string, data: Bytes, fails: bool) returns (ok: bool)
      modifies this`media
      ensures ok == !fails
      ensures media == if ok then old(media)[key := data] else old(media)
    {
      ok := !fails;
      if ok {
        media := media[key := data];
      }
    }

    /** Deletes a blob. Reports `false`, and changes nothing, when the key is
      missing or the call fails. */
    method Delete(key: string, fails: bool) returns (ok: bool)
      modifies this`media
      ensures ok == (key in old(media) && !fails)
      ensures media == if ok then old(media) - {key} else old(media)
    {
      ok := key in media && !fails;
      if ok {
        media := media - {key};
      }
    }

    /** Rewrites a whole deck document; a failing upload leaves it as it was. */
    method WriteDeck(key: string, deck: Deck, fails: bool) returns (ok: bool)
      modifies this`decks
      ensures ok == !fails
      ensures decks == if ok then old(decks)[key := deck] else old(decks)
    {
      ok := !fails;
      if ok {
        decks := decks[key := deck];
      }
    }
  }

  /** Different keys of one bucket have different public URLs. */
  lemma PublicUrlInjective(b: Bucket, k1: string, k2: string)
    requires b.PublicUrl(k1) == b.PublicUrl(k2)
    ensures k1 == k2
  {
    var base := PublicBase + b.name + "/";
    assert k1 == b.PublicUrl(k1)[|base|..];
    assert k2 == b.PublicUrl(k2)[|base|..];
  }
}
