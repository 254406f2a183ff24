/**
 * The image cache of the object-store era. Every definition of every card
 * has one positional key under `card_images/`; the lookup accepts the key
 * with a `.jpg` or a `.jpeg` extension, generation and upload always write
 * the `.jpg` one.
 */
module ImageService {
  import opened Wrappers
  import opened Text
  import opened Cards
  import opened Store
  import DeckService

  // ---------------------------------------------------------------------
  // Keys
  // ---------------------------------------------------------------------

  /** `_get_image_blob_prefix`: the folder of one deck's images, inside
      the images folder of its category. */
  function ImageBlobPrefix(category: string, deckName: string): (p: string)
    ensures StartsWith(p, ImagesPrefix + "/" + category + "/")
  {
    var dir := ImagesPrefix + "/" + category + "/";
    assert (dir + DeckBase(deckName))[..|dir|] == dir;
    dir + DeckBase(deckName)
  }

  /** A deck named with or without `.json` keeps its images in the same
      folder: the folder depends on the deck's file name only. */
  lemma ImageBlobPrefixOfFileName(category: string, deckName: string)
    ensures ImageBlobPrefix(category, DeckService.DeckFileName(deckName)) == ImageBlobPrefix(category, deckName)
  {
    if !EndsWith(deckName, ".json") {
      DeckBaseAppend(deckName);
    }
  }

  /** The file name of an image without its extension. */
  function ImageFileStem(deckName: string, cardIndex: int, defIndex: int): string {
    DeckBase(deckName) + "_card_" + IntToString(cardIndex) + "_def" + IntToString(defIndex)
  }

  /** The key of an image without its extension. */
  function ImageStem(category: string, deckName: string, cardIndex: int, defIndex: int): string {
    ImageBlobPrefix(category, deckName) + "/" + ImageFileStem(deckName, cardIndex, defIndex)
  }

  /** `get_image_blob_path`: the one key generation and upload write. */
  function ImageBlobPath(category: string, deckName: string, cardIndex: int, defIndex: int): (key: string)
    ensures StartsWith(key, ImagesPrefix + "/" + category + "/")
    ensures EndsWith(key, ".jpg")
  {
    var dir := ImagesPrefix + "/" + category + "/";
    var key := ImageStem(category, deckName, cardIndex, defIndex) + ".jpg";
    assert key == dir + (DeckBase(deckName) + "/" + ImageFileStem(deckName, cardIndex, defIndex) + ".jpg");
    key
  }

  /** The older extension the lookup also accepts. */
  function JpegBlobPath(category: string, deckName: string, cardIndex: int, defIndex: int): string {
    ImageStem(category, deckName, cardIndex, defIndex) + ".jpeg"
  }

  /** The two candidate keys of one image differ. */
  lemma JpgJpegDistinct(category: string, deckName: string, cardIndex: int, defIndex: int)
    ensures ImageBlobPath(category, deckName, cardIndex, defIndex)
         != JpegBlobPath(category, deckName, cardIndex, defIndex)
  {
    var jpg := ImageBlobPath(category, deckName, cardIndex, defIndex);
    var jpeg := JpegBlobPath(category, deckName, cardIndex, defIndex);
    assert jpg[|jpg| - 4] == '.';
    assert jpeg[|jpeg| - 4] == 'j';
  }

  /** A string and its continuation split at the marker `_def` when the
      part before the marker has no underscore. */
  lemma SplitAtDef(a: string, b: string, a': string, b': string)
    requires '_' !in a && '_' !in a'
    requires a + "_def" + b == a' + "_def" + b'
    ensures a == a' && b == b'
  {
    var s := a + "_def" + b;
    // The first underscore of `s` ends `a` and ends `a'`.
    var n := if |a| <= |a'| then |a| else |a'|;
    assert s[n] == '_' by {
      if |a| <= |a'| { assert s[n] == "_def"[0]; }
    }
    assert |a| == |a'|;
    assert a == s[..|a|] == a';
    assert b == s[|a| + 4..] == b';
  }

  /** Within one deck, different (card, definition) positions have different
      keys, so no two definitions share an image. */
  lemma ImageBlobPathInjective(category: string, deckName: string, i: int, j: int, i': int, j': int)
    requires ImageBlobPath(category, deckName, i, j) == ImageBlobPath(category, deckName, i', j')
    ensures i == i' && j == j'
  {
    var dir := ImageBlobPrefix(category, deckName) + "/";
    var f, f' := ImageFileStem(deckName, i, j), ImageFileStem(deckName, i', j');
    assert ImageBlobPath(category, deckName, i, j) == dir + f + ".jpg";
    assert ImageBlobPath(category, deckName, i', j') == dir + f' + ".jpg";
    StripAround(dir, f, f', ".jpg");
    FileStemInjective(deckName, i, j, i', j');
  }

  lemma FileStemInjective(deckName: string, i: int, j: int, i': int, j': int)
    requires ImageFileStem(deckName, i, j) == ImageFileStem(deckName, i', j')
    ensures i == i' && j == j'
  {
    NoUnderscore(i);
    NoUnderscore(i');
    SplitAfterHead(DeckBase(deckName) + "_card_", IntToString(i), IntToString(j), IntToString(i'), IntToString(j'));
    IntToStringInjective(i, i');
    IntToStringInjective(j, j');
  }

  /** `h + a + "_def" + b` determines `a` and `b` when `a` has no underscore. */
  lemma SplitAfterHead(h: string, a: string, b: string, a': string, b': string)
    requires '_' !in a && '_' !in a'
    requires h + a + "_def" + b == h + a' + "_def" + b'
    ensures a == a' && b == b'
  {
    var f, f' := h + a + "_def" + b, h + a' + "_def" + b';
    var m, m' := a + "_def" + b, a' + "_def" + b';
    assert f == h + m && f' == h + m';
    assert m == f[|h|..] && m' == f'[|h|..];
    SplitAtDef(a, b, a', b');
  }

  lemma NoUnderscore(i: int)
    ensures '_' !in IntToString(i)
  {
    var s := IntToString(i);
    forall k | 0 <= k < |s| ensures s[k] != '_' {
      assert IsDigit(s[k]) || s[k] == '-';
    }
  }

  /** Equal strings with the same head and tail have the same middle. */
  lemma StripAround(p: string, m: string, m': string, q: string)
    requires p + m + q == p + m' + q
    ensures m == m'
  {
    var key := p + m + q;
    assert m == key[|p|..|key| - |q|];
    assert m' == (p + m' + q)[|p|..|key| - |q|];
  }

  /** `find_existing_image_path`: the `.jpg` key when it holds a blob, else
      the `.jpeg` key when it does, else nothing. */
  function FindExistingImagePath(b: Bucket, category: string, deckName: string, cardIndex: int, defIndex: int)
    : (r: Option<string>)
    reads b
    ensures r.Some? ==> r.value in b.media
    ensures r.None? <==>
              ImageBlobPath(category, deckName, cardIndex, defIndex) !in b.media
              && JpegBlobPath(category, deckName, cardIndex, defIndex) !in b.media
    ensures ImageBlobPath(category, deckName, cardIndex, defIndex) in b.media ==>
              r == Some(ImageBlobPath(category, deckName, cardIndex, defIndex))
    ensures r.Some? ==>
              r.value == ImageBlobPath(category, deckName, cardIndex, defIndex)
              || r.value == JpegBlobPath(category, deckName, cardIndex, defIndex)
  {
    var jpg := ImageBlobPath(category, deckName, cardIndex, defIndex);
    var jpeg := JpegBlobPath(category, deckName, cardIndex, defIndex);
    if jpg in b.media then Some(jpg)
    else if jpeg in b.media then Some(jpeg)
    else None
  }

  // ---------------------------------------------------------------------
  // Generation
  // ---------------------------------------------------------------------

  /** What the image model does when asked for one image: the images it
      returns (already JPEG-encoded), or the exception it raises. */
  datatype ImageResponse =
    | Images(images: seq<Bytes>)
    | Timeout
    | ConnectionError
    | Raised(detail: string)

  /** The configured image model, possibly missing. */
  datatype ImageModel = NoModel | Model(response: ImageResponse)

  const SkippedMessage: string :=
    SkippedHead + "omitida" + " (force_generation=False)."
  const SkippedHead: string := "Imagen no existe y la generación fue "
  const NoModelMessage: string := "Modelo de IA no disponible."
  const NoImagesMessage: string := "La API no devolvió ninguna imagen."
  const UploadFailedMessage: string := "Error al subir imagen a GCS."
  const TimeoutMessage: string := "Tiempo de espera (Timeout) o error de conexión."
  const ModelErrorPrefix: string := "Error interno de la API de IA: "

  /** The message of a skipped generation carries the word the HTTP layer
      looks for to answer "not found" rather than "server error". */
  lemma SkippedMessageIsRecognised()
    ensures Occurs(SkippedMessage, "omitida")
  {
    var n := |SkippedHead|;
    assert SkippedMessage[n..n + 7] == "omitida";
    assert OccursAt(SkippedMessage, "omitida", n);
  }

  /** `generate_image`: reuse an existing image, or (only when forced) ask
      the model for one and store it under the `.jpg` key. Returns success,
      an error message and either a public URL (on success) or the expected
      key (on failure). */
  method GenerateImage(
    b: Bucket, category: string, deckName: string, cardIndex: int, defIndex: int,
    force: bool, model: ImageModel, putFails: bool)
    returns (success: bool, message: string, location: string)
    modifies b`media
    ensures var key := ImageBlobPath(category, deckName, cardIndex, defIndex);
      var found := old(FindExistingImagePath(b, category, deckName, cardIndex, defIndex));
      && (found.Some? ==>
            success && message == "" && location == b.PublicUrl(found.value) && b.media == old(b.media))
      && (found.None? ==>
            (success <==> force && model.Model? && model.response.Images?
                          && model.response.images != [] && !putFails))
      && (found.None? && success ==>
            && message == "" && location == b.PublicUrl(key)
            && b.media == old(b.media)[key := model.response.images[0]])
      && (found.None? && !success ==> location == key && b.media == old(b.media))
      && (found.None? && !force ==> message == SkippedMessage)
      && (found.None? && force && model.NoModel? ==> message == NoModelMessage)
      && (found.None? && force && model == Model(Images([])) ==> message == NoImagesMessage)
      && ((found.None? && force && model.Model? && model.response.Images?
           && model.response.images != [] && putFails) ==> message == UploadFailedMessage)
      && ((found.None? && force && model.Model?
           && (model.response.Timeout? || model.response.ConnectionError?)) ==> message == TimeoutMessage)
      && ((found.None? && force && model.Model? && model.response.Raised?) ==>
            message == ModelErrorPrefix + model.response.detail)
    ensures success ==> FindExistingImagePath(b, category, deckName, cardIndex, defIndex).Some?
  {
    var key := ImageBlobPath(category, deckName, cardIndex, defIndex);
    var existing := FindExistingImagePath(b, category, deckName, cardIndex, defIndex);
    if existing.Some? {
      return true, "", b.PublicUrl(existing.value);
    }
    if !force {
      return false, SkippedMessage, key;
    }
    if model.NoModel? {
      return false, NoModelMessage, key;
    }
    match model.response
    case Images(images) =>
      if images == [] {
        return false, NoImagesMessage, key;
      }
      var ok := b.Put(key, images[0], putFails);
      if ok {
        return true, "", b.PublicUrl(key);
      }
      return false, UploadFailedMessage, key;
    case Timeout =>
      return false, TimeoutMessage, key;
    case ConnectionError =>
      return false, TimeoutMessage, key;
    case Raised(detail) =>
      return false, ModelErrorPrefix + detail, key;
  }

  // ---------------------------------------------------------------------
  // Deletion and upload
  // ---------------------------------------------------------------------

  const NotFoundMessage: string := "Imagen no encontrada en GCS."
  const DeletedMessage: string := "Imagen eliminada de GCS."
  const DeleteFailedMessage: string := "Error al eliminar imagen de GCS."

  /** `delete_image`: removes the image the lookup finds. A missing image is
      a success that changes nothing. */
  method DeleteImage(b: Bucket, category: string, deckName: string, cardIndex: int, defIndex: int, deleteFails: bool)
    returns (success: bool, message: string)
    modifies b`media
    ensures var found := old(FindExistingImagePath(b, category, deckName, cardIndex, defIndex));
      && (found.None? ==> success && message == NotFoundMessage && b.media == old(b.media))
      && (found.Some? && deleteFails ==>
            !success && message == DeleteFailedMessage && b.media == old(b.media))
      && (found.Some? && !deleteFails ==>
            success && message == DeletedMessage && b.media == old(b.media) - {found.value})
  {
    var path := FindExistingImagePath(b, category, deckName, cardIndex, defIndex);
    if path.None? {
      return true, NotFoundMessage;
    }
    var ok := b.Delete(path.value, deleteFails);
    if ok {
      return true, DeletedMessage;
    }
    return false, DeleteFailedMessage;
  }

  /** Deleting twice is deleting once: once a delete has succeeded and no
      image is left under either extension, a second delete reports the
      image as not found and changes nothing. When both extensions were
      stored, the first delete uncovers the `.jpeg` image. */
  lemma DeleteUncoversJpeg(media: map<string, Bytes>, category: string, deckName: string, cardIndex: int, defIndex: int)
    requires ImageBlobPath(category, deckName, cardIndex, defIndex) in media
    ensures var jpeg := JpegBlobPath(category, deckName, cardIndex, defIndex);
      var after := media - {ImageBlobPath(category, deckName, cardIndex, defIndex)};
      && (jpeg in after <==> jpeg in media)
      && ImageBlobPath(category, deckName, cardIndex, defIndex) !in after
  {
    JpgJpegDistinct(category, deckName, cardIndex, defIndex);
  }

  const UploadPutFailedMessage: string := "Error al subir imagen a GCS"
  const DeckUpdateFailedPrefix: string := "Error al guardar o actualizar JSON: "

  /** `upload_image`: stores uploaded bytes under the `.jpg` key (whatever
      the uploaded file's extension), first removing a `.jpeg` image of the
      same position, then points the definition's `imagePath` at the public
      URL. A failing deck update is reported but the stored image stays. */
  method UploadImage(
    b: Bucket, category: string, deckName: string, cardIndex: int, defIndex: int,
    content: Bytes, faults: StoreFaults)
    returns (success: bool, message: string, location: string)
    modifies b`media, b`decks
    ensures var key := ImageBlobPath(category, deckName, cardIndex, defIndex);
      var found := old(FindExistingImagePath(b, category, deckName, cardIndex, defIndex));
      var cleared := if found.Some? && found.value != key && !faults.deleteFails
                     then old(b.media) - {found.value} else old(b.media);
      var deckKey := DeckService.DeckKey(category, deckName);
      var e := DeckService.ImagePathUpdateError(
                 old(b.decks), category, deckName, cardIndex, defIndex, faults.deckWriteFails);
      && b.media == (if faults.putFails then cleared else cleared[key := content])
      && (success <==> !faults.putFails && e.None?)
      && (faults.putFails ==>
            message == UploadPutFailedMessage && location == key && b.decks == old(b.decks))
      && (!faults.putFails && e.Some? ==>
            && message == DeckUpdateFailedPrefix + e.value.Message()
            && location == key && b.decks == old(b.decks))
      && (success ==>
            && message == "" && location == b.PublicUrl(key)
            && deckKey in b.decks
            && b.decks == old(b.decks)[deckKey := b.decks[deckKey]]
            && ImagePathSetAt(old(b.decks)[deckKey], b.decks[deckKey], cardIndex, defIndex,
                              Path(b.PublicUrl(key))))
  {
    var key := ImageBlobPath(category, deckName, cardIndex, defIndex);
    var existing := FindExistingImagePath(b, category, deckName, cardIndex, defIndex);
    if existing.Some? && existing.value != key {
      var _ := b.Delete(existing.value, faults.deleteFails);
    }
    var ok := b.Put(key, content, faults.putFails);
    if !ok {
      return false, UploadPutFailedMessage, key;
    }
    var url := b.PublicUrl(key);
    var r := DeckService.UpdateImagePathInCard(b, category, deckName, cardIndex, defIndex, Some(url),
                                               faults.deckWriteFails);
    if r.Err? {
      return false, DeckUpdateFailedPrefix + r.error.Message(), key;
    }
    return true, "", url;
  }
}
