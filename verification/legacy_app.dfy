/**
 * The older single-process server, which keeps decks, images and audio on
 * the local disk. Its module globals (the active deck file and the active
 * image folder) are the fields of one server object, and the three
 * directories it uses are maps from path to content.
 */
module LegacyApp {
  import opened Wrappers
  import opened Text
  import opened Cards
  import opened Store
  import opened AudioKeys
  import DeckService
  import ImageService
  import AudioService

  const ImagesBaseDir: string := "card_images"
  const AudioDir: string := "card_audio"
  const DefaultDeckFile: string := "get.json"

  const NoDataMessage: string := "Archivo de datos no encontrado y no hay JSONs disponibles."
  const IndexMessage: string := "Índice fuera de rango."
  const WordPrefix: string := "The word is: "

  /** `_set_dynamic_image_dir`: the image folder of a deck file, under
      `card_images` unless the deck's base name is an absolute path, which
      `os.path.join` then keeps as it is. */
  function ImageDirFor(deckName: string): (d: string)
    ensures !StartsWith(DeckBase(deckName), "/") ==> d == ImagesBaseDir + "/" + DeckBase(deckName)
    ensures StartsWith(DeckBase(deckName), "/") ==> d == DeckBase(deckName)
  {
    PathJoin(ImagesBaseDir, DeckBase(deckName))
  }

  /** The text the older server speaks: a short phrase (at most two words
      and at most ten characters once stripped) is prefixed so that a lone
      word is pronounced clearly. */
  function LegacySpoken(text: string): (spoken: string)
    ensures EndsWith(spoken, Strip(text))
    ensures spoken == Strip(text) || spoken == WordPrefix + Strip(text)
    ensures spoken != Strip(text) <==> WordCount(Strip(text)) <= 2 && |Strip(text)| <= 10
  {
    var t := Strip(text);
    if WordCount(t) <= 2 && |t| <= 10 then WordPrefix + t else t
  }

  /** The cache key of the older server: the spoken text (prefix included),
      voice and model (empty when missing) joined by `|`, neither stripped
      nor lower-cased. */
  function LegacyAudioKey(text: string, voice: string, model: Option<string>): string {
    LegacySpoken(text) + "|" + voice + "|" + ModelText(model)
  }

  /** `model_name or ''`. */
  function ModelText(model: Option<string>): string {
    if model.Some? then model.value else ""
  }

  /** Splitting at the last `|`: two joins agree only when their parts do,
      provided the part after the bar has none. */
  lemma SplitAtLastBar(a: string, b: string, c: string, d: string)
    requires '|' !in b && '|' !in d
    requires a + "|" + b == c + "|" + d
    ensures a == c && b == d
  {
    var s := a + "|" + b;
    assert s[|s| - |b| - 1] == '|' && s[|s| - |d| - 1] == '|';
    assert |b| == |d|;
    assert b == s[|s| - |b|..] == d;
    assert a == s[..|a|] == c;
  }

  /** The key tells requests apart: when voices and model names hold no
      `|`, two requests share a key only if they speak the same text with
      the same voice and the same model text. The spoken text itself may
      hold bars. */
  lemma LegacyAudioKeySeparates(
    t1: string, v1: string, m1: Option<string>, t2: string, v2: string, m2: Option<string>)
    requires '|' !in v1 && '|' !in v2 && '|' !in ModelText(m1) && '|' !in ModelText(m2)
    requires LegacyAudioKey(t1, v1, m1) == LegacyAudioKey(t2, v2, m2)
    ensures LegacySpoken(t1) == LegacySpoken(t2) && v1 == v2 && ModelText(m1) == ModelText(m2)
  {
    SplitAtLastBar(LegacySpoken(t1) + "|" + v1, ModelText(m1), LegacySpoken(t2) + "|" + v2, ModelText(m2));
    SplitAtLastBar(LegacySpoken(t1), v1, LegacySpoken(t2), v2);
  }

  /** `get_audio_filepath`: the audio folder, the full hex digest, `.mp3`. */
  function LegacyAudioPath(sha: string -> Digest, text: string, voice: string, model: Option<string>): (p: string)
    ensures p == AudioDir + "/" + sha(LegacyAudioKey(text, voice, model)) + ".mp3"
  {
    var h := sha(LegacyAudioKey(text, voice, model));
    assert (h + ".mp3")[0] == h[0] && IsHex(h[0]);
    PathJoinPlain(AudioDir, h + ".mp3");
    PathJoin(AudioDir, h + ".mp3")
  }

  /** The deck reset of the older format, one card at a time. */
  method LegacyResetCards(data: Deck) returns (r: Deck)
    ensures LegacyDeckReset(data, r)
  {
    r := data;
    var k := 0;
    while k < |r|
      invariant 0 <= k <= |r| && |r| == |data|
      invariant forall n :: 0 <= n < k ==> LegacyCardReset(data[n], r[n])
      invariant forall n :: k <= n < |r| ==> r[n] == data[n]
    {
      var card := r[k].(learned := Some(false));
      if card.imagePath != Absent {
        card := card.(imagePath := Null);
      }
      r := r[k := card];
      k := k + 1;
    }
  }

  /** Resetting a reset deck of the older format changes nothing. */
  lemma LegacyResetIsIdempotent(d0: Deck, d1: Deck, d2: Deck)
    requires LegacyDeckReset(d0, d1) && LegacyDeckReset(d1, d2)
    ensures d2 == d1
  {
    forall k | 0 <= k < |d1| ensures d2[k] == d1[k] {
      assert LegacyCardReset(d0[k], d1[k]) && LegacyCardReset(d1[k], d2[k]);
    }
  }

  /** `_get_deck_prefix`: the last component of the image folder, a
      slash-free tail of it. */
  function DeckPrefix(imageDir: string): (p: string)
    ensures '/' !in p && EndsWith(imageDir, p)
    ensures p == imageDir || imageDir[|imageDir| - |p| - 1] == '/'
  {
    LastSegment(imageDir)
  }

  function LegacyImageStem(imageDir: string, cardIndex: int, defIndex: int): string {
    DeckPrefix(imageDir) + "_card_" + IntToString(cardIndex) + "_def" + IntToString(defIndex)
  }

  /** The stem never starts with a slash: the deck prefix holds none, and
      an empty prefix leaves the stem starting with `_`. */
  lemma LegacyImageStemRelative(imageDir: string, cardIndex: int, defIndex: int)
    ensures var stem := LegacyImageStem(imageDir, cardIndex, defIndex);
      stem != [] && stem[0] != '/'
  {
    StemStart(DeckPrefix(imageDir), IntToString(cardIndex), IntToString(defIndex));
  }

  lemma StemStart(prefix: string, card: string, def: string)
    requires '/' !in prefix
    ensures var stem := prefix + "_card_" + card + "_def" + def;
      stem != [] && stem[0] != '/'
  {
    var stem := prefix + "_card_" + card + "_def" + def;
    if prefix == [] {
      assert stem[0] == '_';
    } else {
      assert stem[0] == prefix[0];
    }
  }

  /** The image file of a stem with the given extension inside the folder. */
  function ImagePathWith(imageDir: string, stem: string, ext: string): (f: string)
    ensures EndsWith(f, ext)
  {
    PathJoinSuffix(imageDir, stem + ext);
    assert EndsWith(stem + ext, ext) by {
      assert (stem + ext)[|stem + ext| - |ext|..] == ext;
    }
    PathJoin(imageDir, stem + ext)
  }

  /** `get_image_filepath`: always the `.jpg` file. */
  function ImageFilepath(imageDir: string, cardIndex: int, defIndex: int): (f: string)
    ensures EndsWith(f, ".jpg")
  {
    ImagePathWith(imageDir, LegacyImageStem(imageDir, cardIndex, defIndex), ".jpg")
  }

  /** The image file lies directly inside the image folder: the stem never
      starts with a slash, so `os.path.join` does not discard the folder. */
  lemma ImageFilepathInFolder(imageDir: string, cardIndex: int, defIndex: int)
    requires imageDir != [] && imageDir[|imageDir| - 1] != '/'
    ensures ImageFilepath(imageDir, cardIndex, defIndex)
         == imageDir + "/" + LegacyImageStem(imageDir, cardIndex, defIndex) + ".jpg"
  {
    var stem := LegacyImageStem(imageDir, cardIndex, defIndex);
    LegacyImageStemRelative(imageDir, cardIndex, defIndex);
    assert (stem + ".jpg")[0] == stem[0];
    PathJoinPlain(imageDir, stem + ".jpg");
  }

  /** The `.jpeg` file that `find_existing_image_path` also looks for. */
  function JpegFilepath(imageDir: string, cardIndex: int, defIndex: int): (f: string)
    ensures EndsWith(f, ".jpeg")
  {
    ImagePathWith(imageDir, LegacyImageStem(imageDir, cardIndex, defIndex), ".jpeg")
  }

  /** `os.path.join` keeps the name at the end. */
  lemma PathJoinSuffix(dir: string, name: string)
    ensures EndsWith(PathJoin(dir, name), name)
  {
    var j := PathJoin(dir, name);
    assert j[|j| - |name|..] == name;
  }

  /** `find_existing_image_path`: the `.jpg` file if present, else the
      `.jpeg` file if present. */
  function FindExistingImagePath(imageDir: string, files: map<string, Bytes>, cardIndex: int, defIndex: int)
    : (r: Option<string>)
    ensures r.Some? ==> r.value in files
    ensures r.Some? ==>
              r.value == ImageFilepath(imageDir, cardIndex, defIndex) || r.value == JpegFilepath(imageDir, cardIndex, defIndex)
    ensures ImageFilepath(imageDir, cardIndex, defIndex) in files ==>
              r == Some(ImageFilepath(imageDir, cardIndex, defIndex))
    ensures r.None? <==>
              ImageFilepath(imageDir, cardIndex, defIndex) !in files && JpegFilepath(imageDir, cardIndex, defIndex) !in files
  {
    var jpg, jpeg := ImageFilepath(imageDir, cardIndex, defIndex), JpegFilepath(imageDir, cardIndex, defIndex);
    if jpg in files then Some(jpg)
    else if jpeg in files then Some(jpeg)
    else None
  }

  /** What `generate_image_file` does given the file it found, if any, the
      path it would save to, and the folder's files before and after. */
  predicate GenerationOutcome(
    found: Option<string>, path: string, force: bool, model: ImageService.ImageModel,
    before: map<string, Bytes>, after: map<string, Bytes>, success: bool, message: string)
  {
    && (found.Some? ==> success && message == "" && after == before)
    && (found.None? ==>
          (success <==> force && model.Model? && model.response.Images? && model.response.images != []))
    && (found.None? && success ==>
          message == "" && after == before[path := model.response.images[0]])
    && (found.None? && !success ==> after == before)
    && (found.None? && !force ==> message == ImageService.SkippedMessage)
    && (found.None? && force && model.NoModel? ==> message == ImageService.NoModelMessage)
    && (found.None? && force && model == ImageService.Model(ImageService.Images([])) ==>
          message == ImageService.NoImagesMessage)
    && ((found.None? && force && model.Model?
         && (model.response.Timeout? || model.response.ConnectionError?)) ==>
          message == ImageService.TimeoutMessage)
    && ((found.None? && force && model.Model? && model.response.Raised?) ==>
          message == ImageService.ModelErrorPrefix + model.response.detail)
  }

  /** The decisions of `generate_image_file` once the existing file and
      the target path are known: success, message, and the folder's files
      afterwards. */
  function GenerationResult(
    found: Option<string>, path: string, force: bool, model: ImageService.ImageModel, before: map<string, Bytes>)
    : (r: (bool, string, map<string, Bytes>))
    ensures GenerationOutcome(found, path, force, model, before, r.2, r.0, r.1)
  {
    if found.Some? then (true, "", before)
    else if !force then (false, ImageService.SkippedMessage, before)
    else if model.NoModel? then (false, ImageService.NoModelMessage, before)
    else
      match model.response
      case Images(images) =>
        if images == [] then (false, ImageService.NoImagesMessage, before)
        else (true, "", before[path := images[0]])
      case Timeout => (false, ImageService.TimeoutMessage, before)
      case ConnectionError => (false, ImageService.TimeoutMessage, before)
      case Raised(detail) => (false, ImageService.ModelErrorPrefix + detail, before)
  }

  /** After a successful generation the image is found: the next call
      reuses it. */
  lemma GeneratedImageIsFound(
    imageDir: string, before: map<string, Bytes>, after: map<string, Bytes>, cardIndex: int, defIndex: int,
    force: bool, model: ImageService.ImageModel, success: bool, message: string)
    requires GenerationOutcome(FindExistingImagePath(imageDir, before, cardIndex, defIndex),
                               ImageFilepath(imageDir, cardIndex, defIndex), force, model, before, after, success, message)
    requires success
    ensures FindExistingImagePath(imageDir, after, cardIndex, defIndex).Some?
  {
    var found := FindExistingImagePath(imageDir, before, cardIndex, defIndex);
    var path := ImageFilepath(imageDir, cardIndex, defIndex);
    if found.None? {
      assert after == before[path := model.response.images[0]];
      assert path in after;
    } else {
      assert after == before;
    }
  }

  /** How writing the synthesised audio to its file ends: completely, or
      with an error after `kept` bytes are on disk. */
  datatype WriteOutcome = Written | WriteFailed(kept: nat, detail: string)

  /** The part of `audio` on disk after a write that stopped at `kept`. */
  function WrittenPart(audio: Bytes, kept: nat): (part: Bytes)
    ensures |part| <= |audio| && part == audio[..|part|]
    ensures kept < |audio| ==> |part| == kept && part != audio
  {
    if kept < |audio| then audio[..kept] else audio
  }

  class LegacyServer {
    /** `FLASHCARDS_FILE_NAME`: the active deck file. */
    var activeFile: string
    /** `IMAGE_DIR`: the active image folder. */
    var imageDir: string
    /** The deck files of the data folder, parsed, by file name. */
    var jsonFiles: map<string, Deck>
    /** Image files by path. */
    var imageFiles: map<string, Bytes>
    /** Audio files by path. */
    var audioFiles: map<string, Bytes>

    /** Start-up: `get.json` is active and its image folder is set. */
    constructor (jsonFiles: map<string, Deck>, imageFiles: map<string, Bytes>, audioFiles: map<string, Bytes>)
      ensures activeFile == DefaultDeckFile && imageDir == ImageDirFor(DefaultDeckFile)
      ensures this.jsonFiles == jsonFiles && this.imageFiles == imageFiles && this.audioFiles == audioFiles
    {
      activeFile := DefaultDeckFile;
      imageDir := ImageDirFor(DefaultDeckFile);
      this.jsonFiles := jsonFiles;
      this.imageFiles := imageFiles;
      this.audioFiles := audioFiles;
    }

    /** `_set_dynamic_image_dir`. */
    method SetDynamicImageDir(deckName: string)
      modifies this`imageDir
      ensures imageDir == ImageDirFor(deckName)
    {
      imageDir := ImageDirFor(deckName);
    }

    /** `generate_image_file`: like the object-store version, but saving to
        the active image folder and returning no location. */
    method GenerateImageFile(cardIndex: int, defIndex: int, force: bool, model: ImageService.ImageModel)
      returns (success: bool, message: string)
      modifies this`imageFiles
      ensures (success, message, imageFiles) ==
              GenerationResult(FindExistingImagePath(imageDir, old(imageFiles), cardIndex, defIndex),
                               ImageFilepath(imageDir, cardIndex, defIndex), force, model, old(imageFiles))
    {
      var existing := FindExistingImagePath(imageDir, imageFiles, cardIndex, defIndex);
      var path := ImageFilepath(imageDir, cardIndex, defIndex);
      var r := GenerationResult(existing, path, force, model, imageFiles);
      success, message, imageFiles := r.0, r.1, r.2;
    }

    /** The older `synthesize_speech_file`: reuse the file named after the
        digest when it exists, otherwise synthesise it. Any synthesis error
        gives the same message, with a final period. The file is opened for
        writing before the audio is written and nothing removes it when the
        write fails, so a failed write leaves whatever part of the audio got
        written at the digest path. */
    method SynthesizeSpeech(
      sha: string -> Digest, text: string, voice: string, model: Option<string>,
      tts: AudioService.TtsOutcome, write: WriteOutcome)
      returns (success: bool, path: string, message: string)
      modifies this`audioFiles
      ensures var p := LegacyAudioPath(sha, text, voice, model);
        && (p in old(audioFiles) ==> success && path == p && message == "" && audioFiles == old(audioFiles))
        && (p !in old(audioFiles) && tts.NoClient? ==>
              !success && path == "" && message == AudioService.NoClientMessage && audioFiles == old(audioFiles))
        && (p !in old(audioFiles) && tts.Synthesized? && write.Written? ==>
              success && path == p && message == "" && audioFiles == old(audioFiles)[p := tts.audio])
        && (p !in old(audioFiles) && tts.Synthesized? && write.WriteFailed? ==>
              && !success && path == ""
              && message == AudioService.SynthesisFailedPrefix + write.detail + "."
              && audioFiles == old(audioFiles)[p := WrittenPart(tts.audio, write.kept)])
        && (p !in old(audioFiles) && (tts.InvalidArgument? || tts.Failed?) ==>
              && !success && path == ""
              && message == AudioService.SynthesisFailedPrefix + tts.detail + "."
              && audioFiles == old(audioFiles))
      ensures success ==> path in audioFiles
    {
      var p := LegacyAudioPath(sha, text, voice, model);
      if p in audioFiles {
        return true, p, "";
      }
      match tts
      case NoClient =>
        return false, "", AudioService.NoClientMessage;
      case Synthesized(audio) =>
        match write {
          case Written =>
            audioFiles := audioFiles[p := audio];
            return true, p, "";
          case WriteFailed(kept, detail) =>
            audioFiles := audioFiles[p := WrittenPart(audio, kept)];
            return false, "", AudioService.SynthesisFailedPrefix + detail + ".";
        }
      case InvalidArgument(detail) =>
        return false, "", AudioService.SynthesisFailedPrefix + detail + ".";
      case Failed(detail) =>
        return false, "", AudioService.SynthesisFailedPrefix + detail + ".";
    }

    /** A write that fails leaves a partial file that every later request
        for the same text, voice and model is served, whatever the speech
        client would now do. */
    method RequestAfterFailedWrite(
      sha: string -> Digest, text: string, voice: string, model: Option<string>,
      audio: Bytes, kept: nat, detail: string, tts: AudioService.TtsOutcome, write: WriteOutcome)
      returns (first: bool, second: bool, path: string)
      modifies this`audioFiles
      requires LegacyAudioPath(sha, text, voice, model) !in audioFiles
      ensures !first && second && path == LegacyAudioPath(sha, text, voice, model)
      ensures audioFiles == old(audioFiles)[path := WrittenPart(audio, kept)]
      ensures kept < |audio| ==> audioFiles[path] != audio
    {
      var p0, m0;
      first, p0, m0 := SynthesizeSpeech(sha, text, voice, model, AudioService.Synthesized(audio), WriteFailed(kept, detail));
      var m1;
      second, path, m1 := SynthesizeSpeech(sha, text, voice, model, tts, write);
    }

    /** `_set_active_json_file_sync`: switches the active deck file and its
        image folder, or reports a missing file and changes nothing. */
    method SetActiveJsonFile(filename: string) returns (r: Result<(), string>)
      modifies this`activeFile, this`imageDir
      ensures var f := DeckService.DeckFileName(filename);
        && (f !in jsonFiles ==>
              && r == Err("El archivo '" + f + "' no existe.")
              && activeFile == old(activeFile) && imageDir == old(imageDir))
        && (f in jsonFiles ==> r == Ok(()) && activeFile == f && imageDir == ImageDirFor(f))
      ensures r.Ok? ==> activeFile in AvailableFiles()
    {
      var f := DeckService.DeckFileName(filename);
      if f !in jsonFiles {
        return Err("El archivo '" + f + "' no existe.");
      }
      activeFile := f;
      SetDynamicImageDir(f);
      r := Ok(());
    }

    /** The deck files the glob `*.json` lists: each is a deck file name
        that `SetActiveJsonFile` accepts as it is. */
    function AvailableFiles(): (files: set<string>)
      reads this
      ensures forall f :: f in files ==> f in jsonFiles && DeckService.DeckFileName(f) == f
      ensures forall f :: f in jsonFiles && DeckService.DeckFileName(f) == f ==> f in files
      ensures files == {} <==> forall f :: f in jsonFiles ==> !EndsWith(f, ".json")
    {
      set f | f in jsonFiles && EndsWith(f, ".json")
    }

    /** `_get_flashcards_data_sync`: the active deck; when its file is gone,
        some listed deck file becomes active instead (its image folder is
        left as it was). */
    method GetFlashcardsData() returns (r: Result<Deck, string>)
      modifies this`activeFile
      ensures old(activeFile) in jsonFiles ==>
                activeFile == old(activeFile) && r == Ok(jsonFiles[activeFile])
      ensures old(activeFile) !in jsonFiles && AvailableFiles() == {} ==>
                activeFile == old(activeFile) && r == Err(NoDataMessage)
      ensures old(activeFile) !in jsonFiles && AvailableFiles() != {} ==>
                activeFile in AvailableFiles() && r == Ok(jsonFiles[activeFile])
      ensures r.Ok? ==> activeFile in jsonFiles && r.value == jsonFiles[activeFile]
    {
      if activeFile in jsonFiles {
        return Ok(jsonFiles[activeFile]);
      }
      var available := AvailableFiles();
      if available == {} {
        return Err(NoDataMessage);
      }
      var first :| first in available;
      activeFile := first;
      r := Ok(jsonFiles[activeFile]);
    }

    /** `_update_card_status_sync`: sets `learned` of one card of the active
        deck and writes the deck back. */
    method UpdateCardStatus(index: int, learned: bool) returns (r: Result<(), string>)
      modifies this`activeFile, this`jsonFiles
      ensures old(activeFile) in old(jsonFiles) ==> activeFile == old(activeFile)
      ensures old(activeFile) !in old(jsonFiles) && old(AvailableFiles()) != {} ==>
                activeFile in old(AvailableFiles())
      ensures old(activeFile) !in old(jsonFiles) && old(AvailableFiles()) == {} ==>
                r == Err(NoDataMessage) && activeFile == old(activeFile)
      ensures r.Err? ==> r == Err(NoDataMessage) || r == Err(IndexMessage)
      ensures activeFile in old(jsonFiles) || (activeFile == old(activeFile) && r.Err?)
      ensures r.Err? ==> jsonFiles == old(jsonFiles)
      ensures activeFile in old(jsonFiles) && !(0 <= index < |old(jsonFiles)[activeFile]|) ==>
                r == Err(IndexMessage)
      ensures r.Ok? <==> activeFile in old(jsonFiles) && 0 <= index < |old(jsonFiles)[activeFile]|
      ensures r.Ok? ==>
                && activeFile in jsonFiles
                && jsonFiles == old(jsonFiles)[activeFile := jsonFiles[activeFile]]
                && LearnedSetAt(old(jsonFiles)[activeFile], jsonFiles[activeFile], index, learned)
    {
      var loaded := GetFlashcardsData();
      if loaded.Err? {
        return Err(loaded.error);
      }
      var data := loaded.value;
      if 0 <= index < |data| {
        data := data[index := data[index].(learned := Some(learned))];
      } else {
        return Err(IndexMessage);
      }
      jsonFiles := jsonFiles[activeFile := data];
      r := Ok(());
    }

    /** `_reset_all_statuses_sync`: resets every card of the active deck
        (older format) and writes the deck back. */
    method ResetAllStatuses() returns (r: Result<(), string>)
      modifies this`activeFile, this`jsonFiles
      ensures old(activeFile) in old(jsonFiles) ==> activeFile == old(activeFile)
      ensures old(activeFile) !in old(jsonFiles) && old(AvailableFiles()) != {} ==>
                activeFile in old(AvailableFiles())
      ensures r.Err? <==> old(activeFile) !in old(jsonFiles) && old(AvailableFiles()) == {}
      ensures r.Err? ==> r == Err(NoDataMessage) && jsonFiles == old(jsonFiles) && activeFile == old(activeFile)
      ensures r.Ok? <==> activeFile in old(jsonFiles)
      ensures r.Ok? ==>
                && activeFile in jsonFiles
                && jsonFiles == old(jsonFiles)[activeFile := jsonFiles[activeFile]]
                && LegacyDeckReset(old(jsonFiles)[activeFile], jsonFiles[activeFile])
    {
      var loaded := GetFlashcardsData();
      if loaded.Err? {
        return Err(loaded.error);
      }
      var data := LegacyResetCards(loaded.value);
      jsonFiles := jsonFiles[activeFile := data];
      r := Ok(());
    }
  }

  /** After a deck file becomes active, the image file names start with
      that deck's name without `.json`, provided the name has no slash. */
  lemma ActiveDeckNamesImages(deckFile: string)
    requires '/' !in DeckBase(deckFile)
    ensures LastSegment(ImageDirFor(deckFile)) == DeckBase(deckFile)
  {
    BasenameOfJoin(ImagesBaseDir, DeckBase(deckFile));
  }

  /** At start-up the image folder is `card_images/get`. */
  lemma DefaultImageDir()
    ensures ImageDirFor(DefaultDeckFile) == "card_images/get"
  {
    var pat := ".json";
    assert RemoveAll(pat, pat) == "" by {
      assert pat[..|pat|] == pat && pat[|pat|..] == [];
    }
    var s1, s2, s3 := "t" + pat, "et" + pat, "get" + pat;
    RemoveAllKeep(s1, pat);
    assert s1[1..] == pat;
    RemoveAllKeep(s2, pat);
    assert s2[1..] == s1;
    RemoveAllKeep(s3, pat);
    assert s3[1..] == s2;
    assert DefaultDeckFile == s3;
    PathJoinPlain(ImagesBaseDir, "get");
  }
}
