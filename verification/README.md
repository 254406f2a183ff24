# flashcard-backend: media cache and deck documents in Dafny

A model of the logic inside the flashcard backend. It covers four parts.

- **Image cache.** Every definition of every card has one positional key,
  `card_images/{category}/{base}/{base}_card_{i}_def{j}.jpg`, where `base`
  is the deck name with every `.json` removed.
  - A lookup accepts `.jpg` first and `.jpeg` second.
  - Generation goes through a gate: reuse the image, report "skipped"
    (when generation is not forced), or generate.
  - Delete removes the image the lookup finds. Upload always writes the
    `.jpg` key and then points the definition's `imagePath` at the image.
- **Audio cache.** A file is named `{base}_{verb}_{text}_{tone}_{hash}.mp3`.
  - All files of the same phrase are found through the prefix up to the
    tone. The newest of them is reused when the tone read back out of its
    name matches the requested tone.
  - Otherwise that file is deleted and new audio is synthesised.
- **Deck documents.** The store keeps the decks as parsed documents. The
  operations are:
  - listing categories (`phrasal_verbs` first) and decks;
  - locating a deck document;
  - setting one card's `learned`;
  - resetting a whole deck;
  - setting one definition's `imagePath`.
- **List cleaning.** Two scripts filter word lists: they drop repeated
  names and names already present in earlier lists.
  - `test/clear.py` cascades over three lists.
  - `test/clear-only-file.py` cleans the intermediate list against the
    basic one.

The older single-process server in `app/app.py` is modelled too. It keeps
decks, images and audio on the local disk and holds an "active deck" in
module globals.

Modules, one per file:

- `Wrappers`: `Option` and `Result`.
- `Text`: the Python string operations used (`strip`, `lower`,
  `replace`, `split`, `os.path.join`, `basename`, `str(int)`).
- `Cards`: the deck document.
- `Store`: the bucket, as a class over two maps.
- `DeckService`, `ImageService`, `AudioKeys` and `AudioService`: the
  services.
- `LegacyApp`: a class whose fields are the old server's globals.
- `ListDedup`: the shared filter loop.
- `FullCleaning` and `IntermediateCleaning`: the two scripts.

Collaborators are inputs of the model:

- SHA-256 is a function parameter `sha: string -> Digest`.
- The image model and the speech client are datatypes of their possible
  outcomes.
- Each store call that can fail takes its failure as a boolean.
- The "newest file" of a glob is chosen among the files whose
  modification time is maximal.

The older server's audio key (`app/app.py:197-200`) is built from the
text actually spoken, with its `"The word is: "` prefix, and is neither
stripped nor lower-cased; `LegacyApp.LegacyAudioPath` models it so.

The audio cache reads the tone back with the group `(.+?)`, which cannot
be empty. `AudioService.SynthesizeSpeechFile` models that as written;
`AudioService.SynthesizeSpeechFileCorrected` is the same request with the
group allowed to be empty (see "Findings").

## Model

| member | source | states |
|---|---|---|
| Store.Bucket.Put | app/services/gcs_helper.py:199-224 | an upload succeeds exactly when it does not fail; on success the key maps to the bytes, otherwise the store is unchanged |
| Store.Bucket.Delete | app/services/gcs_helper.py:227-250 | a delete reports success only for a present key and a call that does not fail, and then removes exactly that key; otherwise nothing changes |
| Store.Bucket.WriteDeck | app/services/gcs_helper.py:171-196 | a deck upload succeeds exactly when it does not fail; on success that key holds the deck, otherwise nothing changes |
| Store.PublicUrlInjective | app/services/gcs_helper.py:253-265 | different keys of one bucket have different public URLs |
| Cards.DeckBase | app/services/image_service.py:17-19 | removing `.json` never lengthens the name, and leaves it unchanged exactly when it holds no `.json` |
| Cards.DeckBaseAppend | app/services/image_service.py:17-19 | appending `.json` to a name does not change its base |
| Cards.ResetClearsDeck | app/services/deck_service.py:126-132 | after a reset every card is unlearned and no definition references an image |
| Cards.ResetIsIdempotent | app/services/deck_service.py:126-132 | resetting a reset deck changes nothing |
| DeckService.SortStringsCorrect | app/services/deck_service.py:29 | `SortStrings`, the model of `sorted`, orders the list and keeps the same multiset of names |
| DeckService.InsertSorted | app/services/deck_service.py:29 | inserting into a sorted list keeps it sorted |
| DeckService.InsertPermutes | app/services/deck_service.py:29 | inserting adds exactly one element |
| DeckService.FirstIndex | app/services/deck_service.py:34 | the index `list.remove` uses is that of the first occurrence |
| DeckService.CategoryNameOfPrefix | app/services/deck_service.py:23-26 | the listed folder prefix `json/{c}/` gives back the category `c`, for every name without `json/` and without a trailing slash |
| DeckService.ListCategories | app/services/deck_service.py:10-38 | the result is a permutation of the category names; with `phrasal_verbs` present it comes first and the rest is sorted, otherwise the whole list is sorted; an empty listing gives an empty list |
| DeckService.MoveToFront | app/services/deck_service.py:33-35 | moving one element of a sorted list to the front keeps the elements and leaves the rest sorted |
| DeckService.DeckFileName | app/services/deck_service.py:43 | the file name ends in `.json` and is either the deck name itself or the deck name with `.json` appended; it is the name itself when that already ends in `.json` |
| DeckService.DeckFileNameIdempotent | app/services/deck_service.py:43 | normalising a deck name twice is normalising it once |
| DeckService.DeckBlobPath | app/services/deck_service.py:41-54 | the deck key is returned exactly when the store holds it and ends in `.json`; otherwise the error names the file and category |
| DeckService.ListDecks | app/services/deck_service.py:57-73 | an empty listing is an error; otherwise one name per blob, in order, each slash-free and the final segment of its blob name |
| DeckService.UpdateCardStatus | app/services/deck_service.py:92-113 | missing deck, index out of range and failed upload each give their error and leave the store unchanged; otherwise only `learned` of that one card changes |
| DeckService.ResetDefinitions | app/services/deck_service.py:129-132 | every non-null definition `imagePath` becomes null, everything else stays |
| DeckService.ResetCards | app/services/deck_service.py:126-132 | every card becomes unlearned with its definitions reset; count, order and other members stay |
| DeckService.ResetDeckStatus | app/services/deck_service.py:116-140 | a missing deck or a failed upload leaves the store unchanged; otherwise exactly that deck is replaced by its reset |
| DeckService.ImagePathCheck | app/services/deck_service.py:157-169 | no error exactly when the card index is in range, the card has a definitions list and the definition index is in range; otherwise the first failing check in that order gives its error: card index out of range, no definitions list, definition index out of range |
| DeckService.ImagePathUpdateError | app/services/deck_service.py:148-177 | no error exactly when the deck exists, the indices check out and the upload succeeds; a missing deck gives `DeckNotFound`, then the index checks give their errors, then a failed upload gives the image-update upload error |
| DeckService.UpdateImagePathInCard | app/services/deck_service.py:143-177 | on any error the store is unchanged; otherwise only that definition's `imagePath` changes, to the reference or to null for None |
| ImageService.ImageBlobPrefix | app/services/image_service.py:12-15 | a deck's image folder lies inside the images folder of its category |
| ImageService.ImageBlobPrefixOfFileName | app/services/image_service.py:12-15 | a deck named with or without `.json` keeps its images in the same folder |
| ImageService.ImageBlobPath | app/services/image_service.py:12-27 | the image key lies under `card_images/{category}/` and ends in `.jpg` |
| ImageService.ImageBlobPathInjective | app/services/image_service.py:21-27 | within one deck, different (card, definition) positions have different keys |
| ImageService.FileStemInjective | app/services/image_service.py:26 | the file name `{base}_card_{i}_def{j}` determines `i` and `j` |
| ImageService.JpgJpegDistinct | app/services/image_service.py:37-42 | the `.jpg` and `.jpeg` keys of one image differ |
| ImageService.FindExistingImagePath | app/services/image_service.py:29-46 | `.jpg` when present, else `.jpeg` when present, else nothing; a result is always a stored key of the image |
| ImageService.GenerateImage | app/services/image_service.py:48-93 | an existing image is reused, with its URL and no change; otherwise success exactly when forced, a model exists and it returns an image that uploads; then only the `.jpg` key is added; every failure has its own message and leaves the store unchanged; after success the lookup finds the image |
| ImageService.SkippedMessageIsRecognised | app/services/image_service.py:62 | the "skipped" message contains `omitida` |
| ImageService.DeleteImage | app/services/image_service.py:95-107 | no image gives success with "not found" and no change; otherwise exactly the located key is removed, or nothing changes when the delete fails |
| ImageService.DeleteUncoversJpeg | app/services/image_service.py:95-107 | deleting the `.jpg` image leaves a `.jpeg` image of the same position exactly when it was there |
| ImageService.UploadImage | app/services/image_service.py:110-151 | the bytes always go to the `.jpg` key, after a `.jpeg` image of the position is removed; success exactly when the upload and the deck update succeed; then only the definition's `imagePath` changes, to the public URL; a failed deck update keeps the uploaded image |
| AudioKeys.DropUnsafe | app/services/audio_service.py:34 | only characters of `[a-z0-9\s-]` remain, and the result is no longer than the input |
| AudioKeys.DropUnsafeKeepsSafe | app/services/audio_service.py:34 | every character of `[a-z0-9\s-]` survives as often as it occurs |
| AudioKeys.DropUnsafeKeepsSafeText | app/services/audio_service.py:34 | a string made only of `[a-z0-9\s-]` is kept whole |
| AudioKeys.SafeFilename | app/services/audio_service.py:31-36 | the safe name has only `[a-z0-9_]`, at most 50 characters, no underscore at either end and never two in a row |
| AudioKeys.SafeFilenameNotIdempotent | app/services/audio_service.py:31-36 | sanitising is not idempotent: "a b" gives "a_b", which gives "ab" |
| AudioKeys.NormalizeTone | app/services/audio_service.py:64-72 | a blank or "default" tone gives the instruction "default" and the text as is; any other tone is kept stripped and prefixed to the text as `"{tone}: {text}"` |
| AudioKeys.ModelOrDefault | app/services/audio_service.py:81 | a missing or empty model name becomes `default_model`; any other is kept; the result is never empty |
| AudioKeys.HashKey | app/services/audio_service.py:81-82 | the key is already lower-case, and no longer than its three parts and the two bars |
| AudioKeys.HashSegment | app/services/audio_service.py:81-83 | the hash part is ten hex digits |
| AudioKeys.PhrasePrefix | app/services/audio_service.py:75-79 | the phrase prefix is never empty and ends with the underscore before the tone |
| AudioKeys.NewFilename | app/services/audio_service.py:86 | a request's file name is listed by the glob of its own phrase |
| AudioKeys.ToneLeavesPhraseAndHash | app/services/audio_service.py:75-86 | changing only the tone changes neither the phrase prefix nor the hash, only the tone part of the name |
| AudioKeys.ToneGroup | app/services/audio_service.py:107 | a match splits the name into the phrase prefix, the group, an underscore, a non-empty hex run and `.mp3` |
| AudioKeys.ParsedToneAsWritten | app/services/audio_service.py:107-108 | the tone read back with `(.+?)` is never empty |
| AudioKeys.ReadToneRoundTrip | app/services/audio_service.py:86-113 | a request's own file is listed by its phrase glob and, when its tone tag is at least as long as the group requires, its tone reads back as the tag and matches |
| AudioKeys.NewFilenameRoundTripAsWritten | app/services/audio_service.py:86-113 | as written, a request whose tone tag is not empty reads its own file's tone back as its tag, so it matches |
| AudioKeys.NewFilenameRoundTrip | app/services/audio_service.py:86-113 | with the group allowed to be empty, every request reads its own file's tone back as its tag |
| AudioKeys.EmptyTagNeverMatchesAsWritten | app/services/audio_service.py:107-113 | as written, a request whose tone tag is empty reads its own file back as "default" and never matches it |
| AudioKeys.EmptyTagExample | app/services/audio_service.py:67-76 | the tone "!!!" is not a default tone and sanitises to an empty tag |
| AudioKeys.LongerPhraseIsCandidate | app/services/audio_service.py:98-108 | the glob of a phrase also lists the files of a longer phrase that extends it; "go" sees the "go up" file in tone "x" and reads its tone as "up x" |
| AudioService.LatestExists | app/services/audio_service.py:101-103 | whenever the glob lists a file, a newest one exists |
| AudioService.ServeSpeech | app/services/audio_service.py:98-169 | for a tone group of at least `minTone` characters: the chosen file is a newest candidate; a matching tone returns it and changes nothing; otherwise the chosen file is deleted (unless the delete fails), even without a client; synthesis writes exactly the new name; each error has its message and leaves no file at the new name |
| AudioService.SynthesizeSpeechFile | app/services/audio_service.py:52-169 | the request as written, with the tone read back through `(.+?)`: every outcome as for `ServeSpeech` with a group of at least one character |
| AudioService.SynthesizeSpeechFileCorrected | app/services/audio_service.py:98-115 | the same request with the group allowed to be empty |
| AudioService.Synthesize | app/services/audio_service.py:128-169 | no client changes nothing; success writes exactly the new name; `InvalidArgument` gives the "Error 400" message and any other error the general one, both removing the new name |
| AudioService.WrittenFileIsNewest | app/services/audio_service.py:103 | a file written later than every other is the one and only newest file of any glob listing it |
| AudioService.SynthesizedFileIsReused | app/services/audio_service.py:98-115 | after a synthesis the new file is the only newest candidate and, when the tone tag is at least as long as the group requires (as written: not empty; corrected: always), its tone matches, so the same request reuses it |
| AudioService.OtherVoiceStillMatches | app/services/audio_service.py:98-113 | only the tone is compared: a file made with another voice is listed and, when the tone tag is long enough for the group, matches |
| AudioService.EmptyTagDeletesOwnFile | app/services/audio_service.py:98-124 | as written, a request with an empty tone tag whose newest file is its own deletes that file, and without a client fails with the cache gone |
| AudioService.CorrectedReusesOwnFile | app/services/audio_service.py:98-115 | with the group allowed to be empty, a request whose newest file is its own reuses it and changes nothing, whatever its tone |
| LegacyApp.ImageDirFor | app/app.py:66-77 | the image folder is `card_images/{base}`, unless the base is an absolute path, which `os.path.join` keeps as it is |
| LegacyApp.LegacySpoken | app/app.py:195-197 | the spoken text always ends with the stripped phrase and is either that phrase or that phrase after "The word is: "; it differs from the phrase exactly when the phrase has at most two words and ten characters |
| LegacyApp.LegacyAudioKeySeparates | app/app.py:199 | when voices and model names hold no bar, two requests share the key only if they speak the same text with the same voice and model text |
| LegacyApp.LegacyAudioPath | app/app.py:190-201 | the audio path is `card_audio/` followed by the full digest of spoken text, voice and model (empty when missing) and `.mp3` |
| LegacyApp.LegacyResetCards | app/app.py:284-288 | every card becomes unlearned, and a top-level `imagePath` becomes null only where the key is present |
| LegacyApp.LegacyResetIsIdempotent | app/app.py:285-288 | resetting a reset deck changes nothing |
| LegacyApp.DeckPrefix | app/app.py:138-140 | the deck prefix is a slash-free tail of the image folder, the whole folder or what follows its last slash |
| LegacyApp.ImageFilepath | app/app.py:155-160 | the image path always ends in `.jpg` |
| LegacyApp.ImageFilepathInFolder | app/app.py:155-160 | for a folder without a trailing slash, the image path is the folder, a slash, the stem and `.jpg` |
| LegacyApp.FindExistingImagePath | app/app.py:142-153 | `.jpg` when present, else `.jpeg` when present, else nothing; a result is always one of the two paths and a stored file |
| LegacyApp.GenerationResult | app/app.py:162-188 | reuse changes nothing; otherwise success exactly when forced and the model returns an image, which then is saved at the `.jpg` path only; each failure has its message and changes nothing |
| LegacyApp.GeneratedImageIsFound | app/app.py:155-184 | after a successful generation the lookup finds the image |
| LegacyApp.ActiveDeckNamesImages | app/app.py:72-81 | the image folder of a deck file is `card_images/{base}` with `base` as its basename, so image names start with the deck's base name |
| LegacyApp.DefaultImageDir | app/app.py:57 | at start-up the image folder is `card_images/get` |
| LegacyApp.LegacyServer.constructor | app/app.py:89-90 | start-up activates `get.json` and its image folder |
| LegacyApp.LegacyServer.SetDynamicImageDir | app/app.py:66-81 | the image folder becomes that of the deck |
| LegacyApp.LegacyServer.GenerateImageFile | app/app.py:162-188 | the gate of `generate_image_file` applied to the active image folder |
| LegacyApp.LegacyServer.SynthesizeSpeech | app/app.py:194-227 | an existing file is reused; without a client nothing changes; a synthesis with a completed write stores exactly the digest path; a synthesis error gives the general message with a final period and changes nothing; a failed write gives the same message but leaves the written part of the audio at the digest path; success always names a stored file |
| LegacyApp.WrittenPart | app/app.py:221-222 | the file left by a failed write is a prefix of the audio, and a proper one when the write stopped early |
| LegacyApp.LegacyServer.RequestAfterFailedWrite | app/app.py:203-204 | after a failed write, the next request for the same text, voice and model succeeds with the partial file, whatever the speech client and the write would do |
| LegacyApp.LegacyServer.SetActiveJsonFile | app/app.py:240-252 | a missing file is an error that names it and changes nothing; otherwise the file and its image folder become active, and the active file is then among the listed ones |
| LegacyApp.LegacyServer.AvailableFiles | app/app.py:233-238 | exactly the stored deck files whose name setting the active file accepts unchanged (those ending in `.json`) are listed; the listing is empty exactly when no stored file ends in `.json` |
| LegacyApp.LegacyServer.GetFlashcardsData | app/app.py:254-269 | the active deck when its file exists; otherwise some listed deck file becomes active (its image folder stays), or the "no data" error when none is listed |
| LegacyApp.LegacyServer.UpdateCardStatus | app/app.py:258-280 | a missing active file is first replaced by a listed one, or gives the "no data" error when none is listed; then only `learned` of that card of the active deck changes; an index out of range gives the index error and leaves the decks unchanged (the active file may have switched) |
| LegacyApp.LegacyServer.ResetAllStatuses | app/app.py:258-291 | a missing active file is first replaced by a listed one; the active deck is replaced by its reset; the "no data" error, with nothing changed, exactly when the active file is missing and no deck file is listed |
| ListDedup.FilterItems | test/clear.py:33-51 | the loop's final state is the fold of one step per item |
| ListDedup.RunStaysNone | test/clear.py:33-61 | once an item raises, the whole loop fails |
| ListDedup.RunFailsIff | test/clear.py:33-61 | the loop fails exactly when some item makes the lookup raise |
| ListDedup.KeysMeaning | test/clear.py:34-37 | a name is among the list's names exactly when some item carries it |
| ListDedup.RunMeaning | test/clear.py:33-51 | the kept list is the first occurrence of each non-excluded name; the names seen are the list's names minus the excluded ones; kept + internal + external equals the number of named items |
| ListDedup.FirstOccurrencesKeys | test/clear.py:51 | the names of the kept items are the list's names minus the excluded ones |
| ListDedup.FirstOccurrencesShape | test/clear.py:39-51 | every kept item has a name, none excluded, no two the same |
| ListDedup.FirstOccurrencesSubsequence | test/clear.py:33-51 | the kept list is the input with items left out, in order |
| ListDedup.FirstOccurrenceKept | test/clear.py:44-51 | the first item carrying a non-excluded name is kept |
| ListDedup.KeyedCountBound | test/clear.py:31-51 | the named items are at most all items, and all of them when every item has a name |
| ListDedup.FirstOccurrencesOfClean | test/clear.py:33-51 | a list that is already clean is kept whole |
| ListDedup.CleaningTwiceChangesNothing | test/clear.py:33-51 | cleaning a cleaned list keeps it whole, with the same names and no duplicates counted |
| FullCleaning.CleanJsonFile | test/clear.py:10-87 | the names are returned exactly when the file holds a list, no item raises and the write succeeds; then they are the list's names minus the excluded ones and the file holds the first occurrences; otherwise nothing changes |
| FullCleaning.RunFullCleaningProcess | test/clear.py:89-124 | the run aborts at a file exactly when the files before it clean and it does not (no list, an item that raises, or a failed write), having cleaned only the files before it; it succeeds exactly when all three clean; then each file holds its first occurrences against the names of the files before it, and the three name sets are pairwise disjoint |
| IntermediateCleaning.Iterated | test/clear-only-file.py:14-19 | a file holding a list iterates to exactly its items; a missing or unreadable file does not iterate |
| IntermediateCleaning.BasicNames | test/clear-only-file.py:19 | the basic names exist exactly when no item raises, and are then the names of the items that have one |
| IntermediateCleaning.CleanIntermediate | test/clear-only-file.py:11-93 | success exactly when both files can be read, no item raises and the write succeeds; then the intermediate file holds the first occurrences of the names not in the basic list, and the counts add up to at most the items read; otherwise nothing changes |

## Left out

- JSON parsing and writing are not modelled; documents are already parsed values. This includes the "file could not be read" errors of `get_deck_data`, which therefore has no member of its own, and JSON number, boolean and null names. Those are modelled by their text, so Python's `1 == True` equality is not modelled.
- The write-to-temporary-then-rename steps of both cleaning scripts are not modelled. A failed write is one boolean that leaves the folder unchanged. The case where the original file is removed and the rename then fails is not modelled. Neither is the temporary file that `test/clear-only-file.py` leaves behind.
- Printing and logging, the HTTP endpoints, settings, `get_phonics_data`, directory creation, and the internals of the store helper are not modelled. The store is two maps plus failure flags.
- SHA-256 is a parameter; the hash's sensitivity to text, voice and model cannot be stated without a model of the hash.
- The image model, PIL's JPEG encoding and the speech client are outcome datatypes. The bytes they produce are inputs.
- Only ASCII letters are lower-cased. Regular-expression and glob metacharacters in deck, verb or phrase names are taken literally.
- Modification times are integers. Several equally new files give an arbitrary choice among them.
- Concurrency, `run_in_threadpool` and the races between checking and writing a file are not modelled.
- ImageService.UploadImage: the `file_extension` argument, which the code ignores, is not a parameter.
- LegacyApp.LegacyServer.UpdateCardStatus: a failure while writing the deck file is not modelled, and the fallback file is any listed one, not the first in directory order.
- LegacyApp.LegacyServer.ResetAllStatuses: a failure while writing the deck file is not modelled, and the fallback file is any listed one, not the first in directory order.
- LegacyApp.LegacyServer.GetFlashcardsData: the file chosen when the active one is missing is any listed file, not the first in directory order.
- Store.Bucket.PublicUrl: the storage library percent-encodes the blob name in the public URL; the model's URL carries the raw key, so for deck or category names with spaces or non-ASCII characters the stored `imagePath` differs from the real one. Injectivity holds for both.
- ImageService.DeleteImage: deleting is idempotent only when no `.jpeg` image of the same position is stored. When both extensions exist, a second delete removes the `.jpeg` one (`ImageService.DeleteUncoversJpeg`).

## Findings

| source | as written | input that shows it | evidently intended | confidence | as-written member | corrected member |
|---|---|---|---|---|---|---|
| app/services/audio_service.py:107-113 | the tone group `(.+?)` needs at least one character, so a file whose tone tag is empty never matches and reads back as "default", which differs from the empty tag | tone "!!!": not a default tone, its tag sanitises to "", so every request deletes its own file and synthesises again | a request finds its own file a match whatever its tone tag | not executed | AudioService.EmptyTagDeletesOwnFile | AudioService.CorrectedReusesOwnFile |
