/**
 * The audio cache of one deck's directory: a request reuses the newest
 * file of its phrase when that file's tone matches, and otherwise deletes
 * that file and synthesises a new one.
 */
module AudioService {
  import opened Wrappers
  import opened Text
  import opened Store
  import opened AudioKeys

  /** A file's content and modification time. */
  datatype AudioFile = AudioFile(content: Bytes, mtime: int)

  /** The audio directory of one deck, by file name. */
  class AudioDir {
    var files: map<string, AudioFile>

    constructor (files: map<string, AudioFile>)
      ensures this.files == files
    {
      this.files := files;
    }
  }

  /** What the speech client does with one synthesis call. */
  datatype TtsOutcome =
    | NoClient
    | Synthesized(audio: Bytes)
    | InvalidArgument(detail: string)
    | Failed(detail: string)

  const NoClientMessage: string := "Cliente TTS no disponible."
  const InvalidArgumentPrefix: string := "Error 400: Parámetros de voz/modelo inválidos. Detalle: "
  const SynthesisFailedPrefix: string := "Error de síntesis de voz: "

  /** The files the glob `{prefix}*.mp3` lists. */
  function Candidates(files: map<string, AudioFile>, prefix: string): set<string> {
    set f | f in files && GlobMatches(f, prefix)
  }

  /** `name` is a newest candidate (ties between equal times are broken
      arbitrarily, as the directory listing orders them). */
  predicate IsLatest(files: map<string, AudioFile>, prefix: string, name: string) {
    && name in files && GlobMatches(name, prefix)
    && forall g :: g in files && GlobMatches(g, prefix) ==> files[g].mtime <= files[name].mtime
  }

  lemma {:induction false} MaxExists(files: map<string, AudioFile>, s: set<string>)
    requires s != {} && s <= files.Keys
    ensures exists m :: m in s && forall g :: g in s ==> files[g].mtime <= files[m].mtime
    decreases |s|
  {
    var x :| x in s;
    if s - {x} == {} {
      assert s == {x};
    } else {
      MaxExists(files, s - {x});
      var m :| m in s - {x} && forall g :: g in s - {x} ==> files[g].mtime <= files[m].mtime;
      if files[x].mtime <= files[m].mtime {
        assert forall g :: g in s ==> files[g].mtime <= files[m].mtime;
      } else {
        assert forall g :: g in s ==> files[g].mtime <= files[x].mtime;
      }
    }
  }

  /** Whenever the glob lists a file, there is a newest one. */
  lemma LatestExists(files: map<string, AudioFile>, prefix: string)
    requires Candidates(files, prefix) != {}
    ensures exists name :: name in Candidates(files, prefix) && IsLatest(files, prefix, name)
  {
    MaxExists(files, Candidates(files, prefix));
  }

  /**
   * What one cache request does, from the directory `before` to `after`,
   * when the tone group needs at least `minTone` characters: `chosen` is the
   * newest file of the phrase, if any; a file whose tone matches is reused
   * and nothing changes; otherwise that file is deleted (unless the delete
   * fails) and the client's outcome decides the result.
   */
  ghost predicate Served(
    before: map<string, AudioFile>, after: map<string, AudioFile>, sha: string -> Digest, r: AudioRequest,
    tts: TtsOutcome, removeFails: bool, now: int, minTone: nat,
    success: bool, file: Option<string>, message: string, chosen: Option<string>)
  {
    var prefix, name, tag := PhrasePrefix(r), NewFilename(sha, r), ToneTag(r);
    && (chosen.None? <==> Candidates(before, prefix) == {})
    && (chosen.Some? ==> IsLatest(before, prefix, chosen.value))
    && var reuse := chosen.Some? && GlobMatches(chosen.value, prefix)
                    && ToneMatches(ReadTone(chosen.value, prefix, minTone), tag);
       var kept := if chosen.Some? && !removeFails then before - {chosen.value} else before;
       && (reuse ==> success && file == chosen && message == "" && after == before)
       && (!reuse && tts.NoClient? ==>
             !success && file == None && message == NoClientMessage && after == kept)
       && (!reuse && tts.Synthesized? ==>
             success && file == Some(name) && message == ""
             && after == kept[name := AudioFile(tts.audio, now)])
       && (!reuse && tts.InvalidArgument? ==>
             !success && file == None && message == InvalidArgumentPrefix + tts.detail
             && after == kept - {name})
       && (!reuse && tts.Failed? ==>
             !success && file == None && message == SynthesisFailedPrefix + tts.detail
             && after == kept - {name})
  }

  /** The cache lookup followed by synthesis, with a tone group of at least
      `minTone` characters. */
  method ServeSpeech(
    dir: AudioDir, sha: string -> Digest, r: AudioRequest, tts: TtsOutcome, removeFails: bool, now: int,
    minTone: nat)
    returns (success: bool, file: Option<string>, message: string, ghost chosen: Option<string>)
    modifies dir
    ensures Served(old(dir.files), dir.files, sha, r, tts, removeFails, now, minTone,
                   success, file, message, chosen)
  {
    var prefix := PhrasePrefix(r);
    var name := NewFilename(sha, r);
    var tag := ToneTag(r);
    var existing := Candidates(dir.files, prefix);
    chosen := None;
    if existing != {} {
      LatestExists(dir.files, prefix);
      var latest :| latest in existing && IsLatest(dir.files, prefix, latest);
      chosen := Some(latest);
      if ToneMatches(ReadTone(latest, prefix, minTone), tag) {
        return true, Some(latest), "", chosen;
      }
      // A failed delete is only logged.
      if !removeFails {
        dir.files := dir.files - {latest};
      }
    }
    success, file, message := Synthesize(dir, name, tts, now);
  }

  /** `synthesize_speech_file` on one deck's directory, reading the tone
      back with `(.+?)`. `sha` stands for SHA-256, `tts` for what the speech
      client does, `removeFails` for an `OSError` when deleting the stale
      file, and `now` for the time the new file gets. `chosen` reports the
      newest file of the phrase, if any. */
  method SynthesizeSpeechFile(
    dir: AudioDir, sha: string -> Digest, r: AudioRequest, tts: TtsOutcome, removeFails: bool, now: int)
    returns (success: bool, file: Option<string>, message: string, ghost chosen: Option<string>)
    modifies dir
    ensures Served(old(dir.files), dir.files, sha, r, tts, removeFails, now, 1,
                   success, file, message, chosen)
  {
    success, file, message, chosen := ServeSpeech(dir, sha, r, tts, removeFails, now, 1);
  }

  /** The same request with the tone group allowed to be empty, `(.*?)`, so
      that a tone tag that sanitises to nothing still finds its own file. */
  method SynthesizeSpeechFileCorrected(
    dir: AudioDir, sha: string -> Digest, r: AudioRequest, tts: TtsOutcome, removeFails: bool, now: int)
    returns (success: bool, file: Option<string>, message: string, ghost chosen: Option<string>)
    modifies dir
    ensures Served(old(dir.files), dir.files, sha, r, tts, removeFails, now, 0,
                   success, file, message, chosen)
  {
    success, file, message, chosen := ServeSpeech(dir, sha, r, tts, removeFails, now, 0);
  }

  /** The synthesis step: write the new file, or remove a partial one when
      the client raises. */
  method Synthesize(dir: AudioDir, name: string, tts: TtsOutcome, now: int)
    returns (success: bool, file: Option<string>, message: string)
    modifies dir
    ensures tts.NoClient? ==>
              !success && file == None && message == NoClientMessage && dir.files == old(dir.files)
    ensures tts.Synthesized? ==>
              success && file == Some(name) && message == "" && dir.files == old(dir.files)[name := AudioFile(tts.audio, now)]
    ensures tts.InvalidArgument? ==>
              !success && file == None && message == InvalidArgumentPrefix + tts.detail && dir.files == old(dir.files) - {name}
    ensures tts.Failed? ==>
              !success && file == None && message == SynthesisFailedPrefix + tts.detail && dir.files == old(dir.files) - {name}
  {
    match tts
    case NoClient =>
      return false, None, NoClientMessage;
    case Synthesized(audio) =>
      dir.files := dir.files[name := AudioFile(audio, now)];
      return true, Some(name), "";
    case InvalidArgument(detail) =>
      dir.files := dir.files - {name};
      return false, None, InvalidArgumentPrefix + detail;
    case Failed(detail) =>
      dir.files := dir.files - {name};
      return false, None, SynthesisFailedPrefix + detail;
  }

  /** A file just written with a time ahead of every other file is the one
      and only newest file of any glob that lists it. */
  lemma WrittenFileIsNewest(files: map<string, AudioFile>, prefix: string, name: string, audio: Bytes, now: int)
    requires forall f :: f in files ==> files[f].mtime < now
    requires GlobMatches(name, prefix)
    ensures var after := files[name := AudioFile(audio, now)];
      && IsLatest(after, prefix, name)
      && (forall l :: IsLatest(after, prefix, l) ==> l == name)
  {
    var after := files[name := AudioFile(audio, now)];
    forall l | IsLatest(after, prefix, l) ensures l == name {
      assert after[name].mtime <= after[l].mtime;
    }
  }

  /** After a synthesis whose clock is ahead of every file already there,
      the new file is the only newest file of its phrase and, whenever the
      tone tag is long enough for the group, its tone matches: the same
      request again reuses it without synthesising. */
  lemma SynthesizedFileIsReused(
    files: map<string, AudioFile>, sha: string -> Digest, r: AudioRequest, audio: Bytes, now: int, minTone: nat)
    requires forall f :: f in files ==> files[f].mtime < now
    requires |ToneTag(r)| >= minTone
    ensures var prefix, name := PhrasePrefix(r), NewFilename(sha, r);
      var after := files[name := AudioFile(audio, now)];
      && IsLatest(after, prefix, name)
      && (forall l :: IsLatest(after, prefix, l) ==> l == name)
      && ToneMatches(ReadTone(name, prefix, minTone), ToneTag(r))
  {
    ReadToneRoundTrip(sha, r, minTone);
    WrittenFileIsNewest(files, PhrasePrefix(r), NewFilename(sha, r), audio, now);
  }

  /** Only the tone is compared: a file synthesised with another voice (so
      with another hash) is still listed for the phrase and, whenever the
      tone tag is long enough for the group, still matches, and is reused
      when it is the newest. */
  lemma OtherVoiceStillMatches(sha: string -> Digest, r: AudioRequest, voice: string, minTone: nat)
    requires |ToneTag(r)| >= minTone
    ensures var r' := r.(voice := voice);
      && GlobMatches(NewFilename(sha, r), PhrasePrefix(r'))
      && ToneMatches(ReadTone(NewFilename(sha, r), PhrasePrefix(r'), minTone), ToneTag(r'))
  {
    ReadToneRoundTrip(sha, r, minTone);
    assert PhrasePrefix(r.(voice := voice)) == PhrasePrefix(r);
    assert ToneTag(r.(voice := voice)) == ToneTag(r);
  }

  /** As written, a request whose tone tag is empty deletes its own newest
      file and synthesises it again: with no client, the cached audio is
      gone and the request fails. */
  lemma EmptyTagDeletesOwnFile(
    before: map<string, AudioFile>, after: map<string, AudioFile>, sha: string -> Digest, r: AudioRequest,
    success: bool, file: Option<string>, message: string)
    requires ToneTag(r) == []
    requires Served(before, after, sha, r, NoClient, false, 0, 1,
                    success, file, message, Some(NewFilename(sha, r)))
    ensures NewFilename(sha, r) in before && NewFilename(sha, r) !in after
    ensures !success && message == NoClientMessage
  {
    EmptyTagNeverMatchesAsWritten(sha, r);
  }

  /** With the group allowed to be empty, a request that finds its own file
      as the newest reuses it and changes nothing, whatever its tone tag. */
  lemma CorrectedReusesOwnFile(
    before: map<string, AudioFile>, after: map<string, AudioFile>, sha: string -> Digest, r: AudioRequest,
    tts: TtsOutcome, removeFails: bool, now: int, success: bool, file: Option<string>, message: string)
    requires Served(before, after, sha, r, tts, removeFails, now, 0,
                    success, file, message, Some(NewFilename(sha, r)))
    ensures success && file == Some(NewFilename(sha, r)) && after == before
  {
    NewFilenameRoundTrip(sha, r);
  }
}
