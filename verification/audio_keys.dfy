/**
 * The names of cached audio files. A file is named
 *   `{deck}_{verb}_{text}_{tone}_{hash}.mp3`
 * from the deck name without `.json`, the sanitised verb, phrase and tone
 * tag, and ten hex digits of a SHA-256 digest over phrase, voice and model.
 * The cache looks up a phrase by the prefix up to the tone, and reads the
 * tone back out of a file name with a regular expression.
 */
module AudioKeys {
  import opened Wrappers
  import opened Text
  import opened Cards

  // ---------------------------------------------------------------------
  // Sanitising
  // ---------------------------------------------------------------------

  /** The characters the first substitution keeps: `[a-z0-9\s-]`. */
  predicate KeepChar(c: char) {
    IsLowerAlnum(c) || IsSpace(c) || c == '-'
  }

  /** The characters the second substitution collapses: `[\s-]`. */
  predicate IsSeparator(c: char) {
    IsSpace(c) || c == '-'
  }

  /** `re.sub(r"[^a-z0-9\s-]", "", s)`. */
  function DropUnsafe(s: string): (r: string)
    ensures |r| <= |s|
    ensures forall k :: 0 <= k < |r| ==> KeepChar(r[k])
  {
    if s == [] then []
    else if KeepChar(s[0]) then [s[0]] + DropUnsafe(s[1..])
    else DropUnsafe(s[1..])
  }

  /** Only the unsafe characters go: every character of `[a-z0-9\s-]`
      survives as often as it occurs. */
  lemma {:induction false} DropUnsafeKeepsSafe(s: string)
    ensures forall c :: KeepChar(c) ==> multiset(DropUnsafe(s))[c] == multiset(s)[c]
    decreases |s|
  {
    if s != [] {
      var rest := DropUnsafe(s[1..]);
      DropUnsafeKeepsSafe(s[1..]);
      assert s == [s[0]] + s[1..];
      assert multiset(s) == multiset{s[0]} + multiset(s[1..]);
      if KeepChar(s[0]) {
        assert multiset(DropUnsafe(s)) == multiset{s[0]} + multiset(rest) by {
          assert DropUnsafe(s) == [s[0]] + rest;
        }
      }
    }
  }

  /** A string of safe characters is kept whole. */
  lemma {:induction false} DropUnsafeKeepsSafeText(s: string)
    requires forall k :: 0 <= k < |s| ==> KeepChar(s[k])
    ensures DropUnsafe(s) == s
    decreases |s|
  {
    if s != [] {
      DropUnsafeKeepsSafeText(s[1..]);
      assert s == [s[0]] + s[1..];
    }
  }

  /** `re.sub(r"[\s-]+", "_", s)`: every maximal run of separators becomes
      one underscore. `inRun` says the character before `s` was a separator
      of the run being replaced. */
  function CollapseSeparators(s: string, inRun: bool): string {
    if s == [] then []
    else if IsSeparator(s[0]) then
      (if inRun then [] else "_") + CollapseSeparators(s[1..], true)
    else [s[0]] + CollapseSeparators(s[1..], false)
  }

  /** `s[:n]`. */
  function Take(s: string, n: nat): (r: string)
    ensures |r| <= n && |r| <= |s| && r == s[..|r|]
    ensures |s| <= n ==> r == s
  {
    if |s| <= n then s else s[..n]
  }

  /** Only `[a-z0-9_]`, and never two underscores in a row. */
  predicate SafeName(s: string) {
    && (forall k :: 0 <= k < |s| ==> IsLowerAlnum(s[k]) || s[k] == '_')
    && (forall k :: 0 <= k < |s| - 1 ==> !(s[k] == '_' && s[k + 1] == '_'))
  }

  lemma {:induction false} CollapseShape(s: string, inRun: bool)
    requires forall k :: 0 <= k < |s| ==> KeepChar(s[k])
    ensures var r := CollapseSeparators(s, inRun);
      SafeName(r) && (inRun ==> r == [] || r[0] != '_')
    decreases |s|
  {
    if s != [] {
      CollapseShape(s[1..], IsSeparator(s[0]));
      var r := CollapseSeparators(s, inRun);
      if IsSeparator(s[0]) && !inRun {
        assert r == "_" + CollapseSeparators(s[1..], true);
      } else if !IsSeparator(s[0]) {
        assert r == [s[0]] + CollapseSeparators(s[1..], false);
        assert IsLowerAlnum(s[0]);
      }
    }
  }

  /** A slice of a safe name is a safe name. */
  lemma SafeSlice(s: string, i: nat, j: nat)
    requires SafeName(s) && i <= j <= |s|
    ensures SafeName(s[i..j])
  {
    var t := s[i..j];
    forall k | 0 <= k < |t| - 1 ensures !(t[k] == '_' && t[k + 1] == '_') {
      assert t[k] == s[i + k] && t[k + 1] == s[i + k + 1];
    }
  }

  /** `_to_safe_filename`: lower-cased, reduced to `[a-z0-9\s-]`, separator
      runs turned into single underscores, cut to 50 characters, and
      underscores stripped from both ends. The result has only `[a-z0-9_]`,
      at most 50 characters, no underscore at either end and no two in a
      row. */
  function SafeFilename(text: string): (r: string)
    ensures SafeName(r)
    ensures |r| <= 50
    ensures r == [] || (r[0] != '_' && r[|r| - 1] != '_')
  {
    var c := CollapseSeparators(DropUnsafe(Lower(text)), false);
    CollapseShape(DropUnsafe(Lower(text)), false);
    var t := Take(c, 50);
    SafeSlice(c, 0, |t|);
    var l := LStripChar(t, '_');
    SafeSlice(t, |t| - |l|, |t|);
    var r := RStripChar(l, '_');
    SafeSlice(l, 0, |r|);
    assert r == StripChar(t, '_');
    r
  }

  /** Sanitising is not idempotent: underscores are dropped, not kept, so a
      sanitised name with an underscore changes when sanitised again. */
  lemma SafeFilenameNotIdempotent()
    ensures SafeFilename("a b") == "a_b"
    ensures SafeFilename("a_b") == "ab"
  {
    SafeFilenameOfSpaced();
    SafeFilenameOfUnderscored();
  }

  lemma SafeFilenameOfSpaced()
    ensures SafeFilename("a b") == "a_b"
  {
    assert Lower("a b") == "a b";
    assert DropUnsafe("a b") == "a b" by {
      assert DropUnsafe("b") == "b";
      assert DropUnsafe(" b") == " b";
    }
    assert CollapseSeparators("a b", false) == "a_b" by {
      assert CollapseSeparators("b", true) == "b";
      assert CollapseSeparators(" b", false) == "_b";
    }
    assert Take("a_b", 50) == "a_b";
    assert LStripChar("a_b", '_') == "a_b" && RStripChar("a_b", '_') == "a_b";
  }

  lemma SafeFilenameOfUnderscored()
    ensures SafeFilename("a_b") == "ab"
  {
    assert Lower("a_b") == "a_b";
    assert DropUnsafe("a_b") == "ab" by {
      assert DropUnsafe("b") == "b";
      assert DropUnsafe("_b") == "b";
    }
    assert CollapseSeparators("ab", false) == "ab" by {
      assert CollapseSeparators("b", false) == "b";
    }
    assert Take("ab", 50) == "ab";
    assert LStripChar("ab", '_') == "ab" && RStripChar("ab", '_') == "ab";
  }

  // ---------------------------------------------------------------------
  // Requests, tone and hash
  // ---------------------------------------------------------------------

  /** The parameters of one audio request. */
  datatype AudioRequest = AudioRequest(
    category: string,
    deckName: string,
    text: string,
    voice: string,
    model: Option<string>,
    tone: string,
    verb: string)

  /** The tone instruction kept for the file name, and the text sent to
      speech synthesis. */
  datatype ToneChoice = ToneChoice(instruction: string, spoken: string)

  /** A tone asks for the default voice when it is blank or spells "default"
      in any case. */
  predicate IsDefaultTone(tone: string) {
    Strip(tone) == [] || Lower(Strip(tone)) == "default"
  }

  /** Tone normalisation: a default tone becomes the instruction "default"
      and the text is spoken as is; any other tone is kept (stripped) and
      prefixed to the text as `"{tone}: {text}"`. */
  function NormalizeTone(tone: string, text: string): (c: ToneChoice)
    ensures IsDefaultTone(tone) <==> Lower(c.instruction) == "default"
    ensures IsDefaultTone(tone) ==> c.instruction == "default" && c.spoken == text
    ensures !IsDefaultTone(tone) ==>
              c.instruction == Strip(tone) && c.spoken == Strip(tone) + ": " + text
  {
    var instruction := Strip(tone);
    if instruction != [] && Lower(instruction) != "default" then
      ToneChoice(instruction, instruction + ": " + text)
    else
      var c := ToneChoice("default", text);
      assert Lower(c.instruction) == "default";
      c
  }

  predicate IsHex(c: char) { IsDigit(c) || 'a' <= c <= 'f' }

  predicate AllHex(s: string) { forall k :: 0 <= k < |s| ==> IsHex(s[k]) }

  /** A SHA-256 hex digest. */
  type Digest = s: string | |s| == 64 && AllHex(s) witness HexZeros()

  function HexZeros(): (s: string)
    ensures |s| == 64 && AllHex(s)
  {
    seq(64, k => '0')
  }

  /** `model_name or 'default_model'`: a missing or empty model name. */
  function ModelOrDefault(model: Option<string>): (m: string)
    ensures m != []
    ensures model.Some? && model.value != [] ==> m == model.value
    ensures model.None? || model.value == [] ==> m == "default_model"
  {
    if model.Some? && model.value != [] then model.value else "default_model"
  }

  /** The text whose digest names the audio: phrase, voice and model joined
      by `|`, stripped and lower-cased. The key is its own lower case, so
      requests differing only in the case of the ASCII letters share it. */
  function HashKey(text: string, voice: string, model: Option<string>): (k: string)
    ensures Lower(k) == k
    ensures |k| <= |text| + |voice| + |ModelOrDefault(model)| + 2
  {
    Lower(Strip(Strip(text) + "|" + voice + "|" + ModelOrDefault(model)))
  }

  /** The first ten hex digits of the digest. `sha` stands for SHA-256. */
  function HashSegment(sha: string -> Digest, r: AudioRequest): (h: string)
    ensures |h| == 10 && AllHex(h)
  {
    sha(HashKey(r.text, r.voice, r.model))[..10]
  }

  function OriginalText(r: AudioRequest): string {
    Strip(r.text)
  }

  function Tone(r: AudioRequest): ToneChoice {
    NormalizeTone(r.tone, OriginalText(r))
  }

  /** The tone part of the file name. */
  function ToneTag(r: AudioRequest): string {
    SafeFilename(Tone(r).instruction)
  }

  /** Every file of the same phrase starts with this: deck, verb and phrase,
      each followed by an underscore. */
  function PhrasePrefix(r: AudioRequest): (p: string)
    ensures p != [] && p[|p| - 1] == '_'
  {
    DeckBase(r.deckName) + "_" + SafeFilename(r.verb) + "_" + SafeFilename(OriginalText(r)) + "_"
  }

  /** The name of the file a request synthesises. */
  function NewFilename(sha: string -> Digest, r: AudioRequest): (f: string)
    ensures GlobMatches(f, PhrasePrefix(r))
  {
    ToneGroupOfName(PhrasePrefix(r), ToneTag(r), HashSegment(sha, r), 0);
    PhrasePrefix(r) + ToneTag(r) + "_" + HashSegment(sha, r) + ".mp3"
  }

  /** Changing only the tone changes neither the phrase prefix nor the hash:
      the hash does not depend on the tone. */
  lemma ToneLeavesPhraseAndHash(sha: string -> Digest, r: AudioRequest, tone: string)
    ensures PhrasePrefix(r.(tone := tone)) == PhrasePrefix(r)
    ensures HashSegment(sha, r.(tone := tone)) == HashSegment(sha, r)
    ensures NewFilename(sha, r.(tone := tone))
         == PhrasePrefix(r) + ToneTag(r.(tone := tone)) + "_" + HashSegment(sha, r) + ".mp3"
  {
  }

  // ---------------------------------------------------------------------
  // Reading the tone back
  // ---------------------------------------------------------------------

  /** The glob `{prefix}*.mp3`. */
  predicate GlobMatches(name: string, prefix: string) {
    StartsWith(name, prefix) && EndsWith(name, ".mp3") && |name| >= |prefix| + 4
  }

  /** The index of the last character of `s` that is not a lower-case hex
      digit, or -1. */
  function LastNonHex(s: string): (u: int)
    ensures -1 <= u < |s|
    ensures forall k :: u < k < |s| ==> IsHex(s[k])
    ensures u >= 0 ==> !IsHex(s[u])
  {
    if s == [] then -1
    else if IsHex(s[|s| - 1]) then LastNonHex(s[..|s| - 1])
    else |s| - 1
  }

  /**
   * The group of `{prefix}(.+?)_[0-9a-f]+\.mp3$` (when `minTone` is 1) or
   * of `{prefix}(.*?)_[0-9a-f]+\.mp3$` (when it is 0), searched in a name
   * the glob matched. The prefix is taken literally. Since the hex run must
   * reach the `.mp3` at the end, the underscore before it can only be the
   * last character before `.mp3` that is not a hex digit: the lazy group
   * has exactly one way to end, and the match at the start of the name
   * is the leftmost.
   */
  function ToneGroup(name: string, prefix: string, minTone: nat): (g: Option<string>)
    requires GlobMatches(name, prefix)
    ensures g.Some? ==>
              && |g.value| >= minTone
              && exists h :: h != [] && AllHex(h) && name == prefix + g.value + "_" + h + ".mp3"
  {
    var body := name[..|name| - 4];
    var u := LastNonHex(body);
    if u >= |prefix| + minTone && body[u] == '_' && u + 1 < |body| then
      var g := name[|prefix|..u];
      var h := body[u + 1..];
      assert name == prefix + g + "_" + h + ".mp3" by {
        assert name == name[..|prefix|] + name[|prefix|..u] + [body[u]] + body[u + 1..] + name[|name| - 4..];
      }
      Some(g)
    else None
  }

  /** Every name of the form the cache writes is matched, and the group is
      exactly its tone part, whenever that part is long enough. */
  lemma ToneGroupOfName(prefix: string, tag: string, h: string, minTone: nat)
    requires h != [] && AllHex(h)
    ensures GlobMatches(prefix + tag + "_" + h + ".mp3", prefix)
    ensures ToneGroup(prefix + tag + "_" + h + ".mp3", prefix, minTone)
         == if |tag| >= minTone then Some(tag) else None
  {
    var name := prefix + tag + "_" + h + ".mp3";
    var body := name[..|name| - 4];
    assert body == prefix + tag + "_" + h;
    var u := |prefix| + |tag|;
    assert body[u] == '_';
    assert forall k :: u < k < |body| ==> body[k] == h[k - u - 1];
    LastNonHexIs(body, u);
    assert name[|prefix|..u] == tag;
  }

  lemma LastNonHexIs(s: string, u: int)
    requires 0 <= u < |s| && !IsHex(s[u])
    requires forall k :: u < k < |s| ==> IsHex(s[k])
    ensures LastNonHex(s) == u
  {
  }

  /** The tone read back from a file name: the group (of at least `minTone`
      characters) with underscores as spaces, or "default" when the
      expression does not match. */
  function ReadTone(name: string, prefix: string, minTone: nat): string
    requires GlobMatches(name, prefix)
  {
    var g := ToneGroup(name, prefix, minTone);
    if g.Some? then ReplaceChar(g.value, '_', ' ') else "default"
  }

  /** The tone as the cache reads it, with `(.+?)`: never empty, so it never
      matches an empty tone tag. */
  function ParsedToneAsWritten(name: string, prefix: string): (t: string)
    requires GlobMatches(name, prefix)
    ensures t != []
  {
    ReadTone(name, prefix, 1)
  }

  /** The same with the group allowed to be empty, `(.*?)`. */
  function ParsedTone(name: string, prefix: string): string
    requires GlobMatches(name, prefix)
  {
    ReadTone(name, prefix, 0)
  }

  /** The reuse test: the tone read back equals the requested tone tag,
      ignoring case and with underscores as spaces. */
  predicate ToneMatches(parsed: string, tag: string) {
    Lower(parsed) == Lower(ReplaceChar(tag, '_', ' '))
  }

  /** The name a request writes is found by the glob of its own phrase and,
      whenever its tone tag is long enough for the group, its tone reads
      back as the request's tag, so the same request finds its own file a
      match. */
  lemma ReadToneRoundTrip(sha: string -> Digest, r: AudioRequest, minTone: nat)
    requires |ToneTag(r)| >= minTone
    ensures GlobMatches(NewFilename(sha, r), PhrasePrefix(r))
    ensures ReadTone(NewFilename(sha, r), PhrasePrefix(r), minTone) == ReplaceChar(ToneTag(r), '_', ' ')
    ensures ToneMatches(ReadTone(NewFilename(sha, r), PhrasePrefix(r), minTone), ToneTag(r))
  {
    ToneGroupOfName(PhrasePrefix(r), ToneTag(r), HashSegment(sha, r), minTone);
  }

  /** As written, the round trip holds for every request whose tone tag is
      not empty. */
  lemma NewFilenameRoundTripAsWritten(sha: string -> Digest, r: AudioRequest)
    requires ToneTag(r) != []
    ensures ParsedToneAsWritten(NewFilename(sha, r), PhrasePrefix(r)) == ReplaceChar(ToneTag(r), '_', ' ')
    ensures ToneMatches(ParsedToneAsWritten(NewFilename(sha, r), PhrasePrefix(r)), ToneTag(r))
  {
    ReadToneRoundTrip(sha, r, 1);
  }

  /** With the group allowed to be empty, the round trip holds for every
      request. */
  lemma NewFilenameRoundTrip(sha: string -> Digest, r: AudioRequest)
    ensures ParsedTone(NewFilename(sha, r), PhrasePrefix(r)) == ReplaceChar(ToneTag(r), '_', ' ')
    ensures ToneMatches(ParsedTone(NewFilename(sha, r), PhrasePrefix(r)), ToneTag(r))
  {
    ReadToneRoundTrip(sha, r, 0);
  }

  /** As written, a request whose tone tag sanitises to nothing never
      recognises its own file: the group `(.+?)` needs a character, the
      name reads back as "default", and "default" never equals "". */
  lemma EmptyTagNeverMatchesAsWritten(sha: string -> Digest, r: AudioRequest)
    requires ToneTag(r) == []
    ensures GlobMatches(NewFilename(sha, r), PhrasePrefix(r))
    ensures ParsedToneAsWritten(NewFilename(sha, r), PhrasePrefix(r)) == "default"
    ensures !ToneMatches(ParsedToneAsWritten(NewFilename(sha, r), PhrasePrefix(r)), ToneTag(r))
  {
    ToneGroupOfName(PhrasePrefix(r), ToneTag(r), HashSegment(sha, r), 1);
    assert Lower(ReplaceChar(ToneTag(r), '_', ' ')) == [];
  }

  /** Such tags occur: the tone "!!!" is not a default tone and its tag is
      empty. */
  lemma EmptyTagExample()
    ensures !IsDefaultTone("!!!")
    ensures SafeFilename(Strip("!!!")) == []
  {
    assert TrimStart("!!!") == "!!!";
    assert TrimEnd("!!!") == "!!!";
    assert Strip("!!!") == "!!!";
    assert Lower("!!!") == "!!!";
    assert DropUnsafe("!!!") == [] by {
      assert DropUnsafe("!") == [];
      assert DropUnsafe("!!") == [];
    }
  }

  /** A request for a phrase also sees the files of any longer phrase that
      starts with it and a separator: with deck "d", verb "v" and phrases
      "go" and "go up", the file of "go up" in tone "x" is a candidate for
      "go" and reads back as the tone "up x". */
  lemma LongerPhraseIsCandidate(h: string)
    requires h != [] && AllHex(h)
    ensures GlobMatches("d_v_go_up_x_" + h + ".mp3", "d_v_go_")
    ensures ParsedToneAsWritten("d_v_go_up_x_" + h + ".mp3", "d_v_go_") == "up x"
  {
    assert "d_v_go_up_x_" + h + ".mp3" == "d_v_go_" + "up_x" + "_" + h + ".mp3";
    ToneGroupOfName("d_v_go_", "up_x", h, 1);
    assert ReplaceChar("up_x", '_', ' ') == "up x";
  }
}
