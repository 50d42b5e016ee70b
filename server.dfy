/**
 * The request logic of the local API server (server/index.js): loading
 * `.env.local` into the process environment without overriding what is already
 * set, the input checks of the chapter-to-PDF endpoint, and the input checks,
 * voice choice and voice-settings clamp of the text-to-speech endpoint.
 *
 * The file read, URL parsing, the scraper and the ElevenLabs call are not
 * modelled: the file's contents and the parsed host name are inputs, and a
 * request that passes its checks ends in the outcome that names what would be
 * sent.
 */
module Server {
  import opened Types
  import opened Strings

  /** One `KEY=value` definition. */
  datatype EnvEntry = EnvEntry(key: string, value: string)

  /** `.replace(/^"|"$/g, '')`: one leading and one trailing double quote removed, independently. */
  function StripQuotes(v: string): (r: string)
    ensures |v| >= 2 && v[0] == '"' && v[|v| - 1] == '"' ==> r == v[1..|v| - 1]
    ensures (|v| == 0 || v[0] != '"') && (|v| == 0 || v[|v| - 1] != '"') ==> r == v
    ensures |v| >= 1 && v[0] == '"' && v[|v| - 1] != '"' ==> r == v[1..]
    ensures |v| >= 1 && v[0] != '"' && v[|v| - 1] == '"' ==> r == v[..|v| - 1]
    ensures v == "\"" ==> r == ""
  {
    var a := if |v| > 0 && v[0] == '"' then v[1..] else v;
    if |a| > 0 && a[|a| - 1] == '"' then a[..|a| - 1] else a
  }

  /**
   * The handling of one line of `.env.local`. A trimmed line that is blank,
   * starts with `#`, has no `=` or has nothing but whitespace before its first
   * `=` defines nothing; otherwise the key is the trimmed text before the first
   * `=` and the value the trimmed rest, which may hold further `=`, with its
   * quotes stripped.
   */
  function ParseEnvLine(line: string): Option<EnvEntry>
  {
    ParseTrimmed(Trim(line))
  }

  /** The handling of a trimmed line: comments and lines without `=` define nothing. */
  function ParseTrimmed(trimmed: string): Option<EnvEntry>
  {
    if trimmed == "" || StartsWith(trimmed, "#") then None
    else EntryAt(trimmed, IndexOf(trimmed, '='))
  }

  /** The definition a trimmed line makes when its first `=` is at `separatorIndex` (-1: none). */
  function EntryAt(trimmed: string, separatorIndex: int): Option<EnvEntry>
    requires -1 <= separatorIndex < |trimmed|
  {
    if separatorIndex == -1 then None
    else
      var key := Trim(trimmed[..separatorIndex]);
      var value := StripQuotes(Trim(trimmed[separatorIndex + 1..]));
      if key == "" then None else Some(EnvEntry(key, value))
  }

  /** A line without `=` defines nothing. */
  lemma NoSeparatorNoEntry(line: string)
    requires '=' !in line
    ensures ParseEnvLine(line).None?
  {
    var trimmed := Trim(line);
    var lo :| SliceWithin(line, trimmed, lo);
    forall i | 0 <= i < |trimmed| ensures trimmed[i] != '=' {
      assert trimmed[i] == line[lo + i];
    }
  }

  /** A parsed key is non-empty, holds no `=`, is no comment and has no whitespace at its ends. */
  lemma ParsedKeyValid(line: string)
    requires ParseEnvLine(line).Some?
    ensures ValidKey(ParseEnvLine(line).value.key)
  {
    var trimmed := Trim(line);
    var head := trimmed[..IndexOf(trimmed, '=')];
    ParsedParts(line);
    ParsedStart(line);
    HeadKey(head, Trim(head), trimmed[0]);
  }

  /** The key of a defining line is the trimmed, non-empty text before its first `=`. */
  lemma ParsedParts(line: string)
    requires ParseEnvLine(line).Some?
    ensures var trimmed := Trim(line);
      var head := trimmed[..IndexOf(trimmed, '=')];
      && ParseEnvLine(line).value.key == Trim(head)
      && |head| > 0 && head[0] == trimmed[0] && '=' !in head
  {
  }

  /** A defining line starts, once trimmed, with neither whitespace nor `#`. */
  lemma ParsedStart(line: string)
    requires ParseEnvLine(line).Some?
    ensures Trim(line)[0] != '#' && !IsWhitespace(Trim(line)[0])
  {
  }

  lemma HeadKey(head: string, key: string, c: char)
    requires key == Trim(head) && key != "" && '=' !in head && |head| > 0 && head[0] == c
    requires c != '#' && !IsWhitespace(c)
    ensures ValidKey(key)
  {
    var lo :| SliceWithin(head, key, lo);
    forall i | 0 <= i < |key| ensures key[i] != '=' {
      assert key[i] == head[lo + i];
    }
    assert !IsWhitespace(head[0]);
    assert lo == 0;
    assert key[0] == head[0];
  }

  /** A line `KEY=value`, for a value without quotes or whitespace at its ends. */
  function FormatEnvLine(key: string, value: string): string
  {
    key + "=" + value
  }

  /** A key that a line can define: non-empty, no `=`, not a comment, no whitespace at its ends. */
  predicate ValidKey(key: string)
  {
    key != "" && '=' !in key && key[0] != '#' && !IsWhitespace(key[0]) && !IsWhitespace(key[|key| - 1])
  }

  /** A value that survives the round trip unquoted: no whitespace and no quote at its ends. */
  predicate PlainValue(value: string)
  {
    |value| > 0 ==> (!IsWhitespace(value[0]) && !IsWhitespace(value[|value| - 1])
                     && value[0] != '"' && value[|value| - 1] != '"')
  }

  /** Parsing a formatted line gives back its key and value. */
  lemma {:induction false} ParseFormatted(key: string, value: string)
    requires ValidKey(key) && PlainValue(value)
    ensures ParseEnvLine(FormatEnvLine(key, value)) == Some(EnvEntry(key, value))
  {
    var line := FormatEnvLine(key, value);
    FormattedSplits(line, key, value);
  }

  /** Parsing a line whose value is in double quotes gives back the value as written, spaces included. */
  lemma {:induction false} ParseQuoted(key: string, value: string)
    requires ValidKey(key)
    ensures ParseEnvLine(FormatEnvLine(key, "\"" + value + "\"")) == Some(EnvEntry(key, value))
  {
    var quoted := "\"" + value + "\"";
    FormattedSplits(FormatEnvLine(key, quoted), key, quoted);
    assert quoted[1..|quoted| - 1] == value;
  }

  /** The trim, the `=` search and the value trim of a line `key=value`. */
  lemma {:induction false} FormattedSplits(line: string, key: string, value: string)
    requires ValidKey(key) && line == key + "=" + value
    requires |value| > 0 ==> !IsWhitespace(value[0]) && !IsWhitespace(value[|value| - 1])
    ensures ParseEnvLine(line) == Some(EnvEntry(key, StripQuotes(value)))
  {
    assert line[0] == key[0];
    assert line[|line| - 1] == if |value| > 0 then value[|value| - 1] else '=';
    NoEdgeWhitespaceFixed(line);
    assert line[|key|] == '=' && line[..|key|] == key;
    IndexOfAt(line, '=', |key|);
    assert line[|key| + 1..] == value;
    NoEdgeWhitespaceFixed(key);
    NoEdgeWhitespaceFixed(value);
    ParseFromParts(line, |key|, key, value);
  }

  /** ParseEnvLine, read off the parts of a line that is already trimmed. */
  lemma ParseFromParts(line: string, separatorIndex: int, key: string, value: string)
    requires Trim(line) == line && line != [] && line[0] != '#'
    requires 0 <= separatorIndex < |line| && IndexOf(line, '=') == separatorIndex
    requires Trim(line[..separatorIndex]) == key && key != ""
    requires Trim(line[separatorIndex + 1..]) == value
    ensures ParseEnvLine(line) == Some(EnvEntry(key, StripQuotes(value)))
  {
    TrimmedLine(line);
    TrimmedSplit(line, separatorIndex);
    SplitEntry(line, separatorIndex, key, value);
  }

  lemma TrimmedLine(line: string)
    requires Trim(line) == line
    ensures ParseEnvLine(line) == ParseTrimmed(line)
  {
  }

  lemma TrimmedSplit(line: string, separatorIndex: int)
    requires line != [] && line[0] != '#'
    requires 0 <= separatorIndex < |line| && IndexOf(line, '=') == separatorIndex
    ensures ParseTrimmed(line) == EntryAt(line, separatorIndex)
  {
    assert !StartsWith(line, "#") by { assert line[..1] == [line[0]]; }
  }

  lemma SplitEntry(line: string, separatorIndex: int, key: string, value: string)
    requires 0 <= separatorIndex < |line|
    requires Trim(line[..separatorIndex]) == key && key != ""
    requires Trim(line[separatorIndex + 1..]) == value
    ensures EntryAt(line, separatorIndex) == Some(EnvEntry(key, StripQuotes(value)))
  {
  }

  /** The parsed lines: what each line of the file defines, if anything. */
  function Entries(lines: seq<string>): (r: seq<Option<EnvEntry>>)
    ensures |r| == |lines| && forall i :: 0 <= i < |lines| ==> r[i] == ParseEnvLine(lines[i])
  {
    seq(|lines|, i requires 0 <= i < |lines| => ParseEnvLine(lines[i]))
  }

  /** The entry defines `key`. */
  predicate Defines(entry: Option<EnvEntry>, key: string)
  {
    entry.Some? && entry.value.key == key
  }

  /** entries[i] is the first entry that defines `key`. */
  predicate FirstDefinition(entries: seq<Option<EnvEntry>>, i: int, key: string)
  {
    0 <= i < |entries| && Defines(entries[i], key) && forall j :: 0 <= j < i ==> !Defines(entries[j], key)
  }

  /** One line's effect on the environment: a definition of an unset key sets it; nothing else changes. */
  function ApplyEntry(env: map<string, string>, entry: Option<EnvEntry>): map<string, string>
  {
    match entry
    case Some(e) => if e.key in env then env else env[e.key := e.value]
    case None => env
  }

  /** A definition of an unset key sets it. */
  lemma ApplyNew(env: map<string, string>, e: EnvEntry)
    requires e.key !in env
    ensures ApplyEntry(env, Some(e)) == env[e.key := e.value]
  {
  }

  /** A line that defines nothing, or a key already set, leaves the environment as it is. */
  lemma ApplyNothing(env: map<string, string>, entry: Option<EnvEntry>)
    requires entry.None? || entry.value.key in env
    ensures ApplyEntry(env, entry) == env
  {
  }

  /** The environment after the parsed lines, applied in order. */
  function EnvAfter(env: map<string, string>, entries: seq<Option<EnvEntry>>): map<string, string>
  {
    if |entries| == 0 then env else ApplyEntry(EnvAfter(env, entries[..|entries| - 1]), entries[|entries| - 1])
  }

  /** The lines of the file: `contents.split('\n')`. */
  function Lines(contents: string): seq<string>
  {
    Split(contents, '\n')
  }

  /** Applying one more parsed line. */
  lemma EnvAfterStep(env: map<string, string>, entries: seq<Option<EnvEntry>>, i: int)
    requires 0 <= i < |entries|
    ensures EnvAfter(env, entries[..i + 1]) == ApplyEntry(EnvAfter(env, entries[..i]), entries[i])
  {
    assert entries[..i + 1][..i] == entries[..i];
  }

  /** A variable set before loading keeps its value: the existing environment wins. */
  lemma {:induction false} ExistingKept(env: map<string, string>, entries: seq<Option<EnvEntry>>, key: string)
    requires key in env
    ensures key in EnvAfter(env, entries) && EnvAfter(env, entries)[key] == env[key]
  {
    if |entries| > 0 {
      ExistingKept(env, entries[..|entries| - 1], key);
    }
  }

  /**
   * A variable not set before loading is set exactly when some line defines it,
   * and then to the value of the first line that does: the first definition in
   * the file wins over later ones.
   */
  lemma {:induction false} FirstDefinitionWins(env: map<string, string>, entries: seq<Option<EnvEntry>>, key: string)
    requires key !in env
    ensures key in EnvAfter(env, entries) <==> exists i :: 0 <= i < |entries| && Defines(entries[i], key)
    ensures forall i :: FirstDefinition(entries, i, key) ==> EnvAfter(env, entries)[key] == entries[i].value.value
  {
    if |entries| > 0 {
      var n := |entries| - 1;
      var prefix := entries[..n];
      FirstDefinitionWins(env, prefix, key);
      if exists i :: 0 <= i < n && Defines(prefix[i], key) {
        var i0 :| 0 <= i0 < n && Defines(prefix[i0], key);
        assert entries[i0] == prefix[i0];
        forall i | FirstDefinition(entries, i, key)
          ensures EnvAfter(env, entries)[key] == entries[i].value.value
        {
          assert i <= i0;
          assert FirstDefinition(prefix, i, key);
        }
      } else {
        forall i | 0 <= i < n ensures !Defines(entries[i], key) {
          assert entries[i] == prefix[i];
        }
      }
    }
  }

  /**
   * The process environment, which loadLocalEnv fills from `.env.local` and the
   * text-to-speech endpoint reads its key and default voice from.
   */
  class ProcessEnv {
    var vars: map<string, string>

    constructor(initial: map<string, string>)
      ensures vars == initial
    {
      vars := initial;
    }

    /**
     * loadLocalEnv, for the file's contents (None when there is no
     * `.env.local`): every line is applied in order, so the environment ends as
     * EnvAfter says.
     */
    method LoadLocalEnv(contents: Option<string>)
      modifies this
      ensures contents.None? ==> vars == old(vars)
      ensures contents.Some? ==> vars == EnvAfter(old(vars), Entries(Lines(contents.value)))
    {
      if contents.None? {
        return;
      }
      var entries := Entries(Lines(contents.value));
      ApplyEntries(entries);
    }

    /** The loop of loadLocalEnv over the parsed lines, in order: an unset key that a line defines is set. */
    method ApplyEntries(entries: seq<Option<EnvEntry>>)
      modifies this
      ensures vars == EnvAfter(old(vars), entries)
    {
      ghost var initial := vars;
      var i := 0;
      while i < |entries|
        invariant 0 <= i <= |entries|
        invariant vars == EnvAfter(initial, entries[..i])
      {
        var entry := entries[i];
        EnvAfterStep(initial, entries, i);
        if entry.Some? && entry.value.key !in vars {
          ApplyNew(vars, entry.value);
          vars := vars[entry.value.key := entry.value.value];
        } else {
          ApplyNothing(vars, entry);
        }
        i := i + 1;
      }
      assert entries[..i] == entries;
    }

    /** `process.env[name]` as a truthy string: set and non-empty. */
    function Lookup(name: string): Option<string>
      reads this
    {
      var env := vars;
      if name in env && env[name] != "" then Some(env[name]) else None
    }

    /**
     * The text-to-speech endpoint, up to the outbound call. Missing text is
     * rejected first, then a missing API key; otherwise the request goes out
     * with the chosen voice and the clamped settings.
     */
    method HandleTts(text: Option<string>, voiceId: Option<string>, voiceSettings: Option<SettingsInput>)
      returns (outcome: TtsOutcome)
      ensures (text.None? || text == Some("")) ==> outcome == MissingText
      ensures text.Some? && text.value != "" && Lookup("ELEVENLABS_API_KEY").None? ==> outcome == MissingApiKey
      ensures outcome.Synthesize? <==> text.Some? && text.value != "" && Lookup("ELEVENLABS_API_KEY").Some?
      ensures outcome.Synthesize? ==> (outcome.apiKey == Lookup("ELEVENLABS_API_KEY").value
                                       && outcome.voiceId == SelectVoiceId(voiceId, Lookup("ELEVENLABS_VOICE_ID"))
                                       && outcome.text == text.value)
      ensures outcome.Synthesize? ==> outcome.settings == SafeSettings(voiceSettings)
      ensures outcome.Synthesize? ==> InUnitRange(outcome.settings)
    {
      if text.None? || text.value == "" {
        return MissingText;
      }
      var apiKey := Lookup("ELEVENLABS_API_KEY");
      if apiKey.None? {
        return MissingApiKey;
      }
      var selectedVoiceId := SelectVoiceId(voiceId, Lookup("ELEVENLABS_VOICE_ID"));
      var settings := SafeVoiceSettings(voiceSettings);
      return Synthesize(text.value, apiKey.value, selectedVoiceId, settings);
    }
  }

  /** The outcome of a text-to-speech request, up to the outbound call. */
  datatype TtsOutcome =
    | MissingText
    | MissingApiKey
    | Synthesize(text: string, apiKey: string, voiceId: string, settings: VoiceSettings)

  /** The voice used when neither the request nor the environment names one. */
  const DefaultVoiceId: string := "pNInz6obpgDQGcFmaJgB"

  /**
   * The voice id: the request's, trimmed, when it is not blank; else the
   * environment's ELEVENLABS_VOICE_ID when set and non-empty; else the default.
   */
  function SelectVoiceId(voiceId: Option<string>, envVoiceId: Option<string>): (r: string)
    requires envVoiceId.Some? ==> envVoiceId.value != ""
    ensures r != ""
    ensures voiceId.Some? && Trim(voiceId.value) != "" ==> r == Trim(voiceId.value)
    ensures (voiceId.None? || Trim(voiceId.value) == "") && envVoiceId.Some? ==> r == envVoiceId.value
    ensures (voiceId.None? || Trim(voiceId.value) == "") && envVoiceId.None? ==> r == DefaultVoiceId
  {
    if voiceId.Some? && |Trim(voiceId.value)| > 0 then Trim(voiceId.value)
    else if envVoiceId.Some? then envVoiceId.value
    else DefaultVoiceId
  }

  /** A voice id taken from the request has no whitespace at its ends. */
  lemma RequestVoiceIdTrimmed(voiceId: string, envVoiceId: Option<string>)
    requires envVoiceId.Some? ==> envVoiceId.value != ""
    requires Trim(voiceId) != ""
    ensures var r := SelectVoiceId(Some(voiceId), envVoiceId);
      !IsWhitespace(r[0]) && !IsWhitespace(r[|r| - 1])
  {
  }

  /**
   * The two fields of a request's voiceSettings object after `Number(...)`;
   * a missing field converts to NaN.
   */
  datatype SettingsInput = SettingsInput(stability: JsNumber, similarityBoost: JsNumber)

  /** Both settings lie in [0, 1]. */
  predicate InUnitRange(s: VoiceSettings)
  {
    0.0 <= s.stability <= 1.0 && 0.0 <= s.similarityBoost <= 1.0
  }

  /** `Math.min(1, Math.max(0, n))` for a number that is not NaN. */
  function Clamp01(n: JsNumber): (r: real)
    requires !n.NaN?
    ensures 0.0 <= r <= 1.0
    ensures n.Finite? && 0.0 <= n.value <= 1.0 ==> r == n.value
    ensures n.Finite? && n.value < 0.0 ==> r == 0.0
    ensures n.Finite? && n.value > 1.0 ==> r == 1.0
    ensures n.PosInfinity? ==> r == 1.0
    ensures n.NegInfinity? ==> r == 0.0
  {
    match n
    case PosInfinity => 1.0
    case NegInfinity => 0.0
    case Finite(v) => MinReal(1.0, MaxReal(0.0, v))
  }

  /** Clamping never moves a value past another: it is monotone. */
  lemma Clamp01Monotone(a: real, b: real)
    requires a <= b
    ensures Clamp01(Finite(a)) <= Clamp01(Finite(b))
  {
  }

  /** safeVoiceSettings: the defaults. */
  const DefaultSettings: VoiceSettings := VoiceSettings(0.4, 0.8)

  /** One field of safeVoiceSettings: its default when NaN, else the value clamped to [0, 1]. */
  function SafeField(n: JsNumber, default: real): (r: real)
    requires 0.0 <= default <= 1.0
    ensures 0.0 <= r <= 1.0
    ensures n.NaN? ==> r == default
  {
    if n.NaN? then default else Clamp01(n)
  }

  /**
   * The settings safeVoiceSettings arrives at: the defaults {0.4, 0.8} without a
   * settings object, otherwise each field through SafeField with its default.
   * They always lie in [0, 1].
   */
  function SafeSettings(voiceSettings: Option<SettingsInput>): (r: VoiceSettings)
    ensures InUnitRange(r)
    ensures voiceSettings.None? ==> r == DefaultSettings
  {
    if voiceSettings.None? then DefaultSettings
    else VoiceSettings(SafeField(voiceSettings.value.stability, DefaultSettings.stability),
                       SafeField(voiceSettings.value.similarityBoost, DefaultSettings.similarityBoost))
  }

  /**
   * safeVoiceSettings. Start from {0.4, 0.8}; when the request has a settings
   * object, each field that is a number replaces its default, clamped to
   * [0, 1], and a NaN field keeps the default. The result always lies in [0, 1].
   */
  method SafeVoiceSettings(voiceSettings: Option<SettingsInput>) returns (safe: VoiceSettings)
    ensures safe == SafeSettings(voiceSettings)
    ensures InUnitRange(safe)
    ensures voiceSettings.None? ==> safe == DefaultSettings
    ensures voiceSettings.Some? ==> (
      && safe.stability == (if voiceSettings.value.stability.NaN? then 0.4 else Clamp01(voiceSettings.value.stability))
      && safe.similarityBoost == (if voiceSettings.value.similarityBoost.NaN? then 0.8
                                  else Clamp01(voiceSettings.value.similarityBoost)))
  {
    safe := DefaultSettings;
    if voiceSettings.Some? {
      var stability := voiceSettings.value.stability;
      var similarity := voiceSettings.value.similarityBoost;
      if !stability.NaN? {
        safe := safe.(stability := Clamp01(stability));
      }
      if !similarity.NaN? {
        safe := safe.(similarityBoost := Clamp01(similarity));
      }
    }
  }

  /** The rejections of the chapter-to-PDF endpoint, in the order they are checked. */
  datatype MangareadError = MissingUrl | InvalidUrl | UnsupportedHost

  /** The host names the chapter-to-PDF endpoint serves. */
  predicate SupportedHost(hostname: string)
  {
    hostname == "www.mangaread.org" || hostname == "mangaread.org"
  }

  /**
   * The input checks of the chapter-to-PDF endpoint, for the request's url
   * (None when absent or not a string) and the host name it parses to (None
   * when it does not parse). A missing or empty url is reported first, then an
   * unparsable one, then a host other than mangaread.org or www.mangaread.org;
   * anything else is accepted.
   */
  function CheckMangareadRequest(url: Option<string>, hostname: Option<string>): (r: Option<MangareadError>)
    ensures r.None? <==> url.Some? && url.value != "" && hostname.Some? && SupportedHost(hostname.value)
    ensures r == Some(MissingUrl) <==> url.None? || url.value == ""
    ensures r == Some(InvalidUrl) <==> url.Some? && url.value != "" && hostname.None?
  {
    if url.None? || url.value == "" then Some(MissingUrl)
    else if hostname.None? then Some(InvalidUrl)
    else if !SupportedHost(hostname.value) then Some(UnsupportedHost)
    else None
  }
}
