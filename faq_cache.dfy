/**
 * The generate-and-cache pipeline of the plugin and the two entry points
 * modelled here: the forced regeneration from the editor and the shortcode.
 *
 * A `Site` holds what the pipeline reads and writes: the options, the
 * transient store (cache key to entry) and the post meta. Everything outside
 * the site — `md5`, the page fetch, `strip_tags`, the Gemini request,
 * `json_encode`, the escaping functions and the clock — is a `Host` value
 * whose functions are left abstract.
 *
 * `Generate` is the pipeline as a function of the site's state; the method
 * `Site.GenerateAndCache` is proved to compute it and to write the stores
 * exactly when it says so.
 */
module FaqCache {
  import opened Optional
  import opened PhpString
  import opened FaqParser
  import opened FaqRender
  import opened PromptSelect
  import opened TextExtract

  const DaySeconds: int := 86400
  const KeyPrefix: string := "gemini_faq_"

  // ---------------------------------------------------------------------------
  // Stored values and the world outside the site
  // ---------------------------------------------------------------------------

  /** The "faqs" member of a stored value: missing, not an array, or a list of pairs. */
  datatype FaqsField = FaqsAbsent | FaqsNotList | FaqsList(pairs: seq<FaqPair>)

  /** What `get_transient` can hand back for a key that is present. */
  datatype CacheValue = NotArray | Record(faqs: FaqsField, jsonLd: Option<string>)

  /** A transient: its value and the lifetime, in seconds, it was stored with. */
  datatype Entry = Entry(value: CacheValue, ttl: int)

  /** `array('faqs' => …, 'json_ld' => …)` as handed to callers. */
  datatype CacheRecord = CacheRecord(faqs: seq<FaqPair>, jsonLd: string)

  /** What the Gemini request gives back: a transport error, or a reply with or without the candidate text. */
  datatype GeminiReply = TransportError | Reply(text: Option<string>)

  datatype Host = Host(
    md5: string -> string,
    fetchBody: string -> string,              // the page body; "" when the request fails
    stripTags: string -> string,
    gemini: (string, string) -> GeminiReply,  // (API key, request text)
    encodePretty: FaqPage -> string,
    encodeCompact: FaqPage -> string,
    escHtml: string -> string,
    escAttr: string -> string,
    now: nat)                                 // time()

  /** The options and per-post settings the pipeline reads but never writes. */
  datatype Settings = Settings(
    apiKey: string,                  // "" when unset
    promptVersion: Option<nat>,      // None when never saved
    cacheDays: Option<int>,          // None when never saved
    sitePrompt: Option<string>,      // None when never saved
    postPrompt: map<nat, string>)    // "_gemini_faq_prompt_select"

  /** `get_post_meta($id, $key, true)`: the stored text, "" when there is none. */
  function Meta(m: map<nat, string>, id: nat): string {
    if id in m then m[id] else ""
  }

  /** The cache-hit test: an array whose "faqs" is an array and whose "json_ld" is set. */
  predicate IsUsable(v: CacheValue) {
    v.Record? && v.faqs.FaqsList? && v.jsonLd.Some?
  }

  function RecordOf(v: CacheValue): CacheRecord
    requires IsUsable(v)
  {
    CacheRecord(v.faqs.pairs, v.jsonLd.value)
  }

  /** The value `set_transient` stores for a record; it passes the hit test and reads back as the record. */
  function Stored(r: CacheRecord): (v: CacheValue)
    ensures IsUsable(v) && RecordOf(v) == r
  {
    Record(FaqsList(r.faqs), Some(r.jsonLd))
  }

  // ---------------------------------------------------------------------------
  // The cache key
  // ---------------------------------------------------------------------------

  /** What is hashed: URL, post id, prompt version and post prompt setting, with no separators. */
  function KeyPreimage(url: string, postId: nat, version: nat, setting: string): string {
    url + Decimal(postId) + Decimal(version) + setting
  }

  function CacheKey(md5: string -> string, url: string, postId: nat, version: nat, setting: string): string {
    KeyPrefix + md5(KeyPreimage(url, postId, version, setting))
  }

  /** `get_option('gemini_faq_cache_duration', 1)`. */
  function CacheDays(s: Settings): int {
    s.cacheDays.GetOr(1)
  }

  /** `get_option('gemini_faq_prompt_version', time())`. */
  function PromptVersion(s: Settings, now: nat): nat {
    s.promptVersion.GetOr(now)
  }

  /** The key a call at time `now` computes for a page and post. */
  function KeyFor(s: Settings, md5: string -> string, now: nat, url: string, postId: nat): string {
    CacheKey(md5, url, postId, PromptVersion(s, now), Meta(s.postPrompt, postId))
  }

  /** Two different pages can hash the same text: "…/p1" with post 23 and "…/p12" with post 3. */
  lemma KeyPreimageCollision(version: nat, setting: string)
    ensures KeyPreimage("https://example.com/p1", 23, version, setting)
         == KeyPreimage("https://example.com/p12", 3, version, setting)
  {
    assert Decimal(23) == "23" && Decimal(3) == "3";
    assert "https://example.com/p1" + "23" == "https://example.com/p12" + "3";
  }

  /** For one page, post and setting, different prompt versions never hash the same text. */
  lemma KeyPreimageSeparatesVersions(url: string, postId: nat, v1: nat, v2: nat, setting: string)
    requires v1 != v2
    ensures KeyPreimage(url, postId, v1, setting) != KeyPreimage(url, postId, v2, setting)
  {
    var head := url + Decimal(postId);
    var a, b := Decimal(v1), Decimal(v2);
    if KeyPreimage(url, postId, v1, setting) == KeyPreimage(url, postId, v2, setting) {
      var x, y := head + a + setting, head + b + setting;
      assert |a| == |b|;
      assert x[|head|..|head| + |a|] == a;
      assert y[|head|..|head| + |b|] == b;
      DecimalInjective(v1, v2);
    }
  }
  /**
   * For one page, post and prompt version, different per-post prompt settings
   * hash different texts: changing the setting is what brings a new template
   * into effect, since saving it does not clear the cache.
   */
  lemma KeyPreimageSeparatesSettings(url: string, postId: nat, version: nat, s1: string, s2: string)
    requires s1 != s2
    ensures KeyPreimage(url, postId, version, s1) != KeyPreimage(url, postId, version, s2)
  {
    var head := url + Decimal(postId) + Decimal(version);
    assert KeyPreimage(url, postId, version, s1)[|head|..] == s1;
    assert KeyPreimage(url, postId, version, s2)[|head|..] == s2;
  }


  // ---------------------------------------------------------------------------
  // _gemini_faq_generate_and_cache_for_url
  // ---------------------------------------------------------------------------

  datatype Failure = NoApiKey | FetchFailed | NoText | RequestFailed | NoReplyText | NoPairs

  /** How a call ends: a cache hit, a failure (nothing written), or a fresh result to store. */
  datatype Outcome =
    | Hit(record: CacheRecord)
    | Failed(why: Failure)
    | Generated(key: string, record: CacheRecord, rawText: string, ttl: int)

  /** The template for a post: its own setting first, then the site option. */
  function PromptFor(s: Settings, postId: nat): string {
    PromptText(ResolvePromptKey(Meta(s.postPrompt, postId), s.sitePrompt))
  }

  /** The last stage: the model's reply parsed into pairs, or the failure. */
  function FromReply(reply: GeminiReply, encode: FaqPage -> string, key: string, ttl: int): (o: Outcome)
    ensures !o.Hit?
    ensures o.Generated? ==> o.key == key && o.ttl == ttl
  {
    match reply
    case TransportError => Failed(RequestFailed)
    case Reply(None) => Failed(NoReplyText)
    case Reply(Some(text)) =>
      var faqs := ParseInline(text);
      if faqs == [] then Failed(NoPairs)
      else Generated(key, CacheRecord(faqs, encode(JsonLdOf(faqs))), text, ttl)
  }

  /** After a cache miss: fetch the page, extract its text, ask the model. */
  function AfterMiss(s: Settings, host: Host, url: string, postId: nat, key: string): (o: Outcome)
    ensures !o.Hit?
    ensures o.Generated? ==> o.key == key && o.ttl == CacheDays(s) * DaySeconds
  {
    var body := host.fetchBody(url);
    if PhpEmpty(body) then Failed(FetchFailed)
    else
      var text := ExtractText(host.stripTags(body));
      if PhpEmpty(text) then Failed(NoText)
      else FromReply(host.gemini(s.apiKey, RequestText(PromptFor(s, postId), text)), host.encodePretty, key, CacheDays(s) * DaySeconds)
  }

  /** The pipeline, from the state it reads to how it ends. */
  function Generate(s: Settings, store: map<string, Entry>, host: Host, url: string, postId: nat): Outcome {
    if PhpEmpty(s.apiKey) then Failed(NoApiKey)
    else
      var key := KeyFor(s, host.md5, host.now, url, postId);
      if key in store && IsUsable(store[key].value) then Hit(RecordOf(store[key].value))
      else AfterMiss(s, host, url, postId, key)
  }

  /** What the caller gets back: the record on a hit or a fresh result, `false` otherwise. */
  function ResultOf(o: Outcome): Option<CacheRecord> {
    match o
    case Hit(r) => Some(r)
    case Failed(_) => None
    case Generated(_, r, _, _) => Some(r)
  }

  /** The transient store after a call: one entry written on a fresh result only. */
  function StoreAfter(o: Outcome, store: map<string, Entry>): map<string, Entry> {
    if o.Generated? then store[o.key := Entry(Stored(o.record), o.ttl)] else store
  }

  /** The raw-text post meta after a call: written on a fresh result only. */
  function ContentAfter(o: Outcome, content: map<nat, string>, postId: nat): map<nat, string> {
    if o.Generated? then content[postId := o.rawText] else content
  }

  /**
   * A call is a hit exactly when the API key is set and the entry under its
   * key passes the hit test; it then returns that entry.
   */
  lemma GenerateHitIff(s: Settings, store: map<string, Entry>, host: Host, url: string, postId: nat)
    ensures var key := KeyFor(s, host.md5, host.now, url, postId);
      Generate(s, store, host, url, postId).Hit? <==>
        !PhpEmpty(s.apiKey) && key in store && IsUsable(store[key].value)
    ensures var key := KeyFor(s, host.md5, host.now, url, postId);
      Generate(s, store, host, url, postId).Hit? ==>
        Generate(s, store, host, url, postId).record == RecordOf(store[key].value)
  {
  }

  /** A hit needs neither the page nor the model: hosts that agree on `md5` and the clock give the same result. */
  lemma HitNeedsNoNetwork(s: Settings, store: map<string, Entry>, host: Host, other: Host, url: string, postId: nat)
    requires Generate(s, store, host, url, postId).Hit?
    requires other.md5 == host.md5 && other.now == host.now
    ensures Generate(s, store, other, url, postId) == Generate(s, store, host, url, postId)
  {
  }

  /**
   * The failures found before the request: no API key, an empty page, no text
   * on the page. The failures of the request itself are `GenerateReplyFailures`.
   */
  lemma GenerateFailures(s: Settings, store: map<string, Entry>, host: Host, url: string, postId: nat)
    ensures PhpEmpty(s.apiKey) ==> Generate(s, store, host, url, postId) == Failed(NoApiKey)
    ensures var o := Generate(s, store, host, url, postId);
      !PhpEmpty(s.apiKey) && !o.Hit? && PhpEmpty(host.fetchBody(url)) ==> o == Failed(FetchFailed)
    ensures var o := Generate(s, store, host, url, postId);
      var body := host.fetchBody(url);
      !PhpEmpty(s.apiKey) && !o.Hit? && !PhpEmpty(body) && PhpEmpty(host.stripTags(body)) ==> o == Failed(NoText)
  {
    var body := host.fetchBody(url);
    ExtractEmptyIff(host.stripTags(body));
  }

  /**
   * The failures of the request, once the page gave text: a transport error, a
   * reply without text, and a reply text in which no pair is found. A reply
   * text yields a fresh result exactly when at least one pair is parsed from it.
   */
  lemma GenerateReplyFailures(s: Settings, store: map<string, Entry>, host: Host, url: string, postId: nat)
    ensures var o := Generate(s, store, host, url, postId);
      var body := host.fetchBody(url);
      var r := host.gemini(s.apiKey, RequestText(PromptFor(s, postId), ExtractText(host.stripTags(body))));
      !PhpEmpty(s.apiKey) && !o.Hit? && !PhpEmpty(body) && !PhpEmpty(host.stripTags(body)) ==>
        && (r == TransportError ==> o == Failed(RequestFailed))
        && (r == Reply(None) ==> o == Failed(NoReplyText))
        && (r.Reply? && r.text.Some? ==> (o == Failed(NoPairs) <==> ParseInline(r.text.value) == []))
        && (r.Reply? && r.text.Some? ==> (o.Generated? <==> ParseInline(r.text.value) != []))
  {
    var body := host.fetchBody(url);
    ExtractEmptyIff(host.stripTags(body));
  }

  /**
   * A fresh result: the key is the one computed for the call, the pairs are the
   * parsed reply, at least one and all well formed, the structured data carries
   * exactly those pairs, and the lifetime is the configured number of days.
   */
  lemma GeneratedResult(s: Settings, store: map<string, Entry>, host: Host, url: string, postId: nat)
    requires Generate(s, store, host, url, postId).Generated?
    ensures var o := Generate(s, store, host, url, postId);
      && !PhpEmpty(s.apiKey)
      && o.key == KeyFor(s, host.md5, host.now, url, postId)
      && !(o.key in store && IsUsable(store[o.key].value))
      && o.record.faqs == ParseInline(o.rawText) && |o.record.faqs| >= 1
      && AllWellFormed(o.record.faqs)
      && o.record.jsonLd == host.encodePretty(JsonLdOf(o.record.faqs))
      && FaqsOf(JsonLdOf(o.record.faqs)) == o.record.faqs
      && o.ttl == CacheDays(s) * DaySeconds
  {
    var o := Generate(s, store, host, url, postId);
    InlineParserAgrees(o.rawText);
    ParseWellFormed(Split(Trim(o.rawText)));
    FaqsOfJsonLd(o.record.faqs);
  }

  /** What a fresh result stores is what the next call with the same key finds, without fetching anything. */
  lemma StoreThenHit(s: Settings, store: map<string, Entry>, host: Host, later: Host, url: string, postId: nat)
    requires Generate(s, store, host, url, postId).Generated?
    requires later.md5 == host.md5
    requires s.promptVersion.Some? || later.now == host.now
    ensures var o := Generate(s, store, host, url, postId);
      Generate(s, StoreAfter(o, store), later, url, postId) == Hit(o.record)
  {
    var o := Generate(s, store, host, url, postId);
    assert KeyFor(s, later.md5, later.now, url, postId) == o.key;
  }

  // ---------------------------------------------------------------------------
  // The site and its stores
  // ---------------------------------------------------------------------------

  class Site {
    var settings: Settings
    var transients: map<string, Entry>
    var postContent: map<nat, string>   // "_gemini_faq_content"
    var postJsonLd: map<nat, string>    // "_gemini_faq_json_ld"

    constructor(settings: Settings, postContent: map<nat, string>, postJsonLd: map<nat, string>)
      ensures this.settings == settings && transients == map[]
      ensures this.postContent == postContent && this.postJsonLd == postJsonLd
    {
      this.settings := settings;
      transients := map[];
      this.postContent := postContent;
      this.postJsonLd := postJsonLd;
    }

    /** `_gemini_faq_generate_and_cache_for_url`: the key and the cache-hit test. */
    method GenerateAndCache(host: Host, url: string, postId: nat) returns (result: Option<CacheRecord>)
      modifies this
      ensures settings == old(settings) && postJsonLd == old(postJsonLd)
      ensures var o := Generate(old(settings), old(transients), host, url, postId);
        && result == ResultOf(o)
        && transients == StoreAfter(o, old(transients))
        && postContent == ContentAfter(o, old(postContent), postId)
    {
      if PhpEmpty(settings.apiKey) {
        return None;
      }
      var version := settings.promptVersion.GetOr(host.now);
      var setting := Meta(settings.postPrompt, postId);
      var key := KeyPrefix + host.md5(url + Decimal(postId) + Decimal(version) + setting);
      assert key == KeyFor(settings, host.md5, host.now, url, postId);

      if key in transients && IsUsable(transients[key].value) {
        return Some(RecordOf(transients[key].value));
      }
      result := GenerateOnMiss(host, url, postId, key);
    }

    /** The same function after a cache miss: fetch the page, extract its text, ask the model. */
    method GenerateOnMiss(host: Host, url: string, postId: nat, key: string) returns (result: Option<CacheRecord>)
      modifies this
      ensures settings == old(settings) && postJsonLd == old(postJsonLd)
      ensures var o := AfterMiss(old(settings), host, url, postId, key);
        && result == ResultOf(o)
        && transients == StoreAfter(o, old(transients))
        && postContent == ContentAfter(o, old(postContent), postId)
    {
      var body := host.fetchBody(url);
      if PhpEmpty(body) {
        return None;
      }
      var text := ExtractText(host.stripTags(body));
      if PhpEmpty(text) {
        return None;
      }

      var promptKey := ResolvePromptKey(Meta(settings.postPrompt, postId), settings.sitePrompt);
      var prompt := PromptText(promptKey);
      var reply := host.gemini(settings.apiKey, RequestText(prompt, text));
      result := StoreReply(host.encodePretty, postId, key, CacheDays(settings) * DaySeconds, reply);
    }

    /** The end of the same function: parse the reply, build the structured data, write both stores. */
    method StoreReply(encode: FaqPage -> string, postId: nat, key: string, ttl: int, reply: GeminiReply)
      returns (result: Option<CacheRecord>)
      modifies this
      ensures settings == old(settings) && postJsonLd == old(postJsonLd)
      ensures var o := FromReply(reply, encode, key, ttl);
        && result == ResultOf(o)
        && transients == StoreAfter(o, old(transients))
        && postContent == ContentAfter(o, old(postContent), postId)
    {
      if reply.TransportError? {
        return None;
      }
      if reply.text.None? {
        return None;
      }
      var geminiText := reply.text.value;

      var faqs := ParseLines(Split(geminiText));
      if |faqs| == 0 {
        return None;
      }
      var page := BuildJsonLd(faqs);
      var record := CacheRecord(faqs, encode(page));

      transients := transients[key := Entry(Stored(record), ttl)];
      postContent := postContent[postId := geminiText];
      result := Some(record);
    }

    /** `gemini_faq_ajax_regenerate_handler`, after its nonce and capability checks. */
    method RegenerateHandler(host: Host, evictNow: nat, postId: nat, permalink: string) returns (reply: HandlerReply)
      modifies this
      ensures settings == old(settings) && postJsonLd == old(postJsonLd)
      ensures reply == RegenerateReply(old(settings), old(transients), old(postContent), host, evictNow, postId, permalink)
      ensures postId == 0 || PhpEmpty(permalink) ==> transients == old(transients) && postContent == old(postContent)
      ensures postId != 0 && !PhpEmpty(permalink) ==>
        var evicted := old(transients) - {KeyFor(old(settings), host.md5, evictNow, permalink, postId)};
        var o := Generate(old(settings), evicted, host, permalink, postId);
        && transients == StoreAfter(o, evicted)
        && postContent == ContentAfter(o, old(postContent), postId)
    {
      if postId == 0 {
        return Error(InvalidPostMessage);
      }
      if PhpEmpty(permalink) {
        return Error(NoPermalinkMessage);
      }
      var version := settings.promptVersion.GetOr(evictNow);
      var setting := Meta(settings.postPrompt, postId);
      var key := KeyPrefix + host.md5(permalink + Decimal(postId) + Decimal(version) + setting);
      transients := transients - {key};

      var _ := GenerateAndCache(host, permalink, postId);
      var content := Meta(postContent, postId);
      if PhpEmpty(content) {
        return Error(NoContentMessage);
      }
      return Success(content);
    }

    /** `gemini_faq_shortcode`: the post's own saved FAQ text first, otherwise the AJAX placeholder. */
    method Shortcode(host: Host, postId: nat) returns (output: string)
      ensures output == ShortcodeOutput(postContent, postJsonLd, host, postId)
    {
      output := Heading;
      var manual := Meta(postContent, postId);
      if !PhpEmpty(manual) {
        var faqs := ParseTextToArray(manual);
        if faqs != [] {
          var html := RenderHtml(host.escHtml, faqs);
          var script := GenerateJsonLd(host.encodeCompact, faqs);
          output := output + html;
          output := output + script;
          return;
        }
      }
      output := output + (ContainerOpen + host.escAttr(Decimal(postId)) + ContainerClose);
      var jsonLd := Meta(postJsonLd, postId);
      if !PhpEmpty(jsonLd) {
        output := output + (ScriptOpen + jsonLd + ScriptClose);
      }
    }
  }

  // ---------------------------------------------------------------------------
  // gemini_faq_ajax_regenerate_handler
  // ---------------------------------------------------------------------------

  datatype HandlerReply = Error(message: string) | Success(content: string)

  const InvalidPostMessage: string := "無効な投稿IDです。"
  const NoPermalinkMessage: string := "投稿のパーマリンクが取得できませんでした。"
  const NoContentMessage: string := "生成されたFAQコンテンツの取得に失敗しました。"

  /**
   * The handler's reply as written: evict the key computed at `evictNow`,
   * run the pipeline, then report whatever raw text the post meta holds.
   */
  function RegenerateReply(s: Settings, store: map<string, Entry>, content: map<nat, string>, host: Host,
                           evictNow: nat, postId: nat, permalink: string): HandlerReply
  {
    if postId == 0 then Error(InvalidPostMessage)
    else if PhpEmpty(permalink) then Error(NoPermalinkMessage)
    else
      var evicted := store - {KeyFor(s, host.md5, evictNow, permalink, postId)};
      var o := Generate(s, evicted, host, permalink, postId);
      var text := Meta(ContentAfter(o, content, postId), postId);
      if PhpEmpty(text) then Error(NoContentMessage) else Success(text)
  }

  /** Eviction removes the very key the pipeline then reads, when the version is saved or the clocks agree. */
  lemma EvictionMatchesGenerate(s: Settings, md5: string -> string, evictNow: nat, now: nat, url: string, postId: nat)
    requires s.promptVersion.Some? || evictNow == now
    ensures KeyFor(s, md5, evictNow, url, postId) == KeyFor(s, md5, now, url, postId)
  {
  }

  /** Without a saved version and with the clock moved on, the two hashed texts differ. */
  lemma EvictionMissesWithoutVersion(s: Settings, evictNow: nat, now: nat, url: string, postId: nat)
    requires s.promptVersion.None? && evictNow != now
    ensures KeyPreimage(url, postId, PromptVersion(s, evictNow), Meta(s.postPrompt, postId))
         != KeyPreimage(url, postId, PromptVersion(s, now), Meta(s.postPrompt, postId))
  {
    KeyPreimageSeparatesVersions(url, postId, evictNow, now, Meta(s.postPrompt, postId));
  }

  /** After the eviction the pipeline cannot hit, when the version is saved or the clocks agree. */
  lemma EvictedNeverHits(s: Settings, store: map<string, Entry>, host: Host, evictNow: nat, url: string, postId: nat)
    requires s.promptVersion.Some? || evictNow == host.now
    ensures !Generate(s, store - {KeyFor(s, host.md5, evictNow, url, postId)}, host, url, postId).Hit?
  {
    EvictionMatchesGenerate(s, host.md5, evictNow, host.now, url, postId);
  }

  /**
   * As written, a failed regeneration is reported as a success carrying the
   * post's previous text: here the API key is unset, nothing is generated,
   * and the old text comes back.
   */
  lemma RegenerateReportsStaleText(s: Settings, store: map<string, Entry>, content: map<nat, string>, host: Host,
                                   evictNow: nat, postId: nat, permalink: string)
    requires postId != 0 && !PhpEmpty(permalink)
    requires PhpEmpty(s.apiKey) && !PhpEmpty(Meta(content, postId))
    ensures Generate(s, store - {KeyFor(s, host.md5, evictNow, permalink, postId)}, host, permalink, postId).Failed?
    ensures RegenerateReply(s, store, content, host, evictNow, postId, permalink) == Success(Meta(content, postId))
  {
  }

  /** The reply as intended: an error whenever the pipeline did not produce fresh text. */
  function RegenerateReplyChecked(s: Settings, store: map<string, Entry>, content: map<nat, string>, host: Host,
                                  evictNow: nat, postId: nat, permalink: string): HandlerReply
  {
    if postId == 0 then Error(InvalidPostMessage)
    else if PhpEmpty(permalink) then Error(NoPermalinkMessage)
    else
      var evicted := store - {KeyFor(s, host.md5, evictNow, permalink, postId)};
      var o := Generate(s, evicted, host, permalink, postId);
      if !o.Generated? then Error(NoContentMessage)
      else
        var text := Meta(ContentAfter(o, content, postId), postId);
        if PhpEmpty(text) then Error(NoContentMessage) else Success(text)
  }

  /** The intended reply reports success only with the text the model just returned. */
  lemma CheckedReplyIsFresh(s: Settings, store: map<string, Entry>, content: map<nat, string>, host: Host,
                            evictNow: nat, postId: nat, permalink: string)
    requires RegenerateReplyChecked(s, store, content, host, evictNow, postId, permalink).Success?
    ensures var o := Generate(s, store - {KeyFor(s, host.md5, evictNow, permalink, postId)}, host, permalink, postId);
      && o.Generated?
      && RegenerateReplyChecked(s, store, content, host, evictNow, postId, permalink).content == o.rawText
      && o.record.faqs == ParseInline(o.rawText)
  {
  }

  /** The intended reply differs from the written one only where the written one reports stale text. */
  lemma CheckedReplyAgreesOnFreshText(s: Settings, store: map<string, Entry>, content: map<nat, string>, host: Host,
                                      evictNow: nat, postId: nat, permalink: string)
    requires postId != 0 && !PhpEmpty(permalink)
    requires Generate(s, store - {KeyFor(s, host.md5, evictNow, permalink, postId)}, host, permalink, postId).Generated?
    ensures RegenerateReplyChecked(s, store, content, host, evictNow, postId, permalink)
         == RegenerateReply(s, store, content, host, evictNow, postId, permalink)
  {
  }

  // ---------------------------------------------------------------------------
  // gemini_faq_shortcode
  // ---------------------------------------------------------------------------

  const Heading: string := "<h3>FAQ</h3>"
  const ContainerOpen: string := "<div id=\"gemini-faq-container\" data-post-id=\""
  const ContainerClose: string := "\">FAQを読み込み中...</div>"

  /** The markup the shortcode returns for a post. */
  function ShortcodeOutput(content: map<nat, string>, jsonLd: map<nat, string>, host: Host, postId: nat): string {
    var manual := Meta(content, postId);
    var faqs := ParseText(manual);
    if !PhpEmpty(manual) && faqs != [] then
      Heading + HtmlOf(host.escHtml, faqs) + (ScriptOpen + host.encodeCompact(JsonLdOf(faqs)) + ScriptClose)
    else
      var stored := Meta(jsonLd, postId);
      Heading + (ContainerOpen + host.escAttr(Decimal(postId)) + ContainerClose)
        + (if PhpEmpty(stored) then "" else ScriptOpen + stored + ScriptClose)
  }

  /** "" and "0" hold no pair. */
  lemma EmptyTextHasNoPairs(text: string)
    requires PhpEmpty(text)
    ensures ParseText(text) == []
  {
    TrimOfTrimmed(text);
    if text == "" {
      assert Split("") == [""];
    } else {
      SplitNoNewline("0");
      assert Split("0") == ["0"];
      assert ["0"][1..] == [];
    }
  }

  /**
   * Saved FAQ text that yields at least one pair is rendered from the text,
   * whatever structured data is stored; otherwise the placeholder is shown,
   * with the stored structured data when there is some.
   */
  lemma ShortcodeManualFirst(content: map<nat, string>, jsonLd: map<nat, string>, host: Host, postId: nat)
    ensures var faqs := ParseText(Meta(content, postId));
      faqs != [] ==>
        ShortcodeOutput(content, jsonLd, host, postId)
          == Heading + HtmlOf(host.escHtml, faqs) + (ScriptOpen + host.encodeCompact(JsonLdOf(faqs)) + ScriptClose)
    ensures var faqs := ParseText(Meta(content, postId));
      faqs == [] ==>
        ShortcodeOutput(content, jsonLd, host, postId)
          == Heading + (ContainerOpen + host.escAttr(Decimal(postId)) + ContainerClose)
             + (if PhpEmpty(Meta(jsonLd, postId)) then "" else ScriptOpen + Meta(jsonLd, postId) + ScriptClose)
  {
    var manual := Meta(content, postId);
    if PhpEmpty(manual) {
      EmptyTextHasNoPairs(manual);
    }
  }
}
