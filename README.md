# Gemini FAQ Generator — a Dafny model of the FAQ pipeline

The WordPress plugin Gemini FAQ Generator fetches a post's page and sends its text to the Gemini model with an instruction template. It parses the "Q: … / A: …" reply into question/answer pairs and caches the result in a transient. The pairs are rendered as `<details>` markup and as schema.org FAQPage structured data. This project models that pipeline in Dafny and proves what it promises.

Modules, one per part of the pipeline:

- `PhpString` (php_string.dfy): the PHP string built-ins the pipeline relies on.
  - `empty()` on strings: "" and "0".
  - `trim` with its six default characters.
  - `explode("\n", …)` and `implode`.
  - The decimal form of an integer, as used in string concatenation.
- `FaqParser` (faq_parser.dfy): `gemini_faq_parse_text_to_array` and its inline copy in the generate-and-cache function.
  - The loop itself is the method `ParseLines`, specified by the fold `Parse`.
  - `Blocks` is an independent reference: at most one pair per "Q:" line, none when the question is `empty()`.
  - `RenderQA` writes pairs back in the "Q: / A:" form, for the round trip.
- `FaqRender` (faq_render.dfy): `gemini_faq_render_html`, `nl2br`, and `gemini_faq_generate_json_ld` with its inline copy.
  - The FAQPage value is a datatype.
  - `DecodeItems` and `FaqsOf` read each rendering back.
- `PromptSelect` (prompt_select.dfy): the template table `gemini_faq_get_prompts`, the prompt-key resolution, and the request text.
- `TextExtract` (text_extract.dfy): whitespace collapsing (`preg_replace('/\s+/', ' ', …)`) and the 5000-character cut.
- `FaqCache` (faq_cache.dfy): the orchestrator `_gemini_faq_generate_and_cache_for_url`, the forced regeneration in `gemini_faq_ajax_regenerate_handler`, and `gemini_faq_shortcode`.
  - `Site` is a class holding the options, the transient store (key to entry) and the post meta (post id to text).
  - The pure function `Generate` says how a call ends: hit, failure, or fresh result.
  - The `Site` methods are proved to compute `Generate` and to write the stores exactly as it says.
  - `md5`, the page fetch, `strip_tags`, the Gemini request, `json_encode`, `esc_html`, `esc_attr` and `time()` are fields of a `Host` value: functions the model does not interpret.
- `Optional` (optional.dfy): the `Option` type.

## Model

| member | source | states |
|---|---|---|
| PhpString.Trim | gemini-faq-generator/gemini-faq-generator.php:62 | `trim` leaves no trim character at either end and never lengthens its input |
| PhpString.TrimParts | gemini-faq-generator/gemini-faq-generator.php:62 | the input is the trimmed text with only trim characters in front and behind |
| PhpString.TrimUnique | gemini-faq-generator/gemini-faq-generator.php:62 | trimming text padded on both sides with trim characters gives back exactly the text |
| PhpString.TrimEmptyIff | gemini-faq-generator/gemini-faq-generator.php:62-63 | `trim` returns "" exactly when every character is a trim character |
| PhpString.TrimIdempotent | gemini-faq-generator/gemini-faq-generator.php:58-62 | trimming twice is trimming once |
| PhpString.Split | gemini-faq-generator/gemini-faq-generator.php:58 | `explode("\n", …)` yields at least one piece, and no piece holds a line feed |
| PhpString.JoinSplit | gemini-faq-generator/gemini-faq-generator.php:58 | joining the exploded pieces with "\n" gives back the text |
| PhpString.SplitJoin | gemini-faq-generator/gemini-faq-generator.php:58 | exploding lines joined with "\n" gives back the lines |
| PhpString.DecimalRoundTrip | gemini-faq-generator/gemini-faq-generator.php:166 | the decimal digits an integer turns into in a concatenation read back as that integer |
| PhpString.DecimalInjective | gemini-faq-generator/gemini-faq-generator.php:166 | different integers give different decimal strings |
| FaqParser.ParseLines | gemini-faq-generator/gemini-faq-generator.php:59-81 | the loop computes the fold `Parse`, and on lines without line feeds every pair has trimmed, non-empty, single-line text |
| FaqParser.ParseTextToArray | gemini-faq-generator/gemini-faq-generator.php:56-82 | the whole function computes `ParseText`, and every pair it returns is well formed |
| FaqParser.ParseIsBlocks | gemini-faq-generator/gemini-faq-generator.php:59-79 | the loop's result equals the reference: the meaningful lines cut into blocks at each "Q:" line, one pair per block with a non-empty question |
| FaqParser.StepTrimmed | gemini-faq-generator/gemini-faq-generator.php:62-63 | each line is handled by its trimmed form, and a line that trims to an `empty()` string changes nothing |
| FaqParser.StepSignificant | gemini-faq-generator/gemini-faq-generator.php:64-74 | a "Q:" line pushes the pending pair and opens a new question with an empty answer; any other line only appends to the answer |
| FaqParser.StrictPrefixes | gemini-faq-generator/gemini-faq-generator.php:64-74 | "A:" text is appended with no separator, and a line that starts with neither "Q:" nor "A:" is appended after one space |
| FaqParser.BlankLineIgnored | gemini-faq-generator/gemini-faq-generator.php:62-63 | inserting a blank, whitespace-only or "0" line anywhere changes no pair |
| FaqParser.PreambleIgnored | gemini-faq-generator/gemini-faq-generator.php:59-79 | lines before the first "Q:" line never reach the output |
| FaqParser.ParseQuestions | gemini-faq-generator/gemini-faq-generator.php:64-78 | the questions are the trimmed texts of the "Q:" lines with a non-empty question, in order, and there is at most one pair per "Q:" line |
| FaqParser.ParseWellFormed | gemini-faq-generator/gemini-faq-generator.php:62-78 | on lines without line feeds every stored question and answer is trimmed and single-line, and every question is non-empty |
| FaqParser.InlineParserAgrees | gemini-faq-generator/gemini-faq-generator.php:242-266 | the inline copy (no whole-text trim) gives the same pairs as `gemini_faq_parse_text_to_array` on every text |
| FaqParser.ParseRenderRoundTrip | gemini-faq-generator/gemini-faq-generator.php:56-82 | well-formed pairs written as "Q: …\nA: …" lines parse back to the same pairs |
| FaqParser.ParseIdempotent | gemini-faq-generator/gemini-faq-generator.php:56-82 | parsing, writing back and parsing again gives the first result |
| FaqRender.StripBrNl2br | gemini-faq-generator/gemini-faq-generator.php:90 | `nl2br` only inserts "<br />": removing them gives back text that had no '<' |
| FaqRender.RenderHtml | gemini-faq-generator/gemini-faq-generator.php:85-94 | the loop's four appends per pair build `HtmlOf`: one element per pair, in order |
| FaqRender.ItemsOf | gemini-faq-generator/gemini-faq-generator.php:88-91 | one item per pair, with summary = escaped question and body = `nl2br` of the escaped answer |
| FaqRender.DecodeRenderedHtml | gemini-faq-generator/gemini-faq-generator.php:85-94 | reading the markup back yields exactly those items, in order, and each body without its "<br />" is the escaped answer (when escaping leaves no '<') |
| FaqRender.JsonLdOf | gemini-faq-generator/gemini-faq-generator.php:98-113 | `@context` is https://schema.org and `@type` FAQPage; there is one Question entry per pair, in order, with name = question and acceptedAnswer = Answer(answer) |
| FaqRender.FaqsOfJsonLd | gemini-faq-generator/gemini-faq-generator.php:98-113 | the pairs read back out of the FAQPage value are the pairs it was built from |
| FaqRender.BuildJsonLd | gemini-faq-generator/gemini-faq-generator.php:274-289 | the loop appending to `mainEntity` (here and at lines 98-113) builds `JsonLdOf` |
| FaqRender.GenerateJsonLd | gemini-faq-generator/gemini-faq-generator.php:97-116 | the output is the encoded FAQPage value for the pairs inside a `<script type="application/ld+json">` element |
| PromptSelect.Prompts | gemini-faq-generator/gemini-faq-generator.php:568-576 | the table has exactly the keys default, professional, beginner and seo |
| PromptSelect.TemplatesEndWithFormat | gemini-faq-generator/gemini-faq-generator.php:569-575 | every template ends with the common "Q: "/"A: " format instruction |
| PromptSelect.ResolvePromptKey | gemini-faq-generator/gemini-faq-generator.php:197-200 | the post's setting wins unless it is `empty()` or "site_default"; then the site option applies, "default" when it was never saved |
| PromptSelect.PromptText | gemini-faq-generator/gemini-faq-generator.php:202-203 | a known key gets its template, an unknown key the "default" one, and either ends with the format instruction |
| PromptSelect.PostSettingWins | gemini-faq-generator/gemini-faq-generator.php:197-203 | a post whose own setting is a known key gets that template whatever the site option is |
| PromptSelect.RequestTextCarriesPage | gemini-faq-generator/gemini-faq-generator.php:214 | the request text starts with the template and carries the page text intact right after the "\n\n---\n" separator |
| TextExtract.CollapseShape | gemini-faq-generator/gemini-faq-generator.php:188 | after collapsing, no two neighbouring characters are whitespace and the only whitespace is ' ' |
| TextExtract.CollapseKeepsText | gemini-faq-generator/gemini-faq-generator.php:188 | collapsing drops and adds no visible character |
| TextExtract.CollapseAppend | gemini-faq-generator/gemini-faq-generator.php:188 | text ending in a visible character collapses on its own: collapsing it followed by more text is its collapse followed by the collapse of the rest |
| TextExtract.CollapseRun | gemini-faq-generator/gemini-faq-generator.php:188 | a non-empty whitespace run between visible characters (or at either end) becomes exactly one ' ', and the text on each side collapses independently |
| TextExtract.Truncate | gemini-faq-generator/gemini-faq-generator.php:189 | the cut text is the prefix of exactly min(length, 5000) characters |
| TextExtract.ExtractBounds | gemini-faq-generator/gemini-faq-generator.php:187-189 | the extracted text is the first min(length, 5000) characters of the collapsed text, with no whitespace run and no whitespace other than ' ' |
| TextExtract.ExtractEmptyIff | gemini-faq-generator/gemini-faq-generator.php:187-191 | the extracted text is `empty()` exactly when the tag-stripped page is |
| FaqCache.Stored | gemini-faq-generator/gemini-faq-generator.php:171-173 | what is stored passes the cache-hit test and reads back as the same record |
| FaqCache.KeyPreimageCollision | gemini-faq-generator/gemini-faq-generator.php:166 | the key's hashed text has no separators: two different pages and posts hash the same text |
| FaqCache.KeyPreimageSeparatesVersions | gemini-faq-generator/gemini-faq-generator.php:164-166 | for one page, post and setting, different prompt versions hash different texts |
| FaqCache.KeyPreimageSeparatesSettings | gemini-faq-generator/gemini-faq-generator.php:163-166 | for one page, post and prompt version, different per-post prompt settings hash different texts, so changing a post's override changes the text hashed into its cache key |
| FaqCache.GenerateHitIff | gemini-faq-generator/gemini-faq-generator.php:157-174 | a call is a cache hit exactly when the API key is set and the entry under its key is an array with an array "faqs" and a set "json_ld"; it returns that entry |
| FaqCache.HitNeedsNoNetwork | gemini-faq-generator/gemini-faq-generator.php:170-174 | a hit's result depends on neither the page fetch nor the model |
| FaqCache.GenerateFailures | gemini-faq-generator/gemini-faq-generator.php:157-194 | a missing API key, an empty fetched page and an empty tag-stripped page each end the call as a failure |
| FaqCache.GenerateReplyFailures | gemini-faq-generator/gemini-faq-generator.php:226-271 | once the page gave text, a transport error, a reply without text and a reply text with no pair each end the call as their own failure; a reply text gives a fresh result exactly when a pair is parsed from it |
| FaqCache.FromReply | gemini-faq-generator/gemini-faq-generator.php:226-298 | the reply stage never reports a hit, and a fresh result carries the call's key and lifetime (its failures are stated by `GenerateReplyFailures`) |
| FaqCache.AfterMiss | gemini-faq-generator/gemini-faq-generator.php:179-298 | after a miss the call never reports a hit, and a fresh result carries the call's key and the configured lifetime |
| FaqCache.GeneratedResult | gemini-faq-generator/gemini-faq-generator.php:164-298 | a fresh result has the computed key (which missed) and the reply's pairs (at least one, all well formed); its structured data carries exactly those pairs; its lifetime is days × 86400 |
| FaqCache.StoreThenHit | gemini-faq-generator/gemini-faq-generator.php:166-174 | once a fresh result is stored, the next call with the same key returns it without fetching |
| FaqCache.Site.GenerateAndCache | gemini-faq-generator/gemini-faq-generator.php:156-174 | the call returns what `Generate` says; it writes one transient and the raw text only for a fresh result, and nothing on any failure or hit |
| FaqCache.Site.GenerateOnMiss | gemini-faq-generator/gemini-faq-generator.php:179-224 | the miss path computes `AfterMiss` and writes only on a fresh result |
| FaqCache.Site.StoreReply | gemini-faq-generator/gemini-faq-generator.php:226-298 | the reply path computes `FromReply`; on success it stores {faqs, json_ld} with the given lifetime and saves the raw text as post meta |
| FaqCache.Site.RegenerateHandler | gemini-faq-generator/gemini-faq-generator.php:515-536 | invalid post id and missing permalink are errors with no write; otherwise the key is evicted, the pipeline runs on the evicted store, and the reply is whatever raw text the post meta then holds |
| FaqCache.EvictionMatchesGenerate | gemini-faq-generator/gemini-faq-generator.php:525-528 | the evicted key is the key the pipeline computes, when the prompt version is saved or both reads of the clock agree |
| FaqCache.EvictionMissesWithoutVersion | gemini-faq-generator/gemini-faq-generator.php:525-527 | with no saved version and a clock that moved on, the evicted and computed keys hash different texts |
| FaqCache.EvictedNeverHits | gemini-faq-generator/gemini-faq-generator.php:524-531 | after eviction the forced run cannot be a cache hit (version saved or clocks equal) |
| FaqCache.RegenerateReportsStaleText | gemini-faq-generator/gemini-faq-generator.php:531-536 | as written, a failed regeneration is reported as a success carrying the post's previous text |
| FaqCache.CheckedReplyIsFresh | gemini-faq-generator/gemini-faq-generator.php:531-536 | the corrected reply reports success only with the text the model just returned, whose pairs are the cached ones |
| FaqCache.CheckedReplyAgreesOnFreshText | gemini-faq-generator/gemini-faq-generator.php:531-536 | when generation succeeds, the corrected and the written reply agree |
| FaqCache.Site.Shortcode | gemini-faq-generator/gemini-faq-generator.php:32-53 | the shortcode's output is `ShortcodeOutput` |
| FaqCache.EmptyTextHasNoPairs | gemini-faq-generator/gemini-faq-generator.php:37-39 | "" and "0" hold no pair, so the `empty()` test on the saved text never changes the choice |
| FaqCache.ShortcodeManualFirst | gemini-faq-generator/gemini-faq-generator.php:35-52 | saved text that yields a pair is rendered as markup plus structured data, ignoring the stored JSON-LD; otherwise the placeholder follows, with the stored JSON-LD when it is set |

## Left out

- FaqCache.GenerateHitIff: a stored "faqs" array is modelled as a list of question/answer pairs; the source's `is_array` test accepts an array of anything and returns it on a hit, which the model cannot hold.
- WordPress glue is not modelled:
  - hook and shortcode registration;
  - the settings page, meta box and their sanitising callbacks;
  - script enqueueing;
  - the regenerate handler's nonce and capability checks.
  These are host framework calls with no logic of their own.
- `gemini_faq_ajax_handler` (:301-333) and `gemini_faq_generate_on_post_save` (:343-372) are not part of this model.
  - They are callers of the generate-and-cache function modelled here.
  - The save-post hook is what writes the `_gemini_faq_json_ld` meta that the shortcode reads. Here that meta is an input of the `Site`.
- The JavaScript front end (gemini-faq-generator/js/gemini-faq.js) is not part of this model; it is UI code.
- `md5`, `strip_tags`, `esc_html`, `esc_attr` and `json_encode` are `Host` functions left uninterpreted. `json_encode`'s flags and pretty-printing are therefore not modelled; the FAQPage value is a datatype.
- The page fetch and the Gemini request are uninterpreted `Host` functions:
  - the fetch gives "" on failure, as `wp_remote_retrieve_body` does;
  - the Gemini request gives a transport error, or a reply with or without the candidate text.
  - The request URL, headers, JSON body encoding, timeouts and the decoding of the response are not modelled.
- `is_wp_error` on the fetched body is not modelled: `wp_remote_retrieve_body` returns a string, so it never holds.
- `time()` is a value of the host, read once per call. The regenerate handler's own read of the clock is a separate parameter.
- Transient expiry is not modelled. An expired transient is the same as a missing key; the stored lifetime is recorded with the entry.
- `error_log` is not modelled; it is logging only.
- Text is modelled as a sequence of characters, not bytes. `trim` and `\s` are modelled on the characters they match. `mb_substr` counts characters.
- Post ids are natural numbers. `intval` on the AJAX request can give a negative id; such an id has no permalink, so the handler stops before generating.
- `FaqCache.Site.GenerateAndCache`: the source's single function is split into three methods, at the cache miss and at the model's reply. They run the same steps in the same order.

## Findings

| source | as written | input that shows it | evidently intended | confidence | as-written member | corrected member |
|---|---|---|---|---|---|---|
| gemini-faq-generator/gemini-faq-generator.php:531-536 | the handler ignores the result of the generate call. It reports success with whatever `_gemini_faq_content` holds. | a post with saved FAQ text, regenerated while the API key is unset (or the fetch or the model fails): the old text comes back as a success | report an error when the regeneration itself failed | medium, not executed | FaqCache.RegenerateReportsStaleText | FaqCache.CheckedReplyIsFresh |
