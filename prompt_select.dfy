/**
 * Which instruction text is sent to the model: the per-post setting wins
 * unless it is `empty()` or "site_default"; then the site-wide option is
 * used, "default" when that option was never saved. A key the template table
 * does not know falls back to the "default" template.
 */
module PromptSelect {
  import opened PhpString
  import opened Optional

  /** The format instruction every template ends with. */
  const CommonInstruction: string := "各ペアは、必ず\"Q: \"で始まる質問と\"A: \"で始まる回答の形式にしてください。"

  const DefaultLead: string := "以下のテキストに基づいて、想定される質問と回答のペアを5つ作成してください。"
  const ProfessionalLead: string := "以下の記事を専門家の視点から分析し、読者が抱くであろう重要な質問と、それに対する明確かつ簡潔な回答を5組生成してください。"
  const BeginnerLead: string := "この記事の内容を初めて読む人でも理解できるように、基本的な質問と簡単な言葉での回答を5ペア作成してください。"
  const SeoLead: string := "以下のテキストのSEOを意識し、検索エンジンで上位表示されやすいような、具体的なキーワードを含んだ質問と回答のペアを5つ生成してください。"

  /** `gemini_faq_get_prompts`: the template table. */
  function Prompts(): (table: map<string, string>)
    ensures table.Keys == {"default", "professional", "beginner", "seo"}
  {
    map[
      "default" := DefaultLead + CommonInstruction,
      "professional" := ProfessionalLead + CommonInstruction,
      "beginner" := BeginnerLead + CommonInstruction,
      "seo" := SeoLead + CommonInstruction
    ]
  }

  predicate EndsWith(s: string, suffix: string) {
    |suffix| <= |s| && s[|s| - |suffix|..] == suffix
  }

  lemma EndsWithAppend(lead: string, suffix: string)
    ensures EndsWith(lead + suffix, suffix)
  {
    assert (lead + suffix)[|lead|..] == suffix;
  }

  /** Every template asks for the "Q: " / "A: " format the parser reads. */
  lemma TemplatesEndWithFormat()
    ensures forall key :: key in Prompts() ==> EndsWith(Prompts()[key], CommonInstruction)
  {
    EndsWithAppend(DefaultLead, CommonInstruction);
    EndsWithAppend(ProfessionalLead, CommonInstruction);
    EndsWithAppend(BeginnerLead, CommonInstruction);
    EndsWithAppend(SeoLead, CommonInstruction);
  }

  /**
   * The key in force. `postSetting` is the post's "_gemini_faq_prompt_select"
   * meta ("" when absent); `siteOption` the "gemini_faq_prompt_select"
   * option, None when it was never saved.
   */
  function ResolvePromptKey(postSetting: string, siteOption: Option<string>): (key: string)
    ensures !PhpEmpty(postSetting) && postSetting != "site_default" ==> key == postSetting
    ensures PhpEmpty(postSetting) || postSetting == "site_default" ==>
      key == (if siteOption.Some? then siteOption.value else "default")
  {
    if PhpEmpty(postSetting) || postSetting == "site_default" then siteOption.GetOr("default")
    else postSetting
  }

  /** The template for a key, the "default" one for an unknown key. */
  function PromptText(key: string): (text: string)
    ensures key in Prompts() ==> text == Prompts()[key]
    ensures key !in Prompts() ==> text == Prompts()["default"]
    ensures EndsWith(text, CommonInstruction)
  {
    TemplatesEndWithFormat();
    if key in Prompts() then Prompts()[key] else Prompts()["default"]
  }

  /** The text of the request sent to the model: the template, then the page text between rules. */
  function RequestText(prompt: string, pageText: string): string {
    prompt + "\n\n---\n" + pageText + "\n---"
  }

  /** The request carries the page text, intact, right after the template and its separator. */
  lemma RequestTextCarriesPage(prompt: string, pageText: string)
    ensures var r := RequestText(prompt, pageText);
      && |r| == |prompt| + |pageText| + 10
      && r[..|prompt|] == prompt
      && r[|prompt| + 6..|prompt| + 6 + |pageText|] == pageText
  {
    var sep, end := "\n\n---\n", "\n---";
    SliceOfThree(prompt + sep, pageText, end);
    SliceOfThree(prompt, sep, pageText + end);
    ConcatAssoc(prompt + sep, pageText, end);
  }

  lemma SliceOfThree<T>(a: seq<T>, b: seq<T>, c: seq<T>)
    ensures (a + b + c)[..|a|] == a && (a + b + c)[|a|..|a| + |b|] == b
  {
  }

  /** A post whose own setting is a known key always gets that key's template, whatever the site option says. */
  lemma PostSettingWins(postSetting: string, siteOption: Option<string>)
    requires postSetting in Prompts() && postSetting != "site_default"
    ensures PromptText(ResolvePromptKey(postSetting, siteOption)) == Prompts()[postSetting]
  {
    assert !PhpEmpty(postSetting);
  }
}
