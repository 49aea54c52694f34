/**
 * `translate_blog` (app.py lines 57-103): one shared prompt built from every
 * non-empty translation, then one language-model request per registry
 * language that has input, in registry order, keeping the successes.
 */
module Orchestrator {
  import opened Wrappers
  import opened OrderedMaps
  import opened Sequences
  import opened Languages
  import opened Strings

  const ModelName: string := "claude-3-5-sonnet-20241022"
  const MaxTokens: nat := 8000

  /**
   * One `messages.create` call: model, output limit and the single user
   * message, kept as what it is made of: the shared prompt and the code and
   * name of the target language.
   */
  datatype Request = Request(model: string, maxTokens: nat, prompt: SharedPrompt, code: string, name: string)
  {
    /** The text of the user message: the shared prompt, then the instruction naming the target. */
    function Content(): (s: string)
    {
      prompt.Text() + Instruction(code, name)
    }
  }

  /**
   * The language-model client: the text of the response's first content
   * block, or `None` when the call raised.
   */
  type Service = Request -> Option<string>

  /** The per-language status lines shown while the batch runs. */
  datatype Notice =
    | NoTranslationFile(language: string)
    | Completed(language: string)
    | Failed(language: string)

  /**
   * What a batch produces: the `results` dict, the codes the service was
   * called for, in call order, and the status notices, in display order.
   */
  datatype Outcome = Outcome(results: OrderedMap<string, string>, calls: seq<string>, notices: seq<Notice>)

  /** The fixed text of the prompt before the English HTML. */
  const Opening: string :=
    "You're an expert WordPress user and blog translator for MARVEL SNAP. \n"
    + "I have the English HTML blog and translations for 12 languages.\n"
    + "\n"
    + "IMPORTANT RULES:\n"
    + "1. Keep the EXACT HTML formatting from the English version\n"
    + "2. Only replace the English text with the provided translations\n"
    + "3. Do NOT add or remove any HTML tags, classes, or attributes\n"
    + "4. Use only the officially provided translations\n"
    + "\n"
    + "English HTML:\n"

  /** The fixed text of the prompt after the English HTML. */
  const Closing: string := "\n\nTranslations provided:\n"

  /** The fixed opening of the prompt, with the English HTML spliced in. */
  function Header(html: string): (h: string)
  {
    Opening + html + Closing
  }

  /** The header carries the English HTML verbatim. */
  lemma HeaderHasHtml(html: string)
    ensures Contains(Header(html), html)
  {
    var h := Header(html);
    assert h[|Opening|..|Opening| + |html|] == html;
    assert OccursAt(html, h, |Opening|);
  }

  /** The prompt section for one translation. */
  function Block(code: string, content: string): (b: string)
  {
    "\n\n" + Label(code) + ":\n" + content
  }

  /** The sections for every non-empty translation of `t`, in dict order. */
  function Blocks(t: OrderedMap<string, string>): (s: string)
  {
    if |t| == 0 then ""
    else
      var last := t[|t| - 1];
      Blocks(t[..|t| - 1]) + (if last.1 != "" then Block(last.0, last.1) else "")
  }

  /**
   * The shared prompt, kept as what it is built from: the English HTML and
   * the translations dict. Its text is the fixed opening followed by the
   * sections.
   */
  datatype SharedPrompt = SharedPrompt(html: string, translations: OrderedMap<string, string>)
  {
    /** The text of the prompt. */
    function Text(): (s: string)
    {
      Header(html) + Blocks(translations)
    }
  }

  /** Every non-empty translation has its section in the blocks. */
  lemma {:induction false} BlocksHaveEveryTranslation(t: OrderedMap<string, string>, i: int)
    requires 0 <= i < |t| && t[i].1 != ""
    ensures Contains(Blocks(t), Block(t[i].0, t[i].1))
  {
    var pre, last := t[..|t| - 1], t[|t| - 1];
    var b := Block(t[i].0, t[i].1);
    if i == |t| - 1 {
      assert Blocks(t) == Blocks(pre) + b;
      SuffixContained(Blocks(pre), b);
    } else {
      assert pre[i] == t[i];
      BlocksHaveEveryTranslation(pre, i);
      ContainsInConcat(if last.1 != "" then Block(last.0, last.1) else "", Blocks(pre), b);
    }
  }

  /** The blocks are empty exactly when no translation has any text. */
  lemma {:induction false} BlocksEmptyIff(t: OrderedMap<string, string>)
    ensures Blocks(t) == "" <==> forall i :: 0 <= i < |t| ==> t[i].1 == ""
  {
    if |t| > 0 {
      var pre, last := t[..|t| - 1], t[|t| - 1];
      BlocksEmptyIff(pre);
      assert forall i :: 0 <= i < |pre| ==> pre[i] == t[i];
      if last.1 != "" {
        assert |Block(last.0, last.1)| > 0;
      }
    }
  }

  /**
   * The shared prompt, after whatever opening `h` it starts with: it starts
   * with `h`, carries a section for every non-empty translation, and adds
   * nothing to `h` when every translation is empty. `SharedPrompt.Text` is
   * this with `Header(html)` as the opening.
   */
  lemma PromptAfterHeader(h: string, t: OrderedMap<string, string>)
    ensures |h| <= |h + Blocks(t)| && (h + Blocks(t))[..|h|] == h
    ensures forall i :: 0 <= i < |t| && t[i].1 != "" ==> Contains(h + Blocks(t), Block(t[i].0, t[i].1))
    ensures (forall i :: 0 <= i < |t| ==> t[i].1 == "") <==> h + Blocks(t) == h
  {
    var bs := Blocks(t);
    assert (h + bs)[..|h|] == h;
    forall i | 0 <= i < |t| && t[i].1 != ""
      ensures Contains(h + bs, Block(t[i].0, t[i].1))
    {
      BlocksHaveEveryTranslation(t, i);
      ContainsInConcat(h, bs, Block(t[i].0, t[i].1));
    }
    BlocksEmptyIff(t);
    assert h + bs == h <==> |bs| == 0;
  }

  /** The per-language request. */
  function RequestFor(prompt: SharedPrompt, code: string, name: string): (r: Request)
  {
    Request(ModelName, MaxTokens, prompt, code, name)
  }

  /**
   * Every per-language request asks model `claude-3-5-sonnet-20241022` for
   * at most 8000 tokens, and its message carries the English HTML, the
   * section of every non-empty translation, and the target language's name
   * and code.
   */
  lemma RequestForCarries(prompt: SharedPrompt, code: string, name: string)
    ensures RequestFor(prompt, code, name).model == "claude-3-5-sonnet-20241022"
    ensures RequestFor(prompt, code, name).maxTokens == 8000
    ensures Contains(RequestFor(prompt, code, name).Content(), prompt.html)
    ensures forall i :: 0 <= i < |prompt.translations| && prompt.translations[i].1 != "" ==>
      Contains(RequestFor(prompt, code, name).Content(), Block(prompt.translations[i].0, prompt.translations[i].1))
    ensures Contains(RequestFor(prompt, code, name).Content(), name)
    ensures Contains(RequestFor(prompt, code, name).Content(), code)
  {
    RequestContent(RequestFor(prompt, code, name));
  }

  /** The closing instruction of a per-language request. */
  function Instruction(code: string, name: string): (s: string)
  {
    "\n\nNow create the " + name + " (" + code + ") version. Return ONLY the HTML code, no explanations."
  }

  /** The instruction names the target language and its code. */
  lemma InstructionNamesTarget(code: string, name: string)
    ensures Contains(Instruction(code, name), name) && Contains(Instruction(code, name), code)
  {
    var a := "\n\nNow create the ";
    var b := a + name + " (";
    var s := Instruction(code, name);
    assert s == b + code + ") version. Return ONLY the HTML code, no explanations.";
    assert s[|a|..|a| + |name|] == name;
    assert OccursAt(name, s, |a|);
    assert s[|b|..|b| + |code|] == code;
    assert OccursAt(code, s, |b|);
  }

  /**
   * A request's message (`Request.Content`, with the prompt's text as `p`)
   * is the whole shared prompt followed by an instruction that names the
   * target language and its code.
   */
  lemma MessageParts(p: string, code: string, name: string)
    ensures |p| <= |p + Instruction(code, name)| && (p + Instruction(code, name))[..|p|] == p
    ensures Contains(p + Instruction(code, name), name) && Contains(p + Instruction(code, name), code)
  {
    var i := Instruction(code, name);
    PrefixOfConcat(p, i);
    InstructionNamesTarget(code, name);
    ContainsInConcat(p, i, name);
    ContainsInConcat(p, i, code);
  }

  /**
   * The shared prompt's text carries the English HTML and the section of
   * every non-empty translation.
   */
  lemma PromptContent(prompt: SharedPrompt)
    ensures Contains(prompt.Text(), prompt.html)
    ensures forall i :: 0 <= i < |prompt.translations| && prompt.translations[i].1 != "" ==>
      Contains(prompt.Text(), Block(prompt.translations[i].0, prompt.translations[i].1))
  {
    HeaderHasHtml(prompt.html);
    ContainsInConcat(Blocks(prompt.translations), Header(prompt.html), prompt.html);
    PromptAfterHeader(Header(prompt.html), prompt.translations);
  }

  /**
   * Every request's message carries the English HTML and the section of
   * every non-empty translation, and names the target language and its
   * code.
   */
  lemma RequestContent(r: Request)
    ensures Contains(r.Content(), r.prompt.html)
    ensures forall i :: 0 <= i < |r.prompt.translations| && r.prompt.translations[i].1 != "" ==>
      Contains(r.Content(), Block(r.prompt.translations[i].0, r.prompt.translations[i].1))
    ensures Contains(r.Content(), r.name) && Contains(r.Content(), r.code)
  {
    PromptContent(r.prompt);
    MessageParts(r.prompt.Text(), r.code, r.name);
    PromptSurvivesSuffix(r.prompt.Text(), Instruction(r.code, r.name), r.prompt.html, r.prompt.translations);
  }

  /** What `p` carries, `p + q` still carries. */
  lemma PromptSurvivesSuffix(p: string, q: string, html: string, t: OrderedMap<string, string>)
    requires Contains(p, html)
    requires forall k :: 0 <= k < |t| && t[k].1 != "" ==> Contains(p, Block(t[k].0, t[k].1))
    ensures Contains(p + q, html)
    ensures forall k :: 0 <= k < |t| && t[k].1 != "" ==> Contains(p + q, Block(t[k].0, t[k].1))
  {
    ContainsInConcat(q, p, html);
    forall k | 0 <= k < |t| && t[k].1 != ""
      ensures Contains(p + q, Block(t[k].0, t[k].1))
    {
      ContainsInConcat(q, p, Block(t[k].0, t[k].1));
    }
  }

  /** `code in translations and translations[code]`: present with non-empty text. */
  predicate HasInput(t: OrderedMap<string, string>, code: string)
  {
    match Lookup(t, code)
    case Some(content) => content != ""
    case None => false
  }

  /** One iteration of the per-language loop (app.py lines 84-101). */
  function Attempt(acc: Outcome, prompt: SharedPrompt, t: OrderedMap<string, string>, lang: (string, string), service: Service): (out: Outcome)
  {
    var (code, name) := lang;
    if !HasInput(t, code) then
      acc.(notices := acc.notices + [NoTranslationFile(name)])
    else
      match service(RequestFor(prompt, code, name))
      case Some(html) =>
        Outcome(Put(acc.results, code, html), acc.calls + [code], acc.notices + [Completed(name)])
      case None =>
        acc.(calls := acc.calls + [code], notices := acc.notices + [Failed(name)])
  }

  /** The per-language loop over `langs`, in order, starting from `{}`. */
  function Process(prompt: SharedPrompt, t: OrderedMap<string, string>, langs: OrderedMap<string, string>, service: Service): (out: Outcome)
  {
    if |langs| == 0 then Outcome([], [], [])
    else Attempt(Process(prompt, t, langs[..|langs| - 1], service), prompt, t, langs[|langs| - 1], service)
  }

  /** What one attempt adds to the call log. */
  lemma AttemptCalls(acc: Outcome, prompt: SharedPrompt, t: OrderedMap<string, string>, lang: (string, string), service: Service)
    ensures Attempt(acc, prompt, t, lang, service).calls == acc.calls + (if HasInput(t, lang.0) then [lang.0] else [])
  {
  }

  /** What one attempt does to the results: a `Put` on success, nothing otherwise. */
  lemma AttemptResults(acc: Outcome, prompt: SharedPrompt, t: OrderedMap<string, string>, lang: (string, string), service: Service)
    ensures Attempt(acc, prompt, t, lang, service).results ==
      var r := service(RequestFor(prompt, lang.0, lang.1));
      if HasInput(t, lang.0) && r.Some? then Put(acc.results, lang.0, r.value) else acc.results
  {
  }

  /** What one attempt adds to the notices: exactly one, naming the language. */
  lemma AttemptNotices(acc: Outcome, prompt: SharedPrompt, t: OrderedMap<string, string>, lang: (string, string), service: Service)
    ensures Attempt(acc, prompt, t, lang, service).notices == acc.notices + [NoticeFor(prompt, t, lang, service)]
  {
  }

  /** The notice the source shows for one language. */
  function NoticeFor(prompt: SharedPrompt, t: OrderedMap<string, string>, lang: (string, string), service: Service): (n: Notice)
    ensures n.language == lang.1
    ensures n.NoTranslationFile? <==> !HasInput(t, lang.0)
    ensures n.Completed? <==> HasInput(t, lang.0) && service(RequestFor(prompt, lang.0, lang.1)).Some?
  {
    if !HasInput(t, lang.0) then NoTranslationFile(lang.1)
    else if service(RequestFor(prompt, lang.0, lang.1)).Some? then Completed(lang.1)
    else Failed(lang.1)
  }

  /**
   * The service is called exactly for the languages that have input, once
   * each, in registry order; a language without input is never sent.
   */
  lemma {:induction false} CallsExactlyForInputs(prompt: SharedPrompt, t: OrderedMap<string, string>, langs: OrderedMap<string, string>, service: Service)
    requires DistinctKeys(langs)
    ensures forall c :: c in Process(prompt, t, langs, service).calls <==> c in Keys(langs) && HasInput(t, c)
    ensures IsSubseq(Process(prompt, t, langs, service).calls, Keys(langs))
    ensures NoDuplicates(Process(prompt, t, langs, service).calls)
  {
    if |langs| > 0 {
      var pre, lang := langs[..|langs| - 1], langs[|langs| - 1];
      assert langs == pre + [lang];
      DistinctKeysLast(pre, lang);
      KeysAppend(pre, lang);
      CallsExactlyForInputs(prompt, t, pre, service);
      var prev := Process(prompt, t, pre, service);
      AttemptCalls(prev, prompt, t, lang, service);
      if HasInput(t, lang.0) {
        SubseqTake(prev.calls, Keys(pre), lang.0);
        NoDuplicatesAppend(prev.calls, lang.0);
      } else {
        SubseqSkip(prev.calls, Keys(pre), lang.0);
      }
    }
  }

  /**
   * What the results hold for each code: the service's answer for a listed
   * language with input, and nothing otherwise. A failed call leaves its code
   * absent and does not affect any other code.
   */
  lemma {:induction false} ResultsPerCode(prompt: SharedPrompt, t: OrderedMap<string, string>, langs: OrderedMap<string, string>, service: Service, c: string)
    requires DistinctKeys(langs)
    ensures Lookup(Process(prompt, t, langs, service).results, c) ==
      match Lookup(langs, c)
      case Some(name) => if HasInput(t, c) then service(RequestFor(prompt, c, name)) else None
      case None => None
  {
    if |langs| > 0 {
      var pre, lang := langs[..|langs| - 1], langs[|langs| - 1];
      assert langs == pre + [lang];
      DistinctKeysLast(pre, lang);
      LookupAppend(pre, lang, c);
      ResultsPerCode(prompt, t, pre, service, c);
      var prev := Process(prompt, t, pre, service);
      AttemptResults(prev, prompt, t, lang, service);
      var r := service(RequestFor(prompt, lang.0, lang.1));
      if HasInput(t, lang.0) && r.Some? {
        PutLookup(prev.results, lang.0, r.value, c);
      }
    }
  }

  /** The results are a dict whose key order is a subsequence of `langs`' order. */
  lemma {:induction false} ResultsInRegistryOrder(prompt: SharedPrompt, t: OrderedMap<string, string>, langs: OrderedMap<string, string>, service: Service)
    requires DistinctKeys(langs)
    ensures DistinctKeys(Process(prompt, t, langs, service).results)
    ensures IsSubseq(Keys(Process(prompt, t, langs, service).results), Keys(langs))
  {
    if |langs| > 0 {
      var pre, lang := langs[..|langs| - 1], langs[|langs| - 1];
      assert langs == pre + [lang];
      DistinctKeysLast(pre, lang);
      KeysAppend(pre, lang);
      ResultsInRegistryOrder(prompt, t, pre, service);
      ResultsPerCode(prompt, t, pre, service, lang.0);
      var prev := Process(prompt, t, pre, service);
      AttemptResults(prev, prompt, t, lang, service);
      var r := service(RequestFor(prompt, lang.0, lang.1));
      if HasInput(t, lang.0) && r.Some? {
        assert lang.0 !in Keys(prev.results);
        PutKeepsKeysDistinct(prev.results, lang.0, r.value);
        SubseqTake(Keys(prev.results), Keys(pre), lang.0);
      } else {
        SubseqSkip(Keys(prev.results), Keys(pre), lang.0);
      }
    }
  }

  /**
   * Every language gets exactly one notice, in order, naming it: skipped
   * without input, completed on success, failed otherwise.
   */
  lemma {:induction false} OneNoticePerLanguage(prompt: SharedPrompt, t: OrderedMap<string, string>, langs: OrderedMap<string, string>, service: Service)
    ensures |Process(prompt, t, langs, service).notices| == |langs|
    ensures forall i :: 0 <= i < |langs| ==> Process(prompt, t, langs, service).notices[i] == NoticeFor(prompt, t, langs[i], service)
  {
    if |langs| > 0 {
      var pre := langs[..|langs| - 1];
      OneNoticePerLanguage(prompt, t, pre, service);
      AttemptNotices(Process(prompt, t, pre, service), prompt, t, langs[|langs| - 1], service);
      assert forall i :: 0 <= i < |pre| ==> pre[i] == langs[i];
    }
  }

  /** `translate_blog`, as a value: the registry loop over the shared prompt. */
  function Translations(html: string, t: OrderedMap<string, string>, service: Service): (out: Outcome)
  {
    Process(SharedPrompt(html, t), t, Registry, service)
  }

  /**
   * The result for one code of the loop over the registry: the answer to the
   * shared prompt plus the instruction naming that language, for a registry
   * code with non-empty input whose call succeeded, and nothing for any
   * other code.
   */
  lemma RegistryResultFor(prompt: SharedPrompt, t: OrderedMap<string, string>, service: Service, c: string)
    ensures Lookup(Process(prompt, t, Registry, service).results, c) == (if c in Codes && HasInput(t, c) then service(RequestFor(prompt, c, Label(c))) else None)
  {
    RegistryKeys();
    RegistryLookup(c);
    ResultsPerCode(prompt, t, Registry, service, c);
  }

  /**
   * The loop over the registry: calls exactly for the registry codes with
   * non-empty input, once each and in registry order; results keyed by a
   * subsequence of the registry; one notice per language.
   */
  lemma RegistryRunShape(prompt: SharedPrompt, t: OrderedMap<string, string>, service: Service)
    ensures forall c :: c in Process(prompt, t, Registry, service).calls <==> c in Codes && HasInput(t, c)
    ensures IsSubseq(Process(prompt, t, Registry, service).calls, Codes) && NoDuplicates(Process(prompt, t, Registry, service).calls)
    ensures DistinctKeys(Process(prompt, t, Registry, service).results) && IsSubseq(Keys(Process(prompt, t, Registry, service).results), Codes)
    ensures |Process(prompt, t, Registry, service).notices| == |Codes|
  {
    RegistryKeys();
    CallsExactlyForInputs(prompt, t, Registry, service);
    ResultsInRegistryOrder(prompt, t, Registry, service);
    OneNoticePerLanguage(prompt, t, Registry, service);
  }

  /**
   * Over the registry, a call is made only for a code with input, and a
   * result exists only for a code that was called.
   */
  lemma RegistryCallsNeedInput(prompt: SharedPrompt, t: OrderedMap<string, string>, service: Service, c: string)
    ensures c in Process(prompt, t, Registry, service).calls ==> Lookup(t, c).Some?
    ensures Lookup(Process(prompt, t, Registry, service).results, c).Some? ==> c in Process(prompt, t, Registry, service).calls
  {
    RegistryRunShape(prompt, t, service);
    RegistryResultFor(prompt, t, service, c);
  }

  /**
   * With a single registry language in the input, the loop calls the
   * service once, for that language, whatever the service answers.
   */
  lemma RegistryOneInputCalls(prompt: SharedPrompt, code: string, text: string, service: Service)
    requires code in Codes && text != ""
    ensures Process(prompt, [(code, text)], Registry, service).calls == [code]
  {
    var t: OrderedMap<string, string> := [(code, text)];
    var out := Process(prompt, t, Registry, service);
    RegistryRunShape(prompt, t, service);
    forall c
      ensures c in out.calls <==> c == code
    {
      assert HasInput(t, c) <==> c == code;
    }
    SingletonByMembers(out.calls, code);
  }

  /**
   * With a single registry language in the input whose call succeeds, the
   * loop calls the service once, for that language, and keeps its answer as
   * the only result.
   */
  lemma RegistryRunOneInput(prompt: SharedPrompt, code: string, text: string, service: Service, answer: string)
    requires code in Codes && text != ""
    requires service(RequestFor(prompt, code, Label(code))) == Some(answer)
    ensures Process(prompt, [(code, text)], Registry, service).calls == [code]
    ensures Process(prompt, [(code, text)], Registry, service).results == [(code, answer)]
  {
    var t: OrderedMap<string, string> := [(code, text)];
    var out := Process(prompt, t, Registry, service);
    RegistryOneInputCalls(prompt, code, text, service);
    RegistryKeys();
    ResultsInRegistryOrder(prompt, t, Registry, service);
    forall c
      ensures Lookup(out.results, c) == if c == code then Some(answer) else None
    {
      RegistryResultFor(prompt, t, service, c);
      assert HasInput(t, c) <==> c == code;
    }
    SingletonByLookup(out.results, code, answer);
  }

  /** The per-language loop of the source, over any list of languages. */
  method ProcessLanguages(prompt: SharedPrompt, t: OrderedMap<string, string>, langs: OrderedMap<string, string>, service: Service) returns (out: Outcome)
    ensures out == Process(prompt, t, langs, service)
  {
    out := Outcome([], [], []);
    var k := 0;
    while k < |langs|
      invariant 0 <= k <= |langs|
      invariant out == Process(prompt, t, langs[..k], service)
    {
      assert langs[..k + 1][..k] == langs[..k];
      out := Attempt(out, prompt, t, langs[k], service);
      k := k + 1;
    }
    assert langs[..k] == langs;
  }

  /** The prompt-building loop of the source: one section per non-empty translation. */
  method BuildBlocks(translations: OrderedMap<string, string>) returns (blocks: string)
    ensures blocks == Blocks(translations)
  {
    blocks := "";
    var i := 0;
    while i < |translations|
      invariant 0 <= i <= |translations|
      invariant blocks == Blocks(translations[..i])
    {
      var (code, content) := translations[i];
      if content != "" {
        blocks := blocks + Block(code, content);
      }
      assert translations[..i + 1][..i] == translations[..i];
      i := i + 1;
    }
    assert translations[..i] == translations;
  }

  /**
   * The prompt-building part of `translate_blog`: the shared prompt starts
   * with the fixed opening, carries the English HTML and the section of
   * every non-empty translation, and is just the opening when every
   * translation is empty.
   */
  method BuildPrompt(html: string, translations: OrderedMap<string, string>) returns (prompt: string)
    ensures prompt == SharedPrompt(html, translations).Text()
    ensures |Header(html)| <= |prompt| && prompt[..|Header(html)|] == Header(html)
    ensures Contains(prompt, html)
    ensures forall i :: 0 <= i < |translations| && translations[i].1 != "" ==>
      Contains(prompt, Block(translations[i].0, translations[i].1))
    ensures prompt == Header(html) <==> forall i :: 0 <= i < |translations| ==> translations[i].1 == ""
  {
    var blocks := BuildBlocks(translations);
    prompt := Header(html) + blocks;
    PromptAfterHeader(Header(html), translations);
    PromptContent(SharedPrompt(html, translations));
  }

  /**
   * `translate_blog`, with the per-language loop of the source: the service
   * is called exactly for the registry codes with non-empty input, once
   * each and in registry order; each such code's result is the answer to
   * its own request, when there is one; result keys follow registry order;
   * and every registry language gets its own notice, in registry order.
   */
  method TranslateBlog(html: string, translations: OrderedMap<string, string>, service: Service) returns (out: Outcome)
    ensures out == Translations(html, translations, service)
    ensures forall c :: c in out.calls <==> c in Codes && HasInput(translations, c)
    ensures IsSubseq(out.calls, Codes) && NoDuplicates(out.calls)
    ensures forall c ::
      Lookup(out.results, c) == (if c in Codes && HasInput(translations, c) then service(RequestFor(SharedPrompt(html, translations), c, Label(c))) else None)
    ensures DistinctKeys(out.results) && IsSubseq(Keys(out.results), Codes)
    ensures |out.notices| == |Codes|
    ensures forall i :: 0 <= i < |Registry| ==> out.notices[i] == NoticeFor(SharedPrompt(html, translations), translations, Registry[i], service)
  {
    var prompt := SharedPrompt(html, translations);
    out := ProcessLanguages(prompt, translations, Registry, service);
    RegistryRunShape(prompt, translations, service);
    OneNoticePerLanguage(prompt, translations, Registry, service);
    forall c
      ensures Lookup(out.results, c) ==
        if c in Codes && HasInput(translations, c) then service(RequestFor(prompt, c, Label(c))) else None
    {
      RegistryResultFor(prompt, translations, service, c);
    }
  }
}
