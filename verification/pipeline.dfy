/**
 * The "Translate All Languages" action (app.py lines 172-206): the three
 * guards, then reading the uploads into the input dict and running the
 * batch over it.
 */
module Pipeline {
  import opened Wrappers
  import opened OrderedMaps
  import opened Sequences
  import opened Languages
  import opened Matcher
  import opened Strings
  import opened Extraction
  import opened Inputs
  import opened Orchestrator
  import opened Archive

  /** Why the action stopped before doing anything. */
  datatype RunError =
    | MissingHtml    // "Please paste the English HTML first!"
    | MissingFiles   // "Please upload translation files!"
    | MissingClient  // no API key, so `init_anthropic` returned nothing

  /**
   * One press of the button. `client` is what `init_anthropic` returned:
   * `None` when no API key is configured.
   */
  function Run(html: string, files: seq<Upload>, client: Option<Service>, ex: Extractors): (r: Result<Outcome, RunError>)
    ensures r.Ok? ==> client.Some? && r.value == Translations(html, AssembleInputs(files, ex), client.value)
  {
    if html == "" then Err(MissingHtml)
    else if |files| == 0 then Err(MissingFiles)
    else if client.None? then Err(MissingClient)
    else Ok(Translations(html, AssembleInputs(files, ex), client.value))
  }

  /**
   * The guards, in the order the source checks them: no HTML is reported
   * first, then no files, then no client; with all three present the batch
   * always runs.
   */
  lemma RunGuards(html: string, files: seq<Upload>, client: Option<Service>, ex: Extractors)
    ensures Run(html, files, client, ex).Err? <==> html == "" || |files| == 0 || client.None?
    ensures html == "" ==> Run(html, files, client, ex) == Err(MissingHtml)
    ensures html != "" && |files| == 0 ==> Run(html, files, client, ex) == Err(MissingFiles)
    ensures html != "" && |files| > 0 && client.None? ==> Run(html, files, client, ex) == Err(MissingClient)
  {
  }

  /**
   * A completed run only touches languages some uploaded file name was
   * matched to: the service is called for such a code at most once, and
   * every result comes from one of those calls.
   */
  lemma RunTouchesOnlyMatchedLanguages(html: string, files: seq<Upload>, client: Option<Service>, ex: Extractors, out: Outcome, c: string)
    requires Run(html, files, client, ex) == Ok(out)
    ensures c in out.calls ==> exists k :: 0 <= k < |files| && MatchLanguage(files[k].name) == Some(c)
    ensures Lookup(out.results, c).Some? ==> c in out.calls
    ensures NoDuplicates(out.calls)
  {
    var inputs := AssembleInputs(files, ex);
    var prompt := SharedPrompt(html, inputs);
    RegistryRunShape(prompt, inputs, client.value);
    RegistryCallsNeedInput(prompt, inputs, client.value, c);
    if c in out.calls {
      InputsComeFromMatchedUploads(files, ex, c);
    }
  }

  /**
   * Because `spa` shadows `spa-M9`, a run never calls the service for
   * `spa-M9` nor returns a result for it, so it makes at most eleven calls
   * and returns at most eleven results however many files are uploaded;
   * its notice for Spanish Mexico is always "no translation file", never
   * a success or a failure.
   */
  lemma RunNeverTranslatesSpaM9(html: string, files: seq<Upload>, client: Option<Service>, ex: Extractors, out: Outcome)
    requires Run(html, files, client, ex) == Ok(out)
    ensures "spa-M9" !in out.calls
    ensures Lookup(out.results, "spa-M9").None?
    ensures |out.calls| <= 11
    ensures |out.results| <= 11
    ensures |out.notices| == 12 && out.notices[1] == NoTranslationFile("Spanish Mexico")
  {
    forall k | 0 <= k < |files|
      ensures MatchLanguage(files[k].name) != Some("spa-M9")
    {
      SpaM9NeverMatched(files[k].name);
    }
    RunTouchesOnlyMatchedLanguages(html, files, client, ex, out, "spa-M9");
    var inputs := AssembleInputs(files, ex);
    RegistryRunShape(SharedPrompt(html, inputs), inputs, client.value);
    assert "spa-M9" in Codes;
    SubseqLength(Keys(out.results), Codes, "spa-M9");
    SubseqLength(out.calls, Codes, "spa-M9");
    SpaM9Notice(html, inputs, client.value);
  }

  /** Without input for `spa-M9`, the notice for Spanish Mexico is "no translation file". */
  lemma SpaM9Notice(html: string, inputs: OrderedMap<string, string>, service: Service)
    requires !HasInput(inputs, "spa-M9")
    ensures |Translations(html, inputs, service).notices| == 12
    ensures Translations(html, inputs, service).notices[1] == NoTranslationFile("Spanish Mexico")
  {
    OneNoticePerLanguage(SharedPrompt(html, inputs), inputs, Registry, service);
    assert Registry[1] == ("spa-M9", "Spanish Mexico");
  }

  /**
   * A completed run can always be packaged: every result code is a registry
   * code, so each has a download label, and the archive has one distinctly
   * named entry per result.
   */
  lemma RunResultsPackage(html: string, files: seq<Upload>, client: Option<Service>, ex: Extractors, out: Outcome)
    requires Run(html, files, client, ex) == Ok(out)
    ensures forall i :: 0 <= i < |out.results| ==> out.results[i].0 in Codes
    ensures |ZipEntries(out.results)| == |out.results|
    ensures forall i, j :: 0 <= i < j < |out.results| ==> ZipEntries(out.results)[i].name != ZipEntries(out.results)[j].name
  {
    var inputs := AssembleInputs(files, ex);
    RegistryRunShape(SharedPrompt(html, inputs), inputs, client.value);
    SubseqMembers(Keys(out.results), Codes);
    assert forall i :: 0 <= i < |out.results| ==> Keys(out.results)[i] == out.results[i].0;
    ZipEntryNamesDistinct(out.results);
  }

  /** `translation_spa.txt` is assigned to `spa` and decoded as UTF-8 text. */
  lemma SpanishFileName()
    ensures MatchLanguage("translation_spa.txt") == Some("spa")
    ensures FormatOf("translation_spa.txt") == PlainText
  {
    var name := "translation_spa.txt";
    assert name[12..15] == "spa";
    assert OccursAt(Codes[0], name, 12);
    assert IsFirstMatch(name, Codes, 0);
    MatchIsFirst(name, 0);
    assert name[|name| - 5] == 'a' != '.';
  }

  /** A single `translation_spa.txt` with some text gives the input dict `{"spa": text}`. */
  lemma SpanishUploadInputs(data: seq<bv8>, ex: Extractors, text: string)
    requires ex.decodeUtf8(data) == Some(text) && text != ""
    ensures AssembleInputs([Upload("translation_spa.txt", data)], ex) == [("spa", text)]
  {
    var f := Upload("translation_spa.txt", data);
    SpanishFileName();
    var w := Some(("spa", text));
    assert Contribution(f, ex) == w;
    var ws := Contributions([f], ex);
    assert ws == [w];
    assert ws[..0] == [];
    assert Perform(ws) == Step(Perform([]), w);
  }

  /** A `translation_spa.txt` upload reading "Hola" runs the registry loop over that one input. */
  lemma SpanishRun(html: string, data: seq<bv8>, ex: Extractors, service: Service)
    requires html != ""
    requires ex.decodeUtf8(data) == Some("Hola")
    ensures Run(html, [Upload("translation_spa.txt", data)], Some(service), ex)
      == Ok(Process(SharedPrompt(html, [("spa", "Hola")]), [("spa", "Hola")], Registry, service))
  {
    SpanishUploadInputs(data, ex, "Hola");
  }

  /**
   * A single `translation_spa.txt` reading "Hola" gives exactly one call,
   * for Spanish, whatever the service answers.
   */
  lemma SpanishUploadOneCall(html: string, data: seq<bv8>, ex: Extractors, service: Service)
    requires html != ""
    requires ex.decodeUtf8(data) == Some("Hola")
    ensures Run(html, [Upload("translation_spa.txt", data)], Some(service), ex).Ok?
    ensures Run(html, [Upload("translation_spa.txt", data)], Some(service), ex).value.calls == ["spa"]
  {
    SpanishRun(html, data, ex, service);
    RegistryOneInputCalls(SharedPrompt(html, [("spa", "Hola")]), "spa", "Hola", service);
  }

  /**
   * When that one call succeeds, the run has exactly one result and one
   * archive entry, `marvel_snap_blog_spa.html`, holding the service's
   * answer.
   */
  lemma SingleSpanishUpload(html: string, data: seq<bv8>, ex: Extractors, service: Service, answer: string)
    requires html != ""
    requires ex.decodeUtf8(data) == Some("Hola")
    requires service(RequestFor(SharedPrompt(html, [("spa", "Hola")]), "spa", "Spanish")) == Some(answer)
    ensures Run(html, [Upload("translation_spa.txt", data)], Some(service), ex).Ok?
    ensures Run(html, [Upload("translation_spa.txt", data)], Some(service), ex).value.calls == ["spa"]
    ensures Run(html, [Upload("translation_spa.txt", data)], Some(service), ex).value.results == [("spa", answer)]
    ensures ZipEntries(Run(html, [Upload("translation_spa.txt", data)], Some(service), ex).value.results)
      == [Entry("marvel_snap_blog_spa.html", answer)]
  {
    SpanishRun(html, data, ex, service);
    SpanishLabel();
    RegistryRunOneInput(SharedPrompt(html, [("spa", "Hola")]), "spa", "Hola", service, answer);
    SpanishEntryName();
  }
}
