# Marvel Snap Blog Translator — a Dafny model

The Marvel Snap Blog Translator is a small Streamlit app (`app.py`). An
editor pastes the English HTML of a blog post and uploads one translation
file per language. The app then asks a language model to rebuild the HTML
once per language, using the supplied translation text. The results are
offered as individual downloads and as one ZIP archive.

This project models the logic behind that page:

- **Languages**: the `LANGUAGES` registry of twelve codes and names, and `LANGUAGES.get(code, code)`.
- **Matcher**: the file-name matcher, "the first registry code that occurs in the name". It also covers the "uploaded" list and the "missing" report built from it.
- **Extraction**: `read_file_content`, with the UTF-8 decoder and the `.docx` paragraph reader as abstract extractors.
- **Inputs**: the loop that assembles the `translations` dict from the uploads.
- **Orchestrator**: `translate_blog`. This covers:
  - the shared prompt;
  - the per-language request, its model name and its token limit;
  - the skip, success and failure paths;
  - the `results` dict;
  - the status notices, in order.
- **Archive**: `create_zip_file` entry naming and the individual download buttons, covering file name, caption, key and column.
- **Pipeline**: the button handler. It checks the guards in order (no HTML, no files, no client), then assembles the inputs and runs the translation.

Python dicts are modelled as `OrderedMaps.OrderedMap`, a sequence of pairs:
- assignment replaces a key's value in place, or appends the key when it is new;
- iteration follows insertion order.

The language-model client is a function from `Orchestrator.Request` to
`Option<string>`:
- `None` stands for a call that raised;
- a missing API key is a client of `None`.

A request is kept as what it is built from: the model name, the token limit, the shared prompt, and the target code and name. Its text is `Request.Content()`. The prompt is kept the same way: the English HTML and the translations dict, with its text given by `SharedPrompt.Text()`.

The registry lists `spa` before `spa-M9`, and `spa` is a substring of
`spa-M9`. Any name that contains `spa-M9` therefore matches `spa`, so:
- Spanish Mexico is never matched and never translated;
- it is always in the missing set, and the "Missing:" warning is shown whenever any file is uploaded;
- a run makes at most eleven service calls and produces at most eleven results.

No set of uploads, however named, makes the app call the service for Spanish Mexico or report a success or failure for it. Every run's notice for Spanish Mexico is "no translation file". `Matcher.SpaM9NeverMatched`, `Matcher.SpaM9AlwaysMissing` and `Pipeline.RunNeverTranslatesSpaM9` state this.

## Model

| member | source | states |
|---|---|---|
| `Languages.CodesDistinct` | app.py:16-29 | The twelve registry codes are pairwise distinct, so the dict literal keeps every one of them. |
| `Languages.RegistryKeys` | app.py:16-29 | The registry's keys, in iteration order, are exactly the twelve codes in literal order, without repeats. |
| `Languages.Label` | app.py:80 | `LANGUAGES.get(code, code)`: the registered name for a known code; the code itself for any other string. |
| `Languages.RegistryLookup` | app.py:16-29 | Looking a code up in the registry finds its label exactly when the code is one of the twelve, and finds nothing otherwise. |
| `Languages.SpanishLabel` | app.py:17 | The code `spa` is labelled "Spanish". |
| `Matcher.FirstMatch` | app.py:188-191 | For any ordered code list: no result exactly when no code occurs in the name. Otherwise the result is the earliest listed code that occurs in it. |
| `Matcher.MatchLanguage` | app.py:187-191 | A matched code is a registry code that occurs in the file name. There is no match exactly when no registry code occurs in it. |
| `Matcher.MatchIsFirst` | app.py:188-191 | The matcher picks code `i` if and only if code `i` occurs in the name and no earlier code does. |
| `Matcher.ShadowedCodeNeverMatched` | app.py:188-191 | A code that contains an earlier code as a substring is never the match, whatever the name. |
| `Matcher.SpaShadowsSpaM9` | app.py:17-18 | `spa` comes first in the registry and occurs inside `spa-M9`, which comes second. |
| `Matcher.SpaM9NeverMatched` | app.py:187-191 | No file name is ever matched to `spa-M9`. |
| `Matcher.SpaM9NameGoesToSpa` | app.py:187-191 | A name that contains `spa-M9` is matched to `spa`. |
| `Matcher.Assignments` | app.py:160-165 | One assignment per uploaded file, in upload order, each being what the matcher gives for that file's name. |
| `Matcher.PresentMembers` | app.py:160-165 | A code is in the uploaded list if and only if some file's name was matched to it. |
| `Matcher.MissingLangs` | app.py:167 | A code is missing if and only if it is a registry code that no file name was matched to. There are at most twelve. |
| `Matcher.MissingEmptyIff` | app.py:167 | The missing set computed from the uploads is empty if and only if every registry code was matched by some file. |
| `Matcher.WarningSilentIff` | app.py:156-169 | The "Missing:" warning is silent if and only if nothing is uploaded or every registry code was matched by some file. When shown, it lists exactly the unmatched registry codes. |
| `Matcher.SpaM9AlwaysMissing` | app.py:156-169 | `spa-M9` is always in the missing set. So the warning is shown if and only if some file is uploaded, and it then names `spa-M9`. |
| `Extraction.FormatOf` | app.py:44-52 | A file is read as a Word document if and only if its name ends in `.docx`. Every other name is read as UTF-8 text. |
| `Extraction.JoinLinesEmpty` | app.py:50 | `'\n'.join(paragraphs)` is empty if and only if there are no paragraphs, or a single empty one. |
| `Extraction.ReadFileContent` | app.py:40-55 | A `.docx` name gives the paragraph texts joined by newlines, or nothing when the document cannot be read. Any other name gives the UTF-8 decoding, or nothing when it fails. |
| `Inputs.Contribution` | app.py:186-196 | A file writes an entry if and only if its name is matched to a code and it reads as non-empty text. The entry is stored under that matched registry code and holds exactly the text read. |
| `Inputs.Contributions` | app.py:185-196 | The loop sees one possible write per uploaded file, in upload order. |
| `Inputs.StepLookup` | app.py:195-196 | One write sets the looked-up value of its own code and leaves every other code's value as it was. |
| `Inputs.PerformPairsWritten` | app.py:184-196 | The assembled dict has distinct keys, and each of its entries was written by some file. |
| `Inputs.LastWriteWins` | app.py:184-196 | A code maps to a text if and only if some file wrote that text under the code and no later file wrote the same code. |
| `Inputs.AbsentIffNeverWritten` | app.py:184-196 | A code is absent from the dict if and only if no file wrote it. |
| `Inputs.NoWriteIsNeutral` | app.py:193-196 | A file that writes nothing leaves the result of the whole loop unchanged, wherever it appears in the upload order. |
| `Inputs.KeyOrderIsFirstWrite` | app.py:184-196 | The dict's key order is the order in which codes were first written. A later overwrite does not move a key. |
| `Inputs.AssembleInputs` | app.py:184-196 | The translations dict has distinct keys, all registry codes, and each holds non-empty text. |
| `Inputs.InputIsLastReadableUpload` | app.py:184-196 | A code holds a text if and only if some upload is matched to the code and reads as that non-empty text, and no later upload is matched to the code and reads as non-empty text. |
| `Inputs.LaterDuplicateOverwrites` | app.py:196 | Take two uploads, at any positions, that are matched to the same code and read as non-empty text. If no still later upload writes that code, the later of the two texts is the one kept. |
| `Inputs.SilentFileIgnored` | app.py:193-196 | An unmatched or unreadable file, or one with empty text, can be removed from the uploads without changing the translations dict. |
| `Inputs.InputsComeFromMatchedUploads` | app.py:187-196 | Every code in the translations dict was the match of some uploaded file's name. |
| `OrderedMaps.Put` | app.py:98 | Dict assignment keeps the key order when the key exists, and appends the key otherwise. |
| `OrderedMaps.PutLookup` | app.py:196 | After `d[k] = v`, looking up `k` gives `v`, and every other key keeps its value. |
| `Orchestrator.HeaderHasHtml` | app.py:62-75 | The fixed opening of the prompt carries the English HTML verbatim. |
| `Orchestrator.BlocksHaveEveryTranslation` | app.py:78-80 | Every non-empty translation contributes its labelled section to the prompt. |
| `Orchestrator.BlocksEmptyIff` | app.py:78-80 | The translation sections are empty if and only if no translation has any text. |
| `Orchestrator.PromptAfterHeader` | app.py:62-80 | After any opening, the prompt:<br>• starts with that opening;<br>• carries every non-empty translation's section;<br>• adds nothing to the opening if and only if all translations are empty. |
| `Orchestrator.PromptContent` | app.py:62-80 | The shared prompt carries the English HTML and the section of every non-empty translation. |
| `Orchestrator.RequestForCarries` | app.py:90-97 | Every per-language request asks model `claude-3-5-sonnet-20241022` for at most 8000 tokens. Its message carries:<br>• the English HTML;<br>• every non-empty translation's section;<br>• the target language's name and code. |
| `Orchestrator.InstructionNamesTarget` | app.py:95 | The closing instruction names both the target language and its code. |
| `Orchestrator.MessageParts` | app.py:95 | A message starts with the whole shared prompt and names the target language and code. |
| `Orchestrator.RequestContent` | app.py:93-96 | Every request's message carries:<br>• the English HTML;<br>• every non-empty translation's section;<br>• the target language's name and code. |
| `Orchestrator.AttemptCalls` | app.py:84-97 | A language is sent to the service if and only if its translation is present and non-empty. |
| `Orchestrator.AttemptResults` | app.py:84-101 | A language gets a result only when it has input and the call succeeds. A failed or skipped call leaves the results unchanged. |
| `Orchestrator.AttemptNotices` | app.py:84-101 | Each language adds exactly one notice. |
| `Orchestrator.NoticeFor` | app.py:84-101 | A language's notice names it. The notice is "no translation file" if and only if the language has no input, and "complete" if and only if it has input and the call succeeds. |
| `Orchestrator.CallsExactlyForInputs` | app.py:83-97 | Over a dict with distinct keys:<br>• a code is called if and only if it is a key with non-empty input;<br>• calls follow the dict's order;<br>• no code is called twice. |
| `Orchestrator.ResultsPerCode` | app.py:83-101 | Each code's result is the service's answer to that code's request when the code is listed and has input. Otherwise there is no result. |
| `Orchestrator.ResultsInRegistryOrder` | app.py:83-103 | The results dict has distinct keys, ordered as the language list orders them. |
| `Orchestrator.OneNoticePerLanguage` | app.py:83-101 | There is one notice per listed language, in list order, each being that language's notice. |
| `Orchestrator.RegistryResultFor` | app.py:83-103 | Over the registry, a code has a result exactly when it is a registry code with input whose call succeeds. The result is the service's answer. |
| `Orchestrator.RegistryRunShape` | app.py:83-103 | Over the registry:<br>• calls are made exactly for the codes with input, in registry order, without repeats;<br>• result keys are distinct and in registry order;<br>• there are twelve notices. |
| `Orchestrator.RegistryCallsNeedInput` | app.py:84-98 | A code is called only when it has an input, and it has a result only when it was called. |
| `Orchestrator.RegistryOneInputCalls` | app.py:83-97 | With a single non-empty input for a registry code, exactly that code is called, whatever the service answers. |
| `Orchestrator.RegistryRunOneInput` | app.py:83-103 | With a single non-empty input whose call succeeds, exactly that code is called and the results are exactly that code's answer. |
| `Orchestrator.ProcessLanguages` | app.py:83-101 | The loop over the registry, written with a mutable accumulator, computes the same outcome as the recursive definition. |
| `Orchestrator.BuildBlocks` | app.py:77-80 | The prompt-extending loop builds the same sections as the recursive definition. |
| `Orchestrator.BuildPrompt` | app.py:62-80 | The built prompt:<br>• starts with the fixed opening;<br>• carries the English HTML and every non-empty translation's section;<br>• equals the bare opening if and only if every translation is empty. |
| `Orchestrator.TranslateBlog` | app.py:57-103 | `translate_blog`:<br>• calls the service exactly for the registry codes with non-empty input, once each, in registry order;<br>• keeps as a code's result the answer to that code's own request, and nothing for any other code;<br>• gives distinct result keys in registry order;<br>• gives one notice per registry language, in registry order. |
| `Archive.EntryCode` | app.py:111 | A recognised archive entry name is exactly the entry name of the code read from it. |
| `Archive.EntryNameRoundTrip` | app.py:111 | Reading the code back from `marvel_snap_blog_<code>.html` gives the code. |
| `Archive.EntryNameInjective` | app.py:110-112 | Two codes share an entry name if and only if they are the same code. |
| `Archive.SpanishEntryName` | app.py:111 | The Spanish entry is named `marvel_snap_blog_spa.html`. |
| `Archive.DownloadCode` | app.py:234 | A recognised download file name is exactly the download name of the code read from it. |
| `Archive.DownloadNameRoundTrip` | app.py:234 | Reading the code back from `blog_<code>.html` gives the code. |
| `Archive.ZipEntries` | app.py:109-112 | One archive entry per result, in dict order, named after its code and holding its text. |
| `Archive.UnzipZipEntries` | app.py:105-115 | Reading the codes back from the archive's entry names recovers the results dict exactly. |
| `Archive.ZipEntryNamesDistinct` | app.py:110-112 | The archive's entry names are distinct if and only if the results dict's keys are. |
| `Archive.Downloads` | app.py:229-237 | One download per result, in dict order. Each download:<br>• holds its text;<br>• is named `blog_<code>.html`;<br>• has the key `download_<code>`;<br>• is captioned with the language's registered name;<br>• sits in column `index % 3`. |
| `Pipeline.Run` | app.py:172-202 | A completed run had a client, and its outcome is the registry-wide translation of the assembled inputs. |
| `Pipeline.RunGuards` | app.py:172-181 | A run stops if and only if the HTML is empty, no file was uploaded, or there is no client. The reported error is the first of these, checked in that order. |
| `Pipeline.RunTouchesOnlyMatchedLanguages` | app.py:184-202 | In a completed run:<br>• every called code was matched by an uploaded file;<br>• every result was called for;<br>• no code is called twice. |
| `Pipeline.RunNeverTranslatesSpaM9` | app.py:184-202 | No run calls the service for `spa-M9` or has a result for it. So a run makes at most eleven calls and holds at most eleven results. Of its twelve notices, the one for Spanish Mexico is always "no translation file", never a success or a failure. |
| `Pipeline.SpaM9Notice` | app.py:83-86 | Whenever `spa-M9` has no input, the batch's twelve notices include "no translation file" for Spanish Mexico, in its registry position. |
| `Pipeline.RunResultsPackage` | app.py:202-216 | A completed run's results are keyed by registry codes. They become as many archive entries, all with distinct names. |
| `Pipeline.SpanishFileName` | app.py:187-191 | `translation_spa.txt` is matched to `spa` and read as text. |
| `Pipeline.SpanishUploadInputs` | app.py:184-196 | Uploading only `translation_spa.txt`, with non-empty text, gives translations holding just that text under `spa`. |
| `Pipeline.SpanishRun` | app.py:172-202 | With HTML and a single `translation_spa.txt` reading "Hola", the run goes ahead over that one input. |
| `Pipeline.SpanishUploadOneCall` | app.py:172-202 | That run makes exactly one call, for Spanish, whatever the service answers. |
| `Pipeline.SingleSpanishUpload` | app.py:172-216 | When that one call succeeds, the run has exactly one result and one archive entry, `marvel_snap_blog_spa.html`, holding the answer. |

## Left out

- The Streamlit page is not modelled. This covers:
  - the layout, expanders, columns and text areas;
  - the spinner and progress bar;
  - `st.session_state`: the results shown are those of the run just made, not a stored earlier run;
  - `st.stop()`, which is modelled as the run ending with `MissingClient`.
- `init_anthropic` is not modelled. Reading the API key from secrets or the environment is a client parameter that is either present or absent.
- The Anthropic SDK and the network are not modelled. The client is an abstract function from a request to the reply text, or to nothing when the call raises; the `response.content[0].text` shape is not modelled.
- UTF-8 decoding and `python-docx` parsing are abstract extractor functions. Only the choice between them and the newline join are modelled. Exceptions become `None`.
- The per-file `st.error("Error reading …")` notice shown when a file cannot be read is not modelled. Such a file only contributes nothing.
- The texts of the status messages are not modelled: the emoji and wording of `st.warning`, `st.success` and `st.error`. A notice records its kind and the language name.
- ZIP byte layout, DEFLATE compression and the `BytesIO` buffer are not modelled. The archive is its list of entries.
- The results section (app.py line 209) is only drawn when the stored results are non-empty. `Archive.ZipEntries` and `Archive.Downloads` are total, so for zero results they give an empty archive and no buttons, where the app draws no archive button at all.
- The timestamp in the ZIP file name is not modelled, because it comes from the clock. The MIME types are not modelled either.
- `Matcher.MissingLangs`: the order in which `', '.join(missing_langs)` prints the set is not modelled. Python set iteration order is unspecified, so the model returns the set.
- `Archive.Downloads`: it requires every result key to be a registry code. For any other key, `LANGUAGES[lang_code]` would raise `KeyError`; results only ever hold registry codes (`Pipeline.RunResultsPackage`).
- Whether the returned HTML is valid, or faithful to the English formatting, is not modelled. It depends on the language model's answer.
