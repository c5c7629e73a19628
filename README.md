# Synthetic legal-dataset generator: a verified model of its generation loop

The program (`main.py`) asks a remote chat model for synthetic employment-law
dispute samples and appends them, one JSON object per line, to a dataset file.
It skips samples whose hash it has already seen. This project models the part
of it that has behaviour of its own, `generate_samples`, and proves what that
loop guarantees:

- `Prompt`: the randomisation ID that `get_prompt` embeds in every prompt. It
  is `random.randint(10000, 99999)`, written in decimal before the final
  newline of the template.
- `JsonSpan`: locating the JSON object in a reply. `re.search(r"\{.*\}",
  content, re.DOTALL)` is stated as a reference (leftmost start, longest
  match from it). It is implemented without a regex engine, from the first `{`
  to the last `}`, and proved equal to the reference. `str.strip()` is
  modelled and proved not to change the span.
- `Dedup`: the seen-set built at start-up from every line of the existing
  file that `json.loads` accepts, and the duplicate-freedom it is meant to give.
- `Generator`: the loop as functions over an abstract stream of remote replies.
  `Handle` covers one answered reply. `Attempts` is the `while retries > 0`
  loop with its budget of 3. `SampleStep` and `Batch` are the
  `for i in range(batch_size)` loop. Lemmas state what each does to the
  seen-set, the file, the call count and the per-sample outcomes.
- `Driver`: the same loops as imperative code over a `DatasetFile` object
  that is only ever appended to. Each method is proved to compute what the
  `Generator` functions specify.

Foreign code becomes parameters. `Remote` bundles the prompt template, the
random draws (`draw(n)` is the generator state at call `n`) and the chat
completion (`complete(n, prompt)`, an `Ok(text)` or `Raised`). `Library`
bundles `json.loads` (`parse`, `None` where it raises), `json.dumps` (`dump`)
and `hash_sample` (`hash`). The hash is never assumed injective. The
cross-run lemmas additionally assume that `parse(dump(v)) == Some(v)`
(`Generator.RoundTrips`).

## Model

| member | source | states |
|---|---|---|
| `Prompt.RandInt` | main.py:14 | `random.randint(a, b)` gives a value in the closed range a..b |
| `Prompt.RandIntReachesEvery` | main.py:14 | every value of the closed range, both ends included, can be drawn |
| `Prompt.Seed` | main.py:14 | the randomisation ID of a prompt lies in 10000..99999 |
| `Prompt.DecimalRoundTrip` | main.py:68 | the decimal text of the ID reads back as the ID |
| `Prompt.DecimalLength` | main.py:68 | a number with k digits is written with exactly k characters |
| `Prompt.GetPromptSpec` | main.py:13-69 | the prompt is the template unchanged, then the ID in exactly five digits that read back as the seed, then a newline |
| `JsonSpan.SearchJson` | main.py:106-107 | the span found is the leftmost-longest match of `\{.*\}` under DOTALL; none is found exactly when the text has no match at all |
| `JsonSpan.ExtractJson` | main.py:106-108 | the extracted text is at least two characters long, starts with `{` and ends with `}` |
| `JsonSpan.SearchJsonSucceedsIff` | main.py:106-107 | the search succeeds if and only if some `{` is followed later in the text by a `}` |
| `JsonSpan.SearchResultUnique` | main.py:106 | any leftmost-longest match is the span `SearchJson` returns |
| `JsonSpan.ExtractJsonIsFirstToLast` | main.py:106-108 | the extracted text is `text[i..j+1]` for a `{` at i and a `}` at j > i, with no `{` before i and no `}` after j |
| `JsonSpan.SkipSpaces` | main.py:103 | the leading whitespace `strip()` drops ends at the first non-whitespace character, or at the end of the text |
| `JsonSpan.SkipSpacesBack` | main.py:103 | the trailing whitespace `strip()` drops starts just after the last non-whitespace character, and never before the kept part begins |
| `JsonSpan.StripSpec` | main.py:103 | `strip()` keeps a slice of its argument and removes only whitespace around it, leaving no whitespace at either end |
| `JsonSpan.ExtractIgnoresPadding` | main.py:103-108 | whitespace around a text never changes the span extracted from it |
| `JsonSpan.ExtractIgnoresStrip` | main.py:103-108 | extracting from the stripped reply gives the same result as extracting from the reply |
| `Dedup.Bootstrap` | main.py:77-87 | after start-up the seen-set holds exactly the hashes of the lines that parse; lines that do not parse are skipped |
| `Dedup.BootstrapAppend` | main.py:80-87 | loading a file made of two parts gives the union of the seen-sets of the parts |
| `Generator.HandleEffect` | main.py:105-125 | an answered reply ends as NoJson exactly when no span is found. It ends as Saved exactly when a span is found, parses, and its hash is unseen. Then the file grows by exactly the serialized sample and the seen-set by exactly its hash. Any other outcome leaves the state unchanged |
| `Generator.AttemptsCalls` | main.py:92-130 | the retry loop makes between one call and one call per retry, and every call but its last one raised |
| `Generator.AttemptsGiveUp` | main.py:92-130 | the loop gives up, without raising, exactly when every one of its calls raised; then only the call count has changed |
| `Generator.AttemptsAnswered` | main.py:104-125 | if the loop does not give up, its last call answered, and that answer alone decides the outcome and the new state. No retry is spent on a missing span, a parse failure or a duplicate |
| `Generator.NoJsonEndsSample` | main.py:123-125 | a reply with no `{` before a `}` ends the sample after one call, writes nothing and leaves the seen-set unchanged |
| `Generator.InvAppend` | main.py:112-114 | appending a sample whose hash is unseen keeps the run invariant (file = old file + appended samples, seen = old seen + their hashes, hashes pairwise distinct and new) |
| `Generator.SampleStepKeepsInv` | main.py:90-130 | one sample index keeps the run invariant |
| `Generator.SampleStepEffect` | main.py:90-130 | one sample index records one outcome and makes one to three calls. It never shrinks the seen-set or the appended samples, and appends exactly when it records Saved |
| `Generator.SampleStepSaves` | main.py:111-119 | one sample index appends at most one line, exactly when its outcome is Saved |
| `Generator.BatchKeepsInv` | main.py:89-130 | the batch loop keeps the run invariant; the seen-set only grows |
| `Generator.BatchOutcomes` | main.py:90 | n iterations record exactly n outcomes and keep the earlier ones |
| `Generator.BatchCalls` | main.py:90-93 | n iterations make between n and 3n remote calls |
| `Generator.BatchSaves` | main.py:90-119 | n iterations append exactly one line per Saved outcome, so at most n |
| `Generator.RunSpec` | main.py:76-130 | a run appends only, after the old file. The loop runs exactly batch_size times; each sample index makes 1..3 remote calls, so the run makes batch_size..3·batch_size in all. At most batch_size lines are added, one per Saved outcome. Appended hashes are pairwise distinct and none was in the file. The seen-set grows by exactly those hashes |
| `Generator.ReloadAfterRun` | main.py:80-87 | when `json.loads` reads back what `json.dumps` writes, reloading the file after a run rebuilds exactly the seen-set the run ended with |
| `Generator.ReloadAppended` | main.py:80-87 | when `json.loads` reads back what `json.dumps` writes, loading a file with serialized samples appended gives the old seen-set plus exactly the samples' hashes |
| `Generator.RunKeepsDuplicateFree` | main.py:80-87 | under the same assumption, a file in which no two parsable lines share a hash keeps that property after a run |
| `Generator.AppendKeepsDuplicateFree` | main.py:111-114 | appending samples whose hashes are pairwise distinct and absent from the loaded seen-set keeps a duplicate-free file duplicate-free, when `json.loads` reads back what `json.dumps` writes |
| `Driver.DatasetFile.Append` | main.py:114 | writing a line adds exactly that line at the end of the file |
| `Driver.LoadSeen` | main.py:77-87 | the start-up loop builds exactly `Dedup.Bootstrap` of the file's lines |
| `Driver.LoadSeenTwice` | main.py:80-87 | two start-ups on the same file build the same seen-set: the hashes of the file's parsable lines |
| `Driver.CallRemote` | main.py:95-103 | one attempt sends the template followed by a five-digit ID whose value lies in 10000..99999 and a newline, and returns the oracle's answer to that prompt for that call |
| `Driver.FindJson` | main.py:103-108 | stripping the reply and searching it finds the span `ExtractJson` gives for the unstripped reply |
| `Driver.GenerateOne` | main.py:92-130 | the retry loop of one sample index computes exactly `Generator.Attempts` with a budget of 3 |
| `Driver.HandleReply` | main.py:103-125 | one answered reply updates the seen-set, the file and the outcome exactly as `Generator.Handle` specifies |
| `Driver.GenerateSamples` | main.py:76-130 | a whole run leaves the file as `Generator.Generate` specifies. The old contents stay a prefix, and at most batch_size lines are added |

## Left out

- The Groq client, the model name and the temperature (main.py:10, 95-103) are not modelled. The chat completion is an oracle `Remote.complete`, indexed by call number, that returns `Ok(text)` or `Raised`.
- `time.sleep(2)` between retries (main.py:130) is not modelled: it only adds delay.
- `hashlib.md5` and `json.dumps(sort_keys=True)` (main.py:73) are not modelled. `hash_sample` is an uninterpreted function, so insensitivity to key order is neither modelled nor claimed.
- `json.loads` (main.py:84, 110) is an uninterpreted partial function `parse`. Any exception it raises counts as a parse failure. In the program, an exception other than `JSONDecodeError` at line 110 would instead spend a retry.
- An exception raised by `hash_sample` on a parsed sample (main.py:111) is not modelled. In the program it would spend a retry, with nothing recorded in the seen-set and nothing written.
- An exception raised by `f.write` (main.py:114) is not modelled. It happens after `seen.add` (main.py:113), so in the program it would spend a retry with the hash already recorded but no line written.
- `response.choices[0].message.content` being absent (an exception at main.py:103) is covered only as part of `Raised`.
- The prompt body (main.py:15-69) is the parameter `Remote.template`. The reply oracle sees the whole prompt text; only the randomisation ID varies.
- `random.randint`'s generator is the parameter `Remote.draw`. The model does not describe its distribution, only the range of its results.
- `JsonSpan.IsSpace` lists the ASCII and Latin-1 whitespace of `str.isspace`, not every Unicode space. No space character is a brace, which is all `ExtractIgnoresStrip` uses.
- File I/O is not modelled: the file is a sequence of lines. `os.path.exists` (main.py:80) is not modelled either; a missing file is read as an empty one. A pre-existing last line without its newline would make the program's first append join it; the model does not describe that.
- Each saved sample is one file line, `dump(v)` without its newline. This holds for `json.dumps` with default arguments, which escapes newlines and other control characters. `Generator.ReloadAfterRun` and `Generator.RunKeepsDuplicateFree` rely on it, as well as on `parse(dump(v)) == Some(v)`.
- `print` narration and the module-level call `generate_samples(batch_size=200)` (main.py:133) are not modelled.
- The body of the `for` loop (main.py:91-130) is the method `Driver.GenerateOne`, so each of the two loops is proved on its own.
