# goLLum core in Dafny

goLLum is a command-line tool. It reads a free-text request, works out which
scripting language the request names, sends the request to a text-completion
service, and saves the returned code as `gollum_script<ext>` in a directory
the user chooses. This project models the parts of `gollum.go` that decide
what happens:

- **Language detection** (`Detection`). The request is lower-cased and tested
  for the substrings python, ruby, perl, bash, powershell, javascript,
  typescript, php, lua and go, in that order. The first hit wins. If none
  occurs, the result is the empty string. The model covers the extension
  table, the script file name built from it, and the rule that no file name
  exists when detection fails.
- **The string functions the code relies on** (`GoStrings`): `strings.ToLower`,
  `strings.TrimSpace` and `strings.Contains`. Each is given a reference
  definition and proved against it.
- **The completion request** (`Completion`): reading the API key from the key
  file's text, the session configuration, the fenced prompt, and the fields of
  the request body.
- **Script assembly** (`Assembly`). The `generateScript` loop is a method with
  a loop invariant. After `i` choices, the builder holds the trimmed text of
  each of those choices followed by a line break, in response order.
- **Saving the script** (`ScriptWriter`). The file is a class whose contents
  are a rune sequence. `os.Create` either truncates it or fails. Once the
  file's capacity is used up, every further rune write fails. `SaveScript`
  copies the script rune by rune and returns at the first failed write.

The completion service's answer enters the model as a value: either the list
of choice texts, or the error the request produced. The key file's contents
enter the same way, as text or a read error. Output directory prompting,
printing and the read loop of `main` are not modelled.

Three behaviours of the code are worth stating plainly:

- When no language matches, detection returns the empty string `""`
  (gollum.go:104). It does not return a sentinel word, and the caller tests
  for `""` (gollum.go:55).
- The script file is named `gollum_script` followed by the extension, for
  example `gollum_script.sh` for bash (gollum.go:64).
- The `"golang"` alternative at gollum.go:100 never changes the result.
  `Detection.GolangIsRedundant` proves that every text containing `golang`
  also contains `go`.

White space, for both trims, is Go's `unicode.IsSpace` set, which is Unicode's
White_Space property and not only the ASCII blanks. Lower-casing is exact
for ASCII letters only (see "Left out").

Files:

- `wrappers.dfy`: `Option` and `Result`.
- `go_strings.dfy`: lower-casing, white space, trimming and substring search.
- `detection.dfy`: detection, the extension table and file names.
- `completion.dfy`: the API key, the configuration, the prompt wrapper and the request body.
- `assembly.dfy`: `generateScript` and the properties of the assembled script.
- `script_writer.dfy`: the script file and `saveScript`.

## Model

| member | source | states |
|---|---|---|
| GoStrings.ToLower | gollum.go:80 | The result has the input's length. Each rune is the lower-case form of the input rune at the same position. No ASCII capital is left. |
| GoStrings.ToLowerIdempotent | gollum.go:80 | Lower-casing twice gives the same string as lower-casing once. |
| GoStrings.IsSpace | gollum.go:115 | The white-space runes that `TrimSpace` strips are those of Unicode's White_Space property, as Go's `unicode.IsSpace` defines them: U+0009 to U+000D, U+0020, U+0085, U+00A0, U+1680, U+2000 to U+200A, U+2028, U+2029, U+202F, U+205F and U+3000. |
| GoStrings.SpaceRunEnd | gollum.go:204 | The leading scan of `TrimSpace`: every rune from `i` up to the result is white space, and the rune at the result, if any, is not. |
| GoStrings.SpaceRunStart | gollum.go:204 | The trailing scan of `TrimSpace`: every rune from the result up to `j` is white space, and the rune before the result, if it lies after `lo`, is not. |
| GoStrings.TrimSpace | gollum.go:115 | The trimmed string is no longer than the input and neither starts nor ends with an `IsSpace` rune. |
| GoStrings.TrimSpaceTrims | gollum.go:204 | `TrimSpace(s)` is a slice of `s`. Everything before and after the slice is white space, and the slice has no white space at either end. |
| GoStrings.TrimSpaceIsTheTrim | gollum.go:204 | A string is such a trim of `s` if and only if it equals `TrimSpace(s)`, so the trim is unique. |
| GoStrings.TrimSpaceIdempotent | gollum.go:204 | Trimming twice equals trimming once. |
| GoStrings.TrimUnchanged | gollum.go:115 | A text with no white space at its ends is left unchanged by trimming. |
| GoStrings.Contains | gollum.go:82-100 | `strings.Contains`: scans `s` from the left and tests, rune by rune, whether `sub` starts at each index. |
| GoStrings.ContainsSpec | gollum.go:82 | `Contains(s, sub)` holds if and only if `sub` occurs in `s` at some index. |
| Detection.LanguageExtensions | gollum.go:37-48 | The table from the ten language names to their file extensions. |
| Detection.Priority | gollum.go:82-101 | The order in which detection tests the names: python, ruby, perl, bash, powershell, javascript, typescript, php, lua, go. |
| Detection.DetectLanguage | gollum.go:79-105 | The result is `""` or a key of the extension table, and `""` or one of the names in the priority list. |
| Detection.MatchLanguage | gollum.go:82-104 | The if/else chain on lower-cased text returns `""` or a key of the extension table. |
| Detection.DetectLanguageIsFirstMatch | gollum.go:80-104 | Detection equals the first name in the priority list that occurs in the lower-cased input, or `""` when none occurs. |
| Detection.DetectLanguageSpec | gollum.go:80-104 | The result is `""` exactly when no listed name occurs in the lower-cased input. Otherwise it is the name at some position `k` of the list, that name occurs, and no name before position `k` occurs. |
| Detection.DetectLanguageIgnoresCase | gollum.go:80 | Lower-casing the input first does not change the result. |
| Detection.DetectLanguageOfLower | gollum.go:80 | An input without capitals is matched exactly as it stands. |
| Detection.EarlierNameWins | gollum.go:82-101 | If the name at position `j` occurs, the result is one of the names at positions `0..j`. |
| Detection.PythonAlwaysWins | gollum.go:82-83 | Any input containing "python", in any case, yields "python". |
| Detection.JavascriptBeforeTypescript | gollum.go:92-95 | An input containing both "javascript" and "typescript" never yields "typescript". |
| Detection.GoOnlyAsLastResort | gollum.go:100-101 | The result is "go" if and only if "go" occurs and none of the other nine names occurs. |
| Detection.GolangIsRedundant | gollum.go:100 | Every text containing "golang" contains "go", so the second test never decides. |
| Detection.ExtensionKeysArePriority | gollum.go:37-48 | The keys of the extension table are exactly the names detection tests. |
| Detection.ExtensionsWellFormed | gollum.go:37-48 | Every extension starts with a dot and has at least one more rune. Distinct languages have distinct extensions. |
| Detection.ScriptFilename | gollum.go:64 | The name starts with `gollum_script`. For a language in the table, the rest is its extension. For any other name, the base stays bare. |
| Detection.ScriptFilenameInjective | gollum.go:37-48 | Distinct languages get distinct script file names. |
| Detection.TargetFilename | gollum.go:54-64 | There is no file name exactly when detection returns `""`. Otherwise the name is `gollum_script` followed by the detected language's extension. |
| Detection.PythonRequestExample | gollum.go:82-83 | The if/else chain finds python in "write me a python script". |
| Detection.PythonRequestDetected | gollum.go:79-83 | "write me a python script" is detected as python. |
| Detection.BashRequestExample | gollum.go:88-89 | The if/else chain finds bash in "make a bash script", and a bash script is named `gollum_script.sh`. |
| Detection.BashRequestDetected | gollum.go:79-89 | "make a bash script" is detected as bash. |
| Detection.SubstringOverMatchExample | gollum.go:88-89 | The if/else chain finds bash in "i like bashful naming", because names are matched as substrings. |
| Detection.SubstringOverMatchDetected | gollum.go:79-89 | "i like bashful naming" is detected as bash. |
| Detection.UnsupportedRequestExample | gollum.go:82-104 | The if/else chain finds no supported name in "list files" and yields `""`. |
| Detection.UnsupportedRequestDetected | gollum.go:79-105 | "list files" is detected as `""`. |
| Completion.ReadApiKey | gollum.go:199-206 | A failed key-file read is passed on unchanged. Otherwise the key is the file's text with its white-space border cut off, and it has no white space at either end. |
| Completion.StartSession | gollum.go:209-215 | Start-up fails exactly when reading the key fails, with that error. Otherwise the configuration holds the trimmed key and the fixed completion endpoint. |
| Completion.ReadApiKeyStable | gollum.go:204 | Trimming a key that was already read leaves it unchanged. |
| Completion.WrapPrompt | gollum.go:158 | The wrapped prompt is an opening fence, then the prompt, then a line break and the closing fence. Its length is the sum of those parts. |
| Completion.UnwrapWrapPrompt | gollum.go:158 | Unwrapping a wrapped prompt gives the prompt back. |
| Completion.WrapUnwrapPrompt | gollum.go:158 | Every fenced string is the wrapping of the text between its fences. |
| Completion.WrapPromptInjective | gollum.go:158 | Distinct prompts are sent as distinct texts. |
| Completion.BuildRequest | gollum.go:156-166 | The request's prompt unwraps to the user's prompt. The stop sequence is the fence and the suffix is the closing fence. The model is `gpt-3.5-turbo-instruct`, with 1000 tokens, `top_p` 1, temperature 0 and zero penalties. |
| Completion.RequestEndsWithSuffix | gollum.go:158-162 | The sent prompt ends with the announced suffix, and the suffix ends with the stop sequence. |
| Assembly.GenerateScript | gollum.go:107-120 | A failed completion call yields an empty script and that same error. A successful one yields no error, and the script is the in-order concatenation of `TrimSpace(text) + "\n"` over the choices. |
| Assembly.AssembleAppend | gollum.go:113-119 | Assembling two choice lists joined equals joining their two assemblies. |
| Assembly.AssembleSnoc | gollum.go:114-116 | One more choice appends exactly its trimmed text and a line break. |
| Assembly.AssembleStep | gollum.go:114-116 | If the builder holds the pieces of the first `i` choices, the two writes for choice `i` leave it holding the pieces of the first `i + 1`. |
| Assembly.AssembleEnds | gollum.go:113-119 | The script is empty if and only if there are no choices. A non-empty script ends with a line break. |
| Assembly.AssembleLineBreaks | gollum.go:113-119 | The script holds exactly one line break per choice, plus the line breaks inside the trimmed texts. |
| Assembly.SplitAssemble | gollum.go:113-119 | When no trimmed text holds a line break, splitting the script at its line breaks gives back the trimmed texts, in response order. |
| Assembly.TrimExample | gollum.go:115 | Trimming `"  print(1)  "` gives `"print(1)"`. |
| Assembly.AssembleExample | gollum.go:113-119 | The choices `["  print(1)  ", "print(2)"]` give `"print(1)\nprint(2)\n"`. |
| Assembly.SingleChoiceExample | gollum.go:113-119 | The single choice `"ls -la"` gives `"ls -la\n"`. |
| ScriptWriter.Accepted | gollum.go:135-139 | The number of runes a file accepts is at most the script's length. It is all of it exactly when the file has no capacity limit or the script fits. Otherwise it is the capacity. |
| ScriptWriter.ScriptFile.Create | gollum.go:123-126 | A creatable file is truncated to empty with no error. Otherwise the error is reported and the contents are unchanged. |
| ScriptWriter.ScriptFile.WriteRune | gollum.go:136-139 | With room left, the rune is appended. Otherwise a write error is reported and the contents are unchanged. |
| ScriptWriter.SaveScript | gollum.go:122-152 | A file that cannot be created is reported and left untouched. Otherwise the file ends up with the longest prefix of the script it accepts. The result is no error exactly when that prefix is the whole script, and a write error otherwise. |
| ScriptWriter.SaveAndReadBack | gollum.go:135-139 | Saving to a file with no limit succeeds, and the file then holds the script exactly. |
| ScriptWriter.SaveToFullFile | gollum.go:135-139 | A file that fills up after `n` runes of a longer script holds exactly the first `n` runes, and the save reports a write error. A script that fits is saved whole with no error. |
| ScriptWriter.SaveToUncreatableFile | gollum.go:123-126 | A file that cannot be created reports the creation error and keeps its old contents. |

## Left out

- `getResponse` (gollum.go:154-197) is not modelled: JSON encoding, the HTTP request and headers, the client call, reading the body and decoding it. `BuildRequest` models only the field values of the body. The outcome of the call is a parameter of `GenerateScript`: the choice texts, or one of the `ApiError` kinds named after the five failure points.
- The `Authorization` and `Content-Type` headers (gollum.go:175-176) are network details.
- `readAPIKey`'s read from the embedded file system (gollum.go:200) is I/O. `ReadApiKey` takes the read's outcome as its argument.
- Path handling of `os.Create` (gollum.go:123), `defer f.Close()` (gollum.go:127) and `filepath.Join` (gollum.go:65) are file-system semantics. The script file is one object, and whether it can be created and how much it takes are parameters.
- SaveScript: does not model the `bufio.Writer` between the loop and the file (gollum.go:133, 148). The model writes each rune straight to the file, so a failure shows at the rune where it happens. The Go code buffers the runes and ignores the error of the final `Flush`, so a failure while flushing is not reported and the function still returns nil.
- The progress bar (gollum.go:129-131, 141-145) uses floating point and only prints. All printing is left out.
- `chat` (gollum.go:53-77) is left out, apart from the detection test and the file name it builds, which `TargetFilename` models. Also omitted: asking for the output directory, the ordering of its calls, and the final `cases.Title` message.
- `main`'s read loop and its `quit` sentinel (gollum.go:217-230) are interactive I/O. Only the start-up is modelled, by `StartSession`.
- `NewConfig` (gollum.go:24-29) is the `Config` constructor and has no logic of its own.
- GoStrings.ToLower: lower-cases ASCII capitals only, and leaves every other rune as it is. Go's `strings.ToLower` also lowers non-ASCII capitals. Two of those become ASCII letters: U+0130 (İ) becomes `i` and U+212A (the Kelvin sign) becomes `k`. No language name contains `k`, but `javascript` and `typescript` contain `i`. So Go detects "JAVASCRİPT" (with U+0130) as javascript, while the model returns `""`; the same holds for typescript. On inputs without these two runes the model's detection agrees with Go's, because every language name is ASCII.
- Strings are sequences of Unicode scalar values. Go strings are bytes, and invalid UTF-8, which Go's `range` decodes to U+FFFD, is not represented. `Accepted` and `SaveScript` count runes, not bytes.
- Detection: no lemma evaluates detection on each of the ten names one by one. `DetectLanguageSpec` and `EarlierNameWins` cover every input.
