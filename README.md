# Splice Safari, modelled in Dafny

Splice Safari is a small web toy. Each spin picks two different animals
from a catalog and invents a name for their offspring. It then shows a
poster of the new species. The poster comes from an OpenAI image model when
one is configured. When there is no model, or it lets the app down, a
generated SVG is shown instead. All the logic lives in `app.py`. This
project models that logic and proves what it promises:

- **`.env` loading at start-up** (`Dotenv`). Each line of the file is
  parsed. A key is added to the process environment only if it is not
  empty and not already set. The loader records the keys it added, in
  order. The environment is a `class Environment` whose `vars` map the
  loading method updates in place. Its loop is proved against the
  recursive specification `LoadLines`, and the loader's guarantees are
  proved as lemmas about `LoadLines`. A value or key holding a NUL
  character makes the environment write raise `ValueError`. The loader
  only catches `OSError`, so that error ends start-up and the server never
  listens: `Service.StartupEnvironment` then gives no environment.
- **Configuration** (`Config`, `Service.ConfigReport`). It covers the
  availability check, the status and reason, and the settings a client is
  built from. It also covers the body of `GET /api/config`.
- **The random choices** (`Rng`, `Selector`). The shared generator is an
  explicit state: the last seed and the bounds of the draws since then.
  What a draw yields is an arbitrary `Source` function, so every property
  holds for any behaviour of the generator. `random.sample(ANIMALS, 2)`
  gives two different animals of the catalog. `mash_name` gives a catalog
  adjective, a space, and the capitalized front of one animal joined to
  the capitalized back of the other.
- **The fallback illustrator** (`Renderer`, `Base64`, `Utf8`). The colour
  channels are drawn within their ranges, and the colour depends on the
  animal alone. Each block shows the first eight characters of its animal.
  The document names both animals, the species and a punchline. The
  result is the SVG data URI scheme followed by the RFC 4648 section 4
  Base64 encoding of the document's RFC 3629 UTF-8 bytes. It is 4·⌈n/3⌉
  characters long and decodes back to the document. Both codecs are
  written out, with their round trips proved in both directions.
- **The image orchestrator** (`Illustrator`). It is fail-open. The picture
  comes from the image service only when a client could be built, the call
  did not raise, and it returned a nonempty Base64 payload. Assuming the
  client's construction does not raise, in every other case it comes from
  the illustrator. The image service is a function
  parameter.
- **The spin** (`Service.Spin`). It composes the pieces above into the
  body of `POST /api/spin`.

The Python string operations the code relies on are modelled in
`Strings`: `strip`, `lstrip`, `rstrip`, `isspace`, `find` (for the split at the first `=`), slicing, `capitalize`,
`str(int)`, `str(w / 2)`, and f-string assembly as `Join`.

## Model

| member | source | states |
|---|---|---|
| Dotenv.IsQuote | app.py:38 | Definition of the characters `strip("'\"")` removes: the single and the double quote. |
| Dotenv.HasNul | app.py:39 | Definition of the entries whose write into the environment raises: a NUL in the key or in the value. |
| Dotenv.ParseLine | app.py:29-38 | A line yields an entry exactly when, after stripping, it is nonempty, does not start with `#` and contains `=`. The key holds no `=` and has no surrounding whitespace. The value has no surrounding quote characters. |
| Dotenv.ParseLineSplitsAtFirstEquals | app.py:32-38 | The key is the stripped text before the first `=`. The value is the text after it, stripped and then cleared of quotes, so a value may contain `=`. |
| Dotenv.FormatParseRoundTrip | app.py:29-38 | A clean key and value written as `key=value` are read back unchanged. |
| Dotenv.ParseAll | app.py:28-29 | Every line is parsed, in order. |
| Dotenv.StepEntry | app.py:36-40 | One line's effect. After a failure nothing changes. Existing variables keep their values. A key is loaded only if it is nonempty, not yet set and free of NUL, and then it is set to its value and appended to the loaded keys. A write fails only for a NUL in a new nonempty key's entry, and then changes nothing. Conversely, a new nonempty key is always written when its entry is free of NUL, and the write always fails when it is not. |
| Dotenv.LoadEntries | app.py:28-40 | Loading a sequence of parsed lines loads at most one key per line and keeps every variable set before. |
| Dotenv.LoadLines | app.py:28-40 | Loading the file's lines loads at most one key per line and keeps every variable set before, with its value. |
| Dotenv.FailureIsFinal | app.py:39 | Once an environment write has raised, later lines change nothing. |
| Dotenv.LoadKeepsExistingValues | app.py:36-39 | Keys already set keep their values. A key is set afterwards exactly when it was set before or is listed as loaded, so nothing else changes. |
| Dotenv.LoadedKeysAreNew | app.py:36-40 | Every loaded key is nonempty and was not set before, and no key is listed twice. |
| Dotenv.LoadedValueIsFirst | app.py:36-39 | Each newly set key holds the value of the first line that assigns it. |
| Dotenv.FirstValueLoaded | app.py:36-39 | If loading did not fail, every nonempty key that was not set before and is assigned by a line ends up set. |
| Dotenv.LoadedKeysInFileOrder | app.py:36-40 | If loading did not fail, the loaded keys are the nonempty keys of the file that were not already set, in file order, each at its first occurrence. |
| Dotenv.AcceptedKeysAreSet | app.py:36-39 | If loading did not fail, every nonempty key of the file is set afterwards. |
| Dotenv.UnassignedNotLoaded | app.py:36-40 | A key that no line assigns is never listed as loaded. |
| Dotenv.NulEntryFails | app.py:36-40 | The first line that assigns a new nonempty key makes the loading fail when its entry holds a NUL. |
| Dotenv.NoNulNeverFails | app.py:39 | Entries free of NUL characters never make the loading fail. |
| Dotenv.NoNulLinesNeverFail | app.py:29-39 | A file whose lines hold no NUL character never makes the loading fail. |
| Dotenv.Environment.constructor | app.py:52 | The process environment starts as the given map. |
| Dotenv.Environment.LoadDotenv | app.py:13-45 | The loop's environment, loaded keys and failure flag are those of `LoadLines` for the old environment. |
| Service.StartupEnvironment | app.py:39-52 | There is no environment for the handlers exactly when loading failed, since the `ValueError` of a NUL write is not caught. Otherwise it is the environment the loader produced from the file, so every variable the process started with is kept, unchanged, and the file's new keys are added as the `Dotenv` lemmas describe. |
| Service.NulEndsStartup | app.py:36-52 | When the first line assigning a key that is not yet set holds a NUL in its entry, start-up ends and there is no environment. |
| Service.StartsWithoutNul | app.py:29-52 | A file none of whose lines holds a NUL character always lets the server start. |
| Service.EnvironmentWinsOverFile | app.py:17-18 | When the server starts, a variable set in the real environment, in particular the API key, is not overridden by the file. |
| Config.Get | app.py:108 | Definition of lookup with a default: the value when the name is set, the default otherwise. |
| Config.ApiKey | app.py:118 | The key is the raw value stripped of whitespace: empty exactly when the raw value is all whitespace, with no whitespace at either end, and a piece of the raw value. |
| Config.ImageModel | app.py:108 | The model is the value of `OPENAI_IMAGE_MODEL` when it is set, and `gpt-image-1` otherwise. |
| Config.OpenAIAvailable | app.py:111-112 | Available exactly when the package is installed and the raw key holds a character that is not whitespace. |
| Config.OpenAIStatus | app.py:115-121 | Available exactly when the package is installed and the stripped key is nonempty. The reason names the missing package first, then the missing key, otherwise it is "Configured". |
| Config.AvailableAgreesWithStatus | app.py:111-121 | `openai_available()` always equals the first component of `openai_status()`. |
| Config.BlankKeyIsUnavailable | app.py:118-120 | A key made only of whitespace counts as no key, whether or not the package is present. |
| Config.MakeClient | app.py:124-134 | A client exists exactly when the service is available. It carries the stripped, nonempty key, and a base URL exactly when `OPENAI_BASE_URL` is set and nonempty. |
| Service.ConfigReport | app.py:234-239 | `openaiConfigured` agrees with the status and with client creation. `model` is present exactly when configured and is then the image model. The reason is "Configured" exactly when configured, and otherwise names the missing piece. |
| Rng.Seed | app.py:145 | Definition of seeding: sets the seed and forgets every earlier draw. |
| Rng.Below | app.py:145-150 | A draw below `n` is below `n` and is recorded in the generator's state. |
| Rng.RandInt | app.py:147-149 | `randint(lo, hi)` lies in `[lo, hi]`, both ends included, and records one draw of `hi - lo + 1`. |
| Rng.Choice | app.py:140 | `choice(xs)` is the element at the drawn position and records one draw of `len(xs)`. |
| Selector.SamplePositions | app.py:252 | Sampling picks two different positions of the population and draws below `n`, then below `n - 1`. |
| Selector.SampleCoversAllPairs | app.py:252 | Every ordered pair of different positions is the outcome for some generator. |
| Selector.Sample2 | app.py:252 | Fails, with Python's message and before any draw, exactly when the population has fewer than two elements. Otherwise it gives the elements at two different positions. |
| Selector.SampleIsTwoDifferentAnimals | app.py:252 | The two sampled animals are different members of the catalog. The generator keeps its seed and its earlier draws. |
| Catalog.AnimalsAreDistinct | app.py:54-80 | The catalog holds 25 animals, none listed twice. |
| Selector.NameStart | app.py:138 | `animal_a[:3].rstrip().capitalize()` is a capitalized prefix of at most three characters, with no whitespace at its end. Only whitespace among the first three characters is dropped. |
| Selector.NameEnd | app.py:139 | `animal_b[-3:].lstrip().capitalize()` is a capitalized suffix of at most three characters, with no whitespace at its start. Only whitespace among the last three characters is dropped. |
| Selector.SpeciesName | app.py:141 | The name is the adjective, one space, then the front of the first animal and the back of the second, and at most seven characters longer than the adjective. |
| Selector.MashName | app.py:137-141 | The name is built from the adjective at the drawn position of the catalog and the two animals. It records one draw of the adjective count. |
| Selector.MashNameSplits | app.py:137-141 | Split at its first space, a name gives back an adjective of the catalog and the two animal fragments. |
| Strings.Join | app.py:156-200 | Definition of f-string assembly: the parts concatenated in order. Its properties are `JoinShows` and `JoinShowsAll`. |
| Strings.JoinShows | app.py:156-200 | Each part occurs in the assembled text right after the parts before it. |
| Strings.JoinShowsAll | app.py:156-200 | Each part occurs in the assembled text. |
| Strings.Head | app.py:155 | `s[:n]` is a prefix of length `min(n, len(s))`. |
| Strings.Last | app.py:139 | `s[-n:]` is a suffix of length `min(n, len(s))` for `n > 0`. |
| Strings.LStrip | app.py:139 | `lstrip` drops a prefix made only of dropped characters and leaves a first character that is not dropped. |
| Strings.RStrip | app.py:138 | `rstrip` drops a suffix made only of dropped characters and leaves a last character that is not dropped. |
| Strings.Strip | app.py:29 | `strip` removes only dropped characters from both ends and leaves neither end droppable. |
| Strings.StripEmpty | app.py:29-30 | A string strips to nothing exactly when all its characters are dropped. |
| Strings.StripInside | app.py:118 | What stripping keeps is a piece of the string. |
| Strings.Capitalize | app.py:138-139 | The first character is upper-cased and the rest lower-cased, with the length kept. |
| Strings.CapitalizeIdempotent | app.py:138-139 | Capitalizing twice is capitalizing once. |
| Strings.Find | app.py:32-34 | The first index of a character, absent exactly when the character does not occur. |
| Strings.IsSpace | app.py:29 | `isspace` holds of every ASCII whitespace character (tab to carriage return, and the separators 0x1C to 0x1F and space) and never of a letter, a digit, `=`, `#` or a quote. |
| Strings.NatToString | app.py:157-160 | `str(n)` is a nonempty run of decimal digits that starts with `0` exactly when it is `0` itself. |
| Strings.IntToString | app.py:157-182 | Definition of `str(i)`: the digits of a nonnegative integer, and `-` before the digits of its absolute value for a negative one. |
| Strings.NatToStringRoundTrip | app.py:157-158 | The decimal digits of a number read back as that number. |
| Strings.HalfToString | app.py:159-160 | `str(width / 2)` is an optional `-`, present exactly for a negative width, then decimal digits without a leading zero (unless they are `0`) worth half the absolute width rounded down, then `.0` or `.5` according to the parity of the width. |
| Renderer.SeedFor | app.py:145 | `hash(animal) & 0xFFFFFFFF` is below 2^32 and is the hash itself when the hash is already in range. |
| Renderer.PaletteFor | app.py:144-150 | Each channel lies in its range: red 70-230, green 60-210, blue 80-240. The generator is left seeded by the animal, with its three draws recorded. |
| Renderer.PaletteIsDeterministic | app.py:144-150 | An animal gets the same colour whatever the generator did before. |
| Renderer.SameSeedSameColor | app.py:145 | Animals whose hashes agree modulo 2^32 share a colour. |
| Renderer.SourceMarkup | app.py:156-191 | Definition: the literal text of both templates and the two data URI schemes. |
| Renderer.Channels | app.py:158-177 | `{r},{g},{b}` starts with the red channel's digits, followed by a comma. |
| Renderer.BlockValues | app.py:154-155 | The label is `animal[:8]`, a prefix of the animal of at most eight characters. |
| Renderer.BlockParts | app.py:156-162 | Definition of the block template as its runs: it has thirteen runs, with the colour, the label's centre and the label in their places. |
| Renderer.SvgBlock | app.py:153-162 | A block shows its label. |
| Renderer.BlockShows | app.py:153-162 | A block's label is `animal[:8]`, a prefix of at most eight characters, and it appears in the block. The colour is written as `r,g,b`. |
| Renderer.BlockCentre | app.py:159-160 | For a 300-wide block the label is centred at `150.0`, as Python prints `300 / 2`. |
| Renderer.ViewSize | app.py:173 | `{width} {height}` is the width's digits, a space, and it ends with the height's digits. |
| Renderer.DocumentValues | app.py:172-186 | The document interpolates both animals, the species name, the punchline, both colours' channels, and the block of each animal at its offset. |
| Renderer.DocumentParts | app.py:172-189 | Definition of the document template as its runs: it has twenty-two runs, with both animals, both blocks, the species name and the punchline in their places. |
| Renderer.SvgDocument | app.py:172-173 | The document opens with the template's opening text. |
| Renderer.DocumentShows | app.py:172-189 | The document names both animals, contains both blocks, and shows the species name and the punchline. |
| Renderer.DataUri | app.py:190-191 | The URI is the SVG scheme followed by a payload that Base64-decodes to the UTF-8 bytes of the document. Its length is the scheme plus 4·⌈n/3⌉ for n bytes. |
| Renderer.DataUriRoundTrip | app.py:190-191 | The document can be read back from its URI. |
| Renderer.DataUriInjective | app.py:190-191 | Different documents give different URIs. |
| Renderer.PunchlineFor | app.py:170 | The punchline drawn after the second colour is a position of the punchline catalog. |
| Renderer.GenerateSvg | app.py:165-170 | The drawing has each animal's own colour, within its ranges, and the punchline drawn after the second colour. The generator is left seeded by the second animal, with three channels and a punchline drawn. |
| Renderer.GenerateSvgIgnoresHistory | app.py:165-170 | The drawing and the generator afterwards do not depend on what was drawn before. |
| Renderer.SvgUri | app.py:190-191 | What `generate_svg` returns for a drawing starts with the SVG scheme. |
| Renderer.SvgUriReadsBack | app.py:172-191 | The URI of a drawing starts with the SVG scheme and decodes back to the drawing's document. |
| Base64.Encode | app.py:190 | The encoding is 4·⌈n/3⌉ characters long, a multiple of four. |
| Base64.DigitRoundTrip | app.py:190 | Each of the 64 digits reads back as its value. |
| Base64.DecodeEncode | app.py:190 | Decoding the encoding of any bytes gives the bytes back. |
| Base64.StandardVectors | app.py:190 | The test vectors of section 10 of RFC 4648 hold: `f`, `fo`, `foo` and `foob` encode as `Zg==`, `Zm8=`, `Zm9v` and `Zm9vYg==`. |
| Base64.EncodeDecode | app.py:190 | Any text the strict decoder accepts is the encoding of what it decodes to, so the encoding is canonical. |
| Utf8.EncodeChar | app.py:190 | A character takes one to four bytes: a lead byte announcing the width, then continuation bytes. |
| Utf8.Encode | app.py:190 | A string takes between one and four bytes per character. |
| Utf8.DecodeEncode | app.py:190 | Decoding the UTF-8 encoding of any string gives the string back. |
| Utf8.EncodeDecode | app.py:190 | Any byte string the strict decoder accepts is the encoding of what it decodes to. |
| Utf8.AsciiEncoding | app.py:190 | An ASCII string is encoded byte for byte. |
| Utf8.EncodeAppend | app.py:190 | The encoding of a concatenation is the concatenation of the encodings. |
| Illustrator.PromptParts | app.py:195-200 | Definition of the prompt as its runs: it places the two animals and the species name in its fixed wording. |
| Illustrator.Prompt | app.py:195-200 | The prompt opens with its fixed wording, followed at once by the first animal, and ends with its fixed closing. |
| Illustrator.PromptNamesEverything | app.py:195-200 | The prompt contains both animals and the species name. |
| Illustrator.Request | app.py:204-211 | The request sends the prompt for the two animals and the name, and asks for one 1024x1024 standard-quality image from the configured model, returned as Base64. |
| Illustrator.Payload | app.py:212-213 | A payload is used exactly when the call returned one and it is nonempty. |
| Illustrator.Answer | app.py:201-213 | Without a client the service gives no answer. With one, the answer is the usable payload of the service's reply to the request. |
| Illustrator.SourceName | app.py:214-221 | The image source is "ai" or "fallback". |
| Illustrator.SourceOf | app.py:214-221 | Definition: the source is "ai" exactly for the service's picture. |
| Illustrator.ImageData | app.py:191-214 | Definition of the data sent: the service's payload is sent behind the PNG scheme, and a drawing as its SVG data URI. |
| Illustrator.ImageDataScheme | app.py:191-214 | A drawing's data starts with the SVG scheme and a payload's with the PNG scheme. |
| Illustrator.GenerateAiImage | app.py:194-221 | The picture is the service's exactly when a client exists and its call returns a nonempty payload. It is then that payload, and the generator is untouched. Otherwise the drawing and the generator are those of `generate_svg`. |
| Illustrator.GeneratorAfterImage | app.py:194-221 | After a service picture the generator is untouched. After a fallback it is seeded by the second animal. |
| Illustrator.UnconfiguredNeverAsks | app.py:218-221 | Without the package or without a key the result is the fallback, whatever the service would answer. |
| Illustrator.FailureFallsBack | app.py:212-221 | A call that raises or returns no payload yields the illustrator's drawing. |
| Service.Spin | app.py:250-254 | A spin always succeeds. Its two animals are different members of the catalog, and its name is built from a catalog adjective and those animals. |
| Service.SpinBody | app.py:255-260 | Definition of the JSON body: it carries the animals, the name, the picture's data URI and its source name. |
| Service.ServedSpin | app.py:250-260 | Definition of `do_POST`'s body with the source's markup. What it promises is proved for every markup by `Spin`, `SpinBody`, `SpinPicture` and `UnconfiguredSpinFallsBack`. |
| Service.SpinPicture | app.py:252-254 | The spin's picture is the service's exactly when the service answered, and is then its payload. Otherwise it is the fallback drawing of those animals and that name. |
| Service.UnconfiguredSpinFallsBack | app.py:234-260 | When the configuration report says unconfigured, every spin's body reports "fallback" and carries an SVG data URI. |
| Service.SpinLeavesGenerator | app.py:252-254 | After a fallback spin the generator is seeded by the second animal. After a service spin it keeps its seed and its earlier draws. |

## Left out

- Reading the file is left out: the existence check, `open` and the
  `OSError` warning (app.py:21-27, 41-42). The loader takes the file's
  lines as a sequence, and a missing file is a file with no lines.
- All `print` output is not modelled, including the key print at
  app.py:10 and the loaded-keys message at app.py:44-45. It is logging
  with no effect on results.
- The HTTP plumbing is left out: routing, headers, the 404 path, JSON
  serialisation, static files and `run_server` (app.py:224-277). The
  model keeps only the two payloads the handlers build.
- OpenAI client object and network call: the client is its settings
  (`Config.ClientSettings`) and the image service is an arbitrary function
  from settings and request to an outcome (`Illustrator.ImageApi`); an
  `IndexError` on an empty response counts as a raised call.
- Python's string hash and the Mersenne Twister are abstract. They are the
  `Hash` and `Source` parameters, so colours and choices are any values
  the generator could give.
- Selector.Sample2: uses the pool algorithm of `random.sample`. For a
  population above 21 elements, such as the 25 animals, CPython picks with
  set-based rejection instead. That may make more draws below 25, so the
  generator state recorded after a sample differs. The outcomes, every
  ordered pair of different animals, are the same.
- Selector.SamplePositions: follows the same pool algorithm, so its
  recorded draws differ from CPython's set branch in the same way.
- Illustrator.GenerateAiImage: assumes the image client never draws from
  the shared `random` generator, so a service picture leaves it
  untouched. The client's retry jitter is in the OpenAI package, which is
  not part of this model. Illustrator.GeneratorAfterImage and
  Service.SpinLeavesGenerator rest on the same assumption.
- Service.StartupEnvironment: a NUL write ends the process. The model
  gives no environment then and says nothing about the traceback.
- Service.StartupEnvironment: a `.env` file that is not valid UTF-8 makes
  reading it raise `UnicodeDecodeError`, which `except OSError`
  (app.py:41) does not catch, so start-up ends. The loader takes the
  file's lines as already decoded strings and does not model this exit.
- Illustrator.GenerateAiImage: `make_openai_client()` (app.py:201) runs
  outside the `try` of app.py:203. If the `OpenAI(...)` constructor at
  app.py:133-134 raised, the error would escape and the request would get
  no response. The model assumes construction does not raise.
- Strings.Capitalize: is ASCII case mapping only. Python's `capitalize`
  uses Unicode title case for the first character and full Unicode lower
  case for the rest. The catalog is ASCII.
- Strings.HalfToString: prints `w / 2` exactly, while Python prints a
  float. The two agree for |w| < 2^53, and the only width used is 300.
- Utf8.Encode: covers Unicode scalar values only. A Python string holding
  a lone surrogate fails to encode, and Dafny's `char` cannot hold one.
- Renderer.SvgDocument: takes the static text of the two templates and
  the two data URI schemes as a `Markup` parameter. That text is the
  gradient, the grain filter, coordinates, fonts and the scheme prefixes. `Renderer.SourceMarkup` holds the text app.py
  uses, and every property is proved for any markup. Well-formed XML is
  not claimed, because interpolated names are not escaped.
- Config.ImageModel: the model is read once at start-up, after the `.env`
  file is loaded (app.py:52, 108). Later changes to the environment are
  not modelled.
- The static page script `static/app.js` is not part of this model. It
  is UI code driven by timers and `fetch`.
