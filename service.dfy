/**
 * The two JSON answers of the HTTP handler: the configuration report of
 * `GET /api/config` and the spin of `POST /api/spin`. The environment they
 * read is the process environment after the `.env` loader has run at
 * start-up.
 */
module Service {
  import opened Wrappers
  import opened Strings
  import opened Rng
  import opened Dotenv
  import opened Config
  import Catalog
  import opened Selector
  import opened Renderer
  import opened Illustrator

  /** The environment the handlers see: the one the process started with,
      completed by the `.env` file; none when a line of the file makes a
      write into the environment raise, since that error ends start-up
      before the server listens. */
  function StartupEnvironment(initial: map<string, string>, lines: seq<string>): (env: Option<map<string, string>>)
    ensures env.None? <==> LoadLines(initial, lines).failed
    ensures env.Some? ==> env.value == LoadLines(initial, lines).env
    ensures env.Some? ==> initial.Keys <= env.value.Keys
    ensures env.Some? ==> forall k :: k in initial ==> env.value[k] == initial[k]
  {
    LoadKeepsExistingValues(initial, ParseAll(lines));
    var r := LoadLines(initial, lines);
    if r.failed then None else Some(r.env)
  }

  /** A file none of whose lines holds a NUL character always lets the
      server start. */
  lemma StartsWithoutNul(initial: map<string, string>, lines: seq<string>)
    requires forall i :: 0 <= i < |lines| ==> Nul !in lines[i]
    ensures StartupEnvironment(initial, lines).Some?
  {
    NoNulLinesNeverFail(initial, lines);
  }

  /** A line holding a NUL in the first assignment of a key that is not
      yet set ends start-up. */
  lemma NulEndsStartup(initial: map<string, string>, lines: seq<string>, i: nat)
    requires i < |lines| && ParseLine(lines[i]).Some?
    requires ParseLine(lines[i]).value.key != "" && ParseLine(lines[i]).value.key !in initial
    requires HasNul(ParseLine(lines[i]).value)
    requires forall j :: 0 <= j < i && ParseLine(lines[j]).Some? ==>
               ParseLine(lines[j]).value.key != ParseLine(lines[i]).value.key
    ensures StartupEnvironment(initial, lines).None?
  {
    NulEntryFails(initial, ParseAll(lines), i);
  }

  /** A key, base URL or model set in the real environment wins over the
      `.env` file. */
  lemma EnvironmentWinsOverFile(initial: map<string, string>, lines: seq<string>, name: string)
    requires name in initial
    ensures var env := StartupEnvironment(initial, lines);
            env.Some? ==> Get(env.value, name, "") == initial[name]
    ensures var env := StartupEnvironment(initial, lines);
            env.Some? && name == ApiKeyVar ==> ApiKey(env.value) == ApiKey(initial)
  {
  }

  /** The body of `GET /api/config`. */
  datatype ConfigPayload = ConfigPayload(openaiConfigured: bool, model: Option<string>, reason: string)

  /** The status, with the image model named exactly when it is available. */
  function ConfigReport(installed: bool, env: map<string, string>): (p: ConfigPayload)
    ensures p.openaiConfigured <==> installed && ApiKey(env) != ""
    ensures p.openaiConfigured <==> MakeClient(installed, env).Some?
    ensures p.model.Some? <==> p.openaiConfigured
    ensures p.model.Some? ==> p.model.value == Get(env, ModelVar, DefaultModel)
    ensures p.reason == Configured <==> p.openaiConfigured
    ensures !installed ==> p.reason == MissingPackage
    ensures installed && !p.openaiConfigured ==> p.reason == MissingKey
  {
    var status := OpenAIStatus(installed, env);
    ConfigPayload(status.available, if status.available then Some(ImageModel(env)) else None, status.reason)
  }

  /** The body of `POST /api/spin`. */
  datatype SpinPayload = SpinPayload(animals: seq<string>, speciesName: string,
                                     imageData: string, imageSource: string)

  /** The body of a spin: its animals, their name, and the picture as the
      data URI and the source the page shows. */
  function SpinBody(m: Markup, animals: seq<string>, speciesName: string, picture: Picture): (p: SpinPayload)
    ensures p.animals == animals && p.speciesName == speciesName
    ensures p.imageData == ImageData(m, picture) && p.imageSource == SourceName(SourceOf(picture))
  {
    SpinPayload(animals, speciesName, ImageData(m, picture), SourceName(SourceOf(picture)))
  }

  /** What a spin obtained: two animals, their name, and their picture. */
  datatype SpinOutcome = SpinOutcome(animals: seq<string>, speciesName: string, picture: Picture)

  /** A spin: two different animals of the catalog, a name for their
      mashup, and a picture of it, from the image service when it answers
      and from the SVG illustrator otherwise. The sample cannot fail, as the
      catalog holds more than two animals. */
  function Spin(installed: bool, env: map<string, string>, api: ImageApi,
                src: Source, hash: Hash, st: State): (r: Result<(SpinOutcome, State), string>)
    ensures r.Success?
    ensures var p := r.value.0;
            |p.animals| == 2 && p.animals[0] in Catalog.Animals && p.animals[1] in Catalog.Animals &&
            p.animals[0] != p.animals[1]
    ensures var p := r.value.0;
            |p.animals| == 2 ==>
            exists k :: 0 <= k < |Catalog.Adjectives| &&
              p.speciesName == SpeciesName(Catalog.Adjectives[k], p.animals[0], p.animals[1])
  {
    SampleIsTwoDifferentAnimals(src, st);
    match Sample2(src, st, Catalog.Animals)
    case Failure(e) => Failure(e)
    case Success((a, b, s1)) =>
      var named := MashName(src, s1, a, b);
      var drawn := GenerateAiImage(installed, env, api, src, hash, named.1, a, b, named.0);
      assert named.0 == SpeciesName(Catalog.Adjectives[Below(src, s1, |Catalog.Adjectives|).0], a, b);
      Success((SpinOutcome([a, b], named.0, drawn.0), drawn.1))
  }

  /** How the picture of a spin was obtained: the service's payload when it
      answered with one, and otherwise the SVG illustrator's drawing, which
      does not depend on the draws before it. */
  lemma SpinPicture(installed: bool, env: map<string, string>, api: ImageApi,
                    src: Source, hash: Hash, st: State)
    ensures var p := Spin(installed, env, api, src, hash, st).value.0;
            |p.animals| == 2 &&
            var answer := Answer(installed, env, api, p.animals[0], p.animals[1], p.speciesName);
            (p.picture.Painted? <==> answer.Some?) &&
            (answer.Some? ==> p.picture.payload == answer.value) &&
            (answer.None? ==>
               p.picture == Drawn(GenerateSvg(src, hash, st, p.animals[0], p.animals[1], p.speciesName).0))
  {
    SampleIsTwoDifferentAnimals(src, st);
    var (a, b, s1) := Sample2(src, st, Catalog.Animals).value;
    var named := MashName(src, s1, a, b);
    GenerateSvgIgnoresHistory(src, hash, named.1, st, a, b, named.0);
  }

  /** Without the package or without a key every spin is drawn by the SVG
      illustrator, whatever the image service would do, and is sent as an
      SVG data URI. */
  lemma UnconfiguredSpinFallsBack(installed: bool, env: map<string, string>, api: ImageApi, m: Markup,
                                  src: Source, hash: Hash, st: State)
    requires !ConfigReport(installed, env).openaiConfigured
    ensures var o := Spin(installed, env, api, src, hash, st).value.0;
            var p := SpinBody(m, o.animals, o.speciesName, o.picture);
            p.imageSource == "fallback" && |m.svgUri| <= |p.imageData| &&
            p.imageData[..|m.svgUri|] == m.svgUri
  {
    SpinPicture(installed, env, api, src, hash, st);
    var o := Spin(installed, env, api, src, hash, st).value.0;
    var answer := Answer(installed, env, api, o.animals[0], o.animals[1], o.speciesName);
    assert answer.None?;
    ImageDataScheme(m, o.picture);
  }

  /** After a spin drawn by the illustrator, the generator is left seeded by
      the second animal, having drawn three colour channels and a punchline;
      after a spin the service drew, it is still on the seed it had before,
      with the earlier draws kept. */
  lemma SpinLeavesGenerator(installed: bool, env: map<string, string>, api: ImageApi,
                            src: Source, hash: Hash, st: State)
    ensures var r := Spin(installed, env, api, src, hash, st).value;
            |r.0.animals| == 2 &&
            (SourceOf(r.0.picture) == Fallback ==> r.1 == State(SeedFor(hash, r.0.animals[1]), [161, 151, 161, 10])) &&
            (SourceOf(r.0.picture) == Ai ==> r.1.seed == st.seed && st.draws <= r.1.draws)
  {
    SampleIsTwoDifferentAnimals(src, st);
    var pick := Sample2(src, st, Catalog.Animals).value;
    var named := MashName(src, pick.2, pick.0, pick.1);
    GeneratorAfterImage(installed, env, api, src, hash, named.1, pick.0, pick.1, named.0);
  }

  /** The spin as the running server answers it, with the source's markup.
      What it promises is what `Spin`, `SpinBody` and the lemmas above prove
      for every markup. */
  function ServedSpin(installed: bool, env: map<string, string>, api: ImageApi,
                      src: Source, hash: Hash, st: State): Result<(SpinPayload, State), string> {
    var r := Spin(installed, env, api, src, hash, st).value;
    Success((SpinBody(SourceMarkup(), r.0.animals, r.0.speciesName, r.0.picture), r.1))
  }
}
