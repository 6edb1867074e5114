/**
 * `generate_ai_image`: ask the image service for a poster of the new
 * species and fall back to the SVG illustrator whenever there is no client,
 * the call raises, or it brings back no image. The service itself is a
 * parameter: any behaviour it has is covered.
 */
module Illustrator {
  import opened Wrappers
  import opened Strings
  import opened Rng
  import opened Config
  import opened Renderer

  /** The arguments of `client.images.generate(...)`. */
  datatype ImageRequest = ImageRequest(model: string, prompt: string, size: string,
                                       quality: string, responseFormat: string, n: nat)

  /** What the call did: raised (any exception, including a response with
      no first item), or returned a first item whose `b64_json` may be
      missing. */
  datatype ApiOutcome = Raised | Returned(b64Json: Option<string>)

  /** The image service as seen through a client built from the settings. */
  type ImageApi = (ClientSettings, ImageRequest) -> ApiOutcome

  /** Where a picture came from, as the `imageSource` field reports it. */
  datatype ImageSource = Ai | Fallback

  function SourceName(s: ImageSource): (name: string)
    ensures name == "ai" || name == "fallback"
  {
    match s
    case Ai => "ai"
    case Fallback => "fallback"
  }

  /** A picture as `generate_ai_image` obtains it: the service's Base64
      payload, or what the SVG illustrator drew. */
  datatype Picture = Painted(payload: string) | Drawn(drawing: Drawing)

  function SourceOf(p: Picture): (s: ImageSource)
    ensures s == Ai <==> p.Painted?
  {
    if p.Painted? then Ai else Fallback
  }

  /** The data URI sent for a picture: the payload behind the PNG scheme, or
      the drawing's SVG document behind the SVG scheme. */
  function ImageData(m: Markup, p: Picture): (uri: string)
    ensures p.Painted? ==> uri == m.pngUri + p.payload
    ensures p.Drawn? ==> uri == SvgUri(m, p.drawing)
  {
    match p
    case Painted(payload) => m.pngUri + payload
    case Drawn(d) => SvgUri(m, d)
  }

  /** The prompt's fixed wording, around the two animals and the name. */
  const PromptOpening: string :=
    "Create a bright, imaginative poster illustration of a fictional animal that combines a "
  const PromptJoiner: string := " and a "
  const PromptStyling: string :=
    ". Focus on a friendly, whimsical style with bold colors, studio lighting, and a simple background. Include a small caption of the name '"
  const PromptClosing: string := "' in the lower area."

  function PromptParts(a: string, b: string, species: string): (parts: seq<string>)
    ensures |parts| == 7 && parts[1] == a && parts[3] == b && parts[5] == species
  {
    [PromptOpening, a, PromptJoiner, b, PromptStyling, species, PromptClosing]
  }

  /** The prompt: the parts above, in order, so it opens with the fixed
      wording, followed at once by the first animal, and ends with the fixed
      closing. */
  function Prompt(a: string, b: string, species: string): (p: string)
    ensures ContainsAt(p, PromptOpening, 0) && ContainsAt(p, a, |PromptOpening|)
    ensures |PromptClosing| <= |p| && p[|p| - |PromptClosing|..] == PromptClosing
  {
    var parts := PromptParts(a, b, species);
    JoinShows(parts, 0);
    JoinShows(parts, 1);
    JoinShows(parts, 6);
    assert parts[..1] == [PromptOpening] && Join(parts[..0]) == "";
    assert Join([PromptOpening]) == PromptOpening by {
      assert [PromptOpening][..0] == [];
    }
    assert parts[..7] == parts;
    Join(parts)
  }

  /** The request for one square image from the configured model, returned
      as Base64 rather than as a link. */
  function Request(env: map<string, string>, a: string, b: string, species: string): (q: ImageRequest)
    ensures q.model == ImageModel(env) && q.prompt == Prompt(a, b, species) && q.n == 1
    ensures q.size == "1024x1024" && q.quality == "standard" && q.responseFormat == "b64_json"
  {
    ImageRequest(ImageModel(env), Prompt(a, b, species), "1024x1024", "standard", "b64_json", 1)
  }

  /** The prompt names both animals and the species. */
  lemma PromptNamesEverything(a: string, b: string, species: string)
    ensures Contains(Prompt(a, b, species), a) && Contains(Prompt(a, b, species), b)
    ensures Contains(Prompt(a, b, species), species)
  {
    JoinShowsAll(PromptParts(a, b, species));
  }

  /** The payload of an answer worth showing: present and nonempty, as
      Python's truth test on `b64_json` demands. */
  function Payload(outcome: ApiOutcome): (p: Option<string>)
    ensures p.Some? <==> outcome.Returned? && outcome.b64Json.Some? && outcome.b64Json.value != ""
    ensures p.Some? ==> p.value == outcome.b64Json.value
  {
    match outcome
    case Returned(Some(data)) => if data != "" then Some(data) else None
    case _ => None
  }

  /** The service's answer for a spin, if a client could be built. */
  function Answer(installed: bool, env: map<string, string>, api: ImageApi, a: string, b: string, species: string): (r: Option<string>)
    ensures MakeClient(installed, env).None? ==> r.None?
    ensures MakeClient(installed, env).Some? ==>
              r == Payload(api(MakeClient(installed, env).value, Request(env, a, b, species)))
  {
    match MakeClient(installed, env)
    case None => None
    case Some(client) => Payload(api(client, Request(env, a, b, species)))
  }

  /** `generate_ai_image(a, b, species)`. The service's payload is the
      picture when it is there; in every other case the SVG illustrator
      draws it, and only then is the generator used. */
  function GenerateAiImage(installed: bool, env: map<string, string>, api: ImageApi,
                           src: Source, hash: Hash, st: State, a: string, b: string, species: string): (r: (Picture, State))
    ensures r.0.Painted? <==> Answer(installed, env, api, a, b, species).Some?
    ensures r.0.Painted? ==> r.0.payload == Answer(installed, env, api, a, b, species).value && r.1 == st
    ensures r.0.Drawn? ==> (r.0.drawing, r.1) == GenerateSvg(src, hash, st, a, b, species)
  {
    match Answer(installed, env, api, a, b, species)
    case Some(payload) => (Painted(payload), st)
    case None =>
      var drawn := GenerateSvg(src, hash, st, a, b, species);
      (Drawn(drawn.0), drawn.1)
  }

  /** The generator after the call: untouched when the service drew the
      picture, and seeded by the second animal, with three colour channels
      and a punchline drawn, when the illustrator did. */
  lemma GeneratorAfterImage(installed: bool, env: map<string, string>, api: ImageApi,
                            src: Source, hash: Hash, st: State, a: string, b: string, species: string)
    ensures var r := GenerateAiImage(installed, env, api, src, hash, st, a, b, species);
            (SourceName(SourceOf(r.0)) == "ai" ==> r.1 == st) &&
            (SourceName(SourceOf(r.0)) == "fallback" ==> r.1 == State(SeedFor(hash, b), [161, 151, 161, 10]))
  {
  }

  /** Without the package or without a key the service is never asked: the
      picture is the fallback whatever the service would have answered. */
  lemma UnconfiguredNeverAsks(installed: bool, env: map<string, string>, api1: ImageApi, api2: ImageApi,
                              src: Source, hash: Hash, st: State, a: string, b: string, species: string)
    requires !OpenAIStatus(installed, env).available
    ensures GenerateAiImage(installed, env, api1, src, hash, st, a, b, species)
         == GenerateAiImage(installed, env, api2, src, hash, st, a, b, species)
    ensures SourceOf(GenerateAiImage(installed, env, api1, src, hash, st, a, b, species).0) == Fallback
  {
  }

  /** A drawn picture is sent as an SVG data URI, and a painted one as a
      PNG data URI. */
  lemma ImageDataScheme(m: Markup, p: Picture)
    ensures p.Drawn? ==> |m.svgUri| <= |ImageData(m, p)| && ImageData(m, p)[..|m.svgUri|] == m.svgUri
    ensures p.Painted? ==> |m.pngUri| <= |ImageData(m, p)| && ImageData(m, p)[..|m.pngUri|] == m.pngUri
  {
    if p.Drawn? {
      SvgUriReadsBack(m, p.drawing);
    }
  }

  /** The call fails open: a service that raises or answers without an
      image yields the illustrator's drawing of the two animals. */
  lemma FailureFallsBack(installed: bool, env: map<string, string>, api: ImageApi,
                         src: Source, hash: Hash, st: State, a: string, b: string, species: string)
    requires MakeClient(installed, env).Some?
    requires Payload(api(MakeClient(installed, env).value, Request(env, a, b, species))).None?
    ensures var r := GenerateAiImage(installed, env, api, src, hash, st, a, b, species);
            SourceOf(r.0) == Fallback && r.0 == Drawn(GenerateSvg(src, hash, st, a, b, species).0)
  {
  }
}
