/** `absoluteUrl` and `constructMetadata` of `src/lib/utils.ts`. */
module Utils {
  import opened Domain

  /** Where `absoluteUrl` runs: whether `window` is defined, and the values
      of `VERCEL_URL` and `PORT` (`None` when unset). */
  datatype Environment = Environment(windowDefined: bool, vercelUrl: Option<string>, port: Option<string>)

  /** `process.env.PORT ?? 3000` in a template: `??` replaces only an unset
      value, so an empty `PORT` stays empty. */
  function PortText(port: Option<string>): string {
    if port.Some? then port.value else "3000"
  }

  function AbsoluteUrl(path: string, env: Environment): (r: string)
    ensures env.windowDefined ==> r == path
    ensures !env.windowDefined && Truthy(env.vercelUrl) ==> r == "https://" + env.vercelUrl.value + path
    ensures !env.windowDefined && !Truthy(env.vercelUrl) ==> r == "http://localhost:" + PortText(env.port) + path
  {
    if env.windowDefined then path
    else if Truthy(env.vercelUrl) then "https://" + env.vercelUrl.value + path
    else "http://localhost:" + PortText(env.port) + path
  }

  /** The path always ends the result, and on the server it is preceded by
      an absolute origin. */
  lemma AbsoluteUrlShape(path: string, env: Environment)
    ensures var r := AbsoluteUrl(path, env);
      && |r| >= |path| && r[|r| - |path|..] == path
      && (!env.windowDefined ==>
            var https, local := "https://", "http://localhost:";
            || (|r| >= |https| && r[..|https|] == https)
            || (|r| >= |local| && r[..|local|] == local))
  {
    var r := AbsoluteUrl(path, env);
    if !env.windowDefined {
      var origin := if Truthy(env.vercelUrl) then "https://" + env.vercelUrl.value
                    else "http://localhost:" + PortText(env.port);
      assert r == origin + path;
      if Truthy(env.vercelUrl) {
        assert r == "https://" + (env.vercelUrl.value + path);
      } else {
        assert r == "http://localhost:" + (PortText(env.port) + path);
      }
    }
  }

  /** The optional arguments; `None` is an omitted argument. */
  datatype MetadataArgs = MetadataArgs(
    title: Option<string>, description: Option<string>, image: Option<string>,
    icons: Option<string>, noIndex: Option<bool>)

  /** The argument `constructMetadata()` defaults to: `{}`. */
  const NoArgs: MetadataArgs := MetadataArgs(None, None, None, None, None)

  const DefaultTitle: string := "mypdf-helper - chat with your pdf"
  const DefaultDescription: string :=
    "mypdf-helper is an AI-powered SaaS platform that lets users upload, index, and interact with PDF documents using OpenAI and Pinecone."
  const DefaultImage: string := "/HeroSection.png"
  const DefaultIcons: string := "/favicon.ico"
  const MetadataBase: string := "https://mypdf-helper.vercel.app/"

  datatype OpenGraphImage = OpenGraphImage(url: string)
  datatype OpenGraph = OpenGraph(title: string, description: string, images: seq<OpenGraphImage>)
  datatype Robots = Robots(index: bool, follow: bool)
  datatype Metadata = Metadata(
    title: string, description: string, openGraph: OpenGraph, icons: string,
    metadataBase: string, robots: Option<Robots>)

  function OrElse<T>(x: Option<T>, default: T): T {
    if x.Some? then x.value else default
  }

  function ConstructMetadata(args: MetadataArgs): (m: Metadata)
    ensures m.openGraph.title == m.title && m.openGraph.description == m.description
    ensures m.openGraph.images == [OpenGraphImage(OrElse(args.image, DefaultImage))]
    ensures m.title == OrElse(args.title, DefaultTitle)
    ensures m.description == OrElse(args.description, DefaultDescription)
    ensures m.icons == OrElse(args.icons, DefaultIcons)
    ensures m.metadataBase == MetadataBase
    ensures m.robots.Some? <==> OrElse(args.noIndex, false)
    ensures m.robots.Some? ==> m.robots.value == Robots(false, false)
  {
    var title := OrElse(args.title, DefaultTitle);
    var description := OrElse(args.description, DefaultDescription);
    var image := OrElse(args.image, DefaultImage);
    var icons := OrElse(args.icons, DefaultIcons);
    var noIndex := OrElse(args.noIndex, false);
    Metadata(title, description, OpenGraph(title, description, [OpenGraphImage(image)]), icons,
             MetadataBase, if noIndex then Some(Robots(false, false)) else None)
  }

  /** With no arguments every field takes its declared default and the page
      may be indexed. */
  lemma DefaultMetadata()
    ensures var m := ConstructMetadata(NoArgs);
      && m.title == DefaultTitle && m.description == DefaultDescription
      && m.openGraph == OpenGraph(DefaultTitle, DefaultDescription, [OpenGraphImage(DefaultImage)])
      && m.icons == DefaultIcons && m.robots.None?
  {
  }

  /** `noIndex` only adds the robots directive: every other field is the same. */
  lemma NoIndexOnlyAddsRobots(args: MetadataArgs)
    ensures ConstructMetadata(args.(noIndex := Some(true)))
            == ConstructMetadata(args.(noIndex := Some(false))).(robots := Some(Robots(false, false)))
    ensures ConstructMetadata(args.(noIndex := None)) == ConstructMetadata(args.(noIndex := Some(false)))
  {
  }
}
