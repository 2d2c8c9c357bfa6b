/**
 * The shared HTTP client: its base address and how an endpoint is joined
 * onto it. Sessions and the GET itself are effects outside this model.
 */
module BaseClient {

  /** A client as constructed: only `base_url` matters to URL building. */
  datatype Client = Client(baseUrl: string)

  /** `base_url or self.BASE_URL`: an omitted or empty base falls back to the class default. */
  function NewClient(baseUrl: BaseUrlArg, classBase: string): (c: Client)
    ensures baseUrl.Given? && baseUrl.url != "" ==> c.baseUrl == baseUrl.url
    ensures baseUrl.Omitted? || baseUrl.url == "" ==> c.baseUrl == classBase
  {
    if baseUrl.Given? && baseUrl.url != "" then Client(baseUrl.url) else Client(classBase)
  }

  /** The optional `base_url` argument. */
  datatype BaseUrlArg = Omitted | Given(url: string)

  predicate StartsWith(s: string, prefix: string) {
    |prefix| <= |s| && s[..|prefix|] == prefix
  }

  /** `rstrip('/')`. */
  function TrimRight(s: string): (r: string)
    ensures |r| <= |s| && r == s[..|r|]
    ensures r == [] || r[|r| - 1] != '/'
    ensures forall i :: |r| <= i < |s| ==> s[i] == '/'
  {
    if s != [] && s[|s| - 1] == '/' then TrimRight(s[..|s| - 1]) else s
  }

  /** `lstrip('/')`. */
  function TrimLeft(s: string): (r: string)
    ensures |r| <= |s| && r == s[|s| - |r|..]
    ensures r == [] || r[0] != '/'
    ensures forall i :: 0 <= i < |s| - |r| ==> s[i] == '/'
  {
    if s != [] && s[0] == '/' then TrimLeft(s[1..]) else s
  }

  /** `_build_url`: absolute endpoints pass through; others are joined with exactly one slash. */
  function BuildUrl(c: Client, endpoint: string): string {
    if StartsWith(endpoint, "http") then endpoint
    else TrimRight(c.baseUrl) + "/" + TrimLeft(endpoint)
  }

  /** An endpoint that is itself an absolute URL comes back unchanged. */
  lemma AbsoluteEndpoint(c: Client, endpoint: string)
    requires StartsWith(endpoint, "http")
    ensures BuildUrl(c, endpoint) == endpoint
  {
  }

  /**
   * A relative endpoint gives the base without its trailing slashes, one
   * slash, and the endpoint without its leading slashes, so the junction
   * holds exactly one `/` however many either side had.
   */
  lemma JoinHasOneSlash(c: Client, endpoint: string)
    requires !StartsWith(endpoint, "http")
    ensures var base := TrimRight(c.baseUrl);
      var url := BuildUrl(c, endpoint);
      && |url| == |base| + 1 + |TrimLeft(endpoint)|
      && url[..|base|] == base
      && url[|base|] == '/'
      && url[|base| + 1..] == TrimLeft(endpoint)
      && (|base| > 0 ==> url[|base| - 1] != '/')
      && (|url| > |base| + 1 ==> url[|base| + 1] != '/')
  {
    var base, tail := TrimRight(c.baseUrl), TrimLeft(endpoint);
    SlashJoin(base, tail);
  }

  /** The parts of `base + "/" + tail`. */
  lemma SlashJoin(base: string, tail: string)
    ensures var url := base + "/" + tail;
      && |url| == |base| + 1 + |tail|
      && url[..|base|] == base && url[|base|] == '/' && url[|base| + 1..] == tail
      && (|base| > 0 ==> url[|base| - 1] == base[|base| - 1])
      && (tail != [] ==> url[|base| + 1] == tail[0])
  {
    var url := base + "/" + tail;
    assert url[..|base|] == base;
    assert url[|base| + 1..] == tail;
  }

  /** With an `http…` base, building from an already-built URL returns it unchanged. */
  lemma BuildUrlIdempotent(c: Client, endpoint: string)
    requires StartsWith(c.baseUrl, "http")
    ensures BuildUrl(c, BuildUrl(c, endpoint)) == BuildUrl(c, endpoint)
  {
    if !StartsWith(endpoint, "http") {
      var base := TrimRight(c.baseUrl);
      var url := BuildUrl(c, endpoint);
      assert c.baseUrl[3] == "http"[3] == 'p';
      assert |base| >= 4;
      assert base[..4] == c.baseUrl[..4];
      assert url[..4] == base[..4];
    }
  }
}
