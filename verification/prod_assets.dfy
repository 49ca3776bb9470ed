/**
 * The fallback of the production router: serves the embedded client build,
 * falling back to `index.html` for every path that names no asset, and
 * answering 404 only when the index itself is missing.
 */
module ProdAssets {
  type Bytes = seq<bv8>

  /** The embedded `client/dist` folder, by path relative to it. */
  type Assets = map<string, Bytes>

  const IndexHtml := "index.html"
  const HtmlContentType := "text/html; charset=utf-8"
  const TextContentType := "text/plain; charset=utf-8"
  const OctetStream := "application/octet-stream"
  const NotFoundBody := "Server Error: 404"

  datatype Body = Data(bytes: Bytes) | Text(text: string)

  datatype Response = Response(status: nat, contentType: string, body: Body)

  /** `trim_start_matches('/')`: every leading `/` removed. */
  function TrimLeadingSlashes(path: string): (r: string)
    ensures |r| <= |path| && r == path[|path| - |r|..]
    ensures forall i :: 0 <= i < |path| - |r| ==> path[i] == '/'
    ensures r == [] || r[0] != '/'
  {
    if path != [] && path[0] == '/' then TrimLeadingSlashes(path[1..]) else path
  }

  /** `not_found`: the plain-text 404. */
  function NotFound(): (r: Response)
    ensures r.status == 404 && r.body == Text(NotFoundBody)
  {
    Response(404, TextContentType, Text(NotFoundBody))
  }

  /** `index_html`: the embedded index as HTML, or the 404 when it is missing. */
  function IndexResponse(assets: Assets): (r: Response)
    ensures IndexHtml in assets ==> r == Response(200, HtmlContentType, Data(assets[IndexHtml]))
    ensures IndexHtml !in assets ==> r == NotFound()
  {
    if IndexHtml in assets then Response(200, HtmlContentType, Data(assets[IndexHtml])) else NotFound()
  }

  /**
   * `static_handler`: the request path without its leading slashes names the
   * asset; the empty path and `index.html` are the index; an unknown asset
   * falls back to the index. `mimeGuesses` is `mime_guess::from_path`.
   */
  function StaticHandler(uriPath: string, assets: Assets, mimeGuesses: string -> seq<string>): (r: Response)
    ensures var path := TrimLeadingSlashes(uriPath);
            path != "" && path != IndexHtml && path in assets ==>
              && r.status == 200 && r.body == Data(assets[path])
              && r.contentType == (if mimeGuesses(path) == [] then OctetStream else mimeGuesses(path)[0])
    ensures var path := TrimLeadingSlashes(uriPath);
            path == "" || path == IndexHtml || path !in assets ==> r == IndexResponse(assets)
  {
    var path := TrimLeadingSlashes(uriPath);
    if path == "" || path == IndexHtml then IndexResponse(assets)
    else if path in assets then
      var mime := if mimeGuesses(path) == [] then OctetStream else mimeGuesses(path)[0];
      Response(200, mime, Data(assets[path]))
    else IndexResponse(assets)
  }

  /** The handler answers 404 exactly when the index is missing and no other asset is served. */
  lemma NotFoundOnlyWithoutIndex(uriPath: string, assets: Assets, mimeGuesses: string -> seq<string>)
    ensures StaticHandler(uriPath, assets, mimeGuesses).status == 404 <==>
            && IndexHtml !in assets
            && (TrimLeadingSlashes(uriPath) == "" || TrimLeadingSlashes(uriPath) !in assets)
  {
  }

  /** With the index present, every request is answered with status 200. */
  lemma IndexPresentAlwaysOk(uriPath: string, assets: Assets, mimeGuesses: string -> seq<string>)
    requires IndexHtml in assets
    ensures StaticHandler(uriPath, assets, mimeGuesses).status == 200
  {
  }

  /** Leading slashes never matter: `/x`, `//x` and `x` are the same request. */
  lemma {:induction false} LeadingSlashesIgnored(uriPath: string, n: nat, assets: Assets, mimeGuesses: string -> seq<string>)
    ensures StaticHandler(Slashes(n) + uriPath, assets, mimeGuesses) == StaticHandler(uriPath, assets, mimeGuesses)
  {
    TrimAfterSlashes(n, uriPath);
  }

  function Slashes(n: nat): (r: string)
    ensures |r| == n && forall i :: 0 <= i < n ==> r[i] == '/'
  {
    if n == 0 then "" else "/" + Slashes(n - 1)
  }

  lemma {:induction false} TrimAfterSlashes(n: nat, path: string)
    ensures TrimLeadingSlashes(Slashes(n) + path) == TrimLeadingSlashes(path)
  {
    if n > 0 {
      var s := Slashes(n) + path;
      assert s == "/" + (Slashes(n - 1) + path);
      assert s[1..] == Slashes(n - 1) + path;
      assert TrimLeadingSlashes(s) == TrimLeadingSlashes(s[1..]);
      TrimAfterSlashes(n - 1, path);
    } else {
      assert Slashes(n) + path == path;
    }
  }
}
