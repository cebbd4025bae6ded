/** `MapHandler`: a request handler that redirects the paths of a table
    and hands every other request to a fallback handler. Handlers are
    modelled as total functions from a request to the response written. */
module Dispatch {

  /** The parts of an HTTP request a handler may look at. The dispatcher
      reads only `path` (Go's `r.URL.Path`); the rest reaches the fallback. */
  datatype Request = Request(verb: string, path: string, query: string, body: string)

  /** What a handler writes back: a redirect, or any other response that
      some handler (the fallback at the end of a chain) chose to write. */
  datatype Response =
    | Redirect(location: string, status: int)
    | Written(status: int, headers: map<string, string>, body: string)

  /** Go's `http.Handler`: serving a request produces a response. */
  type Handler = Request -> Response

  /** `http.StatusFound`. */
  const StatusFound: int := 302

  /** MapHandler: look the request path up verbatim; on a hit redirect to
      the mapped URL with status 302, on a miss serve the request with the
      fallback unchanged. */
  function MapHandler(pathsToUrls: map<string, string>, fallback: Handler): Handler
  {
    (req: Request) => if req.path in pathsToUrls then Redirect(pathsToUrls[req.path], StatusFound)
                      else fallback(req)
  }

  /** A hit redirects to the mapped URL with status 302. */
  lemma MapHandlerHit(pathsToUrls: map<string, string>, fallback: Handler, req: Request)
    requires req.path in pathsToUrls
    ensures MapHandler(pathsToUrls, fallback)(req) == Redirect(pathsToUrls[req.path], StatusFound)
  {
  }

  /** On a hit the fallback is not consulted: any two fallbacks give the
      same response. */
  lemma HitIgnoresFallback(pathsToUrls: map<string, string>, f: Handler, g: Handler, req: Request)
    requires req.path in pathsToUrls
    ensures MapHandler(pathsToUrls, f)(req) == MapHandler(pathsToUrls, g)(req)
  {
  }

  /** A miss is exactly the fallback's response to the same request. */
  lemma MapHandlerMiss(pathsToUrls: map<string, string>, fallback: Handler, req: Request)
    requires req.path !in pathsToUrls
    ensures MapHandler(pathsToUrls, fallback)(req) == fallback(req)
  {
  }

  /** The dispatcher itself writes nothing but 302 redirects: any other
      response comes from the fallback, for the same request. */
  lemma MapHandlerOnlyRedirects(pathsToUrls: map<string, string>, fallback: Handler, req: Request)
    ensures var resp := MapHandler(pathsToUrls, fallback)(req);
      (resp.Redirect? && resp.status == StatusFound) || resp == fallback(req)
  {
  }

  /** The key is the path exactly as received: a table entry for one path
      says nothing about any other path, however similar. */
  lemma ExactPathLookup(path: string, url: string, fallback: Handler, req: Request)
    requires req.path != path
    ensures MapHandler(map[path := url], fallback)(req) == fallback(req)
  {
  }

  /** No trailing-slash folding: an entry for "/a" does not catch "/a/". */
  lemma TrailingSlashIsDistinct(url: string, fallback: Handler, req: Request)
    requires req.path == "/a/"
    ensures MapHandler(map["/a" := url], fallback)(req) == fallback(req)
  {
    assert req.path[2] == '/';
  }

  /** A dispatcher whose fallback is another dispatcher tries its own table
      first, then the inner table, then the inner fallback; this is one
      dispatcher over the inner table overridden by the outer one. */
  lemma Nesting(outer: map<string, string>, inner: map<string, string>, fallback: Handler, req: Request)
    ensures MapHandler(outer, MapHandler(inner, fallback))(req) ==
      if req.path in outer then Redirect(outer[req.path], StatusFound)
      else if req.path in inner then Redirect(inner[req.path], StatusFound)
      else fallback(req)
    ensures MapHandler(outer, MapHandler(inner, fallback))(req) == MapHandler(inner + outer, fallback)(req)
  {
  }

  /** Dispatchers nested in list order: the first table is outermost and
      the terminal handler is innermost. */
  function Chain(tables: seq<map<string, string>>, terminal: Handler): Handler
    decreases |tables|
  {
    if tables == [] then terminal
    else MapHandler(tables[0], Chain(tables[1..], terminal))
  }

  /** The tables of a chain merged into one, earlier tables taking
      precedence on a shared path. */
  function Merged(tables: seq<map<string, string>>): (m: map<string, string>)
    ensures forall p :: p in m <==> exists i :: 0 <= i < |tables| && p in tables[i]
    decreases |tables|
  {
    if tables == [] then map[]
    else
      var rest := Merged(tables[1..]);
      assert forall i :: 0 < i < |tables| ==> tables[i] == tables[1..][i - 1];
      rest + tables[0]
  }

  /** In the merged table a path maps to its URL in the first table that
      holds it. */
  lemma {:induction false} MergedFirstTableWins(tables: seq<map<string, string>>, p: string, i: int)
    requires 0 <= i < |tables| && p in tables[i]
    requires forall j :: 0 <= j < i ==> p !in tables[j]
    ensures p in Merged(tables) && Merged(tables)[p] == tables[i][p]
    decreases i
  {
    if i > 0 {
      MergedFirstTableWins(tables[1..], p, i - 1);
    }
  }

  /** A chain behaves as a single dispatcher over the merged table. */
  lemma {:induction false} ChainIsOneDispatcher(tables: seq<map<string, string>>, terminal: Handler, req: Request)
    ensures Chain(tables, terminal)(req) == MapHandler(Merged(tables), terminal)(req)
    decreases |tables|
  {
    if tables != [] {
      ChainIsOneDispatcher(tables[1..], terminal, req);
      Nesting(tables[0], Merged(tables[1..]), terminal, req);
    }
  }

  /** In a chain the first table holding the path decides the redirect;
      when none holds it the terminal handler serves the request. */
  lemma {:induction false} ChainFirstTableWins(tables: seq<map<string, string>>, terminal: Handler, req: Request, i: int)
    requires 0 <= i < |tables| && req.path in tables[i]
    requires forall j :: 0 <= j < i ==> req.path !in tables[j]
    ensures Chain(tables, terminal)(req) == Redirect(tables[i][req.path], StatusFound)
    decreases i
  {
    if i > 0 {
      ChainFirstTableWins(tables[1..], terminal, req, i - 1);
    }
  }

  lemma {:induction false} ChainMissReachesTerminal(tables: seq<map<string, string>>, terminal: Handler, req: Request)
    requires forall j :: 0 <= j < |tables| ==> req.path !in tables[j]
    ensures Chain(tables, terminal)(req) == terminal(req)
    decreases |tables|
  {
    if tables != [] {
      ChainMissReachesTerminal(tables[1..], terminal, req);
    }
  }
}
