/** `YAMLHandler` and `JSONHandler`: decode a document of entries, build
    the table and wrap it in a `MapHandler`, stopping at the first error.
    The YAML and JSON decoders are library code and enter as parameters. */
module Formats {
  import opened Wrappers
  import opened Entries
  import opened Dispatch

  type byte = bv8

  /** An error reported by a decoder. */
  datatype ParseError = ParseError(message: string)

  /** What a decoder hands back, as Go's `([]Entry, error)`: the entries it
      decoded and an error, if any. A decoder may fill part of the document
      before it meets an error, so `doc` need not be empty when `err` is set. */
  datatype Decoded = Decoded(doc: seq<Entry>, err: Option<ParseError>)

  /** The role of `parseYAML` and `parseJSON`: bytes in, entries out. */
  type Decoder = seq<byte> -> Decoded

  /** YAMLHandler: the error of `parseYAML` if it reports one, otherwise a
      dispatcher over the table built from the decoded entries. */
  function YAMLHandler(yml: seq<byte>, fallback: Handler, parseYAML: Decoder): Result<Handler, ParseError>
  {
    var parsed := parseYAML(yml);
    if parsed.err.Some? then Failure(parsed.err.value)
    else Success(MapHandler(Table(parsed.doc), fallback))
  }

  /** JSONHandler: the same composition over `parseJSON`. */
  function JSONHandler(jsonBytes: seq<byte>, fallback: Handler, parseJSON: Decoder): Result<Handler, ParseError>
  {
    var parsed := parseJSON(jsonBytes);
    if parsed.err.Some? then Failure(parsed.err.value)
    else Success(MapHandler(Table(parsed.doc), fallback))
  }

  /** A decode error is returned as is and no handler is built, whatever
      entries the decoder had produced before failing. */
  lemma YAMLHandlerFails(yml: seq<byte>, fallback: Handler, parseYAML: Decoder)
    requires parseYAML(yml).err.Some?
    ensures YAMLHandler(yml, fallback, parseYAML) == Failure(parseYAML(yml).err.value)
  {
  }

  /** Without a decode error the result is a handler that serves every
      request as MapHandler over buildMap of the decoded entries. */
  lemma YAMLHandlerBuilds(yml: seq<byte>, fallback: Handler, parseYAML: Decoder)
    requires parseYAML(yml).err.None?
    ensures YAMLHandler(yml, fallback, parseYAML) == Success(MapHandler(Table(parseYAML(yml).doc), fallback))
    ensures forall req :: YAMLHandler(yml, fallback, parseYAML).value(req)
                          == MapHandler(Table(parseYAML(yml).doc), fallback)(req)
  {
  }

  /** A request for a path of the document is redirected, with status 302,
      to the URL of the last entry carrying that path. */
  lemma YAMLHandlerRedirectsToLastEntry(yml: seq<byte>, fallback: Handler, parseYAML: Decoder, req: Request)
    requires parseYAML(yml).err.None?
    requires req.path in Paths(parseYAML(yml).doc)
    ensures YAMLHandler(yml, fallback, parseYAML).Success?
    ensures YAMLHandler(yml, fallback, parseYAML).value(req)
            == Redirect(LastUrl(parseYAML(yml).doc, req.path).value, StatusFound)
  {
    var doc := parseYAML(yml).doc;
    assert req.path in Table(doc);
  }

  /** A request for any other path is served by the fallback unchanged. */
  lemma YAMLHandlerFallsThrough(yml: seq<byte>, fallback: Handler, parseYAML: Decoder, req: Request)
    requires parseYAML(yml).err.None?
    requires req.path !in Paths(parseYAML(yml).doc)
    ensures YAMLHandler(yml, fallback, parseYAML).Success?
    ensures YAMLHandler(yml, fallback, parseYAML).value(req) == fallback(req)
  {
  }

  lemma JSONHandlerFails(jsonBytes: seq<byte>, fallback: Handler, parseJSON: Decoder)
    requires parseJSON(jsonBytes).err.Some?
    ensures JSONHandler(jsonBytes, fallback, parseJSON) == Failure(parseJSON(jsonBytes).err.value)
  {
  }

  lemma JSONHandlerBuilds(jsonBytes: seq<byte>, fallback: Handler, parseJSON: Decoder)
    requires parseJSON(jsonBytes).err.None?
    ensures JSONHandler(jsonBytes, fallback, parseJSON) == Success(MapHandler(Table(parseJSON(jsonBytes).doc), fallback))
    ensures forall req :: JSONHandler(jsonBytes, fallback, parseJSON).value(req)
                          == MapHandler(Table(parseJSON(jsonBytes).doc), fallback)(req)
  {
  }

  lemma JSONHandlerRedirectsToLastEntry(jsonBytes: seq<byte>, fallback: Handler, parseJSON: Decoder, req: Request)
    requires parseJSON(jsonBytes).err.None?
    requires req.path in Paths(parseJSON(jsonBytes).doc)
    ensures JSONHandler(jsonBytes, fallback, parseJSON).Success?
    ensures JSONHandler(jsonBytes, fallback, parseJSON).value(req)
            == Redirect(LastUrl(parseJSON(jsonBytes).doc, req.path).value, StatusFound)
  {
    var doc := parseJSON(jsonBytes).doc;
    assert req.path in Table(doc);
  }

  lemma JSONHandlerFallsThrough(jsonBytes: seq<byte>, fallback: Handler, parseJSON: Decoder, req: Request)
    requires parseJSON(jsonBytes).err.None?
    requires req.path !in Paths(parseJSON(jsonBytes).doc)
    ensures JSONHandler(jsonBytes, fallback, parseJSON).Success?
    ensures JSONHandler(jsonBytes, fallback, parseJSON).value(req) == fallback(req)
  {
  }

  /** The same document in either format gives the same handler: the two
      functions differ only in the decoder they are handed. */
  lemma FormatsAgree(yml: seq<byte>, jsonBytes: seq<byte>, fallback: Handler,
                     parseYAML: Decoder, parseJSON: Decoder, req: Request)
    requires parseYAML(yml) == parseJSON(jsonBytes)
    ensures YAMLHandler(yml, fallback, parseYAML).Failure? == JSONHandler(jsonBytes, fallback, parseJSON).Failure?
    ensures YAMLHandler(yml, fallback, parseYAML).Success? ==>
      YAMLHandler(yml, fallback, parseYAML).value(req) == JSONHandler(jsonBytes, fallback, parseJSON).value(req)
  {
  }

  /** A document read as two halves: the handler built from the whole is
      the handler of the second half falling back to that of the first. */
  lemma {:induction false} DocumentSplitIsNesting(first: seq<Entry>, second: seq<Entry>, fallback: Handler, req: Request)
    ensures MapHandler(Table(first + second), fallback)(req)
            == MapHandler(Table(second), MapHandler(Table(first), fallback))(req)
  {
    TableConcat(first, second);
    Nesting(Table(second), Table(first), fallback, req);
  }

  /** The chain that main/main.go wires up: the built-in YAML document,
      falling back to the two godoc links, falling back to the mux. */
  lemma MainChainScenario(yamlBytes: seq<byte>, mux: Handler, parseYAML: Decoder, req: Request)
    requires parseYAML(yamlBytes) == Decoded([
      Entry("/urlshort", "https://github.com/gophercises/urlshort"),
      Entry("/urlshort-final", "https://github.com/gophercises/urlshort/tree/solution")], None)
    ensures var pathsToUrls := map[
        "/urlshort-godoc" := "https://godoc.org/github.com/gophercises/urlshort",
        "/yaml-godoc" := "https://godoc.org/gopkg.in/yaml.v2"];
      var built := YAMLHandler(yamlBytes, MapHandler(pathsToUrls, mux), parseYAML);
      && built.Success?
      && (req.path == "/urlshort" ==> built.value(req) == Redirect("https://github.com/gophercises/urlshort", StatusFound))
      && (req.path == "/urlshort-final" ==>
            built.value(req) == Redirect("https://github.com/gophercises/urlshort/tree/solution", StatusFound))
      && (req.path == "/urlshort-godoc" ==>
            built.value(req) == Redirect("https://godoc.org/github.com/gophercises/urlshort", StatusFound))
      && (req.path == "/yaml-godoc" ==> built.value(req) == Redirect("https://godoc.org/gopkg.in/yaml.v2", StatusFound))
      && (req.path !in {"/urlshort", "/urlshort-final", "/urlshort-godoc", "/yaml-godoc"} ==> built.value(req) == mux(req))
      && built.value(req) == Chain([Table(parseYAML(yamlBytes).doc), pathsToUrls], mux)(req)
  {
    var doc := parseYAML(yamlBytes).doc;
    assert doc[..1] == [doc[0]];
    assert doc[..1][..0] == [];
    assert Table(doc) == map["/urlshort" := doc[0].url, "/urlshort-final" := doc[1].url];
    var pathsToUrls := map[
        "/urlshort-godoc" := "https://godoc.org/github.com/gophercises/urlshort",
        "/yaml-godoc" := "https://godoc.org/gopkg.in/yaml.v2"];
    var tables := [Table(doc), pathsToUrls];
    assert tables[1..] == [pathsToUrls] && tables[1..][1..] == [];
    assert Chain(tables[1..][1..], mux) == mux;
    assert Chain(tables[1..], mux) == MapHandler(pathsToUrls, mux);
    assert Chain(tables, mux) == MapHandler(Table(doc), MapHandler(pathsToUrls, mux));
  }
}
