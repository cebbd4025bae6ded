# urlshort — a Dafny model of the redirect dispatcher

The Go package `urlshort` turns a table of request paths into an HTTP
handler. A request whose path is in the table gets a `302 Found` redirect to
the mapped URL. Any other request goes to a fallback handler. The table
comes from a Go map, or it is decoded from a YAML or JSON list of
`{path, url}` entries, where a later entry for the same path overwrites an
earlier one.

Modules:

- `Wrappers` (wrappers.dfy): `Option` and `Result`.
- `Entries` (entries.dfy): the `Entry` record and `buildMap`. `Table` is the
  table as a function of the document, and `BuildMap` is the loop, proved
  equal to it. `LastUrl` is an independent per-path reading of "the last entry
  for this path wins". Lemmas tie it to the index of the last occurrence.
- `Dispatch` (dispatch.dfy): `MapHandler`, with a handler modelled as a total
  function from a `Request` to the `Response` it writes. There are lemmas for
  the hit and miss cases, for exact-path lookup and for nesting.
  `Chain` nests dispatchers the way `main/main.go` does by hand.
- `Formats` (formats.dfy): `YAMLHandler` and `JSONHandler`. The decoders
  (`parseYAML` and `parseJSON`, which wrap `yaml.Unmarshal` and
  `json.Unmarshal`) are passed in as `Decoder` parameters. Like Go's
  `([]Entry, error)`, a decoder returns the entries and an optional error.

Handlers are functions, and Dafny cannot conclude that two functions are
equal from their agreeing on every argument, so most statements that two
handlers behave the same are stated request by request.

## Model

| member | source | states |
|---|---|---|
| `Entries.LastUrl` | handler.go:42-44 | The last entry for a path gives a URL exactly when some entry carries that path; otherwise there is none. |
| `Entries.LastUrlIsLastOccurrence` | handler.go:42-44 | If entry i carries the path and no later entry does, LastUrl is entry i's URL. |
| `Entries.LastUrlHasLastOccurrence` | handler.go:42-44 | Whatever LastUrl returns is the URL of an entry carrying the path that no later entry for that path follows. |
| `Entries.Table` | handler.go:39-47 | The keys of the built table are exactly the paths in the document, and each key maps to the URL of its last entry. |
| `Entries.BuildMap` | handler.go:39-47 | The loop accepts every document and returns Table of it. So its keys are exactly the document's paths, and each value is the last entry's URL. |
| `Entries.EmptyTable` | handler.go:40-46 | An empty document gives an empty table. |
| `Entries.TableConcat` | handler.go:42-44 | For a document split into two parts, the table is the first part's table overridden key by key by the second part's. |
| `Entries.DuplicatePathLastWins` | handler.go:42-44 | Two entries for one path give a one-key table holding the later URL. |
| `Dispatch.MapHandler` | handler.go:16-25 | No ensures of its own: a lookup of the request path, then a redirect or a delegation. Its behaviour is stated by MapHandlerHit, MapHandlerMiss and Nesting. |
| `Dispatch.MapHandlerHit` | handler.go:18-21 | A request whose path is a key is redirected to the mapped URL with status 302. |
| `Dispatch.HitIgnoresFallback` | handler.go:19-21 | On a hit the response does not depend on the fallback: any two fallbacks give the same response. |
| `Dispatch.MapHandlerMiss` | handler.go:23 | A request whose path is not a key gets exactly the fallback's response to that same request. |
| `Dispatch.MapHandlerOnlyRedirects` | handler.go:16-24 | Every response is either a 302 redirect or the fallback's own response to the request. |
| `Dispatch.ExactPathLookup` | handler.go:18-19 | An entry for one path is never used for a request whose path differs from it in any way. |
| `Dispatch.TrailingSlashIsDistinct` | handler.go:18-19 | An entry for "/a" does not catch a request for "/a/": that request falls through to the fallback. |
| `Dispatch.Nesting` | handler.go:16-24 | A dispatcher over an outer table whose fallback is a dispatcher over an inner table works in three steps. It redirects by the outer table, else by the inner table, else it gives the innermost fallback's response. This equals one dispatcher over the inner table overridden by the outer one. |
| `Dispatch.Chain` | main/main.go:21-42 | No ensures of its own: dispatchers nested in list order over a terminal handler, as main.go wires two by hand. Its behaviour is stated by ChainIsOneDispatcher, ChainFirstTableWins and ChainMissReachesTerminal. |
| `Dispatch.Merged` | handler.go:16-24 | The merged table holds exactly the paths of the chain's tables. |
| `Dispatch.MergedFirstTableWins` | handler.go:16-24 | In the merged table, each path maps to its URL in the first table that holds it. |
| `Dispatch.ChainIsOneDispatcher` | handler.go:10-24 | Dispatchers nested to any depth behave as one dispatcher over the merged table. |
| `Dispatch.ChainFirstTableWins` | handler.go:16-24 | In a chain, the first table holding the path decides the redirect. |
| `Dispatch.ChainMissReachesTerminal` | handler.go:23 | A path held by no table in the chain reaches the terminal handler with the request unchanged. |
| `Formats.YAMLHandler` | handler.go:65-75 | No ensures of its own: decode, then build the table and wrap it, returning the decode error first. Its behaviour is stated by YAMLHandlerFails and YAMLHandlerBuilds. |
| `Formats.YAMLHandlerFails` | handler.go:66-70 | A decode error is returned unchanged and no handler is built, even if the decoder had produced some entries first. |
| `Formats.YAMLHandlerBuilds` | handler.go:72-74 | Without a decode error, the result is the MapHandler over buildMap of the decoded entries; it serves every request as MapHandler over buildMap of the decoded entries, with the given fallback. |
| `Formats.YAMLHandlerRedirectsToLastEntry` | handler.go:65-75 | A path of the decoded document is redirected with status 302 to the URL of its last entry. |
| `Formats.YAMLHandlerFallsThrough` | handler.go:65-75 | A path absent from the decoded document is served by the fallback unchanged. |
| `Formats.JSONHandler` | handler.go:84-94 | No ensures of its own: the same composition over the JSON decoder. Its behaviour is stated by JSONHandlerFails and JSONHandlerBuilds. |
| `Formats.JSONHandlerFails` | handler.go:85-89 | A decode error is returned unchanged and no handler is built, even if the decoder had produced some entries first. |
| `Formats.JSONHandlerBuilds` | handler.go:91-93 | Without a decode error, the result is the MapHandler over buildMap of the decoded entries; it serves every request as MapHandler over buildMap of the decoded entries, with the given fallback. |
| `Formats.JSONHandlerRedirectsToLastEntry` | handler.go:84-94 | A path of the decoded document is redirected with status 302 to the URL of its last entry. |
| `Formats.JSONHandlerFallsThrough` | handler.go:84-94 | A path absent from the decoded document is served by the fallback unchanged. |
| `Formats.FormatsAgree` | handler.go:65-94 | If both decoders give the same result, the two handlers fail together or behave the same on every request. |
| `Formats.DocumentSplitIsNesting` | handler.go:39-47 | For a document split into two parts, its handler equals the second part's dispatcher falling back to the first part's. |
| `Formats.MainChainScenario` | main/main.go:17-42 | Take the entrypoint's chain: the built-in YAML entries, over the two godoc links, over the mux. Each of the four keys is redirected to its URL, any other path reaches the mux, and the whole is the two-table Chain of the decoded table over the godoc links. |

## Left out

- The YAML and JSON grammars (`yaml.Unmarshal`, `json.Unmarshal`): they are library decoders. They enter the model as `Decoder` parameters, so nothing is proved about decoding itself. That includes round trips and the rejection of malformed input.
- `parseYAML` starts from an empty slice and `parseJSON` from a nil slice. `buildMap` treats both the same way, and Dafny has no nil slice, so the model does not tell them apart.
- `http.Redirect`'s mechanics: the `Location` header, the body text, and how a relative target is resolved against the request URL. A redirect is the target string with status 302.
- A handler is total: there is no nil fallback (in Go, `MapHandler`, `YAMLHandler` or `JSONHandler` built over a nil fallback panics on a miss at `fallback.ServeHTTP`) and no handler that panics or never returns a response. `MapHandlerMiss`, `ChainMissReachesTerminal` and the fall-through lemmas therefore assume a fallback that answers.
- `ResponseWriter` side effects: a handler is a function from the request to the whole response it writes.
- The request is reduced to method, path, query and body. Only the path is read by the dispatcher.
- All of `main/main.go` except the chain it builds: flag parsing, the file read (whose error is printed and then ignored), the `ServeMux` and its hello handler, and `ListenAndServe`. The mux is an arbitrary handler in `MainChainScenario`.
- Go's `make(map, len(...))` capacity hint: it does not affect the table's contents.
- MapHandler keeps the caller's map by reference; the model takes the table as a value, which matches Go as long as the caller does not write to the map afterwards.
- Per-request concurrency: the table is never changed after it is built, so nothing about it needs proving.
