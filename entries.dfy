/** The entry records of a redirect document and `buildMap`, which folds
    them into the path-to-URL table in document order. */
module Entries {
  import opened Wrappers

  /** One record of the document: a request path and its redirect target.
      Neither field is validated. */
  datatype Entry = Entry(path: string, url: string)

  /** Every path that some entry carries. */
  function Paths(entries: seq<Entry>): set<string>
  {
    set e | e in entries :: e.path
  }

  lemma PathsSnoc(entries: seq<Entry>)
    requires entries != []
    ensures Paths(entries) == Paths(entries[..|entries| - 1]) + {entries[|entries| - 1].path}
  {
    var n := |entries| - 1;
    assert entries == entries[..n] + [entries[n]];
  }

  /** The URL of the last entry for `path`, scanning from the end of the
      document; None when no entry carries `path`. */
  function LastUrl(entries: seq<Entry>, path: string): (r: Option<string>)
    ensures r.Some? <==> path in Paths(entries)
  {
    if entries == [] then None
    else
      var n := |entries| - 1;
      PathsSnoc(entries);
      if entries[n].path == path then Some(entries[n].url)
      else LastUrl(entries[..n], path)
  }

  /** Entry `i` carries `path` and no later entry does. */
  ghost predicate IsLastFor(entries: seq<Entry>, i: int, path: string)
  {
    && 0 <= i < |entries|
    && entries[i].path == path
    && forall j :: i < j < |entries| ==> entries[j].path != path
  }

  /** LastUrl agrees with the index-based reading of "last occurrence". */
  lemma {:induction false} LastUrlIsLastOccurrence(entries: seq<Entry>, path: string, i: int)
    requires IsLastFor(entries, i, path)
    ensures LastUrl(entries, path) == Some(entries[i].url)
    decreases |entries|
  {
    var n := |entries| - 1;
    if i < n {
      assert entries[n].path != path;
      LastUrlIsLastOccurrence(entries[..n], path, i);
    }
  }

  /** Conversely, whatever LastUrl returns is the URL of a last occurrence. */
  lemma {:induction false} LastUrlHasLastOccurrence(entries: seq<Entry>, path: string)
    requires LastUrl(entries, path).Some?
    ensures exists i :: IsLastFor(entries, i, path) && entries[i].url == LastUrl(entries, path).value
    decreases |entries|
  {
    var n := |entries| - 1;
    if entries[n].path == path {
      assert IsLastFor(entries, n, path);
    } else {
      LastUrlHasLastOccurrence(entries[..n], path);
      var i :| IsLastFor(entries[..n], i, path) && entries[..n][i].url == LastUrl(entries[..n], path).value;
      assert IsLastFor(entries, i, path);
    }
  }

  /** The table buildMap produces, as a function of the document: every
      entry in order overwrites the slot of its path. */
  function Table(entries: seq<Entry>): (table: map<string, string>)
    ensures table.Keys == Paths(entries)
    ensures forall p :: p in table ==> LastUrl(entries, p) == Some(table[p])
  {
    if entries == [] then map[]
    else
      var n := |entries| - 1;
      PathsSnoc(entries);
      Table(entries[..n])[entries[n].path := entries[n].url]
  }

  /** buildMap: one pass over the document, writing each entry into the
      table; it accepts every document, the empty one included. */
  method BuildMap(parsed: seq<Entry>) returns (doc: map<string, string>)
    ensures doc == Table(parsed)
    ensures doc.Keys == Paths(parsed)
    ensures forall p :: p in doc ==> LastUrl(parsed, p) == Some(doc[p])
  {
    doc := map[];
    for i := 0 to |parsed|
      invariant doc == Table(parsed[..i])
    {
      assert parsed[..i + 1][..i] == parsed[..i];
      doc := doc[parsed[i].path := parsed[i].url];
    }
    assert parsed[..|parsed|] == parsed;
  }

  /** The empty document gives the empty table. */
  lemma EmptyTable()
    ensures Table([]) == map[]
  {
  }

  /** A document split in two: the second part's entries override the
      first part's, key by key. */
  lemma {:induction false} TableConcat(first: seq<Entry>, second: seq<Entry>)
    ensures Table(first + second) == Table(first) + Table(second)
    decreases |second|
  {
    if second == [] {
      assert first + second == first;
    } else {
      var n := |second| - 1;
      var last := second[n];
      var whole := first + second;
      assert whole[..|whole| - 1] == first + second[..n];
      assert whole[|whole| - 1] == last;
      assert Table(whole) == Table(first + second[..n])[last.path := last.url];
      assert Table(second) == Table(second[..n])[last.path := last.url];
      TableConcat(first, second[..n]);
      UpdateAfterUnion(Table(first), Table(second[..n]), last.path, last.url);
    }
  }

  lemma UpdateAfterUnion(a: map<string, string>, b: map<string, string>, k: string, v: string)
    ensures (a + b)[k := v] == a + b[k := v]
  {
  }

  /** Two entries for the same path: the later one is kept. */
  lemma DuplicatePathLastWins(path: string, earlier: string, later: string)
    ensures Table([Entry(path, earlier), Entry(path, later)]) == map[path := later]
  {
    var doc := [Entry(path, earlier), Entry(path, later)];
    assert doc[..1] == [Entry(path, earlier)];
    assert doc[..1][..0] == [];
  }
}
