/**
 * The layer loop of `Client::pull`: every manifest layer whose digest is in
 * neither the Wasm store nor the data store of the local cache is fetched
 * from the registry and written to the Wasm store when its media type is the
 * Wasm layer media type, and to the data store otherwise.
 *
 * Fetching a blob is a parameter: `fetch(d)` is the blob's bytes, or None
 * when `pull_blob` fails, which ends the loop.
 */
module Pulling {
  import opened Wrappers
  import opened Text
  import opened Distribution

  /** A content store of the cache: digest to blob. */
  type Store = map<Digest, seq<byte>>

  /**
   * Where the layer loop stops: both stores, the digests fetched, in order,
   * and the digest whose fetch failed, if one did.
   */
  datatype Pulled = Pulled(wasm: Store, data: Store, fetched: seq<Digest>, missing: Option<Digest>)

  /** The loop, from the stores and the digests fetched so far. */
  function PullFrom(layers: seq<Descriptor>, wasm: Store, data: Store, fetched: seq<Digest>,
                    fetch: Digest -> Option<seq<byte>>): Pulled
    decreases |layers|
  {
    if |layers| == 0 then Pulled(wasm, data, fetched, None)
    else
      var d := layers[0].digest;
      if d in wasm || d in data then PullFrom(layers[1..], wasm, data, fetched, fetch)
      else match fetch(d)
        case None => Pulled(wasm, data, fetched, Some(d))
        case Some(bytes) =>
          if layers[0].mediaType == WasmLayerMediaType then
            PullFrom(layers[1..], wasm[d := bytes], data, fetched + [d], fetch)
          else
            PullFrom(layers[1..], wasm, data[d := bytes], fetched + [d], fetch)
  }

  // ---------------------------------------------------------------------
  // Reference descriptions

  /**
   * The digests a loop over `layers` has to fetch when the digests in
   * `known` are cached: each digest not yet known, once, in order of first
   * appearance.
   */
  function Misses(layers: seq<Descriptor>, known: set<Digest>): seq<Digest>
    decreases |layers|
  {
    if |layers| == 0 then []
    else if layers[0].digest in known then Misses(layers[1..], known)
    else [layers[0].digest] + Misses(layers[1..], known + {layers[0].digest})
  }

  /** The media type of the first layer with a digest. */
  function FirstMediaType(layers: seq<Descriptor>, d: Digest): Option<string>
    decreases |layers|
  {
    if |layers| == 0 then None
    else if layers[0].digest == d then Some(layers[0].mediaType)
    else FirstMediaType(layers[1..], d)
  }

  /** No digest occurs twice. */
  predicate Distinct(ds: seq<Digest>)
  {
    forall i, j :: 0 <= i < j < |ds| ==> ds[i] != ds[j]
  }

  /** `big` holds every entry of `small`, unchanged. */
  predicate Keeps(small: Store, big: Store)
  {
    forall d <- small :: d in big && big[d] == small[d]
  }

  // ---------------------------------------------------------------------
  // Lemmas about the reference descriptions

  /** A miss is not known beforehand, and no miss is listed twice. */
  lemma {:induction false} MissesFresh(layers: seq<Descriptor>, known: set<Digest>)
    ensures forall d <- Misses(layers, known) :: d !in known
    ensures Distinct(Misses(layers, known))
    decreases |layers|
  {
    if |layers| > 0 {
      var d := layers[0].digest;
      if d in known {
        MissesFresh(layers[1..], known);
      } else {
        MissesFresh(layers[1..], known + {d});
        var rest := Misses(layers[1..], known + {d});
        assert Misses(layers, known) == [d] + rest;
        assert d !in rest;
      }
    }
  }

  /** Every digest of the layers is either known or a miss. */
  lemma {:induction false} MissesCover(layers: seq<Descriptor>, known: set<Digest>)
    ensures forall i :: 0 <= i < |layers| ==> layers[i].digest in known || layers[i].digest in Misses(layers, known)
    decreases |layers|
  {
    if |layers| > 0 {
      var d := layers[0].digest;
      var k' := if d in known then known else known + {d};
      MissesCover(layers[1..], k');
      forall i | 0 <= i < |layers|
        ensures layers[i].digest in known || layers[i].digest in Misses(layers, known)
      {
        if i > 0 {
          assert layers[i] == layers[1..][i - 1];
        }
      }
    }
  }

  // ---------------------------------------------------------------------
  // Lemmas about the loop

  /**
   * The loop fetches exactly the misses, in order, until the first miss the
   * registry cannot serve; it stops there and reports that digest, which is
   * the miss right after the ones it fetched.
   */
  lemma {:induction false} PullFetchesMisses(layers: seq<Descriptor>, wasm: Store, data: Store, fetched: seq<Digest>,
                                             fetch: Digest -> Option<seq<byte>>)
    ensures var r := PullFrom(layers, wasm, data, fetched, fetch);
      var misses := Misses(layers, wasm.Keys + data.Keys);
      && r.fetched <= fetched + misses
      && (r.missing.None? <==> forall d <- misses :: fetch(d).Some?)
      && (r.missing.None? ==> r.fetched == fetched + misses)
      && (r.missing.Some? ==> r.missing.value in misses && fetch(r.missing.value).None?)
      && (r.missing.Some? ==>
            |fetched| <= |r.fetched| < |fetched| + |misses| && r.missing.value == (fetched + misses)[|r.fetched|])
    decreases |layers|
  {
    if |layers| > 0 {
      var d := layers[0].digest;
      var known := wasm.Keys + data.Keys;
      if d in wasm || d in data {
        PullFetchesMisses(layers[1..], wasm, data, fetched, fetch);
      } else if fetch(d).Some? {
        var bytes := fetch(d).value;
        var misses := Misses(layers, known);
        assert misses == [d] + Misses(layers[1..], known + {d});
        assert fetched + misses == (fetched + [d]) + Misses(layers[1..], known + {d});
        if layers[0].mediaType == WasmLayerMediaType {
          assert wasm[d := bytes].Keys + data.Keys == known + {d};
          PullFetchesMisses(layers[1..], wasm[d := bytes], data, fetched + [d], fetch);
        } else {
          assert wasm.Keys + data[d := bytes].Keys == known + {d};
          PullFetchesMisses(layers[1..], wasm, data[d := bytes], fetched + [d], fetch);
        }
      } else {
        var misses := Misses(layers, known);
        assert misses == [d] + Misses(layers[1..], known + {d});
        assert (fetched + misses)[|fetched|] == d;
      }
    }
  }

  /**
   * A layer whose digest is already cached is never fetched, and no digest
   * is fetched twice.
   */
  lemma NeverFetchesCached(layers: seq<Descriptor>, wasm: Store, data: Store, fetch: Digest -> Option<seq<byte>>)
    ensures var r := PullFrom(layers, wasm, data, [], fetch);
      && (forall d <- r.fetched :: d !in wasm && d !in data)
      && Distinct(r.fetched)
  {
    var known := wasm.Keys + data.Keys;
    var misses := Misses(layers, known);
    PullFetchesMisses(layers, wasm, data, [], fetch);
    MissesFresh(layers, known);
    assert [] + misses == misses;
    PrefixOfMisses(PullFrom(layers, wasm, data, [], fetch).fetched, misses, known);
  }

  /** A prefix of distinct digests none of which is known is itself such a list. */
  lemma PrefixOfMisses(pre: seq<Digest>, misses: seq<Digest>, known: set<Digest>)
    requires pre <= misses && Distinct(misses) && forall d <- misses :: d !in known
    ensures Distinct(pre) && forall d <- pre :: d !in known
  {
    forall d <- pre
      ensures d in misses
    {
      var i :| 0 <= i < |pre| && pre[i] == d;
      assert misses[i] == d;
    }
  }

  /**
   * What the stores hold afterwards: every entry they held is kept, and a
   * new entry is the fetched blob of a digest that was in neither store,
   * in the Wasm store exactly when the first layer with that digest has the
   * Wasm layer media type and in the data store otherwise.
   */
  lemma {:induction false} PullClassifies(layers: seq<Descriptor>, wasm: Store, data: Store, fetched: seq<Digest>,
                                          fetch: Digest -> Option<seq<byte>>)
    ensures var r := PullFrom(layers, wasm, data, fetched, fetch);
      && Keeps(wasm, r.wasm) && Keeps(data, r.data)
      && (forall d <- r.wasm :: d !in wasm ==>
            d !in data && fetch(d) == Some(r.wasm[d]) && FirstMediaType(layers, d) == Some(WasmLayerMediaType))
      && (forall d <- r.data :: d !in data ==>
            d !in wasm && fetch(d) == Some(r.data[d]) &&
            FirstMediaType(layers, d).Some? && FirstMediaType(layers, d) != Some(WasmLayerMediaType))
    decreases |layers|
  {
    if |layers| > 0 {
      var e := layers[0].digest;
      if e in wasm || e in data {
        PullClassifies(layers[1..], wasm, data, fetched, fetch);
      } else if fetch(e).Some? {
        var bytes := fetch(e).value;
        if layers[0].mediaType == WasmLayerMediaType {
          PullClassifies(layers[1..], wasm[e := bytes], data, fetched + [e], fetch);
        } else {
          PullClassifies(layers[1..], wasm, data[e := bytes], fetched + [e], fetch);
        }
      }
    }
  }

  /**
   * Every blob is written before the next one is fetched: whether or not the
   * loop completes, each digest it fetched is in one of the stores it leaves.
   */
  lemma {:induction false} PullStoresFetched(layers: seq<Descriptor>, wasm: Store, data: Store, fetched: seq<Digest>,
                                             fetch: Digest -> Option<seq<byte>>)
    requires forall d <- fetched :: d in wasm || d in data
    ensures var r := PullFrom(layers, wasm, data, fetched, fetch);
      && |fetched| <= |r.fetched| && r.fetched[..|fetched|] == fetched
      && forall d <- r.fetched :: d in r.wasm || d in r.data
    decreases |layers|
  {
    if |layers| > 0 {
      var e := layers[0].digest;
      if e in wasm || e in data {
        PullStoresFetched(layers[1..], wasm, data, fetched, fetch);
      } else if fetch(e).Some? {
        var bytes := fetch(e).value;
        var r := PullFrom(layers, wasm, data, fetched, fetch);
        if layers[0].mediaType == WasmLayerMediaType {
          PullStoresFetched(layers[1..], wasm[e := bytes], data, fetched + [e], fetch);
        } else {
          PullStoresFetched(layers[1..], wasm, data[e := bytes], fetched + [e], fetch);
        }
        assert r.fetched[..|fetched|] == r.fetched[..|fetched| + 1][..|fetched|];
      }
    }
  }

  /** When the loop completes, every layer of the manifest is in one of the stores. */
  lemma {:induction false} PullCompletes(layers: seq<Descriptor>, wasm: Store, data: Store, fetched: seq<Digest>,
                                         fetch: Digest -> Option<seq<byte>>)
    ensures var r := PullFrom(layers, wasm, data, fetched, fetch);
      r.missing.None? ==> forall i :: 0 <= i < |layers| ==> layers[i].digest in r.wasm || layers[i].digest in r.data
    decreases |layers|
  {
    if |layers| > 0 {
      var e := layers[0].digest;
      var r := PullFrom(layers, wasm, data, fetched, fetch);
      if e in wasm || e in data {
        PullCompletes(layers[1..], wasm, data, fetched, fetch);
        PullClassifies(layers[1..], wasm, data, fetched, fetch);
      } else if fetch(e).Some? {
        var bytes := fetch(e).value;
        if layers[0].mediaType == WasmLayerMediaType {
          PullCompletes(layers[1..], wasm[e := bytes], data, fetched + [e], fetch);
          PullClassifies(layers[1..], wasm[e := bytes], data, fetched + [e], fetch);
        } else {
          PullCompletes(layers[1..], wasm, data[e := bytes], fetched + [e], fetch);
          PullClassifies(layers[1..], wasm, data[e := bytes], fetched + [e], fetch);
        }
      }
      if r.missing.None? {
        forall i | 0 <= i < |layers|
          ensures layers[i].digest in r.wasm || layers[i].digest in r.data
        {
          if i > 0 {
            assert layers[i] == layers[1..][i - 1];
          }
        }
      }
    }
  }

  /** A second pull of the same manifest against the stores the first one left fetches nothing. */
  lemma PullAgainFetchesNothing(layers: seq<Descriptor>, wasm: Store, data: Store, fetch: Digest -> Option<seq<byte>>)
    requires PullFrom(layers, wasm, data, [], fetch).missing.None?
    ensures var r := PullFrom(layers, wasm, data, [], fetch);
      PullFrom(layers, r.wasm, r.data, [], fetch) == Pulled(r.wasm, r.data, [], None)
  {
    var r := PullFrom(layers, wasm, data, [], fetch);
    PullCompletes(layers, wasm, data, [], fetch);
    AllCachedSkips(layers, r.wasm, r.data, fetch);
  }

  lemma {:induction false} AllCachedSkips(layers: seq<Descriptor>, wasm: Store, data: Store, fetch: Digest -> Option<seq<byte>>)
    requires forall i :: 0 <= i < |layers| ==> layers[i].digest in wasm || layers[i].digest in data
    ensures PullFrom(layers, wasm, data, [], fetch) == Pulled(wasm, data, [], None)
    decreases |layers|
  {
    if |layers| > 0 {
      assert forall i :: 0 <= i < |layers| - 1 ==> layers[1..][i] == layers[i + 1];
      AllCachedSkips(layers[1..], wasm, data, fetch);
    }
  }
}
