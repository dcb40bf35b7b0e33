/**
 * Vector-store records as `LatestVectorStoreSelector.fetch_all_vector_stores`
 * builds them from the raw listing returned by the remote API.
 */
module StoreRecords {
  import opened PyText

  /** The `file_counts` attribute of a listed store: missing, `None`, or an object whose `total` may be missing. */
  datatype FileCountsAttr = NoFileCounts | NullFileCounts | FileCounts(total: Option<int>)

  /** One entry of `vector_stores.list().data`; optional attributes are `None` when the object lacks them. */
  datatype RawStore = RawStore(
    id: string,
    name: string,
    createdAt: Option<int>,
    fileCounts: FileCountsAttr,
    usageBytes: Option<int>)

  /** The outcome of the remote listing call: the entries, or an exception. */
  datatype Listing = Listed(data: seq<RawStore>) | ListFailed

  /** The dictionary built per store; `created_datetime` carries the same instant as `createdAt` and is not repeated. */
  datatype Store = Store(
    id: string,
    name: string,
    createdAt: int,
    fileCounts: int,
    usageBytes: int,
    createdAtFormatted: string)

  /** `getattr(store, 'created_at', 0)`: the sort key of a raw entry. */
  function RawCreatedAt(raw: RawStore): (t: int)
    ensures raw.createdAt.None? ==> t == 0
    ensures raw.createdAt.Some? ==> t == raw.createdAt.value
  {
    match raw.createdAt
    case None => 0
    case Some(t) => t
  }

  /** The `file_counts` entry: the `total` of a present, non-null `file_counts`, else 0. */
  function FileCountTotal(attr: FileCountsAttr): (n: int)
    ensures attr.FileCounts? && attr.total.Some? ==> n == attr.total.value
    ensures !(attr.FileCounts? && attr.total.Some?) ==> n == 0
  {
    match attr
    case FileCounts(Some(t)) => t
    case _ => 0
  }

  /**
   * The record for one raw entry. `fmt` stands for
   * `datetime.fromtimestamp(t).strftime("%Y-%m-%d %H:%M:%S")`, which depends on the local time zone.
   */
  function ToStore(raw: RawStore, fmt: int -> string): (s: Store)
    ensures s.id == raw.id && s.name == raw.name
    ensures raw.createdAt.None? ==> s.createdAt == 0
    ensures raw.createdAt.Some? ==> s.createdAt == raw.createdAt.value
    ensures !(raw.fileCounts.FileCounts? && raw.fileCounts.total.Some?) ==> s.fileCounts == 0
    ensures raw.fileCounts.FileCounts? && raw.fileCounts.total.Some? ==> s.fileCounts == raw.fileCounts.total.value
    ensures raw.usageBytes.None? ==> s.usageBytes == 0
    ensures raw.usageBytes.Some? ==> s.usageBytes == raw.usageBytes.value
    ensures s.createdAtFormatted == fmt(s.createdAt)
  {
    var t := RawCreatedAt(raw);
    Store(raw.id, raw.name, t, FileCountTotal(raw.fileCounts),
          match raw.usageBytes case None => 0 case Some(u) => u,
          fmt(t))
  }

  /** `ToStore` applied elementwise. */
  function MapStores(s: seq<RawStore>, fmt: int -> string): (r: seq<Store>)
    ensures |r| == |s|
    ensures forall i :: 0 <= i < |s| ==> r[i] == ToStore(s[i], fmt)
  {
    seq(|s|, i requires 0 <= i < |s| => ToStore(s[i], fmt))
  }

  lemma MapStoresAppend(a: seq<RawStore>, b: seq<RawStore>, fmt: int -> string)
    ensures MapStores(a + b, fmt) == MapStores(a, fmt) + MapStores(b, fmt)
  {
  }

  /** What `fetch_all_vector_stores` returns for a listing outcome. */
  function FetchedStores(listing: Listing, fmt: int -> string): (r: seq<Store>)
    ensures listing.ListFailed? ==> r == []
    ensures listing.Listed? ==> |r| == |listing.data|
    ensures listing.Listed? ==> forall i :: 0 <= i < |r| ==> r[i] == ToStore(listing.data[i], fmt)
  {
    match listing
    case ListFailed => []
    case Listed(data) => MapStores(data, fmt)
  }

  /**
   * `fetch_all_vector_stores`: one record per listed entry, in listing order;
   * an empty listing or a failed call gives `[]`.
   */
  method FetchAllVectorStores(listing: Listing, fmt: int -> string) returns (stores: seq<Store>)
    ensures stores == FetchedStores(listing, fmt)
    ensures listing.Listed? ==> |stores| == |listing.data|
    ensures (listing.ListFailed? || listing.data == []) <==> stores == []
  {
    if listing.ListFailed? || listing.data == [] {
      return [];
    }
    stores := [];
    var i := 0;
    while i < |listing.data|
      invariant 0 <= i <= |listing.data|
      invariant |stores| == i
      invariant forall j :: 0 <= j < i ==> stores[j] == ToStore(listing.data[j], fmt)
    {
      stores := stores + [ToStore(listing.data[i], fmt)];
      i := i + 1;
    }
  }
}
