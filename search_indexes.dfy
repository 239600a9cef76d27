/** The read side of the search-index lifecycle: `index_exists`, `is_index_ready` and the bounded
    readiness poll `wait_for_index_ready`. Both copies of the client run the same code here. */
module SearchIndexes {
  import opened Wrappers
  import opened Strings
  import opened Documents

  /** What `list(collection.list_search_indexes())` yields: the entries, or the exception it
      raised (every such exception is caught by the two checks below). */
  type Listing = Result<seq<IndexEntry>, Error>

  /** The name `index_exists` compares: `index.get("name", "")`. */
  function NameOrEmpty(e: IndexEntry): string
  {
    e.name.GetOr("")
  }

  /** The `for` loop of `index_exists`: true as soon as some entry carries the name. */
  function ScanForName(entries: seq<IndexEntry>, indexName: string): (found: bool)
    ensures found <==> exists i :: 0 <= i < |entries| && NameOrEmpty(entries[i]) == indexName
  {
    if entries == [] then false
    else if NameOrEmpty(entries[0]) == indexName then true
    else ScanForName(entries[1..], indexName)
  }

  /** `index_exists`: some listed entry has the name; an empty listing or an error gives false. */
  function IndexExists(listing: Listing, indexName: string): (exists_: bool)
    ensures exists_ <==> listing.Ok? && exists i :: 0 <= i < |listing.value| && NameOrEmpty(listing.value[i]) == indexName
  {
    match listing
    case Err(_) => false
    case Ok(entries) => ScanForName(entries, indexName)
  }

  /** Position of the first entry whose `name` key is present and equals `indexName`
      (`index.get("name") == index_name`). */
  function FirstNamed(entries: seq<IndexEntry>, indexName: string): (r: Option<nat>)
    ensures r.Some? ==> r.value < |entries| && entries[r.value].name == Some(indexName)
    ensures r.Some? ==> forall j :: 0 <= j < r.value ==> entries[j].name != Some(indexName)
    ensures r.None? ==> forall j :: 0 <= j < |entries| ==> entries[j].name != Some(indexName)
  {
    if entries == [] then None
    else if entries[0].name == Some(indexName) then Some(0)
    else
      match FirstNamed(entries[1..], indexName)
      case None => None
      case Some(k) => Some(k + 1)
  }

  /** `index.get("status", "").upper() == "READY"`. */
  predicate StatusIsReady(status: Option<string>)
  {
    Upper(status.GetOr("")) == "READY"
  }

  /** The status test is a case-insensitive comparison with READY; a missing status fails it. */
  lemma StatusIsReadyIff(status: Option<string>)
    ensures StatusIsReady(status) <==>
            status.Some? && |status.value| == 5 &&
            forall i :: 0 <= i < 5 ==> status.value[i] == "READY"[i] || status.value[i] == "ready"[i]
  {
    UpperIsReady(status.GetOr(""));
  }

  /** `is_index_ready`: the first entry with the name decides; it is ready iff its status is
      READY in any case. No such entry, or an error, gives false. */
  function IsIndexReady(listing: Listing, indexName: string): (ready: bool)
    ensures ready <==>
            listing.Ok? &&
            exists i :: 0 <= i < |listing.value| && listing.value[i].name == Some(indexName) &&
                        StatusIsReady(listing.value[i].status) &&
                        forall j :: 0 <= j < i ==> listing.value[j].name != Some(indexName)
  {
    match listing
    case Err(_) => false
    case Ok(entries) =>
      match FirstNamed(entries, indexName)
      case None => false
      case Some(i) => StatusIsReady(entries[i].status)
  }

  /** An index that reports READY also exists. */
  lemma ReadyImpliesExists(listing: Listing, indexName: string)
    ensures IsIndexReady(listing, indexName) ==> IndexExists(listing, indexName)
  {
    if IsIndexReady(listing, indexName) {
      var i :| 0 <= i < |listing.value| && listing.value[i].name == Some(indexName);
      assert NameOrEmpty(listing.value[i]) == indexName;
    }
  }

  /** A later READY entry with the same name does not help when the first one is not ready. */
  lemma FirstEntryDecides(entries: seq<IndexEntry>, indexName: string, i: nat)
    requires i < |entries| && entries[i].name == Some(indexName)
    requires forall j :: 0 <= j < i ==> entries[j].name != Some(indexName)
    ensures IsIndexReady(Ok(entries), indexName) == StatusIsReady(entries[i].status)
  {
    var r := FirstNamed(entries, indexName);
    assert r.Some? && r.value == i;
  }

  /** `wait_for_index_ready`. `observe(k)` is the listing the store reports at the k-th probe,
      which is how the store's asynchronous status changes reach the loop. Returns the verdict,
      the number of probes made and the number of sleeps taken. */
  method WaitForIndexReady(observe: nat -> Listing, indexName: string, maxAttempts: int)
    returns (ready: bool, probes: nat, sleeps: nat)
    ensures ready <==> exists k: nat :: k < maxAttempts && IsIndexReady(observe(k), indexName)
    ensures ready ==> probes == sleeps + 1 && IsIndexReady(observe(sleeps), indexName)
    ensures ready ==> forall k: nat :: k < sleeps ==> !IsIndexReady(observe(k), indexName)
    ensures !ready ==> probes == sleeps == (if maxAttempts > 0 then maxAttempts else 0)
  {
    var attempt := 0;
    probes, sleeps := 0, 0;
    while attempt < maxAttempts
      invariant 0 <= attempt <= (if maxAttempts > 0 then maxAttempts else 0)
      invariant probes == attempt && sleeps == attempt
      invariant forall k: nat :: k < attempt ==> !IsIndexReady(observe(k), indexName)
    {
      probes := probes + 1;
      if IsIndexReady(observe(attempt), indexName) {
        ready := true;
        return;
      }
      attempt := attempt + 1;
      sleeps := sleeps + 1;
    }
    ready := false;
  }
}
