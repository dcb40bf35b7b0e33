/**
 * The two stand-alone selection routines kept beside the selector:
 * `original_sorting_code`, which collapses same-named stores to one id per
 * name, and `improved_latest_n_selection`, which ranks the newest `n`
 * stores. Both sort the raw listing newest first with the key
 * `created_at` (0 when the attribute is missing).
 */
module StoreDedup {
  import opened PyText
  import opened StoreRecords
  import opened StoreSort

  /** One entry of `store_candidates`. */
  datatype Candidate = Candidate(id: string, name: string, createdAt: int)

  /** The candidate a raw entry proposes. */
  function CandidateOf(raw: RawStore): (c: Candidate)
    ensures c.id == raw.id && c.name == raw.name && c.createdAt == RawCreatedAt(raw)
  {
    Candidate(raw.id, raw.name, RawCreatedAt(raw))
  }

  /** One pass of the candidate loop: a new name is added; a known name is replaced only by a strictly newer entry. */
  function Step(candidates: map<string, Candidate>, raw: RawStore): map<string, Candidate> {
    if raw.name !in candidates || RawCreatedAt(raw) > candidates[raw.name].createdAt
    then candidates[raw.name := CandidateOf(raw)]
    else candidates
  }

  /** The candidates after the loop has processed `s` in order. */
  function Candidates(s: seq<RawStore>): map<string, Candidate> {
    if s == [] then map[] else Step(Candidates(s[..|s| - 1]), s[|s| - 1])
  }

  /** `api_stores`: each name's candidate id. */
  function IdsOf(candidates: map<string, Candidate>): (m: map<string, string>)
    ensures m.Keys == candidates.Keys
    ensures forall k :: k in m ==> m[k] == candidates[k].id
  {
    map k | k in candidates :: candidates[k].id
  }

  /**
   * Entry `j` is the one a name's candidate should come from: it carries the
   * name, no entry of that name is newer, and every earlier entry of that
   * name is strictly older.
   */
  ghost predicate IsChosen(s: seq<RawStore>, name: string, j: int) {
    && 0 <= j < |s| && s[j].name == name
    && (forall i :: 0 <= i < |s| && s[i].name == name ==> RawCreatedAt(s[i]) <= RawCreatedAt(s[j]))
    && (forall i :: 0 <= i < j && s[i].name == name ==> RawCreatedAt(s[i]) < RawCreatedAt(s[j]))
  }

  /** A name is a key exactly when some entry carries it. */
  lemma {:induction false} CandidatesKeys(s: seq<RawStore>, name: string)
    ensures name in Candidates(s) <==> exists i :: 0 <= i < |s| && s[i].name == name
  {
    if s != [] {
      var init := s[..|s| - 1];
      CandidatesKeys(init, name);
      if exists i :: 0 <= i < |init| && init[i].name == name {
        var i :| 0 <= i < |init| && init[i].name == name;
        assert s[i] == init[i];
      }
      if exists i :: 0 <= i < |s| && s[i].name == name {
        var i :| 0 <= i < |s| && s[i].name == name;
        if i < |init| {
          assert init[i] == s[i];
        }
      }
    }
  }

  /** Appending an entry of a new name makes it the chosen one. */
  lemma ChosenWhenNew(s: seq<RawStore>, name: string)
    requires s != [] && s[|s| - 1].name == name
    requires forall i :: 0 <= i < |s| - 1 ==> s[i].name != name
    ensures IsChosen(s, name, |s| - 1)
  {
  }

  /** Appending a strictly newer entry of the name moves the choice to it. */
  lemma ChosenWhenNewer(s: seq<RawStore>, name: string, j0: int)
    requires s != [] && s[|s| - 1].name == name
    requires IsChosen(s[..|s| - 1], name, j0)
    requires RawCreatedAt(s[|s| - 1]) > RawCreatedAt(s[j0])
    ensures IsChosen(s, name, |s| - 1)
  {
    var init := s[..|s| - 1];
    forall i | 0 <= i < |s| - 1 && s[i].name == name ensures RawCreatedAt(s[i]) < RawCreatedAt(s[|s| - 1]) {
      assert init[i] == s[i];
    }
  }

  /** Appending another name's entry, or an entry no newer, keeps the choice. */
  lemma ChosenWhenKept(s: seq<RawStore>, name: string, j0: int)
    requires s != []
    requires IsChosen(s[..|s| - 1], name, j0)
    requires s[|s| - 1].name != name || RawCreatedAt(s[|s| - 1]) <= RawCreatedAt(s[j0])
    ensures IsChosen(s, name, j0)
  {
    var init := s[..|s| - 1];
    assert init[j0] == s[j0];
    forall i | 0 <= i < |s| - 1 ensures init[i] == s[i] {
    }
  }

  /**
   * The candidate of a name comes from the first entry of that name whose
   * `created_at` is the largest among the entries of that name.
   */
  lemma {:induction false} CandidatesChoice(s: seq<RawStore>, name: string)
    requires name in Candidates(s)
    ensures exists j :: IsChosen(s, name, j) && Candidates(s)[name] == CandidateOf(s[j])
  {
    var init, x := s[..|s| - 1], s[|s| - 1];
    var before := Candidates(init);
    assert Candidates(s) == Step(before, x);
    if x.name == name && name !in before {
      CandidatesKeys(init, name);
      forall i | 0 <= i < |s| - 1 ensures s[i].name != name {
        assert init[i] == s[i];
      }
      ChosenWhenNew(s, name);
    } else {
      CandidatesChoice(init, name);
      var j0 :| IsChosen(init, name, j0) && before[name] == CandidateOf(init[j0]);
      assert init[j0] == s[j0];
      if x.name == name && RawCreatedAt(x) > before[name].createdAt {
        ChosenWhenNewer(s, name, j0);
      } else {
        ChosenWhenKept(s, name, j0);
      }
    }
  }

  /** On a newest-first list, the candidate of a name is its first entry. */
  lemma NewestFirstKeepsFirstOccurrence(s: seq<RawStore>, name: string)
    requires NonIncreasing(s, RawCreatedAt)
    requires name in Candidates(s)
    ensures exists j ::
      && 0 <= j < |s| && s[j].name == name
      && Candidates(s)[name] == CandidateOf(s[j])
      && (forall i :: 0 <= i < j ==> s[i].name != name)
  {
    CandidatesChoice(s, name);
  }

  /** Taking in the entry at `i` is one more step of the candidate loop. */
  lemma CandidatesStep(s: seq<RawStore>, i: nat)
    requires i < |s|
    ensures Candidates(s[..i + 1]) == Step(Candidates(s[..i]), s[i])
  {
    assert s[..i + 1][..i] == s[..i];
  }

  /**
   * `original_sorting_code`: sorts the listing newest first, keeps one
   * candidate per name, and returns the name-to-id dictionary; a failed
   * listing call gives `{}`.
   */
  method OriginalSortingCode(listing: Listing) returns (apiStores: map<string, string>)
    ensures listing.ListFailed? ==> apiStores == map[]
    ensures listing.Listed? ==> apiStores == IdsOf(Candidates(SortDesc(listing.data, RawCreatedAt)))
  {
    if listing.ListFailed? {
      return map[];
    }
    var sortedStores := SortDesc(listing.data, RawCreatedAt);
    var storeCandidates: map<string, Candidate> := map[];
    var i := 0;
    while i < |sortedStores|
      invariant 0 <= i <= |sortedStores|
      invariant storeCandidates == Candidates(sortedStores[..i])
    {
      var store := sortedStores[i];
      CandidatesStep(sortedStores, i);
      if store.name !in storeCandidates {
        storeCandidates := storeCandidates[store.name := CandidateOf(store)];
      } else {
        var existing := storeCandidates[store.name];
        if RawCreatedAt(store) > existing.createdAt {
          storeCandidates := storeCandidates[store.name := CandidateOf(store)];
        }
      }
      i := i + 1;
    }
    assert sortedStores[..i] == sortedStores;
    apiStores := map[];
    var pending := storeCandidates.Keys;
    while pending != {}
      invariant pending <= storeCandidates.Keys
      invariant apiStores.Keys == storeCandidates.Keys - pending
      invariant forall k :: k in apiStores ==> apiStores[k] == storeCandidates[k].id
      decreases |pending|
    {
      var displayName :| displayName in pending;
      apiStores := apiStores[displayName := storeCandidates[displayName].id];
      pending := pending - {displayName};
    }
  }

  /**
   * What `original_sorting_code` returns for a listed name is the id of an
   * entry of that name whose `created_at` is the largest among that name's
   * entries, and every listed name is a key.
   */
  lemma OriginalSortingCodePicksNewest(data: seq<RawStore>, name: string)
    ensures name in IdsOf(Candidates(SortDesc(data, RawCreatedAt))) <==>
      exists i :: 0 <= i < |data| && data[i].name == name
    ensures name in IdsOf(Candidates(SortDesc(data, RawCreatedAt))) ==> exists j ::
      && 0 <= j < |data| && data[j].name == name
      && IdsOf(Candidates(SortDesc(data, RawCreatedAt)))[name] == data[j].id
      && (forall i :: 0 <= i < |data| && data[i].name == name ==> RawCreatedAt(data[i]) <= RawCreatedAt(data[j]))
  {
    var sorted := SortDesc(data, RawCreatedAt);
    CandidatesKeys(sorted, name);
    forall x ensures x in sorted <==> x in data {
      SortedMembers(data, RawCreatedAt, x);
    }
    if exists i :: 0 <= i < |data| && data[i].name == name {
      var i :| 0 <= i < |data| && data[i].name == name;
      assert data[i] in sorted;
    }
    if name in Candidates(sorted) {
      CandidatesChoice(sorted, name);
      var j :| IsChosen(sorted, name, j) && Candidates(sorted)[name] == CandidateOf(sorted[j]);
      assert sorted[j] in data;
      var jd :| 0 <= jd < |data| && data[jd] == sorted[j];
      forall i | 0 <= i < |data| && data[i].name == name ensures RawCreatedAt(data[i]) <= RawCreatedAt(data[jd]) {
        assert data[i] in sorted;
      }
    }
  }

  /** One element of the list `improved_latest_n_selection` returns. */
  datatype RankedStore = RankedStore(rank: nat, store: Store)

  /** The ranked newest `n` entries, ranks counted from 1. */
  function RankedLatest(data: seq<RawStore>, n: int, fmt: int -> string): (r: seq<RankedStore>)
    ensures |r| == |Take(data, n)|
  {
    var latest := Take(SortDesc(data, RawCreatedAt), n);
    SortPermutes(data, RawCreatedAt);
    seq(|latest|, i requires 0 <= i < |latest| => RankedStore(i + 1, ToStore(latest[i], fmt)))
  }

  /**
   * `improved_latest_n_selection(n)`: an empty or failed listing gives `[]`;
   * otherwise the newest `n` entries, ranked from 1.
   */
  method ImprovedLatestNSelection(listing: Listing, n: int, fmt: int -> string) returns (result: seq<RankedStore>)
    ensures listing.ListFailed? ==> result == []
    ensures listing.Listed? ==> result == RankedLatest(listing.data, n, fmt)
  {
    if listing.ListFailed? || listing.data == [] {
      return [];
    }
    var sortedStores := SortDesc(listing.data, RawCreatedAt);
    var latestNStores := Take(sortedStores, n);
    result := [];
    var i := 0;
    while i < |latestNStores|
      invariant 0 <= i <= |latestNStores|
      invariant |result| == i
      invariant forall k :: 0 <= k < i ==> result[k] == RankedStore(k + 1, ToStore(latestNStores[k], fmt))
    {
      result := result + [RankedStore(i + 1, ToStore(latestNStores[i], fmt))];
      i := i + 1;
    }
  }

  /**
   * The ranked list carries ranks 1, 2, ... and exactly the records the
   * selector serves after a refresh from the same listing: the newest-first
   * prefix of the mapped records.
   */
  lemma RankedLatestMatchesSelector(data: seq<RawStore>, n: int, fmt: int -> string)
    ensures var r := RankedLatest(data, n, fmt);
      var served := Take(SortStoresByCreationDate(MapStores(data, fmt)), n);
      && |r| == |served|
      && forall i :: 0 <= i < |r| ==> r[i].rank == i + 1 && r[i].store == served[i]
  {
    var sorted := SortDesc(data, RawCreatedAt);
    SortCommutesWithMap(data, fmt);
    SortPermutes(data, RawCreatedAt);
    var mapped := MapStores(sorted, fmt);
    assert SortStoresByCreationDate(MapStores(data, fmt)) == mapped;
    var latest := Take(sorted, n);
    var served := Take(mapped, n);
    assert |served| == |latest|;
    forall i | 0 <= i < |latest| ensures served[i] == ToStore(latest[i], fmt) {
      assert served[i] == mapped[i] && latest[i] == sorted[i];
    }
  }
}
