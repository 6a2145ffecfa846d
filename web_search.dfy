/** app.py: the search page. It loads the archive once, offers the distinct
    tags as a filter, searches the top 20 positions for an uploaded image and
    shows the candidates whose tag passes the filter. The embedding of the
    query and the FAISS search are collaborators: their result is `hits`. */
module WebSearch {
  import opened Common
  import opened Text
  import opened ArchiveData

  /** `index.search(query_np, 20)`: the number of candidates asked for. */
  const SearchWidth: nat := 20
  const NoMatchesWarning: string := "No matches found with current filters."
  const ArchiveMissingError: string := "Archive not found! Please run 'archive_builder.py' first."

  /** `sorted(list(set([item['tag'] for item in metadata])))`; None when some
      record has no "tag" key (the KeyError ends the page). */
  function AllTags(metadata: seq<Entry>): (tags: Option<seq<string>>)
    ensures tags.Some? <==> forall k :: 0 <= k < |metadata| ==> metadata[k].tag.Some?
    ensures tags.Some? ==> StrictlySorted(tags.value)
    ensures tags.Some? ==>
      forall t :: t in tags.value <==> exists k :: 0 <= k < |metadata| && metadata[k].tag == Some(t)
  {
    if metadata == [] then Some([])
    else
      var last := metadata[|metadata| - 1];
      match AllTags(metadata[..|metadata| - 1])
      case None => None
      case Some(prev) =>
        if last.tag.None? then None
        else
          var init := metadata[..|metadata| - 1];
          assert forall k :: 0 <= k < |init| ==> init[k] == metadata[k];
          Some(Insert(last.tag.value, prev))
  }

  /** The tag list is Python's `sorted(set(...))`: the only strictly sorted list of exactly the tags present. */
  lemma AllTagsIsSortedSet(metadata: seq<Entry>, s: seq<string>)
    requires AllTags(metadata).Some?
    requires StrictlySorted(s)
    requires forall t :: t in s <==> exists k :: 0 <= k < |metadata| && metadata[k].tag == Some(t)
    ensures s == AllTags(metadata).value
  {
    StrictlySortedUnique(s, AllTags(metadata).value);
  }

  /** `selected_style`: the multiselect choice when the metadata list is non-empty, else []. */
  function Selection(metadata: seq<Entry>, chosen: seq<string>): seq<string> {
    if metadata == [] then [] else chosen
  }

  /** One result card: its label rank `i+1`, the record's fields and the raw score. */
  datatype Card = Card(rank: nat, artist: string, tag: string, path: string, score: int, year: string, id: int)

  /** The candidate passes the tag filter: always with an empty selection, otherwise iff its tag is selected. */
  predicate Kept(metadata: seq<Entry>, selected: seq<string>, hit: Hit) {
    match PyGet(metadata, hit.position)
    case None => false
    case Some(e) => selected == [] || (e.tag.Some? && e.tag.value in selected)
  }

  /** What the loop does with candidate i: skip it, show it, or raise
      (IndexError on `metadata[idx]`, KeyError on a missing key). */
  datatype Verdict = Skip | Show(card: Card) | Raise

  function Examine(metadata: seq<Entry>, selected: seq<string>, i: nat, hit: Hit): Verdict {
    match PyGet(metadata, hit.position)
    case None => Raise
    case Some(e) =>
      if selected != [] && e.tag.None? then Raise
      else if selected != [] && e.tag.value !in selected then Skip
      else if e.artist.Some? && e.tag.Some? && e.path.Some? && e.year.Some? && e.id.Some? then
        Show(Card(i + 1, e.artist.value, e.tag.value, e.path.value, hit.score, e.year.value, e.id.value))
      else Raise
  }

  /** Position -1 is not filtered out: Python reads `metadata[-1]`, the last record. */
  lemma NoResultIsLastRecord(metadata: seq<Entry>, selected: seq<string>, i: nat, score: int)
    ensures metadata != [] ==>
      Examine(metadata, selected, i, Hit(NoResult, score)) == Examine(metadata, selected, i, Hit(|metadata| - 1, score))
    ensures metadata == [] ==> Examine(metadata, selected, i, Hit(NoResult, score)) == Raise
  {
  }

  /** The cards shown so far, and whether the page has raised. */
  datatype Listing = Listing(cards: seq<Card>, raised: bool)

  /** One iteration of the result loop, on the candidate at rank i + 1; nothing runs after a raise. */
  function ListingStep(metadata: seq<Entry>, selected: seq<string>, prev: Listing, i: nat, hit: Hit): Listing {
    if prev.raised then prev
    else match Examine(metadata, selected, i, hit)
      case Skip => prev
      case Show(c) => Listing(prev.cards + [c], false)
      case Raise => Listing(prev.cards, true)
  }

  /** The result loop over the candidates, in search-rank order. */
  function ListingOf(metadata: seq<Entry>, selected: seq<string>, hits: seq<Hit>): Listing {
    if hits == [] then Listing([], false)
    else ListingStep(metadata, selected, ListingOf(metadata, selected, hits[..|hits| - 1]), |hits| - 1, hits[|hits| - 1])
  }

  /** Shown cards appear in search-rank order, each labelled with its unfiltered rank
      and carrying the fields of the record that position maps to; under a non-empty
      selection every shown tag is selected. */
  lemma {:induction false} ListingInRankOrder(metadata: seq<Entry>, selected: seq<string>, hits: seq<Hit>)
    ensures var cards := ListingOf(metadata, selected, hits).cards;
      && |cards| <= |hits|
      && (forall j, k :: 0 <= j < k < |cards| ==> cards[j].rank < cards[k].rank)
      && forall k :: 0 <= k < |cards| ==>
           && 1 <= cards[k].rank <= |hits|
           && Examine(metadata, selected, cards[k].rank - 1, hits[cards[k].rank - 1]) == Show(cards[k])
           && cards[k].score == hits[cards[k].rank - 1].score
           && (selected != [] ==> cards[k].tag in selected)
  {
    if hits != [] {
      var init := hits[..|hits| - 1];
      ListingInRankOrder(metadata, selected, init);
      assert forall j :: 0 <= j < |init| ==> init[j] == hits[j];
    }
  }

  /** Some shown card carries rank r. */
  predicate ShowsRank(cards: seq<Card>, r: nat) {
    exists k :: 0 <= k < |cards| && cards[k].rank == r
  }

  lemma ShowsRankAppend(cards: seq<Card>, c: Card, r: nat)
    ensures ShowsRank(cards + [c], r) <==> ShowsRank(cards, r) || c.rank == r
  {
    if ShowsRank(cards, r) {
      var k :| 0 <= k < |cards| && cards[k].rank == r;
      assert (cards + [c])[k].rank == r;
    }
    if c.rank == r {
      assert (cards + [c])[|cards|].rank == r;
    }
  }

  /** When the page has not raised, the candidate at rank i + 1 is shown exactly when it
      passes the tag filter. */
  lemma {:induction false} ListingKeepsFiltered(metadata: seq<Entry>, selected: seq<string>, hits: seq<Hit>)
    requires !ListingOf(metadata, selected, hits).raised
    ensures forall i :: 0 <= i < |hits| ==>
      (ShowsRank(ListingOf(metadata, selected, hits).cards, i + 1) <==> Kept(metadata, selected, hits[i]))
  {
    if hits != [] {
      var init := hits[..|hits| - 1];
      var n := |hits|;
      var prev := ListingOf(metadata, selected, init);
      var cards := ListingOf(metadata, selected, hits).cards;
      assert !prev.raised;
      ListingKeepsFiltered(metadata, selected, init);
      ListingInRankOrder(metadata, selected, init);
      var v := Examine(metadata, selected, n - 1, hits[n - 1]);
      assert v.Show? <==> Kept(metadata, selected, hits[n - 1]);
      forall i | 0 <= i < n
        ensures ShowsRank(cards, i + 1) <==> Kept(metadata, selected, hits[i])
      {
        if v.Show? {
          assert cards == prev.cards + [v.card];
          ShowsRankAppend(prev.cards, v.card, i + 1);
        }
        if i < n - 1 {
          assert init[i] == hits[i];
        } else {
          assert !ShowsRank(prev.cards, i + 1);
        }
      }
    }
  }

  /** With an empty selection, a page that has not raised shows every candidate. */
  lemma {:induction false} EmptySelectionShowsAll(metadata: seq<Entry>, hits: seq<Hit>)
    requires !ListingOf(metadata, [], hits).raised
    ensures |ListingOf(metadata, [], hits).cards| == |hits|
  {
    if hits != [] {
      EmptySelectionShowsAll(metadata, hits[..|hits| - 1]);
    }
  }

  /** The page raises exactly when some candidate raises. */
  lemma {:induction false} RaisesAtFirstFault(metadata: seq<Entry>, selected: seq<string>, hits: seq<Hit>)
    ensures ListingOf(metadata, selected, hits).raised
      <==> exists i :: 0 <= i < |hits| && Examine(metadata, selected, i, hits[i]) == Raise
  {
    if hits != [] {
      var init := hits[..|hits| - 1];
      RaisesAtFirstFault(metadata, selected, init);
      assert forall j :: 0 <= j < |init| ==> init[j] == hits[j];
    }
  }

  /** Once raised, later candidates change nothing. */
  lemma {:induction false} RaiseIsFinal(metadata: seq<Entry>, selected: seq<string>, hits: seq<Hit>, m: nat)
    requires m <= |hits|
    requires ListingOf(metadata, selected, hits[..m]).raised
    ensures ListingOf(metadata, selected, hits) == ListingOf(metadata, selected, hits[..m])
  {
    if m < |hits| {
      var init := hits[..|hits| - 1];
      assert init[..m] == hits[..m];
      RaiseIsFinal(metadata, selected, init, m);
    } else {
      assert hits[..m] == hits;
    }
  }

  /** The result loop (lines 84-105): walks the candidates in rank order, skips those
      the filter rejects, counts and shows the rest; stops at the first exception. */
  method ListResults(metadata: seq<Entry>, hits: seq<Hit>, selected: seq<string>)
    returns (cards: seq<Card>, resultsFound: nat, raised: bool)
    ensures Listing(cards, raised) == ListingOf(metadata, selected, hits)
    ensures !raised ==> resultsFound == |cards|
  {
    cards, resultsFound, raised := [], 0, false;
    var i := 0;
    while i < |hits|
      invariant i <= |hits|
      invariant Listing(cards, false) == ListingOf(metadata, selected, hits[..i])
      invariant resultsFound == |cards|
    {
      assert hits[..i + 1][..i] == hits[..i];
      var hit := hits[i];
      var found := PyGet(metadata, hit.position);
      if found.None? {
        raised := true;
        break;
      }
      var data := found.value;
      if selected != [] {
        if data.tag.None? {
          raised := true;
          break;
        }
        if data.tag.value !in selected {
          i := i + 1;
          continue;
        }
      }
      resultsFound := resultsFound + 1;
      if data.artist.None? || data.tag.None? || data.path.None? || data.year.None? || data.id.None? {
        raised := true;
        break;
      }
      cards := cards + [Card(i + 1, data.artist.value, data.tag.value, data.path.value, hit.score, data.year.value, data.id.value)];
      i := i + 1;
    }
    if raised {
      assert ListingOf(metadata, selected, hits[..i + 1]) == Listing(cards, true);
      RaiseIsFinal(metadata, selected, hits, i + 1);
    } else {
      assert hits[..i] == hits;
    }
  }

  /** What the page ends up showing. */
  datatype Page =
    | ArchiveNotFound
    | AwaitingUpload
    | Results(cards: seq<Card>, noMatchesWarning: bool)
    | Raised(cardsShown: seq<Card>)

  /** The page for one run of the script. `archive` is the loaded metadata (None when
      loading the index or the metadata failed); `hits` is what searching the index
      for the uploaded image returns. */
  method RenderPage(archive: Option<seq<Entry>>, chosen: seq<string>, uploaded: bool, hits: seq<Hit>)
    returns (page: Page)
    ensures archive.None? ==> page == ArchiveNotFound
    ensures page.Results? ==>
      && archive.Some? && uploaded
      && page.cards == ListingOf(archive.value, Selection(archive.value, chosen), hits).cards
      && (page.noMatchesWarning <==> page.cards == [])
    ensures archive.Some? && archive.value != [] && AllTags(archive.value).None? ==> page == Raised([])
    ensures archive.Some? && !uploaded && (archive.value == [] || AllTags(archive.value).Some?) ==>
      page == AwaitingUpload
    ensures archive.Some? && uploaded && (archive.value == [] || AllTags(archive.value).Some?) ==>
      var l := ListingOf(archive.value, Selection(archive.value, chosen), hits);
      page == if l.raised then Raised(l.cards) else Results(l.cards, l.cards == [])
    ensures |hits| == SearchWidth && page.Results? ==> |page.cards| <= SearchWidth
  {
    if archive.None? {
      return ArchiveNotFound;
    }
    var metadata := archive.value;
    var selected: seq<string> := [];
    if metadata != [] {
      var allTags := AllTags(metadata);
      if allTags.None? {
        return Raised([]);
      }
      selected := chosen;
    }
    if !uploaded {
      return AwaitingUpload;
    }
    var cards, resultsFound, raised := ListResults(metadata, hits, selected);
    ListingInRankOrder(metadata, selected, hits);
    if raised {
      return Raised(cards);
    }
    page := Results(cards, resultsFound == 0);
  }
}
