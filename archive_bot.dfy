/** visual_archive_bot.py: the chatbot. It loads the archive when constructed,
    answers an image with its closest matches and their most frequent style,
    and turns that analysis into a reply. The embedding of the image and the
    FAISS search are collaborators: their result is a SearchOutcome. */
module ArchiveBot {
  import opened Common
  import opened ArchiveData

  const BotName: string := "Visual Archive Explorer"
  /** `self.index.search(query_np, 5)`: the number of candidates asked for. */
  const BotSearchWidth: nat := 5
  const OfflineError: string := "My database is offline. Please run the builder script."
  const NoImageError: string := "I need an image to see!"
  const TroublePrefix: string := "I had trouble seeing that: "
  /** `str(e)` of the IndexError raised by `self.metadata[idx]`. */
  const IndexErrorText: string := "list index out of range"
  /** `str(e)` of the KeyError raised by `data['path']`. */
  const MissingPathText: string := "'path'"
  const NothingSimilarReply: string := "I couldn't find anything similar in the archive. It's truly unique!"
  const UnknownStyle: string := "Unknown"
  const DefaultArtist: string := "Unknown"
  const DefaultTag: string := "General"
  const ClosingText: string := " Here are the visual comparisons:"

  /** An entry of `detected_styles`: `data.get('tag')`, None when the record has no tag. */
  type Style = Option<string>

  datatype Match = Match(artist: string, tag: string, path: string, score: int)

  /** The dictionary process_input returns: {"error": ...} or {"matches": ..., "dominant_style": ...}. */
  datatype Analysis = Failure(error: string) | Findings(matches: seq<Match>, dominantStyle: Style)

  /** Embedding the image and searching the index: the hits, or the text of the exception raised. */
  datatype SearchOutcome = Searched(hits: seq<Hit>) | SearchRaised(message: string)

  /** The hits that name a stored vector, in search order. */
  function Found(hits: seq<Hit>): (found: seq<Hit>)
    ensures |found| <= |hits|
    ensures forall h :: h in found <==> h in hits && h.position != NoResult
  {
    if hits == [] then []
    else
      var init := hits[..|hits| - 1];
      var last := hits[|hits| - 1];
      assert hits == init + [last];
      Found(init) + (if last.position == NoResult then [] else [last])
  }

  /** The two lists the loop builds, and the text of the exception that ended it, if any. */
  datatype Collected = Collected(matches: seq<Match>, styles: seq<Style>, fault: Option<string>)

  /** The match a hit's record yields: missing artist "Unknown", missing tag "General". */
  function MatchOf(e: Entry, path: string, score: int): Match {
    Match(e.artist.GetOr(DefaultArtist), e.tag.GetOr(DefaultTag), path, score)
  }

  /** One iteration of the match loop; nothing runs after an exception. */
  function CollectStep(metadata: seq<Entry>, prev: Collected, hit: Hit): Collected {
    if prev.fault.Some? || hit.position == NoResult then prev
    else match PyGet(metadata, hit.position)
      case None => Collected(prev.matches, prev.styles, Some(IndexErrorText))
      case Some(e) =>
        if e.path.None? then Collected(prev.matches, prev.styles, Some(MissingPathText))
        else Collected(prev.matches + [MatchOf(e, e.path.value, hit.score)], prev.styles + [e.tag], None)
  }

  /** The match loop over the hits, in search order. */
  function Collect(metadata: seq<Entry>, hits: seq<Hit>): Collected {
    if hits == [] then Collected([], [], None)
    else CollectStep(metadata, Collect(metadata, hits[..|hits| - 1]), hits[|hits| - 1])
  }

  /** The match and the detected style built from the record at the hit's position:
      the detected style is the raw tag, None when the record has none. */
  predicate BuiltFrom(metadata: seq<Entry>, hit: Hit, m: Match, s: Style) {
    match PyGet(metadata, hit.position)
    case None => false
    case Some(e) => e.path.Some? && m == MatchOf(e, e.path.value, hit.score) && s == e.tag
  }

  /** Without an exception, the k-th match and the k-th detected style are built from
      the record at the k-th non-sentinel position, in search order. */
  lemma {:induction false} CollectFollowsFound(metadata: seq<Entry>, hits: seq<Hit>)
    requires Collect(metadata, hits).fault.None?
    ensures var c := Collect(metadata, hits);
      var found := Found(hits);
      && |c.matches| == |c.styles| == |found|
      && forall k :: 0 <= k < |found| ==> BuiltFrom(metadata, found[k], c.matches[k], c.styles[k])
  {
    if hits != [] {
      var init := hits[..|hits| - 1];
      var hit := hits[|hits| - 1];
      var prev := Collect(metadata, init);
      var c := Collect(metadata, hits);
      assert prev.fault.None?;
      CollectFollowsFound(metadata, init);
      var before := Found(init);
      var found := Found(hits);
      if hit.position != NoResult {
        var e := PyGet(metadata, hit.position).value;
        assert c.matches == prev.matches + [MatchOf(e, e.path.value, hit.score)];
        assert c.styles == prev.styles + [e.tag];
        assert found == before + [hit];
        forall k | 0 <= k < |found|
          ensures BuiltFrom(metadata, found[k], c.matches[k], c.styles[k])
        {
          if k < |before| {
            assert found[k] == before[k] && c.matches[k] == prev.matches[k] && c.styles[k] == prev.styles[k];
          }
        }
      }
    }
  }

  /** `metadata[idx]['path']` succeeds. */
  predicate HasPath(metadata: seq<Entry>, idx: int) {
    PyGet(metadata, idx).Some? && PyGet(metadata, idx).value.path.Some?
  }

  /** The loop ends in an exception exactly when some non-sentinel position is outside
      the metadata list or names a record without "path"; its text is one of the two. */
  lemma {:induction false} CollectFaults(metadata: seq<Entry>, hits: seq<Hit>)
    ensures var c := Collect(metadata, hits);
      && (c.fault.Some? <==>
            exists j :: 0 <= j < |hits| && hits[j].position != NoResult && !HasPath(metadata, hits[j].position))
      && (c.fault.Some? ==> c.fault.value == IndexErrorText || c.fault.value == MissingPathText)
  {
    if hits != [] {
      var init := hits[..|hits| - 1];
      CollectFaults(metadata, init);
      assert forall j :: 0 <= j < |init| ==> init[j] == hits[j];
    }
  }

  /** Once an exception is raised, later hits change nothing. */
  lemma {:induction false} FaultIsFinal(metadata: seq<Entry>, hits: seq<Hit>, m: nat)
    requires m <= |hits|
    requires Collect(metadata, hits[..m]).fault.Some?
    ensures Collect(metadata, hits) == Collect(metadata, hits[..m])
  {
    if m < |hits| {
      var init := hits[..|hits| - 1];
      assert init[..m] == hits[..m];
      FaultIsFinal(metadata, init, m);
    } else {
      assert hits[..m] == hits;
    }
  }

  /** For an archive the builder wrote (every record has a tag), the style list is the
      match tags, entry for entry. */
  lemma StylesAreMatchTags(metadata: seq<Entry>, hits: seq<Hit>)
    requires forall e :: e in metadata ==> e.tag.Some?
    requires Collect(metadata, hits).fault.None?
    ensures var c := Collect(metadata, hits);
      |c.styles| == |c.matches| && forall k :: 0 <= k < |c.styles| ==> c.styles[k] == Some(c.matches[k].tag)
  {
    CollectFollowsFound(metadata, hits);
    var found := Found(hits);
    forall k | 0 <= k < |found|
      ensures PyGet(metadata, found[k].position).Some? && PyGet(metadata, found[k].position).value.tag.Some?
    {
      assert BuiltFrom(metadata, found[k], Collect(metadata, hits).matches[k], Collect(metadata, hits).styles[k]);
      assert PyGet(metadata, found[k].position).value in metadata;
    }
  }

  /** `s` has maximal count in `styles`: what `max(set(styles), key=styles.count)` returns,
      up to the tie-break, which depends on set iteration order. */
  predicate MostFrequent(styles: seq<Style>, s: Style) {
    s in styles && forall t :: t in styles ==> Count(styles, t) <= Count(styles, s)
  }

  /** A non-empty list has a most frequent element. */
  lemma {:induction false} MostFrequentExists(styles: seq<Style>)
    requires styles != []
    ensures exists s :: MostFrequent(styles, s)
  {
    var init := styles[..|styles| - 1];
    var last := styles[|styles| - 1];
    assert styles == init + [last];
    assert forall t :: t in styles <==> t in init || t == last;
    if init == [] {
      assert forall t :: t in styles ==> t == last;
      assert MostFrequent(styles, last);
    } else {
      MostFrequentExists(init);
      var m :| MostFrequent(init, m);
      if Count(styles, last) > Count(styles, m) {
        assert MostFrequent(styles, last);
      } else {
        assert MostFrequent(styles, m);
      }
    }
  }

  /** The dominant style: "Unknown" for no styles, otherwise some most frequent one. */
  predicate IsDominant(styles: seq<Style>, d: Style) {
    if styles == [] then d == Some(UnknownStyle) else MostFrequent(styles, d)
  }

  class VisualArchiveBot {
    const name: string
    var isReady: bool
    var metadata: seq<Entry>

    /** `__init__`: ready only when the model loaded, the index file exists and both
        the index and the metadata file were read; `loaded` is the metadata read, or None. */
    constructor (modelLoads: bool, indexFileExists: bool, loaded: Option<seq<Entry>>)
      ensures name == BotName
      ensures isReady <==> modelLoads && indexFileExists && loaded.Some?
      ensures isReady ==> metadata == loaded.value
    {
      name := BotName;
      isReady := false;
      metadata := [];
      if modelLoads && indexFileExists && loaded.Some? {
        metadata := loaded.value;
        isReady := true;
      }
    }

    /** process_input: the error checks, then the match loop over the search result and
        the dominant style. `hasImage` is whether `user_input.get('image')` is truthy. */
    method ProcessInput(hasImage: bool, search: SearchOutcome) returns (analysis: Analysis)
      ensures !isReady ==> analysis == Failure(OfflineError)
      ensures isReady && !hasImage ==> analysis == Failure(NoImageError)
      ensures isReady && hasImage && search.SearchRaised? ==> analysis == Failure(TroublePrefix + search.message)
      ensures isReady && hasImage && search.Searched? ==>
        var c := Collect(metadata, search.hits);
        if c.fault.Some? then analysis == Failure(TroublePrefix + c.fault.value)
        else analysis.Findings? && analysis.matches == c.matches && IsDominant(c.styles, analysis.dominantStyle)
      ensures search.Searched? && |search.hits| == BotSearchWidth && analysis.Findings? ==>
        |analysis.matches| <= BotSearchWidth
    {
      if !isReady {
        return Failure(OfflineError);
      }
      if !hasImage {
        return Failure(NoImageError);
      }
      if search.SearchRaised? {
        return Failure(TroublePrefix + search.message);
      }
      var hits := search.hits;
      var matches: seq<Match> := [];
      var detectedStyles: seq<Style> := [];
      var i := 0;
      while i < |hits|
        invariant i <= |hits|
        invariant Collect(metadata, hits[..i]) == Collected(matches, detectedStyles, None)
      {
        assert hits[..i + 1][..i] == hits[..i];
        var idx := hits[i].position;
        if idx == NoResult {
          i := i + 1;
          continue;
        }
        var found := PyGet(metadata, idx);
        if found.None? {
          FaultIsFinal(metadata, hits, i + 1);
          return Failure(TroublePrefix + IndexErrorText);
        }
        var data := found.value;
        if data.path.None? {
          FaultIsFinal(metadata, hits, i + 1);
          return Failure(TroublePrefix + MissingPathText);
        }
        matches := matches + [Match(data.artist.GetOr(DefaultArtist), data.tag.GetOr(DefaultTag), data.path.value, hits[i].score)];
        detectedStyles := detectedStyles + [data.tag];
        i := i + 1;
      }
      assert hits[..|hits|] == hits;
      CollectFollowsFound(metadata, hits);
      var dominantStyle: Style;
      if detectedStyles == [] {
        dominantStyle := Some(UnknownStyle);
      } else {
        MostFrequentExists(detectedStyles);
        dominantStyle :| MostFrequent(detectedStyles, dominantStyle);
      }
      analysis := Findings(matches, dominantStyle);
    }
  }

  /** The decimal text of a score. */
  function ScoreText(score: int): string {
    if score < 0 then "-" + NatText(-score) else NatText(score)
  }

  function NatText(n: nat): string {
    var digit := ['0' + (n % 10) as char];
    if n < 10 then digit else NatText(n / 10) + digit
  }

  /** The f-string rendering of the dominant style (None prints as "None"). */
  function StyleText(style: Style): string {
    match style
    case None => "None"
    case Some(s) => s
  }

  /** The three openings `random.choice` picks from. */
  function Phrases(style: string): seq<string> {
    [ "This piece reminds me of the **" + style + "** style.",
      "I see strong visual parallels with **" + style + "** works.",
      "The textures here are very similar to our **" + style + "** collection." ]
  }

  /** The sentence that cites the top match's artist and score. */
  function Details(top: Match): string {
    "The closest match is a piece by **" + top.artist + "** (" + ScoreText(top.score) + "% similarity)."
  }

  /** generate_response. `pick` stands for the phrase `random.choice` returns. */
  function GenerateResponse(analysis: Analysis, pick: nat): (reply: string)
    requires pick < 3
    ensures analysis.Failure? ==> reply == analysis.error
    ensures analysis.Findings? && analysis.matches == [] ==> reply == NothingSimilarReply
    ensures analysis.Findings? && analysis.matches != [] ==>
      exists k :: 0 <= k < 3 &&
        reply == Phrases(StyleText(analysis.dominantStyle))[k] + " " + Details(analysis.matches[0]) + ClosingText
  {
    match analysis
    case Failure(error) => error
    case Findings(matches, dominantStyle) =>
      if matches == [] then NothingSimilarReply
      else
        var intro := Phrases(StyleText(dominantStyle))[pick];
        intro + " " + Details(matches[0]) + ClosingText
  }
}
