/** archive_builder.py: turns the image folder into the persisted archive, a
    FAISS index of image vectors plus the list of metadata records.
    The CLIP model is an opaque per-file outcome (see FileOutcome). */
module ArchiveBuilder {
  import opened Text
  import opened ArchiveData

  /** The zero-shot labels every record's tag is drawn from. */
  const StyleTags: seq<string> := ["Oil Painting", "Sketch", "Photography", "Sculpture", "Digital Art", "Abstract"]
  const ImageFolder: string := "images"
  const UnknownArtist: string := "Unknown Artist"
  const NoYear: string := "N/A"

  /** A normalised CLIP image embedding; its numbers play no part in the bookkeeping. */
  type Vector = seq<real>

  /** What processing one image file amounts to, by the point at which it stops.
      EmbeddingFailed: opening, embedding or normalising raised, before the vector is stored.
      TaggingFailed: the vector was stored, then zero-shot tagging raised.
      Embedded: both steps ran; bestTag is the argmax over the label logits
      (a bestTag outside StyleTags raises IndexError after the vector is stored). */
  datatype FileOutcome =
    | EmbeddingFailed
    | TaggingFailed(vector: Vector)
    | Embedded(vector: Vector, bestTag: nat)

  /** The file's vector reaches `valid_vectors`. */
  predicate AppendsVector(o: FileOutcome) {
    !o.EmbeddingFailed?
  }

  /** The file gets a metadata record. */
  predicate AddsRecord(o: FileOutcome) {
    o.Embedded? && o.bestTag < |StyleTags|
  }

  /** Name filter of the folder listing: lower-cased name ends in .png, .jpg or .jpeg. */
  predicate IsImageName(name: string) {
    var lower := Lower(name);
    EndsWith(lower, ".png") || EndsWith(lower, ".jpg") || EndsWith(lower, ".jpeg")
  }

  /** `image_files`: the folder listing restricted to image names, in listing order. */
  function ImageFiles(listing: seq<string>): (files: seq<string>)
    ensures |files| <= |listing|
    ensures forall f :: f in files <==> f in listing && IsImageName(f)
  {
    if listing == [] then []
    else
      var rest := ImageFiles(listing[1..]);
      assert forall f :: f in listing <==> f == listing[0] || f in listing[1..];
      if IsImageName(listing[0]) then [listing[0]] + rest else rest
  }

  /** The filter keeps listing order: filtering a concatenation concatenates the filtered parts. */
  lemma {:induction false} ImageFilesAppend(a: seq<string>, b: seq<string>)
    ensures ImageFiles(a + b) == ImageFiles(a) + ImageFiles(b)
  {
    if a != [] {
      assert (a + b)[0] == a[0] && (a + b)[1..] == a[1..] + b;
      ImageFilesAppend(a[1..], b);
    } else {
      assert a + b == b;
    }
  }

  /** `os.path.join(IMAGE_FOLDER, filename)` for a bare file name. */
  function ImagePath(filename: string): string {
    ImageFolder + "/" + filename
  }

  /** The record built for the file at listing index i. */
  function NewRecord(i: nat, filename: string, tag: string): Record {
    Record(i, filename, ImagePath(filename), tag, UnknownArtist, NoYear)
  }

  /** The two parallel lists the loop builds. */
  datatype Progress = Progress(vectors: seq<Vector>, records: seq<Record>)

  /** One iteration of the loop, on the file at index i. */
  function Step(p: Progress, i: nat, filename: string, o: FileOutcome): Progress {
    match o
    case EmbeddingFailed => p
    case TaggingFailed(v) => Progress(p.vectors + [v], p.records)
    case Embedded(v, t) =>
      if t < |StyleTags| then Progress(p.vectors + [v], p.records + [NewRecord(i, filename, StyleTags[t])])
      else Progress(p.vectors + [v], p.records)
  }

  /** The lists after the first n image files have been processed. */
  function Ingest(files: seq<string>, embed: string -> FileOutcome, n: nat): Progress
    requires n <= |files|
  {
    if n == 0 then Progress([], [])
    else Step(Ingest(files, embed, n - 1), n - 1, files[n - 1], OutcomeAt(files, embed, n - 1))
  }

  /** The outcome of the file at index j of `files`. */
  function OutcomeAt(files: seq<string>, embed: string -> FileOutcome, j: nat): FileOutcome
    requires j < |files|
  {
    embed(ImagePath(files[j]))
  }

  /** A record describes file number r.id of `files`, as the builder would have built it. */
  predicate Describes(r: Record, files: seq<string>, embed: string -> FileOutcome) {
    && r.id < |files|
    && r.filename == files[r.id]
    && r.path == ImagePath(r.filename)
    && r.artist == UnknownArtist
    && r.year == NoYear
    && AddsRecord(embed(r.path))
    && r.tag == StyleTags[embed(r.path).bestTag]
  }

  /** Record ids are strictly increasing. */
  predicate IdsIncreasing(records: seq<Record>) {
    forall j, k :: 0 <= j < k < |records| ==> records[j].id < records[k].id
  }

  /** After n files: no more records than vectors, no more vectors than files; every
      record describes one of the first n files; ids strictly increase. */
  lemma {:induction false} IngestShape(files: seq<string>, embed: string -> FileOutcome, n: nat)
    requires n <= |files|
    ensures |Ingest(files, embed, n).records| <= |Ingest(files, embed, n).vectors| <= n
    ensures forall r :: r in Ingest(files, embed, n).records ==> Describes(r, files, embed) && r.id < n
    ensures IdsIncreasing(Ingest(files, embed, n).records)
  {
    if n > 0 {
      IngestShape(files, embed, n - 1);
    }
  }

  /** The vector list is empty exactly when no file got as far as storing its vector. */
  lemma {:induction false} IngestNoVectors(files: seq<string>, embed: string -> FileOutcome, n: nat)
    requires n <= |files|
    ensures Ingest(files, embed, n).vectors == [] <==> forall j :: 0 <= j < n ==> !AppendsVector(OutcomeAt(files, embed, j))
  {
    if n > 0 {
      IngestNoVectors(files, embed, n - 1);
    }
  }

  /** The two lists have equal length exactly when no file failed after its vector was stored. */
  lemma {:induction false} IngestCountsEqual(files: seq<string>, embed: string -> FileOutcome, n: nat)
    requires n <= |files|
    ensures |Ingest(files, embed, n).records| == |Ingest(files, embed, n).vectors|
        <==> forall j :: 0 <= j < n ==> (AppendsVector(OutcomeAt(files, embed, j)) ==> AddsRecord(OutcomeAt(files, embed, j)))
  {
    if n > 0 {
      IngestShape(files, embed, n - 1);
      IngestCountsEqual(files, embed, n - 1);
    }
  }

  /** The records of a shorter prefix are a prefix of the records of a longer one. */
  lemma {:induction false} RecordsGrow(files: seq<string>, embed: string -> FileOutcome, m: nat, n: nat)
    requires m <= n <= |files|
    ensures Ingest(files, embed, m).records <= Ingest(files, embed, n).records
  {
    if m < n {
      RecordsGrow(files, embed, m, n - 1);
    }
  }

  /** At most one record per file, and one per file exactly when no file was skipped. */
  lemma {:induction false} RecordCount(files: seq<string>, embed: string -> FileOutcome, n: nat)
    requires n <= |files|
    ensures |Ingest(files, embed, n).records| <= n
    ensures |Ingest(files, embed, n).records| == n <==> forall j :: 0 <= j < n ==> AddsRecord(OutcomeAt(files, embed, j))
  {
    if n > 0 {
      RecordCount(files, embed, n - 1);
    }
  }

  /** The record of file j sits right after the records of the files before it. */
  lemma RecordOfFile(files: seq<string>, embed: string -> FileOutcome, j: nat, n: nat)
    requires j < n <= |files|
    requires AddsRecord(OutcomeAt(files, embed, j))
    ensures |Ingest(files, embed, j).records| < |Ingest(files, embed, n).records|
    ensures Ingest(files, embed, n).records[|Ingest(files, embed, j).records|].id == j
  {
    RecordsGrow(files, embed, j + 1, n);
  }

  /** Skip-on-failure: a file gets a record exactly when it was both embedded and tagged,
      whatever happened to the files before it. */
  lemma RecordsAreTaggedFiles(files: seq<string>, embed: string -> FileOutcome, n: nat)
    requires n <= |files|
    ensures forall j :: 0 <= j < n ==>
      (AddsRecord(OutcomeAt(files, embed, j)) <==> exists r :: r in Ingest(files, embed, n).records && r.id == j)
  {
    IngestShape(files, embed, n);
    forall j | 0 <= j < n && AddsRecord(OutcomeAt(files, embed, j))
      ensures exists r :: r in Ingest(files, embed, n).records && r.id == j
    {
      RecordOfFile(files, embed, j, n);
      var records := Ingest(files, embed, n).records;
      assert records[|Ingest(files, embed, j).records|] in records;
    }
  }

  /** The vectors of a shorter prefix are a prefix of the vectors of a longer one. */
  lemma {:induction false} VectorsGrow(files: seq<string>, embed: string -> FileOutcome, m: nat, n: nat)
    requires m <= n <= |files|
    ensures Ingest(files, embed, m).vectors <= Ingest(files, embed, n).vectors
  {
    if m < n {
      VectorsGrow(files, embed, m, n - 1);
    }
  }

  /** Vectors are kept in file order: the vector of file j follows the vectors of the files before it. */
  lemma VectorOfFile(files: seq<string>, embed: string -> FileOutcome, j: nat, n: nat)
    requires j < n <= |files|
    requires AppendsVector(OutcomeAt(files, embed, j))
    ensures |Ingest(files, embed, j).vectors| < |Ingest(files, embed, n).vectors|
    ensures Ingest(files, embed, n).vectors[|Ingest(files, embed, j).vectors|] == OutcomeAt(files, embed, j).vector
  {
    VectorsGrow(files, embed, j + 1, n);
  }

  /** When no file fails between storing its vector and appending its record, the
      archive as written is aligned: index position k holds the vector of the image
      metadata[k] describes, which is what the readers' `metadata[idx]` lookups assume.
      Without that condition, alignment at every position fails (IngestCountsEqual). */
  lemma {:induction false} IngestAlignedWhenNoLateFailure(files: seq<string>, embed: string -> FileOutcome, n: nat)
    requires n <= |files|
    requires forall j :: 0 <= j < n ==> (AppendsVector(OutcomeAt(files, embed, j)) ==> AddsRecord(OutcomeAt(files, embed, j)))
    ensures var p := Ingest(files, embed, n);
      && |p.vectors| == |p.records|
      && forall k :: 0 <= k < |p.records| ==>
           AddsRecord(embed(p.records[k].path)) && p.vectors[k] == embed(p.records[k].path).vector
  {
    if n > 0 {
      IngestAlignedWhenNoLateFailure(files, embed, n - 1);
      IngestShape(files, embed, n - 1);
    }
  }

  /** Alignment of the archive as written holds exactly when no file failed after its
      vector was stored: equal lengths with every position matching, or neither. */
  lemma IngestAlignedIff(files: seq<string>, embed: string -> FileOutcome, n: nat)
    requires n <= |files|
    ensures var p := Ingest(files, embed, n);
      (&& |p.vectors| == |p.records|
       && forall k :: 0 <= k < |p.records| ==>
            AddsRecord(embed(p.records[k].path)) && p.vectors[k] == embed(p.records[k].path).vector)
      <==> forall j :: 0 <= j < n ==> (AppendsVector(OutcomeAt(files, embed, j)) ==> AddsRecord(OutcomeAt(files, embed, j)))
  {
    IngestCountsEqual(files, embed, n);
    if forall j :: 0 <= j < n ==> (AppendsVector(OutcomeAt(files, embed, j)) ==> AddsRecord(OutcomeAt(files, embed, j))) {
      IngestAlignedWhenNoLateFailure(files, embed, n);
    }
  }

  /** `metadata[k]["id"] == k` exactly when none of the files before that record's file was skipped. */
  lemma IdIsPosition(files: seq<string>, embed: string -> FileOutcome, n: nat, k: nat)
    requires n <= |files|
    requires k < |Ingest(files, embed, n).records|
    ensures Ingest(files, embed, n).records[k].id >= k
    ensures var i := Ingest(files, embed, n).records[k].id;
      i < |files| && (i == k <==> forall j :: 0 <= j < i ==> AddsRecord(OutcomeAt(files, embed, j)))
  {
    var records := Ingest(files, embed, n).records;
    IngestShape(files, embed, n);
    var i := records[k].id;
    assert records[k] in records;
    RecordOfFile(files, embed, i, n);
    var p := |Ingest(files, embed, i).records|;
    assert records[p].id == records[k].id;
    RecordCount(files, embed, i);
  }

  /** What a run of build_archive ends in. Written carries what goes to disk:
      the vectors added to the index, in append order, and the metadata list. */
  datatype BuildStatus =
    | ModelUnavailable
    | FolderCreated
    | NoImagesFound
    | NothingIndexed
    | Written(vectors: seq<Vector>, records: seq<Record>)

  /** The whole build as a function of the collaborators' behaviour. */
  function Build(modelLoads: bool, folderExists: bool, listing: seq<string>, embed: string -> FileOutcome): BuildStatus {
    if !modelLoads then ModelUnavailable
    else if !folderExists then FolderCreated
    else
      var files := ImageFiles(listing);
      if files == [] then NoImagesFound
      else
        var p := Ingest(files, embed, |files|);
        if p.vectors == [] then NothingIndexed else Written(p.vectors, p.records)
  }

  /** The archive is written exactly when the model loaded, the folder existed and
      some image file got its vector stored; a missing folder or an empty image list
      stops the build before anything is processed. */
  lemma WhenWritten(modelLoads: bool, folderExists: bool, listing: seq<string>, embed: string -> FileOutcome)
    ensures var files := ImageFiles(listing);
      (Build(modelLoads, folderExists, listing, embed).Written? <==>
         modelLoads && folderExists && exists j :: 0 <= j < |files| && AppendsVector(OutcomeAt(files, embed, j)))
    ensures modelLoads && !folderExists ==> Build(modelLoads, folderExists, listing, embed) == FolderCreated
    ensures modelLoads && folderExists && (forall f :: f in listing ==> !IsImageName(f))
      ==> Build(modelLoads, folderExists, listing, embed) == NoImagesFound
  {
    var files := ImageFiles(listing);
    IngestNoVectors(files, embed, |files|);
    if files != [] {
      assert files[0] in files;
    }
    if modelLoads && folderExists && files != [] {
      var p := Ingest(files, embed, |files|);
      assert Build(modelLoads, folderExists, listing, embed).Written? <==> p.vectors != [];
      if p.vectors != [] {
        var j :| 0 <= j < |files| && AppendsVector(OutcomeAt(files, embed, j));
        assert AppendsVector(OutcomeAt(ImageFiles(listing), embed, j));
      }
    }
  }

  /** What a written archive holds: every record describes one image file, ids increase,
      there are no more records than vectors and no more vectors than image files, and
      the two lists have equal length exactly when no file failed after its vector was stored. */
  lemma WrittenArchive(modelLoads: bool, folderExists: bool, listing: seq<string>, embed: string -> FileOutcome)
    requires Build(modelLoads, folderExists, listing, embed).Written?
    ensures var files := ImageFiles(listing);
      var w := Build(modelLoads, folderExists, listing, embed);
      && w.vectors != []
      && |w.records| <= |w.vectors| <= |files|
      && (forall r :: r in w.records ==> Describes(r, files, embed) && r.tag in StyleTags)
      && IdsIncreasing(w.records)
      && (|w.records| == |w.vectors|
          <==> forall j :: 0 <= j < |files| ==> (AppendsVector(OutcomeAt(files, embed, j)) ==> AddsRecord(OutcomeAt(files, embed, j))))
  {
    var files := ImageFiles(listing);
    IngestShape(files, embed, |files|);
    IngestCountsEqual(files, embed, |files|);
  }

  /** build_archive, step by step. The model load, folder check and listing are
      inputs; the writes to disk are the Written result. */
  method BuildArchive(modelLoads: bool, folderExists: bool, listing: seq<string>, embed: string -> FileOutcome)
    returns (status: BuildStatus)
    ensures status == Build(modelLoads, folderExists, listing, embed)
  {
    if !modelLoads {
      return ModelUnavailable;
    }
    if !folderExists {
      return FolderCreated;
    }
    var imageFiles := ImageFiles(listing);
    if |imageFiles| == 0 {
      return NoImagesFound;
    }
    var metadata: seq<Record> := [];
    var validVectors: seq<Vector> := [];
    var i := 0;
    while i < |imageFiles|
      invariant i <= |imageFiles|
      invariant Progress(validVectors, metadata) == Ingest(imageFiles, embed, i)
    {
      var filename := imageFiles[i];
      var path := ImagePath(filename);
      match embed(path) {
        case EmbeddingFailed =>
        case TaggingFailed(v) =>
          validVectors := validVectors + [v];
        case Embedded(v, bestTag) =>
          validVectors := validVectors + [v];
          if bestTag < |StyleTags| {
            metadata := metadata + [Record(i, filename, path, StyleTags[bestTag], UnknownArtist, NoYear)];
          }
      }
      i := i + 1;
    }
    if |validVectors| == 0 {
      return NothingIndexed;
    }
    status := Written(validVectors, metadata);
  }

  // Both readers fetch a hit's record as metadata[idx], which is right only if the
  // vector at index position k and metadata[k] describe the same image. The loop
  // above stores the vector before tagging and uses the listing index as id, so
  // neither alignment nor metadata[k]["id"] == k holds in general.

  /** As written: the first file's tagging raises after its vector was stored. Index
      position 0 then holds a.png's vector while metadata[0] describes b.png, and
      position 1 has no record at all. */
  lemma TaggingFailureOrphansVector()
    ensures var files := ["a.png", "b.png"];
      var embed := (path: string) => if path == ImagePath("a.png") then TaggingFailed([1.0]) else Embedded([0.5], 0);
      var p := Ingest(files, embed, 2);
      && p.vectors == [[1.0], [0.5]]
      && p.records == [NewRecord(1, "b.png", "Oil Painting")]
  {
    var files := ["a.png", "b.png"];
    var embed := (path: string) => if path == ImagePath("a.png") then TaggingFailed([1.0]) else Embedded([0.5], 0);
    assert ImagePath("a.png") != ImagePath("b.png") by {
      assert ImagePath("a.png")[7] != ImagePath("b.png")[7];
    }
    assert Ingest(files, embed, 1) == Progress([[1.0]], []);
  }

  /** As written: a file skipped before its vector was stored shifts positions, but the
      next record still carries its listing index: metadata[0]["id"] == 1 although
      it sits at position 0 in both lists. */
  lemma SkippedFileShiftsIds()
    ensures var files := ["a.png", "b.png"];
      var embed := (path: string) => if path == ImagePath("a.png") then EmbeddingFailed else Embedded([0.5], 1);
      var p := Ingest(files, embed, 2);
      && p.vectors == [[0.5]]
      && p.records == [NewRecord(1, "b.png", "Sketch")]
  {
    var files := ["a.png", "b.png"];
    var embed := (path: string) => if path == ImagePath("a.png") then EmbeddingFailed else Embedded([0.5], 1);
    assert ImagePath("a.png") != ImagePath("b.png") by {
      assert ImagePath("a.png")[7] != ImagePath("b.png")[7];
    }
    assert Ingest(files, embed, 1) == Progress([], []);
  }

  /** The loop as the positional lookups need it: a file's vector is stored only
      together with its record, and the record's id is its position in the archive. */
  function IngestAligned(files: seq<string>, embed: string -> FileOutcome, n: nat): Progress
    requires n <= |files|
  {
    if n == 0 then Progress([], [])
    else
      var p := IngestAligned(files, embed, n - 1);
      var o := OutcomeAt(files, embed, n - 1);
      if AddsRecord(o) then
        Progress(p.vectors + [o.vector], p.records + [NewRecord(|p.records|, files[n - 1], StyleTags[o.bestTag])])
      else p
  }

  /** The corrected loop keeps the index and the metadata aligned: equal lengths, the
      record at position k has id k, and the vector at position k is that record's image's vector. */
  lemma {:induction false} IngestAlignedIsAligned(files: seq<string>, embed: string -> FileOutcome, n: nat)
    requires n <= |files|
    ensures var p := IngestAligned(files, embed, n);
      && |p.vectors| == |p.records|
      && forall k :: 0 <= k < |p.records| ==>
           && p.records[k].id == k
           && p.records[k].filename in files
           && p.records[k].path == ImagePath(p.records[k].filename)
           && AddsRecord(embed(p.records[k].path))
           && embed(p.records[k].path).vector == p.vectors[k]
           && p.records[k].tag == StyleTags[embed(p.records[k].path).bestTag]
  {
    if n > 0 {
      IngestAlignedIsAligned(files, embed, n - 1);
    }
  }

  /** The corrected loop keeps the same records in the same order as the loop as
      written; only the ids differ (position instead of listing index). */
  lemma {:induction false} IngestAlignedSameRecords(files: seq<string>, embed: string -> FileOutcome, n: nat)
    requires n <= |files|
    ensures |IngestAligned(files, embed, n).records| == |Ingest(files, embed, n).records|
    ensures forall k :: 0 <= k < |Ingest(files, embed, n).records| ==>
      IngestAligned(files, embed, n).records[k] == Ingest(files, embed, n).records[k].(id := k)
  {
    if n > 0 {
      IngestAlignedSameRecords(files, embed, n - 1);
    }
  }
}
