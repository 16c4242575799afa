/**
 * The document-ingestion front half of a query engine build: naming the downloads
 * bucket, turning a bucket listing into source-file records, reading a document by
 * its extension, and splitting it into overlapping sentence-window chunks while
 * recording the documents that yield nothing.
 */
module DataSources {
  import opened Outcomes
  import opened PyStrings

  /** Sentences included before and after the centre sentence of each chunk. */
  const ChunkSentencePadding: nat := 1

  // ---------------------------------------------------------------------------
  // Downloads bucket name

  /** The engine name with spaces and underscores turned into `-`, then lower-cased. */
  function NormalizedEngineName(name: string): string {
    Lower(ReplaceChar(ReplaceChar(name, ' ', '-'), '_', '-'))
  }

  predicate IsBucketEdgeChar(c: char) {
    'a' <= c <= 'z' || '0' <= c <= '9'
  }

  predicate IsBucketChar(c: char) {
    IsBucketEdgeChar(c) || c == '.' || c == '_' || c == '-'
  }

  /** A full match of `^[a-z0-9][a-z0-9._-]{1,61}[a-z0-9]$`. */
  predicate IsValidBucketName(s: string) {
    3 <= |s| <= 63 && IsBucketEdgeChar(s[0]) && IsBucketEdgeChar(s[|s| - 1])
    && forall i :: 0 < i < |s| - 1 ==> IsBucketChar(s[i])
  }

  /** The RuntimeError raised for a name that breaks the bucket naming rule. */
  datatype BucketNameError = InvalidDownloadsBucketName(bucketName: string)

  /** The unique downloads bucket of an engine, or the error for a name GCS would refuse. */
  function DownloadsBucketName(projectId: string, engineName: string): (r: Result<string, BucketNameError>)
    ensures r.Ok? ==> r.value == projectId + "-downloads-" + NormalizedEngineName(engineName)
    ensures r.Ok? ==> && 3 <= |r.value| <= 63
                      && (forall i :: 0 <= i < |r.value| ==> IsBucketChar(r.value[i]))
                      && IsBucketEdgeChar(r.value[0]) && IsBucketEdgeChar(r.value[|r.value| - 1])
    ensures r.Err? <==> !IsValidBucketName(projectId + "-downloads-" + NormalizedEngineName(engineName))
  {
    var bucketName := projectId + "-downloads-" + NormalizedEngineName(engineName);
    if IsValidBucketName(bucketName) then Ok(bucketName)
    else Err(InvalidDownloadsBucketName(bucketName))
  }

  /** Character by character, the normalised name has no space, underscore or ASCII capital. */
  lemma NormalizedEngineNameChars(name: string)
    ensures |NormalizedEngineName(name)| == |name|
    ensures forall i :: 0 <= i < |name| ==>
      NormalizedEngineName(name)[i] == (if name[i] == ' ' || name[i] == '_' then '-' else LowerChar(name[i]))
    ensures forall i :: 0 <= i < |name| ==>
      var c := NormalizedEngineName(name)[i]; c != ' ' && c != '_' && !('A' <= c <= 'Z')
  {
  }

  /** Normalising a name twice changes nothing more. */
  lemma NormalizedEngineNameIdempotent(name: string)
    ensures NormalizedEngineName(NormalizedEngineName(name)) == NormalizedEngineName(name)
  {
    var once := NormalizedEngineName(name);
    NormalizedEngineNameChars(name);
    NormalizedEngineNameChars(once);
  }

  /** An empty engine name leaves a trailing `-`, which the naming rule refuses. */
  lemma EmptyEngineNameRejected(projectId: string)
    ensures DownloadsBucketName(projectId, "").Err?
  {
    var b := projectId + "-downloads-" + NormalizedEngineName("");
    assert NormalizedEngineName("") == "";
    assert b[|b| - 1] == '-';
  }

  /** An empty project id leaves a leading `-`, which the naming rule refuses. */
  lemma EmptyProjectIdRejected(engineName: string)
    ensures DownloadsBucketName("", engineName).Err?
  {
    var b := "" + "-downloads-" + NormalizedEngineName(engineName);
    assert b[0] == '-';
  }

  /** Any name longer than 63 characters in all is refused. */
  lemma LongBucketNameRejected(projectId: string, engineName: string)
    requires |projectId| + |engineName| > 52
    ensures DownloadsBucketName(projectId, engineName).Err?
  {
    NormalizedEngineNameChars(engineName);
  }

  // ---------------------------------------------------------------------------
  // Download: a bucket listing to DataSourceFile records

  /** Metadata about one downloaded source file; this data source never sets `docId`. */
  datatype DataSourceFile = DataSourceFile(
    docName: string,
    srcUrl: string,
    localPath: string,
    gcsPath: string,
    docId: Option<string>)

  /** What the storage listing reports for one object. */
  datatype Blob = Blob(name: string, path: string, publicUrl: string)

  datatype DownloadError =
    | MalformedDocUrl     // `doc_url` has no "gs://": the split raises IndexError
    | ListingFailed       // `list_blobs` raised
    | NoDocumentsIndexed  // the listing is empty

  /** `doc_url.split("gs://")[1].split("/")[0]`: the bucket a `gs://` url names. */
  function BucketOf(docUrl: string): (r: Option<string>)
    ensures r.None? <==> forall j: nat :: !OccursAt(docUrl, "gs://", j)
    ensures r.Some? ==> '/' !in r.value && |r.value| + 5 <= |docUrl|
  {
    match SplitSecond(docUrl, "gs://")
    case None => None
    case Some(rest) =>
      SplitHeadExcludes(rest, '/');
      assert "/" == ['/'];
      Some(SplitHead(rest, "/"))
  }

  lemma SplitHeadIsFirst(s: string, sep: string, k: nat)
    requires sep != "" && OccursAt(s, sep, k)
    requires forall j: nat :: j < k ==> !OccursAt(s, sep, j)
    ensures SplitHead(s, sep) == s[..k]
  {
  }

  lemma SplitHeadAbsent(s: string, sep: string)
    requires sep != ""
    requires forall j: nat :: !OccursAt(s, sep, j)
    ensures SplitHead(s, sep) == s
  {
  }

  /** A character that differs from the pattern rules out an occurrence there. */
  lemma MismatchAt(s: string, p: string, j: nat, k: nat)
    requires k < |p|
    requires j + k >= |s| || s[j + k] != p[k]
    ensures !OccursAt(s, p, j)
  {
    if j + |p| <= |s| {
      assert s[j..j + |p|][k] == s[j + k];
    }
  }

  /** A `gs://bucket/...` url names its bucket. */
  lemma BucketOfGsUrl(bucket: string, rest: string)
    requires forall i :: 0 <= i < |bucket| ==> bucket[i] != '/' && bucket[i] != ':'
    requires rest == "" || rest[0] == '/'
    ensures BucketOf("gs://" + bucket + rest) == Some(bucket)
  {
    var h := GsTail(bucket, rest);
    HeadBeforeSlash(h, bucket);
  }

  /** After the leading `gs://`, the text up to the next `gs://` starts with the bucket and then `/`, if anything. */
  lemma GsTail(bucket: string, rest: string) returns (h: string)
    requires forall i :: 0 <= i < |bucket| ==> bucket[i] != '/' && bucket[i] != ':'
    requires rest == "" || rest[0] == '/'
    ensures SplitSecond("gs://" + bucket + rest, "gs://") == Some(h)
    ensures StartsWith(h, bucket) && (|h| == |bucket| || h[|bucket|] == '/')
  {
    var url := "gs://" + bucket + rest;
    var t := bucket + rest;
    assert url[..5] == "gs://";
    assert FindFrom(url, "gs://", 0) == Some(0);
    assert url[5..] == t;
    forall j: nat | j <= |bucket| ensures !OccursAt(t, "gs://", j) {
      if j + 2 < |bucket| {
        MismatchAt(t, "gs://", j, 2);
      } else if j + 2 == |bucket| {
        MismatchAt(t, "gs://", j, 2);
      } else if j + 1 == |bucket| {
        MismatchAt(t, "gs://", j, 1);
      } else {
        MismatchAt(t, "gs://", j, 0);
      }
    }
    h := SplitHead(t, "gs://");
    assert StartsWith(t, h);
    assert StartsWith(h, bucket) by {
      assert |h| >= |bucket|;
      assert h[..|bucket|] == t[..|bucket|];
    }
    if |h| != |bucket| {
      assert h[|bucket|] == t[|bucket|] == rest[0];
    }
  }

  /** The head before the first `/` of a text that is the bucket, then `/` or nothing, is the bucket. */
  lemma HeadBeforeSlash(h: string, bucket: string)
    requires forall i :: 0 <= i < |bucket| ==> bucket[i] != '/'
    requires StartsWith(h, bucket) && (|h| == |bucket| || h[|bucket|] == '/')
    ensures SplitHead(h, "/") == bucket
  {
    forall j: nat | j < |bucket| ensures !OccursAt(h, "/", j) {
      assert h[j] == bucket[j];
      assert h[j..j + 1] == [h[j]];
    }
    if |h| == |bucket| {
      assert h == bucket;
      forall j: nat ensures !OccursAt(h, "/", j) {
      }
      SplitHeadAbsent(h, "/");
    } else {
      assert h[|bucket|..|bucket| + 1] == "/";
      SplitHeadIsFirst(h, "/", |bucket|);
      assert h[..|bucket|] == bucket;
    }
  }

  /** The record for one blob: nested directories are flattened to the file name. */
  function FileOfBlob(blob: Blob, tempDir: string): (r: DataSourceFile)
    ensures r.docName == blob.name && r.srcUrl == blob.publicUrl && r.docId == None
  {
    DataSourceFile(
      docName := blob.name,
      srcUrl := blob.publicUrl,
      localPath := PathJoin(tempDir, BaseName(blob.name)),
      gcsPath := "gs://" + RemoveAll(blob.path, "/b/"),
      docId := None)
  }

  /** The records for a listing, one per blob, in listing order. */
  function FilesOf(blobs: seq<Blob>, tempDir: string): (r: seq<DataSourceFile>)
    ensures |r| == |blobs|
    decreases |blobs|
  {
    if blobs == [] then []
    else FilesOf(blobs[..|blobs| - 1], tempDir) + [FileOfBlob(blobs[|blobs| - 1], tempDir)]
  }

  /** Record `k` of a listing is the record of blob `k`. */
  lemma {:induction false} FilesOfAt(blobs: seq<Blob>, tempDir: string, k: nat)
    requires k < |blobs|
    ensures FilesOf(blobs, tempDir)[k] == FileOfBlob(blobs[k], tempDir)
    decreases |blobs|
  {
    if k < |blobs| - 1 {
      FilesOfAt(blobs[..|blobs| - 1], tempDir, k);
    }
  }

  /** The local copy sits in the scratch directory under the blob's own file name. */
  lemma FileOfBlobFlattens(dir: string, file: string, path: string, publicUrl: string, tempDir: string)
    requires file != "" && file != "." && '/' !in file
    ensures FileOfBlob(Blob(file, path, publicUrl), tempDir).localPath == PathJoin(tempDir, file)
    ensures FileOfBlob(Blob(dir + "/" + file, path, publicUrl), tempDir).localPath == PathJoin(tempDir, file)
    ensures BaseName(PathJoin(tempDir, file)) == file
  {
    BaseNameOfFileName(file);
    BaseNameOfNested(dir, file);
    BaseNameOfPathJoin(tempDir, file);
  }

  /** Two blobs with the same file name in different folders share one local path. */
  lemma FlatteningMergesSameFileNames(dirA: string, dirB: string, file: string, tempDir: string)
    requires file != "" && file != "." && '/' !in file
    ensures FileOfBlob(Blob(dirA + "/" + file, "", ""), tempDir).localPath
         == FileOfBlob(Blob(dirB + "/" + file, "", ""), tempDir).localPath
  {
    BaseNameOfNested(dirA, file);
    BaseNameOfNested(dirB, file);
  }

  /** The storage path `/b/<bucket>/o/<name>` becomes the url `gs://<bucket>/o/<name>`. */
  lemma FileOfBlobGcsPath(blob: Blob, tempDir: string, rest: string)
    requires blob.path == "/b/" + rest
    requires forall j: nat :: !OccursAt(rest, "/b/", j)
    ensures FileOfBlob(blob, tempDir).gcsPath == "gs://" + rest
  {
    assert StartsWith(blob.path, "/b/");
    assert blob.path[3..] == rest;
    RemoveAllAbsent(rest, "/b/");
  }

  // ---------------------------------------------------------------------------
  // Reading a document by its extension

  datatype DocFormat = PlainText | Csv | Pdf | Office | Unsupported

  /** `doc_name.split(".")[-1].lower()` */
  function Extension(docName: string): (r: string)
    ensures '.' !in r
  {
    var parts := Split(docName, '.');
    Lower(parts[|parts| - 1])
  }

  /** The loader `read_doc` picks for a document name. */
  function FormatOf(docName: string): DocFormat {
    var ext := Extension(docName);
    if ext in ["txt", "html", "htm"] then PlainText
    else if ext == "csv" then Csv
    else if ext == "pdf" then Pdf
    else if ext in ["docx", "pptx", "ppt", "pptm"] then Office
    else Unsupported
  }

  /** The extension is the lower-cased text after the last dot. */
  lemma ExtensionAfterLastDot(stem: string, ext: string)
    requires '.' !in ext
    ensures Extension(stem + "." + ext) == Lower(ext)
  {
    SplitAround(stem, ext, '.');
    SplitNoSeparator(ext, '.');
  }

  /** A name without a dot is taken whole as its extension. */
  lemma ExtensionOfDotlessName(name: string)
    requires '.' !in name
    ensures Extension(name) == Lower(name)
  {
    SplitNoSeparator(name, '.');
  }

  /** Only the text after the last dot decides the loader. */
  lemma FormatFollowsLastSuffix(stem: string, ext: string)
    requires '.' !in ext
    ensures FormatOf(stem + "." + ext) == FormatOf(ext)
  {
    ExtensionAfterLastDot(stem, ext);
    ExtensionOfDotlessName(ext);
  }

  /** Extensions are compared case-insensitively. */
  lemma UpperCaseExtensionRead(stem: string)
    ensures FormatOf(stem + ".PDF") == Pdf
  {
    assert stem + ".PDF" == stem + "." + "PDF";
    FormatFollowsLastSuffix(stem, "PDF");
    ExtensionOfDotlessName("PDF");
    assert Lower("PDF") == "pdf";
  }

  /** A name that is only `txt`, with no dot, is read as a text file. */
  lemma BareExtensionNameRead()
    ensures FormatOf("txt") == PlainText
  {
    ExtensionOfDotlessName("txt");
    assert Lower("txt") == "txt";
  }

  /** Only the last suffix counts: a compressed archive is not read. */
  lemma CompoundSuffixUnsupported(stem: string)
    ensures FormatOf(stem + ".tar.gz") == Unsupported
  {
    assert stem + ".tar.gz" == (stem + ".tar") + "." + "gz";
    FormatFollowsLastSuffix(stem + ".tar", "gz");
    ExtensionOfDotlessName("gz");
    assert Lower("gz") == "gz";
  }

  /**
   * The file-reading calls `read_doc` makes, each of which may raise: reading a text
   * file, loading CSV rows, opening a PDF (and extracting each page's text), loading an
   * office document's sections.
   */
  datatype FileSystem = FileSystem(
    readText: string -> Try<string>,
    loadCsv: string -> Try<seq<string>>,
    openPdf: string -> Try<seq<Try<string>>>,
    loadOffice: string -> Try<seq<string>>)

  /** What `read_doc` gives: its list of texts, `None` (unsupported), or an exception. */
  datatype ReadResult = Units(texts: seq<string>) | NoContent | ReadRaised

  /** Every page's text, in page order, or Raised once any page's extraction raises. */
  function ExtractAll(pages: seq<Try<string>>): (r: Try<seq<string>>)
    ensures r.Returned? <==> forall k :: 0 <= k < |pages| ==> pages[k].Returned?
    ensures r.Returned? ==>
      |r.value| == |pages| && forall k :: 0 <= k < |pages| ==> pages[k] == Returned(r.value[k])
    decreases |pages|
  {
    if pages == [] then Returned([])
    else
      match (pages[0], ExtractAll(pages[1..]))
      case (Returned(t), Returned(ts)) => Returned([t] + ts)
      case _ => Raised
  }

  /** What `read_doc(doc_name, doc_filepath)` yields with the given file system. */
  function ReadOf(docName: string, path: string, fs: FileSystem): (r: ReadResult)
    ensures r == NoContent <==> FormatOf(docName) == Unsupported
    ensures FormatOf(docName) == PlainText ==> (r.Units? <==> fs.readText(path).Returned?)
    ensures FormatOf(docName) == PlainText && r.Units? ==>
      |r.texts| == 1 && fs.readText(path) == Returned(r.texts[0])
    ensures FormatOf(docName) == Pdf ==>
      (r.Units? <==> fs.openPdf(path).Returned?
                     && forall k :: 0 <= k < |fs.openPdf(path).value| ==> fs.openPdf(path).value[k].Returned?)
    ensures FormatOf(docName) == Pdf && r.Units? ==>
      && |r.texts| == |fs.openPdf(path).value|
      && forall k :: 0 <= k < |r.texts| ==> fs.openPdf(path).value[k] == Returned(r.texts[k])
    ensures FormatOf(docName) == Csv ==> (r.Units? <==> fs.loadCsv(path).Returned?)
    ensures FormatOf(docName) == Csv && r.Units? ==> fs.loadCsv(path) == Returned(r.texts)
    ensures FormatOf(docName) == Office ==> (r.Units? <==> fs.loadOffice(path).Returned?)
    ensures FormatOf(docName) == Office && r.Units? ==> fs.loadOffice(path) == Returned(r.texts)
    ensures r == ReadRaised <==> FormatOf(docName) != Unsupported && !r.Units?
  {
    match FormatOf(docName)
    case PlainText =>
      (match fs.readText(path) case Returned(t) => Units([t]) case Raised => ReadRaised)
    case Csv =>
      (match fs.loadCsv(path) case Returned(rows) => Units(rows) case Raised => ReadRaised)
    case Pdf =>
      (match fs.openPdf(path)
       case Raised => ReadRaised
       case Returned(pages) =>
         match ExtractAll(pages) case Returned(ts) => Units(ts) case Raised => ReadRaised)
    case Office =>
      (match fs.loadOffice(path) case Returned(ts) => Units(ts) case Raised => ReadRaised)
    case Unsupported => NoContent
  }

  /** `read_doc`: dispatch on the extension; a PDF is read page by page. */
  method ReadDoc(docName: string, docFilepath: string, fs: FileSystem) returns (r: ReadResult)
    ensures r == ReadOf(docName, docFilepath, fs)
  {
    var format := FormatOf(docName);
    if format == PlainText {
      var text := fs.readText(docFilepath);
      if text.Raised? {
        return ReadRaised;
      }
      r := Units([text.value]);
    } else if format == Csv {
      var rows := fs.loadCsv(docFilepath);
      if rows.Raised? {
        return ReadRaised;
      }
      r := Units(rows.value);
    } else if format == Pdf {
      var reader := fs.openPdf(docFilepath);
      if reader.Raised? {
        return ReadRaised;
      }
      var pages := reader.value;
      var docTextList: seq<string> := [];
      for page := 0 to |pages|
        invariant |docTextList| == page
        invariant forall k :: 0 <= k < page ==> pages[k] == Returned(docTextList[k])
      {
        if pages[page].Raised? {
          return ReadRaised;
        }
        docTextList := docTextList + [pages[page].value];
      }
      assert docTextList == ExtractAll(pages).value;
      r := Units(docTextList);
    } else if format == Office {
      var docs := fs.loadOffice(docFilepath);
      if docs.Raised? {
        return ReadRaised;
      }
      r := Units(docs.value);
    } else {
      r := NoContent;
    }
  }

  // ---------------------------------------------------------------------------
  // Sentence-window chunks

  /**
   * The sentence-window node parser: it splits a text into sentences and gives each
   * sentence the text of its window, the sentences up to `windowSize` before and after it.
   */
  datatype SentenceWindowParser = SentenceWindowParser(
    windowSize: nat,
    splitSentences: string -> seq<string>,
    joinWindow: seq<string> -> string)

  /** First sentence of the window around sentence `i`. */
  function WindowStart(i: nat, w: nat): nat {
    if i < w then 0 else i - w
  }

  /** One past the last sentence of the window around sentence `i`, among `n`. */
  function WindowEnd(i: nat, w: nat, n: nat): nat {
    if i + w + 1 < n then i + w + 1 else n
  }

  predicate InWindow(k: int, i: nat, w: nat, n: nat) {
    WindowStart(i, w) <= k < WindowEnd(i, w, n)
  }

  /** The window of sentence `i` is the sentences at most `w` away from it, clipped to the text. */
  lemma WindowSpan(i: nat, w: nat, n: nat)
    requires i < n
    ensures WindowStart(i, w) <= i < WindowEnd(i, w, n) <= n
    ensures WindowEnd(i, w, n) - WindowStart(i, w) <= 2 * w + 1
    ensures forall k: int :: 0 <= k < n ==> (InWindow(k, i, w, n) <==> i - w <= k <= i + w)
  {
  }

  /** With the padding the data source uses, neighbouring windows share exactly their two centres. */
  lemma AdjacentWindowsOverlap(i: nat, n: nat)
    requires i + 1 < n
    ensures forall k: int ::
      (InWindow(k, i, ChunkSentencePadding, n) && InWindow(k, i + 1, ChunkSentencePadding, n))
      <==> (k == i || k == i + 1)
  {
  }

  /** The window texts of a document, one per sentence, in sentence order. */
  function WindowTexts(parser: SentenceWindowParser, text: string): (r: seq<string>)
    ensures |r| == |parser.splitSentences(text)|
  {
    var s := parser.splitSentences(text);
    seq(|s|, i requires 0 <= i < |s| =>
      parser.joinWindow(s[WindowStart(i, parser.windowSize)..WindowEnd(i, parser.windowSize, |s|)]))
  }

  /**
   * Window text `i` is the join of a run of consecutive sentences that holds sentence `i`
   * and exactly the sentences at most `windowSize` away from it, clipped to the text.
   */
  lemma WindowTextAt(parser: SentenceWindowParser, text: string, i: nat)
    requires i < |parser.splitSentences(text)|
    ensures var s := parser.splitSentences(text);
      var w := parser.windowSize;
      var lo := WindowStart(i, w);
      var hi := WindowEnd(i, w, |s|);
      && lo <= i < hi <= |s|
      && (forall k: int :: 0 <= k < |s| ==> (InWindow(k, i, w, |s|) <==> i - w <= k <= i + w))
      && WindowTexts(parser, text)[i] == parser.joinWindow(s[lo..hi])
  {
    WindowSpan(i, parser.windowSize, |parser.splitSentences(text)|);
  }

  /** The cleaned pages joined with newlines: the text the parser sees. */
  function DocumentText(cleanText: string -> string, units: seq<string>): string {
    Join("\n", seq(|units|, i requires 0 <= i < |units| => cleanText(units[i])))
  }

  /** Joining keeps every cleaned page, in page order: splitting at the newlines gives them back. */
  lemma DocumentTextKeepsPages(cleanText: string -> string, units: seq<string>)
    requires |units| >= 1
    requires forall k :: 0 <= k < |units| ==> '\n' !in cleanText(units[k])
    ensures Split(DocumentText(cleanText, units), '\n')
         == seq(|units|, i requires 0 <= i < |units| => cleanText(units[i]))
  {
    var cleaned := seq(|units|, i requires 0 <= i < |units| => cleanText(units[i]));
    assert "\n" == ['\n'];
    SplitJoin(cleaned, '\n');
  }

  /** The window texts of a document before blank ones are dropped. */
  function ChunkCandidates(parser: SentenceWindowParser, cleanText: string -> string, units: seq<string>): seq<string> {
    WindowTexts(parser, DocumentText(cleanText, units))
  }

  /** `all(element == "" for element in xs)`, true of the empty list. */
  predicate AllEmpty(xs: seq<string>) {
    forall i :: 0 <= i < |xs| ==> xs[i] == ""
  }

  /** `[x for x in xs if x.strip() != ""]` */
  function DropBlank(xs: seq<string>): (r: seq<string>)
    ensures |r| <= |xs|
    ensures forall i :: 0 <= i < |r| ==> !IsBlank(r[i]) && r[i] in xs
    decreases |xs|
  {
    if xs == [] then []
    else (if IsBlank(xs[0]) then [] else [xs[0]]) + DropBlank(xs[1..])
  }

  /** Dropping blanks keeps order: it distributes over concatenation. */
  lemma {:induction false} DropBlankAppend(xs: seq<string>, ys: seq<string>)
    ensures DropBlank(xs + ys) == DropBlank(xs) + DropBlank(ys)
    decreases |xs|
  {
    if xs == [] {
      assert xs + ys == ys;
    } else {
      assert (xs + ys)[1..] == xs[1..] + ys;
      DropBlankAppend(xs[1..], ys);
    }
  }

  /** Every non-blank text survives the filter. */
  lemma {:induction false} DropBlankKeeps(xs: seq<string>, x: string)
    requires x in xs && !IsBlank(x)
    ensures x in DropBlank(xs)
    decreases |xs|
  {
    if xs[0] != x {
      DropBlankKeeps(xs[1..], x);
    }
  }

  /** The filter empties a list exactly when every text in it is blank. */
  lemma {:induction false} DropBlankEmpty(xs: seq<string>)
    ensures DropBlank(xs) == [] <==> forall i :: 0 <= i < |xs| ==> IsBlank(xs[i])
    decreases |xs|
  {
    if xs != [] {
      DropBlankEmpty(xs[1..]);
      if forall i :: 0 <= i < |xs| ==> IsBlank(xs[i]) {
        assert forall i :: 0 <= i < |xs| - 1 ==> IsBlank(xs[1..][i]) by {
          forall i | 0 <= i < |xs| - 1 ensures IsBlank(xs[1..][i]) {
            assert xs[1..][i] == xs[i + 1];
          }
        }
      } else if IsBlank(xs[0]) {
        var i :| 0 <= i < |xs| && !IsBlank(xs[i]);
        assert xs[1..][i - 1] == xs[i];
      }
    }
  }

  /** What `chunk_document` returns, and whether it records the document as not processed. */
  datatype ChunkResult = ChunkResult(chunks: Option<seq<string>>, notProcessed: bool)

  /** The outcome of chunking a document whose read gave `read`. */
  function ChunkOf(parser: SentenceWindowParser, cleanText: string -> string, read: ReadResult): (r: ChunkResult)
    ensures r.chunks.None? <==> !read.Units?
    ensures r.notProcessed <==> !read.Units? || AllEmpty(ChunkCandidates(parser, cleanText, read.texts))
    ensures r.chunks.Some? ==>
      var candidates := ChunkCandidates(parser, cleanText, read.texts);
      && |r.chunks.value| <= |candidates|
      && (forall i :: 0 <= i < |r.chunks.value| ==> !IsBlank(r.chunks.value[i]) && r.chunks.value[i] in candidates)
  {
    match read
    case Units(texts) =>
      var candidates := ChunkCandidates(parser, cleanText, texts);
      ChunkResult(Some(DropBlank(candidates)), AllEmpty(candidates))
    case _ => ChunkResult(None, true)
  }

  /** A document that cannot be read gives None and is recorded. */
  lemma UnreadableDocumentRecorded(parser: SentenceWindowParser, cleanText: string -> string, read: ReadResult)
    requires !read.Units?
    ensures ChunkOf(parser, cleanText, read) == ChunkResult(None, true)
  {
  }

  /**
   * The filter keeps order and repeats: its results are the non-blank texts at a strictly
   * increasing list of positions that holds every non-blank position.
   */
  lemma {:induction false} DropBlankIndices(xs: seq<string>) returns (idx: seq<nat>)
    ensures |idx| == |DropBlank(xs)|
    ensures forall j :: 0 <= j < |idx| ==> idx[j] < |xs| && DropBlank(xs)[j] == xs[idx[j]]
    ensures forall j, k :: 0 <= j < k < |idx| ==> idx[j] < idx[k]
    ensures forall i :: 0 <= i < |xs| && !IsBlank(xs[i]) ==> i in idx
    decreases |xs|
  {
    if xs == [] {
      idx := [];
    } else {
      var tail := DropBlank(xs[1..]);
      var rest := DropBlankIndices(xs[1..]);
      idx := ShiftedIndices(xs, tail, rest);
      assert DropBlank(xs) == (if IsBlank(xs[0]) then [] else [xs[0]]) + tail;
      if !IsBlank(xs[0]) {
        idx := KeepFirstIndex(xs, tail, idx);
      } else {
        forall i | 0 <= i < |xs| && !IsBlank(xs[i]) ensures i in idx {
          assert i != 0;
        }
      }
    }
  }

  /** Keeping the first text adds position 0 in front of the rest's positions. */
  lemma KeepFirstIndex(xs: seq<string>, tail: seq<string>, shifted: seq<nat>) returns (idx: seq<nat>)
    requires |xs| >= 1 && |shifted| == |tail|
    requires forall j :: 0 <= j < |shifted| ==> 1 <= shifted[j] < |xs| && tail[j] == xs[shifted[j]]
    requires forall j, k :: 0 <= j < k < |shifted| ==> shifted[j] < shifted[k]
    requires forall i :: 1 <= i < |xs| && !IsBlank(xs[i]) ==> i in shifted
    ensures |idx| == |tail| + 1
    ensures forall j :: 0 <= j < |idx| ==> idx[j] < |xs| && ([xs[0]] + tail)[j] == xs[idx[j]]
    ensures forall j, k :: 0 <= j < k < |idx| ==> idx[j] < idx[k]
    ensures forall i :: 0 <= i < |xs| && !IsBlank(xs[i]) ==> i in idx
  {
    idx := [0] + shifted;
    assert forall j :: 1 <= j < |idx| ==> idx[j] == shifted[j - 1] && ([xs[0]] + tail)[j] == tail[j - 1];
  }

  /** The positions in `xs[1..]` of its kept texts, as positions in `xs`. */
  lemma ShiftedIndices(xs: seq<string>, tail: seq<string>, rest: seq<nat>) returns (shifted: seq<nat>)
    requires |xs| >= 1 && |rest| == |tail|
    requires forall j :: 0 <= j < |rest| ==> rest[j] < |xs| - 1 && tail[j] == xs[1..][rest[j]]
    requires forall j, k :: 0 <= j < k < |rest| ==> rest[j] < rest[k]
    requires forall i :: 0 <= i < |xs| - 1 && !IsBlank(xs[1..][i]) ==> i in rest
    ensures |shifted| == |tail|
    ensures forall j :: 0 <= j < |shifted| ==> 1 <= shifted[j] < |xs| && tail[j] == xs[shifted[j]]
    ensures forall j, k :: 0 <= j < k < |shifted| ==> shifted[j] < shifted[k]
    ensures forall i :: 1 <= i < |xs| && !IsBlank(xs[i]) ==> i in shifted
  {
    shifted := seq(|rest|, j requires 0 <= j < |rest| => rest[j] + 1);
    forall i | 1 <= i < |xs| && !IsBlank(xs[i]) ensures i in shifted {
      assert xs[1..][i - 1] == xs[i];
      var j :| 0 <= j < |rest| && rest[j] == i - 1;
      assert shifted[j] == i;
    }
  }

  /** A read document gives its non-blank window texts, in sentence order, repeats kept. */
  lemma ChunksOfReadDocument(parser: SentenceWindowParser, cleanText: string -> string, texts: seq<string>)
    returns (idx: seq<nat>)
    ensures var r := ChunkOf(parser, cleanText, Units(texts));
      var candidates := ChunkCandidates(parser, cleanText, texts);
      && r.chunks.Some?
      && (forall i :: 0 <= i < |r.chunks.value| ==> !IsBlank(r.chunks.value[i]) && r.chunks.value[i] in candidates)
      && (forall x :: x in candidates && !IsBlank(x) ==> x in r.chunks.value)
      && |idx| == |r.chunks.value|
      && (forall j :: 0 <= j < |idx| ==> idx[j] < |candidates| && r.chunks.value[j] == candidates[idx[j]])
      && (forall j, k :: 0 <= j < k < |idx| ==> idx[j] < idx[k])
      && (forall i :: 0 <= i < |candidates| && !IsBlank(candidates[i]) ==> i in idx)
  {
    var candidates := ChunkCandidates(parser, cleanText, texts);
    forall x | x in candidates && !IsBlank(x) ensures x in DropBlank(candidates) {
      DropBlankKeeps(candidates, x);
    }
    idx := DropBlankIndices(candidates);
  }

  /** Vacuous content, including no sentences at all, gives `[]` and is recorded. */
  lemma VacuousDocumentRecorded(parser: SentenceWindowParser, cleanText: string -> string, texts: seq<string>)
    requires AllEmpty(ChunkCandidates(parser, cleanText, texts))
    ensures ChunkOf(parser, cleanText, Units(texts)) == ChunkResult(Some([]), true)
  {
    var candidates := ChunkCandidates(parser, cleanText, texts);
    assert IsBlank("");
    DropBlankEmpty(candidates);
  }

  /**
   * Window texts that are all whitespace but not all empty give `[]`, yet the document
   * is not recorded: the emptiness test is exact while the filter strips.
   */
  lemma WhitespaceDocumentNotRecorded(parser: SentenceWindowParser, cleanText: string -> string, texts: seq<string>)
    requires var candidates := ChunkCandidates(parser, cleanText, texts);
      (forall i :: 0 <= i < |candidates| ==> IsBlank(candidates[i])) && !AllEmpty(candidates)
    ensures ChunkOf(parser, cleanText, Units(texts)) == ChunkResult(Some([]), false)
  {
    DropBlankEmpty(ChunkCandidates(parser, cleanText, texts));
  }

  /** A document with some non-blank window gives at least one chunk and is not recorded. */
  lemma UsableDocumentKept(parser: SentenceWindowParser, cleanText: string -> string, texts: seq<string>, i: nat)
    requires i < |ChunkCandidates(parser, cleanText, texts)|
    requires !IsBlank(ChunkCandidates(parser, cleanText, texts)[i])
    ensures var r := ChunkOf(parser, cleanText, Units(texts));
      r.chunks.Some? && |r.chunks.value| > 0 && !r.notProcessed
  {
    var candidates := ChunkCandidates(parser, cleanText, texts);
    assert IsBlank("");
    DropBlankEmpty(candidates);
  }

  /** A one-page document that is a single sentence gives that sentence as its only chunk. */
  lemma SingleSentenceChunk(parser: SentenceWindowParser, cleanText: string -> string, page: string)
    requires parser.splitSentences(cleanText(page)) == [cleanText(page)]
    requires parser.joinWindow([cleanText(page)]) == cleanText(page)
    requires !IsBlank(cleanText(page))
    ensures ChunkOf(parser, cleanText, Units([page])) == ChunkResult(Some([cleanText(page)]), false)
  {
    var t := cleanText(page);
    assert DocumentText(cleanText, [page]) == t;
    WindowTextAt(parser, t, 0);
    assert [t][WindowStart(0, parser.windowSize)..WindowEnd(0, parser.windowSize, 1)] == [t];
    assert ChunkCandidates(parser, cleanText, [page]) == [t];
    assert DropBlank([t]) == [t];
  }

  /** The loop of `download_documents`: one record per listed blob, appended in listing order. */
  method CopyListing(blobs: seq<Blob>, tempDir: string) returns (docFilepaths: seq<DataSourceFile>)
    ensures docFilepaths == FilesOf(blobs, tempDir)
  {
    docFilepaths := [];
    for i := 0 to |blobs|
      invariant docFilepaths == FilesOf(blobs[..i], tempDir)
    {
      assert blobs[..i + 1][..i] == blobs[..i];
      docFilepaths := docFilepaths + [FileOfBlob(blobs[i], tempDir)];
    }
    assert blobs[..|blobs|] == blobs;
  }

  // ---------------------------------------------------------------------------
  // The data source

  /** A GCS data source: the storage listing it downloads from and the chunking it applies. */
  class DataSource {
    /** `storage_client.list_blobs(bucket)` */
    const listBlobs: string -> Try<seq<Blob>>
    /** `clean_text`, the per-page text cleaning */
    const cleanText: string -> string
    /** `doc_parser`, the sentence-window parser */
    const docParser: SentenceWindowParser
    /** `docs_not_processed`: the urls of documents that gave no chunks, in the order met */
    var docsNotProcessed: seq<string>

    constructor (listBlobs: string -> Try<seq<Blob>>, cleanText: string -> string,
                 splitSentences: string -> seq<string>, joinWindow: seq<string> -> string)
      ensures this.listBlobs == listBlobs && this.cleanText == cleanText
      ensures docParser == SentenceWindowParser(ChunkSentencePadding, splitSentences, joinWindow)
      ensures docsNotProcessed == []
    {
      this.listBlobs := listBlobs;
      this.cleanText := cleanText;
      docParser := SentenceWindowParser(ChunkSentencePadding, splitSentences, joinWindow);
      docsNotProcessed := [];
    }

    /** `download_documents`: one record per listed blob, in listing order; an empty listing is an error. */
    method DownloadDocuments(docUrl: string, tempDir: string) returns (r: Result<seq<DataSourceFile>, DownloadError>)
      ensures BucketOf(docUrl).None? ==> r == Err(MalformedDocUrl)
      ensures BucketOf(docUrl).Some? && listBlobs(BucketOf(docUrl).value).Raised? ==> r == Err(ListingFailed)
      ensures BucketOf(docUrl).Some? && listBlobs(BucketOf(docUrl).value).Returned? ==>
        var blobs := listBlobs(BucketOf(docUrl).value).value;
        && (r.Err? <==> blobs == [])
        && (r.Err? ==> r.error == NoDocumentsIndexed)
        && (r.Ok? ==> r.value == FilesOf(blobs, tempDir))
    {
      var bucketName := BucketOf(docUrl);
      if bucketName.None? {
        return Err(MalformedDocUrl);
      }
      var listing := listBlobs(bucketName.value);
      if listing.Raised? {
        return Err(ListingFailed);
      }
      var docFilepaths := CopyListing(listing.value, tempDir);
      if |docFilepaths| == 0 {
        return Err(NoDocumentsIndexed);
      }
      r := Ok(docFilepaths);
    }

    /**
     * `chunk_document`: read, clean each page, join the pages with newlines, take the
     * window texts and drop blank ones; a document that cannot be read, or whose window
     * texts are all "", is appended to `docsNotProcessed`, once.
     */
    method ChunkDocument(docName: string, docUrl: string, docFilepath: string, fs: FileSystem)
      returns (textChunks: Option<seq<string>>)
      modifies this`docsNotProcessed
      ensures var outcome := ChunkOf(docParser, cleanText, ReadOf(docName, docFilepath, fs));
        && textChunks == outcome.chunks
        && docsNotProcessed == old(docsNotProcessed) + (if outcome.notProcessed then [docUrl] else [])
      ensures old(docsNotProcessed) <= docsNotProcessed
      ensures |docsNotProcessed| <= |old(docsNotProcessed)| + 1
    {
      textChunks := None;
      var docTextList := ReadDoc(docName, docFilepath, fs);
      match docTextList {
        case NoContent =>
          docsNotProcessed := docsNotProcessed + [docUrl];
        case ReadRaised =>
          docsNotProcessed := docsNotProcessed + [docUrl];
        case Units(texts) =>
          var cleaned := seq(|texts|, i requires 0 <= i < |texts| => cleanText(texts[i]));
          var docText := Join("\n", cleaned);
          var chunks := WindowTexts(docParser, docText);
          if forall i :: 0 <= i < |chunks| ==> chunks[i] == "" {
            docsNotProcessed := docsNotProcessed + [docUrl];
          }
          textChunks := Some(DropBlank(chunks));
      }
    }
  }

  /**
   * A build over a readable one-page PDF and a corrupt one: the readable PDF yields its
   * chunk, the corrupt one yields None and is the only document recorded as not processed.
   */
  method CorruptDocumentScenario(stemA: string, stemB: string)
    returns (a: Option<seq<string>>, b: Option<seq<string>>, notProcessed: seq<string>)
    ensures a == Some(["Intro"]) && b == None
    ensures notProcessed == ["gs://docs/b"]
  {
    var source := new DataSource(
      (bucket: string) => Returned([]),
      (t: string) => t,
      (t: string) => [t],
      (ws: seq<string>) => Join(" ", ws));
    var fs := FileSystem(
      (p: string) => Raised,
      (p: string) => Raised,
      (p: string) => if p == "/tmp/a" then Returned([Returned("Intro")]) else Raised,
      (p: string) => Raised);
    UpperCaseExtensionRead(stemA);
    UpperCaseExtensionRead(stemB);
    a := source.ChunkDocument(stemA + ".PDF", "gs://docs/a", "/tmp/a", fs);
    b := source.ChunkDocument(stemB + ".PDF", "gs://docs/b", "/tmp/b", fs);
    assert ReadOf(stemA + ".PDF", "/tmp/a", fs) == Units(["Intro"]);
    assert !IsBlank("Intro") by {
      assert !IsSpace("Intro"[0]);
      BlankIffAllSpace("Intro");
    }
    assert source.docParser.joinWindow(["Intro"]) == "Intro";
    SingleSentenceChunk(source.docParser, source.cleanText, "Intro");
    assert a == Some(["Intro"]);
    assert b == None;
    notProcessed := source.docsNotProcessed;
  }
}
