/** The input handlers of the multimodal retriever (mdb_toolkit/InputHandler.py, copied in
    scripts/MultiModalRetriever.py): `parse_metadata`, the rewrite of a local path into an S3
    URI, the four-way choice of handler, and `preprocess` with the S3 reads and the PDF
    rendering given as functions. */
module InputHandlers {
  import opened Wrappers
  import opened Strings
  import opened Documents

  /** The dictionary `parse_metadata` builds. */
  datatype Metadata = Metadata(s3FullPath: string, s3BucketName: string, s3Key: string)

  /** `parse_metadata`: the bucket is the third `/`-separated piece and the key the rest joined
      back with `/`; fewer than three pieces make the indexing raise. */
  function ParseMetadata(input: string): (r: Result<Metadata, Error>)
    ensures r.Err? ==> r.error == IndexOutOfRange
    ensures r.Ok? ==> r.value.s3FullPath == input && '/' !in r.value.s3BucketName
    ensures r.Ok? ==> var parts := Split(input, '/');
                      |parts| >= 3 && r.value.s3BucketName == parts[2] && r.value.s3Key == Join(parts[3..], '/')
  {
    var parts := Split(input, '/');
    SplitPiecesFree(input, '/');
    if |parts| < 3 then Err(IndexOutOfRange)
    else Ok(Metadata(input, parts[2], Join(parts[3..], '/')))
  }

  /** Parsing fails exactly when the input has fewer than two slashes. */
  lemma ParseFailsIff(input: string)
    ensures ParseMetadata(input).Err? <==> Count(input, '/') < 2
  {
  }

  /** With exactly two slashes the bucket is everything after the second one and the key is
      empty: "s3://b" names bucket "b" and key "". */
  lemma ParseTwoSlashes(input: string)
    requires Count(input, '/') == 2
    ensures ParseMetadata(input).Ok?
    ensures ParseMetadata(input).value.s3BucketName == LastSegment(input, '/')
    ensures ParseMetadata(input).value.s3Key == ""
  {
    LastSegmentIsLastPiece(input, '/');
  }

  /** For input with at least three slashes, the first three pieces, a slash and the key give
      back the input: the bucket and the key together cover everything after the second slash. */
  lemma ParseRoundTrip(input: string)
    requires Count(input, '/') >= 3
    ensures ParseMetadata(input).Ok?
    ensures var parts := Split(input, '/');
            var md := ParseMetadata(input).value;
            && md.s3BucketName == parts[2]
            && md.s3Key == Join(parts[3..], '/')
            && Join(parts[..3], '/') + "/" + md.s3Key == input
  {
    var parts := Split(input, '/');
    assert parts == parts[..3] + parts[3..];
    JoinAppend(parts[..3], parts[3..], '/');
    JoinSplit(input, '/');
  }

  /** The pieces of "s3://" + rest are "s3:", "" and the pieces of rest. */
  lemma SplitS3Uri(rest: string)
    ensures Split("s3://" + rest, '/') == ["s3:", ""] + Split(rest, '/')
  {
    var tail := ['/'] + rest;
    assert "s3://" + rest == "s3:" + ['/'] + tail;
    SplitAfterPiece("s3:", tail, '/');
    assert tail == "" + ['/'] + rest;
    SplitAfterPiece("", rest, '/');
  }

  /** An URI s3://bucket/key, with a bucket free of slashes, parses back into that bucket and
      that key. */
  lemma ParseS3Uri(bucket: string, key: string)
    requires '/' !in bucket
    ensures ParseMetadata("s3://" + bucket + "/" + key)
         == Ok(Metadata("s3://" + bucket + "/" + key, bucket, key))
  {
    var rest := bucket + "/" + key;
    assert "s3://" + bucket + "/" + key == "s3://" + rest;
    SplitS3Uri(rest);
    SplitAfterPiece(bucket, key, '/');
    var parts := Split("s3://" + rest, '/');
    assert parts == ["s3:", "", bucket] + Split(key, '/');
    assert parts[3..] == Split(key, '/');
    JoinSplit(key, '/');
  }

  /** Every s3:// URI parses. */
  lemma S3UriParses(input: string)
    requires StartsWith(input, "s3://")
    ensures ParseMetadata(input).Ok?
  {
    var rest := input[5..];
    assert input == "s3://" + rest;
    SplitS3Uri(rest);
  }

  /** The URI the local handlers pass on: f"s3://{bucket_name}/{input.split('/')[-1]}". */
  function LocalS3Uri(bucketName: string, input: string): (uri: string)
    ensures StartsWith(uri, "s3://")
  {
    "s3://" + bucketName + "/" + LastSegment(input, '/')
  }

  /** The rewritten URI parses into the handler's bucket and the input's last path segment
      (for a bucket name without slashes). */
  lemma LocalS3UriParses(bucketName: string, input: string)
    requires '/' !in bucketName
    ensures ParseMetadata(LocalS3Uri(bucketName, input))
         == Ok(Metadata(LocalS3Uri(bucketName, input), bucketName, LastSegment(input, '/')))
  {
    ParseS3Uri(bucketName, LastSegment(input, '/'));
  }

  /** The four handler classes; the local ones carry the retriever's bucket. */
  datatype Handler = S3PdfHandler | S3ImageHandler | PdfHandler(bucketName: string) | ImageHandler(bucketName: string)

  /** `_create_input_processor`: the `s3://` prefix is tested first, then the `.pdf` suffix,
      both case-sensitively. */
  function CreateInputProcessor(bucketName: string, input: string): (h: Handler)
    ensures h == S3PdfHandler <==> StartsWith(input, "s3://") && EndsWith(input, ".pdf")
    ensures h == S3ImageHandler <==> StartsWith(input, "s3://") && !EndsWith(input, ".pdf")
    ensures h == PdfHandler(bucketName) <==> !StartsWith(input, "s3://") && EndsWith(input, ".pdf")
    ensures h == ImageHandler(bucketName) <==> !StartsWith(input, "s3://") && !EndsWith(input, ".pdf")
  {
    if StartsWith(input, "s3://") then
      if EndsWith(input, ".pdf") then S3PdfHandler else S3ImageHandler
    else
      if EndsWith(input, ".pdf") then PdfHandler(bucketName) else ImageHandler(bucketName)
  }

  /** The suffix test is case-sensitive: an upper-case `.PDF` goes to an image handler. */
  lemma UpperCasePdfIsImage(bucketName: string)
    ensures CreateInputProcessor(bucketName, "s3://b/report.PDF") == S3ImageHandler
    ensures CreateInputProcessor(bucketName, "report.PDF") == ImageHandler(bucketName)
  {
    assert "s3://b/report.PDF"[..5] == "s3://";
    assert "s3://b/report.PDF"[13..] == ".PDF";
    assert "report.PDF"[..5] == "repor";
    assert "report.PDF"[6..] == ".PDF";
  }

  /** The prefix wins over the suffix: an s3:// URI never reaches a local handler, whatever it
      ends with. */
  lemma PrefixTakesPrecedence(bucketName: string, input: string)
    requires StartsWith(input, "s3://")
    ensures CreateInputProcessor(bucketName, input + ".pdf") == S3PdfHandler
    ensures CreateInputProcessor(bucketName, input + ".png") == S3ImageHandler
  {
    var s := input + ".pdf";
    assert s[..5] == input[..5];
    assert s[|s| - 4..] == ".pdf";
    var t := input + ".png";
    assert t[..5] == input[..5];
    assert t[|t| - 4..] == ".png";
  }

  /** A local file keeps its kind when it is re-dispatched under its S3 URI: a local PDF becomes
      an S3 PDF, a local image an S3 image. */
  lemma RedispatchKeepsKind(bucketName: string, input: string)
    requires !StartsWith(input, "s3://")
    ensures var uri := LocalS3Uri(bucketName, input);
            CreateInputProcessor(bucketName, uri)
            == (if CreateInputProcessor(bucketName, input).PdfHandler? then S3PdfHandler else S3ImageHandler)
  {
    var last := LastSegment(input, '/');
    var uri := LocalS3Uri(bucketName, input);
    EndsWithLastSegment(input, ".pdf", '/');
    assert uri == ("s3://" + bucketName) + ['/'] + last;
    EndsWithAfterSep("s3://" + bucketName, last, ".pdf", '/');
  }

  /** An image as the model sees it. */
  datatype Image = Image(pixels: seq<int>)

  /** The reads `preprocess` makes from S3: `open(bucket, key)` is the image stored under the
      key, `pages(bucket, key)` the page images of the PDF stored there. */
  datatype ObjectStore = ObjectStore(open: (string, string) -> Image, pages: (string, string) -> seq<Image>)

  /** `S3PDFHandler.preprocess`: one image per page, with the parsed metadata. */
  function S3PdfPreprocess(s3: ObjectStore, input: string): (r: Result<(seq<Image>, Metadata), Error>)
    ensures r.Ok? <==> ParseMetadata(input).Ok?
    ensures r.Ok? ==> r.value.1 == ParseMetadata(input).value &&
                      r.value.0 == s3.pages(r.value.1.s3BucketName, r.value.1.s3Key)
  {
    match ParseMetadata(input)
    case Err(e) => Err(e)
    case Ok(md) => Ok((s3.pages(md.s3BucketName, md.s3Key), md))
  }

  /** `S3ImageHandler.preprocess`: a one-element image list, with the parsed metadata. */
  function S3ImagePreprocess(s3: ObjectStore, input: string): (r: Result<(seq<Image>, Metadata), Error>)
    ensures r.Ok? <==> ParseMetadata(input).Ok?
    ensures r.Ok? ==> r.value.1 == ParseMetadata(input).value && |r.value.0| == 1 &&
                      r.value.0[0] == s3.open(r.value.1.s3BucketName, r.value.1.s3Key)
  {
    match ParseMetadata(input)
    case Err(e) => Err(e)
    case Ok(md) => Ok(([s3.open(md.s3BucketName, md.s3Key)], md))
  }

  /** `preprocess` of each handler; the local ones hand the rewritten URI to the S3 handler
      they extend (their upload is not modelled). */
  function Preprocess(h: Handler, s3: ObjectStore, input: string): Result<(seq<Image>, Metadata), Error>
  {
    match h
    case S3PdfHandler => S3PdfPreprocess(s3, input)
    case S3ImageHandler => S3ImagePreprocess(s3, input)
    case PdfHandler(bucketName) => S3PdfPreprocess(s3, LocalS3Uri(bucketName, input))
    case ImageHandler(bucketName) => S3ImagePreprocess(s3, LocalS3Uri(bucketName, input))
  }

  /** A local handler reports the handler's bucket and the file name as the object it read. */
  lemma LocalPreprocessMetadata(h: Handler, s3: ObjectStore, input: string)
    requires h.PdfHandler? || h.ImageHandler?
    requires '/' !in h.bucketName
    ensures var r := Preprocess(h, s3, input);
            && r.Ok?
            && r.value.1 == Metadata(LocalS3Uri(h.bucketName, input), h.bucketName, LastSegment(input, '/'))
            && (h.ImageHandler? ==> r.value.0 == [s3.open(h.bucketName, LastSegment(input, '/'))])
            && (h.PdfHandler? ==> r.value.0 == s3.pages(h.bucketName, LastSegment(input, '/')))
  {
    LocalS3UriParses(h.bucketName, input);
  }

  /** Whatever the input, the handler the dispatch picks parses it without error: an s3://
      input has its two slashes, and a local input is rewritten into an s3:// URI first. */
  lemma DispatchedPreprocessSucceeds(bucketName: string, s3: ObjectStore, input: string)
    ensures Preprocess(CreateInputProcessor(bucketName, input), s3, input).Ok?
  {
    if StartsWith(input, "s3://") {
      S3UriParses(input);
    } else {
      S3UriParses(LocalS3Uri(bucketName, input));
    }
  }
}
