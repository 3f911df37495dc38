/** collector/utils/textract/index.js: the OCR job controller. The Textract
    endpoint is a script: `detection` answers the one-shot image call, and
    `replies` answers the successive `GetDocumentTextDetection` calls in
    order. A method that polls takes the position of the next unread reply
    and returns the position after the last one it read, so the number of
    calls it made is the difference. A script that runs out while the code
    would still be polling ends in `Stalled`. */
module Textract {
  import opened Wrappers
  import opened Strings
  import opened NodePath

  const CredentialsRequired := "AWS credentials are required."
  const FailedToProcessPdf := "Failed to process PDF."
  const LineBlock := "LINE"
  const PdfExtension := ".pdf"

  /** What the constructor keeps: the client's region and credentials. */
  datatype Client = Client(region: string, accessKeyId: string, secretAccessKey: string)

  /** `new TextractService()` reading the three environment variables (an
      unset variable is `""`): any missing one throws. */
  function NewTextractService(region: string, accessKeyId: string, secretAccessKey: string): (r: Result<Client>)
    ensures r.Err? <==> region == "" || accessKeyId == "" || secretAccessKey == ""
    ensures r.Err? ==> r.message == CredentialsRequired
    ensures r.Ok? ==> r.value.region == region && r.value.accessKeyId == accessKeyId &&
                      r.value.secretAccessKey == secretAccessKey
  {
    if accessKeyId == "" || secretAccessKey == "" || region == "" then Err(CredentialsRequired)
    else Ok(Client(region, accessKeyId, secretAccessKey))
  }

  datatype JobStatus = InProgress | Succeeded | Failed | PartialSuccess

  /** A block of a detection result: its `BlockType` and `Text`. */
  datatype Block = Block(blockType: string, text: string)

  /** A `GetDocumentTextDetection` reply: `JobStatus`,
      `DocumentMetadata.Pages` and `Blocks`. */
  datatype Reply = Reply(jobStatus: JobStatus, pages: int, blocks: seq<Block>)

  /** The scripted endpoint: the `DetectDocumentText` answer (blocks, or the
      error the call throws) and the successive polling replies. */
  datatype Provider = Provider(detection: Result<seq<Block>>, replies: seq<Reply>)

  /** What text extraction ends in: text, a thrown error, or a poll the
      script cannot answer. */
  datatype OcrResult = Extracted(text: string) | Raised(message: string) | Stalled

  // ---------------------------------------------------------------------
  // #isJobComplete and #getJobResults

  /** The first reply at or after `from` whose status is not `IN_PROGRESS`. */
  function SettledAt(replies: seq<Reply>, from: nat): (r: Option<nat>)
    requires from <= |replies|
    ensures r.Some? ==> from <= r.value < |replies| && replies[r.value].jobStatus != InProgress &&
                        forall k :: from <= k < r.value ==> replies[k].jobStatus == InProgress
    ensures r.None? ==> forall k :: from <= k < |replies| ==> replies[k].jobStatus == InProgress
    decreases |replies| - from
  {
    if from == |replies| then None
    else if replies[from].jobStatus != InProgress then Some(from)
    else SettledAt(replies, from + 1)
  }

  /** `#isJobComplete`: poll until the status is not `IN_PROGRESS`, and
      report whether it is `SUCCEEDED`. With k leading `IN_PROGRESS` replies
      it reads exactly k + 1 replies. */
  method IsJobComplete(replies: seq<Reply>, from: nat) returns (complete: Option<bool>, next: nat)
    requires from <= |replies|
    ensures match SettledAt(replies, from)
            case None => complete == None && next == |replies|
            case Some(j) => complete == Some(replies[j].jobStatus == Succeeded) && next == j + 1
  {
    if from == |replies| {
      return None, from;
    }
    var response := replies[from];
    next := from + 1;
    var status := response.jobStatus;
    while status == InProgress
      invariant from < next <= |replies|
      invariant status == replies[next - 1].jobStatus
      invariant forall k :: from <= k < next - 1 ==> replies[k].jobStatus == InProgress
      decreases |replies| - next
    {
      if next == |replies| {
        SettledIsAbsent(replies, from);
        return None, next;
      }
      response := replies[next];
      status := response.jobStatus;
      next := next + 1;
    }
    SettledIsFirst(replies, from, next - 1);
    complete := Some(status == Succeeded);
  }

  /** If every reply from `from` on is `IN_PROGRESS`, none settles. */
  lemma SettledIsAbsent(replies: seq<Reply>, from: nat)
    requires from <= |replies|
    requires forall k :: from <= k < |replies| ==> replies[k].jobStatus == InProgress
    ensures SettledAt(replies, from) == None
  {
  }

  /** The first settled reply is the one `SettledAt` finds. */
  lemma {:induction false} SettledIsFirst(replies: seq<Reply>, from: nat, j: nat)
    requires from <= j < |replies| && replies[j].jobStatus != InProgress
    requires forall k :: from <= k < j ==> replies[k].jobStatus == InProgress
    ensures SettledAt(replies, from) == Some(j)
    decreases j - from
  {
    if from < j {
      SettledIsFirst(replies, from + 1, j);
    }
  }

  /** How many replies `#getJobResults` collects when the first one says
      `total` pages: the first one at least, since `pages.length < total`
      stops at once for any total of 1 or less. */
  function PageCount(total: int): (n: nat)
    ensures n >= 1 && n >= total && (total >= 1 ==> n == total)
  {
    if total > 1 then total else 1
  }

  /** `#getJobResults`: the first reply fixes the page total, and replies
      are collected in call order until there are that many. No
      `NextToken` is passed, so the "pages" are simply the next replies. */
  method GetJobResults(replies: seq<Reply>, from: nat) returns (pages: Option<seq<Reply>>, next: nat)
    requires from <= |replies|
    ensures pages.None? <==> from == |replies| || from + PageCount(replies[from].pages) > |replies|
    ensures pages.None? ==> next == |replies|
    ensures pages.Some? ==> next == from + PageCount(replies[from].pages) &&
                            pages.value == replies[from..next]
  {
    if from == |replies| {
      return None, from;
    }
    var response := replies[from];
    var totalPages := response.pages;
    var collected := [response];
    next := from + 1;
    while |collected| < totalPages
      invariant from < next <= |replies|
      invariant collected == replies[from..next]
      invariant |collected| <= PageCount(totalPages)
      decreases totalPages - |collected|
    {
      if next == |replies| {
        return None, next;
      }
      response := replies[next];
      collected := collected + [response];
      next := next + 1;
    }
    pages := Some(collected);
  }

  // ---------------------------------------------------------------------
  // Text assembly

  /** The `Text` of the `LINE` blocks, in block order. */
  function LineTexts(blocks: seq<Block>): (r: seq<string>)
    ensures |r| <= |blocks|
  {
    if blocks == [] then []
    else (if blocks[0].blockType == LineBlock then [blocks[0].text] else []) + LineTexts(blocks[1..])
  }

  lemma {:induction false} LineTextsAppend(a: seq<Block>, b: seq<Block>)
    ensures LineTexts(a + b) == LineTexts(a) + LineTexts(b)
  {
    if a != [] {
      assert (a + b)[1..] == a[1..] + b;
      LineTextsAppend(a[1..], b);
    } else {
      assert a + b == b;
    }
  }

  /** The strings of `ss` one after another, with no separator. */
  function Concat(ss: seq<string>): string
  {
    if ss == [] then "" else ss[0] + Concat(ss[1..])
  }

  lemma {:induction false} ConcatAppend(a: seq<string>, b: seq<string>)
    ensures Concat(a + b) == Concat(a) + Concat(b)
  {
    if a != [] {
      assert (a + b)[1..] == a[1..] + b;
      ConcatAppend(a[1..], b);
    } else {
      assert a + b == b;
    }
  }

  /** The text one PDF result page contributes. */
  function PageText(blocks: seq<Block>): string
  {
    Concat(LineTexts(blocks))
  }

  /** The text of a PDF job: page by page, block by block, no separator. */
  function DetectedText(pages: seq<Reply>): string
  {
    if pages == [] then "" else PageText(pages[0].blocks) + DetectedText(pages[1..])
  }

  /** Reading more result pages only appends their text. */
  lemma {:induction false} DetectedTextAppend(a: seq<Reply>, b: seq<Reply>)
    ensures DetectedText(a + b) == DetectedText(a) + DetectedText(b)
  {
    if a != [] {
      assert (a + b)[1..] == a[1..] + b;
      DetectedTextAppend(a[1..], b);
    } else {
      assert a + b == b;
    }
  }

  /** The PDF text of one page is every `LINE` text, each kept whole, in
      block order: the single-page case of `DetectedText`. */
  lemma DetectedTextOfOnePage(page: Reply)
    ensures DetectedText([page]) == Concat(LineTexts(page.blocks))
  {
    assert [page][1..] == [];
  }

  /** `#getDetectedText`: `extractedText += item.Text` for every `LINE`
      block of every page. */
  method GetDetectedText(pages: seq<Reply>) returns (extractedText: string)
    ensures extractedText == DetectedText(pages)
  {
    extractedText := "";
    var p := 0;
    while p < |pages|
      invariant 0 <= p <= |pages|
      invariant extractedText == DetectedText(pages[..p])
    {
      var blocks := pages[p].blocks;
      ghost var before := extractedText;
      var b := 0;
      while b < |blocks|
        invariant 0 <= b <= |blocks|
        invariant extractedText == before + PageText(blocks[..b])
      {
        assert blocks[..b + 1] == blocks[..b] + [blocks[b]];
        LineTextsAppend(blocks[..b], [blocks[b]]);
        ConcatAppend(LineTexts(blocks[..b]), LineTexts([blocks[b]]));
        if blocks[b].blockType == LineBlock {
          assert LineTexts([blocks[b]]) == [blocks[b].text];
          extractedText := extractedText + blocks[b].text;
        } else {
          assert LineTexts([blocks[b]]) == [];
        }
        b := b + 1;
      }
      assert blocks[..b] == blocks;
      assert pages[..p + 1] == pages[..p] + [pages[p]];
      DetectedTextAppend(pages[..p], [pages[p]]);
      DetectedTextOfOnePage(pages[p]);
      p := p + 1;
    }
    assert pages[..p] == pages;
  }

  /** The image text: the `LINE` texts joined with `"\n"`. */
  function ImageText(blocks: seq<Block>): string
  {
    Join(LineTexts(blocks), '\n')
  }

  /** When no line holds a line break, the image text splits back into its
      lines, and dropping its separators gives the PDF text of the same
      blocks: the two assembly rules differ only in the `"\n"`. */
  lemma ImageTextSplitsIntoLines(blocks: seq<Block>)
    requires forall i :: 0 <= i < |blocks| ==> '\n' !in blocks[i].text
    ensures LineTexts(blocks) != [] ==> Split(ImageText(blocks), '\n') == LineTexts(blocks)
    ensures Concat(Split(ImageText(blocks), '\n')) == PageText(blocks)
  {
    var lines := LineTexts(blocks);
    LinesHaveNoBreak(blocks);
    if lines == [] {
      assert Split("", '\n') == [""];
      assert Concat([""]) == "" + Concat([]);
    } else {
      SplitJoin(lines, '\n');
    }
  }

  lemma {:induction false} LinesHaveNoBreak(blocks: seq<Block>)
    requires forall i :: 0 <= i < |blocks| ==> '\n' !in blocks[i].text
    ensures forall i :: 0 <= i < |LineTexts(blocks)| ==> '\n' !in LineTexts(blocks)[i]
  {
    if blocks != [] {
      LinesHaveNoBreak(blocks[1..]);
      var head := if blocks[0].blockType == LineBlock then [blocks[0].text] else [];
      assert LineTexts(blocks) == head + LineTexts(blocks[1..]);
      forall i | 0 <= i < |LineTexts(blocks)|
        ensures '\n' !in LineTexts(blocks)[i]
      {
        if i >= |head| {
          assert LineTexts(blocks)[i] == LineTexts(blocks[1..])[i - |head|];
        }
      }
    }
  }

  // ---------------------------------------------------------------------
  // The two extraction paths and analyzeS3Document

  /** `#processImageFromS3`: one detection call; its error propagates. */
  function ProcessImageFromS3(detection: Result<seq<Block>>): (r: OcrResult)
    ensures detection.Err? ==> r == Raised(detection.message)
    ensures detection.Ok? ==> r == Extracted(ImageText(detection.value))
  {
    match detection
    case Err(m) => Raised(m)
    case Ok(blocks) => Extracted(ImageText(blocks))
  }

  /** What the PDF path ends in, and the position after the last reply it
      reads: wait for the job to settle; a job that did not succeed throws
      before any result is fetched; otherwise the result pages that follow
      are read and their text assembled. */
  function PdfOutcome(replies: seq<Reply>, from: nat): (OcrResult, nat)
    requires from <= |replies|
  {
    match SettledAt(replies, from)
    case None => (Stalled, |replies|)
    case Some(j) =>
      if replies[j].jobStatus != Succeeded then (Raised(FailedToProcessPdf), j + 1)
      else if j + 1 == |replies| || j + 1 + PageCount(replies[j + 1].pages) > |replies| then
        (Stalled, |replies|)
      else
        var n := j + 1 + PageCount(replies[j + 1].pages);
        (Extracted(DetectedText(replies[j + 1..n])), n)
  }

  /** A PDF job that settles without succeeding throws "Failed to process
      PDF." and reads no reply after the settling one: `#getJobResults` is
      never called. */
  lemma FailedJobReadsNoResults(replies: seq<Reply>, from: nat, j: nat)
    requires from <= j < |replies|
    requires forall k :: from <= k < j ==> replies[k].jobStatus == InProgress
    requires replies[j].jobStatus != InProgress && replies[j].jobStatus != Succeeded
    ensures PdfOutcome(replies, from) == (Raised(FailedToProcessPdf), j + 1)
  {
    SettledIsFirst(replies, from, j);
  }

  /** A job that succeeds after k in-progress replies yields exactly the
      text of the PageCount replies read after it. */
  lemma SucceededJobReadsItsPages(replies: seq<Reply>, from: nat, j: nat)
    requires from <= j && j + 1 < |replies|
    requires forall k :: from <= k < j ==> replies[k].jobStatus == InProgress
    requires replies[j].jobStatus == Succeeded
    requires j + 1 + PageCount(replies[j + 1].pages) <= |replies|
    ensures var n := j + 1 + PageCount(replies[j + 1].pages);
            PdfOutcome(replies, from) == (Extracted(DetectedText(replies[j + 1..n])), n)
  {
    SettledIsFirst(replies, from, j);
  }

  /** `#processPdfFromS3`. */
  method ProcessPdfFromS3(replies: seq<Reply>, from: nat) returns (r: OcrResult, next: nat)
    requires from <= |replies|
    ensures (r, next) == PdfOutcome(replies, from)
  {
    var isComplete;
    isComplete, next := IsJobComplete(replies, from);
    if isComplete.None? {
      return Stalled, next;
    }
    if !isComplete.value {
      return Raised(FailedToProcessPdf), next;
    }
    var response;
    response, next := GetJobResults(replies, next);
    if response.None? {
      return Stalled, next;
    }
    var text := GetDetectedText(response.value);
    r := Extracted(text);
  }

  /** The key names a PDF: its lower-cased `path.extname` is `.pdf`. */
  predicate IsPdfKey(documentKey: string)
  {
    ToLower(ExtName(documentKey)) == PdfExtension
  }

  /** `analyzeS3Document`: the PDF path exactly for a `.pdf` key (in any
      case), the image path otherwise; errors propagate unchanged. */
  method AnalyzeS3Document(provider: Provider, documentKey: string, from: nat)
    returns (r: OcrResult, next: nat)
    requires from <= |provider.replies|
    ensures IsPdfKey(documentKey) ==> (r, next) == PdfOutcome(provider.replies, from)
    ensures !IsPdfKey(documentKey) ==> r == ProcessImageFromS3(provider.detection) && next == from
  {
    var fileExtension := ToLower(ExtName(documentKey));
    if fileExtension == PdfExtension {
      r, next := ProcessPdfFromS3(provider.replies, from);
    } else {
      r := ProcessImageFromS3(provider.detection);
      next := from;
    }
  }

}
