/**
 One ingestion job from start to end: the job wrapper, the upload pipeline, OCR, classification
 with its retry, and the review rules, acting on one document, its items and its job row.
 Exceptions are a boolean result; what the outside world does is fixed by `Outside`.
 */
module Pipeline {
  import opened Wrappers
  import opened Documents
  import opened Text

  datatype JobStatus = Queued | Running | Succeeded | Failed | Cancelled | Retrying

  datatype Job = Job(status: JobStatus, progress: Option<real>, message: string, error: string)

  // A column an update leaves alone, or sets - possibly to null.
  datatype Change<+T> = Keep | Set(value: T)

  datatype ExtractionStatus = ExtractionPending | Extracted | NoText

  datatype ClassificationStatus =
    | ClassificationPending | ItemsFound | NothingFound | NotConfigured | ClassificationBroken

  // One result of the AI provider; fields it may omit are optional.
  datatype RawResult = RawResult(confidence: Option<real>, needsReview: Option<bool>, reason: string)

  datatype Attempt = Results(results: seq<RawResult>) | ConfigurationError | Transient | OtherError

  datatype Ocr = Pages(pages: seq<string>) | OcrRaises

  // Where a timeout may strike. A cancellation is not caught by the pipeline's own handlers.
  datatype Checkpoint = AfterHashCheck | BeforeOcr | AfterPages | DuringClassification | AfterItems | BeforeReturn

  datatype Outside = Outside(
    documentExists: bool,
    duplicate: bool,
    ocr: Ocr,
    keyAtOcr: bool,
    keyAtClassification: bool,
    first: Attempt,
    second: Attempt,
    cutAt: Option<Checkpoint>
  ) {
    predicate Cut(c: Checkpoint) { cutAt == Some(c) }

    function Text(): string
      requires ocr.Pages?
    {
      FullText(ocr.pages)
    }

    /** What the provider finally answers: a transient failure is tried once more. */
    function Answer(): Attempt { if first.Transient? then second else first }

    /** Classification returns items, or reports that no provider is configured. */
    predicate ClassificationCompletes() {
      && !Cut(DuringClassification)
      && keyAtClassification
      && (Answer().ConfigurationError? || (Answer().Results? && !Cut(AfterItems)))
    }

    /** Text extraction and what follows it run to their end. */
    predicate OcrCompletes() {
      ExtractsPages() && !Cut(AfterPages) && (Blank(Text()) || ClassificationCompletes())
    }

    /** The conditions under which the whole job runs to its end without an exception. */
    predicate Completes() {
      && documentExists && !Cut(AfterHashCheck) && !Cut(BeforeReturn)
      && (duplicate || OcrCompletes())
    }

    /** Text extraction gets as far as storing the pages. */
    predicate ExtractsPages() { !Cut(BeforeOcr) && ocr.Pages? && keyAtOcr }

    /** Classification gets as far as storing items. */
    predicate CreatesItems() { keyAtClassification && !Cut(DuringClassification) && Answer().Results? }

    /** The upload is not a duplicate, and nothing stops the job before text extraction. */
    predicate GoesOn() { documentExists && !Cut(AfterHashCheck) && !duplicate }

    /** The pages the job stores, however it ends. */
    function StoredPages(): seq<string> {
      if GoesOn() && ExtractsPages() then ocr.pages else []
    }

    /** The items the job stores, however it ends. */
    function StoredItems(): seq<Item> {
      if GoesOn() && ExtractsPages() && !Cut(AfterPages) && !Blank(Text()) && CreatesItems()
      then ToItems(Answer().results) else []
    }

    /** The document status classification ends with, also when it raises. */
    function ClassifiedStatus(): Status {
      if !keyAtClassification then ClassificationFailed
      else if Cut(DuringClassification) then ItemsDetected
      else
        match Answer()
        case ConfigurationError => NeedsReview
        case Results(results) =>
          if Cut(AfterItems) then ItemsDetected else if results == [] then NeedsReview else Classified
        case _ => ClassificationFailed
    }

    /** The document status once the text is there. */
    function TextStatus(): Status
      requires ocr.Pages?
    {
      if Blank(Text()) then NeedsReview else ClassifiedStatus()
    }

    /** The classification status classification ends with, also when it raises. */
    function ClassifiedNote(): ClassificationStatus {
      if !keyAtClassification then ClassificationBroken
      else if Cut(DuringClassification) then ClassificationPending
      else
        match Answer()
        case ConfigurationError => NotConfigured
        case Results(results) =>
          if Cut(AfterItems) then ClassificationPending else if results == [] then NothingFound else ItemsFound
        case _ => ClassificationBroken
    }

    /** The classification status the job leaves on the document, however it ends. */
    function EndNote(): ClassificationStatus {
      if GoesOn() && ExtractsPages() && !Cut(AfterPages) && !Blank(Text()) then ClassifiedNote()
      else ClassificationPending
    }

    /** The extraction status the job leaves on the document, however it ends. */
    function EndExtraction(): ExtractionStatus {
      if GoesOn() && !Cut(BeforeOcr) && ocr.Pages? then (if Blank(Text()) then NoText else Extracted)
      else ExtractionPending
    }

    /** Where the job leaves the document, however it ends. */
    function EndStatus(): Status {
      if !documentExists then Uploaded
      else if duplicate then DuplicateDetected
      else if Cut(AfterHashCheck) then Stored
      else if !ExtractsPages() || Cut(AfterPages) then TextExtracted
      else TextStatus()
    }

    /** Where a completed job leaves the document. */
    function FinalStatus(): Status {
      if duplicate then DuplicateDetected
      else if ocr.Pages? && Blank(Text()) then NeedsReview
      else if Answer().Results? && Answer().results != [] then Classified
      else NeedsReview
    }
  }

  const COMPLETED := "Completed"
  const REVIEW_THRESHOLD := 0.7

  function FullText(pages: seq<string>): string {
    if pages == [] then "" else if |pages| == 1 then pages[0] else pages[0] + "\n\n" + FullText(pages[1..])
  }

  /** Joining pages with blank lines neither hides nor invents text. */
  lemma {:induction false} FullTextBlankIff(pages: seq<string>)
    ensures Blank(FullText(pages)) <==> forall i :: 0 <= i < |pages| ==> Blank(pages[i])
    decreases |pages|
  {
    if |pages| > 1 {
      var rest := pages[1..];
      FullTextBlankIff(rest);
      BlankConcat(pages[0] + "\n\n", FullText(rest));
      BlankConcat(pages[0], "\n\n");
      assert FullText(pages) == pages[0] + "\n\n" + FullText(rest);
      assert pages == [pages[0]] + rest;
    }
  }

  // ---- Items ----------------------------------------------------------------------------------

  // A row created by classification; its review status column keeps the default "needs_review".
  datatype Item = Item(confidence: real, needsReview: bool, reason: string)

  function ApplyReviewRules(r: RawResult): (out: RawResult)
    ensures var confidence := if r.confidence.Some? then r.confidence.value else 0.0;
            && (confidence < REVIEW_THRESHOLD ==> out.needsReview == Some(true))
            && (confidence >= REVIEW_THRESHOLD ==> out.needsReview == r.needsReview)
    ensures out.needsReview == Some(true) ==> out.reason != ""
    ensures r.reason != "" ==> out.reason == r.reason
    ensures out.confidence == r.confidence
  {
    var confidence := if r.confidence.Some? then r.confidence.value else 0.0;
    var r1 := if confidence < REVIEW_THRESHOLD
              then r.(needsReview := Some(true),
                      reason := if r.reason != "" then r.reason
                                else "Low confidence. Requires human review before use.")
              else r;
    if r1.needsReview == Some(true) && r1.reason == "" then r1.(reason := "Requires human review.") else r1
  }

  function ToItem(r: RawResult): Item {
    Item(if r.confidence.Some? then r.confidence.value else 0.0,
         if r.needsReview.Some? then r.needsReview.value else true,
         r.reason)
  }

  function ToItems(results: seq<RawResult>): seq<Item> {
    seq(|results|, i requires 0 <= i < |results| => ToItem(ApplyReviewRules(results[i])))
  }

  /** What is stored of each provider result, missing fields included. */
  lemma StoredItemIs(results: seq<RawResult>, i: nat)
    requires i < |results|
    ensures |ToItems(results)| == |results|
    ensures var x, r := ToItems(results)[i], results[i];
            var confidence := match r.confidence case Some(c) => c case None => 0.0;
            && x.confidence == confidence
            && (x.needsReview <==> confidence < 0.7 || r.needsReview != Some(false))
            && (r.reason != "" ==> x.reason == r.reason)
            && (r.reason == "" ==> (x.reason != "" <==> confidence < 0.7 || r.needsReview == Some(true)))
  {
  }

  /**
   A stored item is flagged for review without any reason exactly when its result left both the flag and
   the reason out and was confident: the missing flag counts as set only after the rules have run.
   */
  lemma FlaggedWithoutReasonIff(results: seq<RawResult>, i: nat)
    requires i < |results|
    ensures var x, r := ToItems(results)[i], results[i];
            x.needsReview && x.reason == "" <==>
            r.reason == "" && r.needsReview.None? && r.confidence.Some? && r.confidence.value >= 0.7
  {
    StoredItemIs(results, i);
  }

  /** A confident result without flag and reason: stored as flagged, and no reason is given. */
  lemma UnflaggedResultGetsNoReason()
    ensures ToItems([RawResult(Some(0.9), None, "")]) == [Item(0.9, true, "")]
  {
    assert ToItems([RawResult(Some(0.9), None, "")])[0] == Item(0.9, true, "");
  }

  /** No item of low confidence reaches the database without its review flag and a reason. */
  lemma LowConfidenceIsFlagged(results: seq<RawResult>, i: nat)
    requires i < |results| && ToItems(results)[i].confidence < REVIEW_THRESHOLD
    ensures ToItems(results)[i].needsReview && ToItems(results)[i].reason != ""
  {
  }

  // ---- Job rows -------------------------------------------------------------------------------

  predicate Terminal(s: JobStatus) { s.Succeeded? || s.Failed? || s.Cancelled? || s.Retrying? }

  /** While the job is running its progress never goes down. */
  predicate Climbing(writes: seq<Job>) {
    forall i, j :: 0 <= i < j < |writes|
                   && writes[i].status.Running? && writes[i].progress.Some?
                   && writes[j].status.Running? && writes[j].progress.Some?
                   ==> writes[i].progress.value <= writes[j].progress.value
  }

  predicate AtMost(writes: seq<Job>, p: real) {
    forall i :: 0 <= i < |writes| && writes[i].status.Running? && writes[i].progress.Some?
                ==> writes[i].progress.value <= p
  }

  predicate NeverGeneric(writes: seq<Job>) {
    forall i :: 0 <= i < |writes| ==> writes[i].message != COMPLETED
  }

  // The record of one provider call: whether it succeeded, and whether its input is stored encrypted.
  datatype CallRecord = CallRecord(success: bool, inputEncrypted: bool)

  class IngestionJob {
    const outside: Outside
    var job: Job
    var status: Status
    var extraction: ExtractionStatus
    var textLength: nat
    var classification: ClassificationStatus
    var pages: seq<string>
    var items: seq<Item>
    var records: seq<CallRecord>
    ghost var writes: seq<Job>    // every state the job row went through

    ghost predicate Steady(p: real)
      reads this`job, this`writes
    {
      Climbing(writes) && AtMost(writes, p) && NeverGeneric(writes) && job.message != COMPLETED
    }

    constructor (outside: Outside)
      ensures this.outside == outside && job == Job(Queued, None, "", "") && status == Uploaded
      ensures items == [] && pages == [] && records == [] && Steady(0.0)
      ensures writes == [] && extraction == ExtractionPending && classification == ClassificationPending
    {
      this.outside := outside;
      job := Job(Queued, None, "", "");
      status, extraction, textLength, classification := Uploaded, ExtractionPending, 0, ClassificationPending;
      pages, items, records, writes := [], [], [], [];
    }

    method UpdateStatus(newStatus: JobStatus, progress: Change<Option<real>>, message: Change<string>,
                        error: Change<string>)
      modifies this`job, this`writes
      ensures job.status == newStatus
      ensures job.progress == if progress.Set? then progress.value else old(job.progress)
      ensures job.message == if message.Set? then message.value else old(job.message)
      ensures job.error == if error.Set? then error.value else old(job.error)
      ensures writes == old(writes) + [job]
    {
      job := Job(newStatus,
                 if progress.Set? then progress.value else job.progress,
                 if message.Set? then message.value else job.message,
                 if error.Set? then error.value else job.error);
      writes := writes + [job];
    }

    /** A progress report of the running job. */
    method Report(p: real, message: string, ghost before: real)
      requires Steady(before) && before <= p && message != COMPLETED
      modifies this`job, this`writes
      ensures Steady(p) && job.status == Running && job.progress == Some(p)
    {
      UpdateStatus(Running, Set(Some(p)), Set(message), Keep);
    }

    method Succeed(message: string, ghost p: real)
      requires Steady(p) && message != COMPLETED
      modifies this`job, this`writes
      ensures Steady(p) && job.status == Succeeded && job.progress == Some(1.0)
    {
      UpdateStatus(Succeeded, Set(Some(1.0)), Set(message), Keep);
    }

    method Fail(progress: Change<Option<real>>, error: string, ghost p: real)
      requires Steady(p)
      modifies this`job, this`writes
      ensures Steady(p) && job.status == JobStatus.Failed
      ensures job.progress == if progress.Set? then progress.value else old(job.progress)
    {
      UpdateStatus(JobStatus.Failed, progress, Keep, Set(error));
    }

    /**
     The provider call with one retry, and the rows it leads to. A call that fails for any reason but
     a missing configuration leaves its input in plaintext.
     */
    method ClassifyDocument() returns (raised: bool, configuration: bool, cancelled: bool)
      modifies this`items, this`records
      ensures cancelled <==> outside.keyAtClassification && outside.Cut(DuringClassification)
      ensures raised <==> cancelled || !outside.keyAtClassification || !outside.Answer().Results?
      ensures configuration <==>
                raised && !cancelled && outside.keyAtClassification && outside.Answer().ConfigurationError?
      ensures !raised ==> items == old(items) + ToItems(outside.Answer().results)
      ensures raised ==> items == old(items)
      ensures records == old(records) + (if cancelled || !outside.keyAtClassification then []
                                          else [CallRecord(!raised, !raised || configuration)])
    {
      raised, configuration, cancelled := true, false, false;
      if !outside.keyAtClassification { return; }
      if outside.Cut(DuringClassification) { return true, false, true; }
      var attempt := 1;
      var answer := outside.first;
      while attempt <= 2
        invariant 1 <= attempt <= 2
        invariant attempt == 2 ==> outside.first.Transient?
        invariant answer == if attempt == 1 then outside.first else outside.second
        decreases 2 - attempt
      {
        if !answer.Transient? || attempt == 2 { break; }
        attempt := attempt + 1;
        answer := outside.second;
      }
      match answer {
        case ConfigurationError =>
          records := records + [CallRecord(false, true)];
          return true, true, false;
        case Transient =>
          records := records + [CallRecord(false, false)];
          return;
        case OtherError =>
          records := records + [CallRecord(false, false)];
          return;
        case Results(results) =>
          records := records + [CallRecord(true, true)];
          for i := 0 to |results|
            invariant items == old(items) + ToItems(results)[..i]
            invariant records == old(records) + [CallRecord(true, true)]
          {
            items := items + [ToItem(ApplyReviewRules(results[i]))];
          }
          return false, false, false;
      }
    }

    method RunClassification() returns (raised: bool)
      requires Steady(0.8) && items == [] && status == ItemsDetected
      modifies this`status, this`classification, this`job, this`writes, this`items, this`records
      ensures Steady(0.9)
      ensures raised <==> !outside.ClassificationCompletes()
      ensures !raised ==> job.status == Succeeded && job.progress == Some(1.0)
      ensures status == outside.ClassifiedStatus()
      ensures classification == outside.ClassifiedNote()
      ensures raised && status == ClassificationFailed ==>
                job.status == JobStatus.Failed && job.progress == None && items == []
      ensures raised && status != ClassificationFailed ==> !Terminal(job.status)
      ensures items == if outside.CreatesItems() then ToItems(outside.Answer().results) else []
    {
      Report(0.9, "Classification in progress...", 0.8);
      classification := ClassificationPending;
      var failed, configuration, cancelled := ClassifyDocument();
      if cancelled { return true; }
      if failed && configuration {
        status := NeedsReview;
        classification := NotConfigured;
        Succeed("Text extracted; AI classification needs setup/manual review.", 0.9);
        return false;
      }
      if failed {
        status := ClassificationFailed;
        classification := ClassificationBroken;
        Fail(Set(None), "Classification failed", 0.9);
        return true;
      }
      if outside.Cut(AfterItems) { return true; }
      ConcludeItems();
      return false;
    }

    /** The end of a classification that returned: with items or with none. */
    method ConcludeItems()
      requires Steady(0.9)
      modifies this`status, this`classification, this`job, this`writes
      ensures Steady(0.9) && job.status == Succeeded && job.progress == Some(1.0)
      ensures status == if items == [] then NeedsReview else Classified
      ensures classification == if items == [] then NothingFound else ItemsFound
    {
      if items == [] {
        status := NeedsReview;
        classification := NothingFound;
        Succeed("No review items detected - manual review required", 0.9);
        return;
      }
      status := Classified;
      classification := ItemsFound;
      Succeed("items classified", 0.9);
    }

    /** Text extraction and the encrypted page rows. */
    method ExtractText() returns (raised: bool)
      requires Steady(0.2) && pages == []
      modifies this`status, this`job, this`writes, this`textLength, this`extraction, this`pages
      ensures Steady(0.6) && status == TextExtracted
      ensures raised <==> !outside.ExtractsPages() || outside.Cut(AfterPages)
      ensures pages == if outside.ExtractsPages() then outside.ocr.pages else []
      ensures outside.Cut(BeforeOcr) || outside.ocr.OcrRaises? ==>
                extraction == old(extraction) && textLength == old(textLength)
      ensures !outside.Cut(BeforeOcr) && outside.ocr.Pages? ==>
                extraction == (if Blank(outside.Text()) then NoText else Extracted) && textLength == |outside.Text()|
    {
      status := TextExtracted;
      Report(0.4, "Extracting text...", 0.2);
      if outside.Cut(BeforeOcr) || outside.ocr.OcrRaises? { return true; }
      MeasureText();
      if !outside.keyAtOcr {
        Fail(Keep, "Workspace encryption key unavailable. Unlock and retry.", 0.4);
        return true;
      }
      StorePages();
      if outside.Cut(AfterPages) { return true; }
      Report(0.6, "OCR complete", 0.4);
      raised := false;
    }

    method MeasureText()
      requires outside.ocr.Pages?
      modifies this`textLength, this`extraction
      ensures extraction == (if Blank(outside.Text()) then NoText else Extracted) && textLength == |outside.Text()|
    {
      var text := FullText(outside.ocr.pages);
      textLength := |text|;
      extraction := if Blank(text) then NoText else Extracted;
    }

    method StorePages()
      requires outside.ocr.Pages? && pages == []
      modifies this`pages
      ensures pages == outside.ocr.pages
    {
      for i := 0 to |outside.ocr.pages|
        invariant pages == outside.ocr.pages[..i]
      {
        pages := pages + [outside.ocr.pages[i]];
      }
      assert outside.ocr.pages[..|outside.ocr.pages|] == outside.ocr.pages;
    }

    method RunOcrPipeline() returns (raised: bool)
      requires Steady(0.2) && items == [] && pages == [] && outside.GoesOn()
      requires extraction == ExtractionPending && classification == ClassificationPending
      modifies this
      ensures Steady(0.9)
      ensures extraction == outside.EndExtraction() && classification == outside.EndNote()
      ensures raised <==> !outside.OcrCompletes()
      ensures !raised ==> job.status == Succeeded && job.progress == Some(1.0)
      ensures pages == outside.StoredPages() && items == outside.StoredItems() && status == outside.EndStatus()
      ensures !raised && status == Classified ==> items != []
      ensures raised && items != [] ==> outside.Cut(AfterItems)
    {
      raised := ExtractText();
      if raised { return true; }
      raised := HandleText();
    }

    /** What follows text extraction: review without text, classification with it. */
    method HandleText() returns (raised: bool)
      requires Steady(0.6) && items == [] && outside.ocr.Pages?
      requires extraction == if Blank(outside.Text()) then NoText else Extracted
      modifies this`status, this`classification, this`job, this`writes, this`items, this`records
      ensures Steady(0.9)
      ensures classification == if Blank(outside.Text()) then ClassificationPending else outside.ClassifiedNote()
      ensures raised <==> !Blank(outside.Text()) && !outside.ClassificationCompletes()
      ensures !raised ==> job.status == Succeeded && job.progress == Some(1.0)
      ensures items == if !Blank(outside.Text()) && outside.CreatesItems()
                       then ToItems(outside.Answer().results) else []
      ensures status == outside.TextStatus()
      ensures !raised && status == Classified ==> items != []
      ensures raised && items != [] ==> outside.Cut(AfterItems)
    {
      if extraction == NoText {
        status := NeedsReview;
        classification := ClassificationPending;
        Succeed("OCR returned no text - needs review", 0.6);
        return false;
      }
      status := ItemsDetected;
      Report(0.8, "Text extracted - running classification...", 0.6);
      raised := RunClassification();
    }

    /** The job is marked running, and the verdict of the duplicate check is written. */
    method RecordHashCheck()
      requires Steady(0.0)
      modifies this`job, this`writes, this`status, this`extraction, this`textLength, this`classification
      ensures Steady(0.2) && job.status == Running && job.progress == Some(0.2)
      ensures status == if outside.duplicate then DuplicateDetected else Stored
      ensures extraction == ExtractionPending && textLength == 0 && classification == ClassificationPending
    {
      UpdateStatus(Running, Set(Some(0.0)), Keep, Keep);
      status := if outside.duplicate then DuplicateDetected else Stored;
      extraction, textLength, classification := ExtractionPending, 0, ClassificationPending;
      Report(0.2, "Hash check complete", 0.0);
    }

    method ProcessUpload() returns (raised: bool)
      requires Steady(0.0) && items == [] && pages == []
      modifies this
      ensures Steady(0.9)
      ensures raised <==> !outside.Completes()
      ensures !raised ==> job.status == Succeeded && job.progress == Some(1.0)
      ensures outside.documentExists ==> status == outside.EndStatus()
      ensures pages == outside.StoredPages() && items == outside.StoredItems()
      ensures !raised && status == Classified ==> items != []
      ensures outside.documentExists ==> extraction == outside.EndExtraction() && classification == outside.EndNote()
      ensures !outside.documentExists ==>
                status == old(status) && extraction == old(extraction) && classification == old(classification)
      ensures raised && items != [] ==> outside.Cut(AfterItems) || outside.Cut(BeforeReturn)
    {
      if !outside.documentExists { return true; }
      RecordHashCheck();
      if outside.Cut(AfterHashCheck) { return true; }
      if !outside.duplicate {
        raised := RunOcrPipeline();
        if raised { return true; }
      } else {
        Succeed("Duplicate detected - no processing needed", 0.2);
      }
      if outside.Cut(BeforeReturn) { return true; }
      return false;
    }

    /**
     The job wrapper. A status the pipeline has already made final is kept; the generic success is
     written only when the pipeline left none; an exception always ends the job as failed.
     */
    method FinishJob(raised: bool)
      modifies this`job, this`writes
      ensures !raised && Terminal(old(job.status)) ==> job == old(job) && writes == old(writes)
      ensures !raised && !Terminal(old(job.status)) ==>
                job.status == Succeeded && job.progress == Some(1.0) && job.message == COMPLETED
      ensures raised ==> job.status == JobStatus.Failed
      ensures raised ==> job.progress == old(job.progress) && job.message == old(job.message)
      ensures raised ==> writes == old(writes) + [job]
    {
      if raised {
        UpdateStatus(JobStatus.Failed, Keep, Keep, Set("exception"));
        return;
      }
      if Terminal(job.status) { return; }
      UpdateStatus(Succeeded, Set(Some(1.0)), Set(COMPLETED), Keep);
    }

    /**
     The whole job, for every behaviour of the outside world: it ends succeeded exactly when no step
     raised, and then the document is a duplicate, classified with at least one item, or up for
     review; progress only climbs while it runs; the generic success is never written.
     */
    method RunJob()
      requires job == Job(Queued, None, "", "") && writes == [] && items == [] && pages == [] && status == Uploaded
      requires extraction == ExtractionPending && classification == ClassificationPending
      modifies this
      ensures job.status == Succeeded || job.status == JobStatus.Failed
      ensures job.status == Succeeded <==> outside.Completes()
      ensures job.status == Succeeded ==> job.progress == Some(1.0) && status == outside.FinalStatus()
      ensures status == outside.EndStatus()
      ensures extraction == outside.EndExtraction() && classification == outside.EndNote()
      ensures pages == outside.StoredPages() && items == outside.StoredItems()
      ensures job.status == Succeeded && status == Classified ==> items != []
      ensures job.status == JobStatus.Failed && !outside.Cut(BeforeReturn) ==> status !in {NeedsReview, Classified}
      ensures outside.duplicate ==> items == [] && pages == []
      ensures job.status == Succeeded && !outside.duplicate ==> outside.ocr.Pages? && pages == outside.ocr.pages
      ensures job.status == JobStatus.Failed && items != [] ==> outside.Cut(AfterItems) || outside.Cut(BeforeReturn)
      ensures Climbing(writes) && NeverGeneric(writes)
    {
      UpdateStatus(Running, Set(Some(0.0)), Set("Starting..."), Keep);
      var raised := ProcessUpload();
      FinishJob(raised);
    }
  }

  /**
   What it takes for a job to complete: the document is there, no timeout strikes where it hurts, and
   the document is a copy or its text is read under a key and, unless every page is blank, the
   provider answers - at the first try, or at the second after a transient failure of the first.
   */
  lemma CompletesIff(o: Outside)
    ensures o.Completes() <==>
            && o.documentExists && o.cutAt !in {Some(AfterHashCheck), Some(BeforeReturn)}
            && (|| o.duplicate
                || (&& o.ocr.Pages? && o.keyAtOcr && o.cutAt !in {Some(BeforeOcr), Some(AfterPages)}
                    && (|| (forall i :: 0 <= i < |o.ocr.pages| ==> Blank(o.ocr.pages[i]))
                        || (&& o.keyAtClassification && o.cutAt != Some(DuringClassification)
                            && var answer := if o.first.Transient? then o.second else o.first;
                               answer.ConfigurationError? || (answer.Results? && o.cutAt != Some(AfterItems))))))
  {
    if o.ocr.Pages? { FullTextBlankIff(o.ocr.pages); }
  }

  /**
   Where a failed job leaves the document: classification_failed exactly when there was text to
   classify and either no key for it or a provider error that no timeout cut short. A status that a
   completed job could have left remains only when the timeout strikes after all the work.
   */
  lemma FailedOutcomes(o: Outside)
    requires !o.Completes()
    ensures o.EndStatus() == ClassificationFailed <==>
              && o.GoesOn() && o.ExtractsPages() && !o.Cut(AfterPages) && !Blank(o.Text())
              && (!o.keyAtClassification
                  || (o.cutAt != Some(DuringClassification)
                      && (|| o.first.OtherError?
                          || (o.first.Transient? && (o.second.Transient? || o.second.OtherError?)))))
    ensures o.EndStatus() == ClassificationFailed ==> o.StoredItems() == []
    ensures o.EndStatus() in {NeedsReview, Classified} ==> o.Cut(BeforeReturn)
    ensures !o.duplicate && !o.Cut(BeforeReturn) ==>
              o.EndStatus() in {Uploaded, Stored, TextExtracted, ItemsDetected, ClassificationFailed}
  {
  }

  /**
   Which event of the outside world leaves the document in which status: the copy, the timeout right
   after the check, whatever stops the extraction, and a timeout during or right after classification.
   */
  lemma EndStatusByCause(o: Outside)
    requires o.documentExists
    ensures o.EndStatus() == DuplicateDetected <==> o.duplicate
    ensures o.EndStatus() == Stored <==> !o.duplicate && o.cutAt == Some(AfterHashCheck)
    ensures o.EndStatus() == TextExtracted <==>
              && !o.duplicate && o.cutAt != Some(AfterHashCheck)
              && (o.ocr.OcrRaises? || !o.keyAtOcr || o.cutAt in {Some(BeforeOcr), Some(AfterPages)})
    ensures o.EndStatus() == ItemsDetected <==>
              && !o.duplicate && o.ocr.Pages? && o.keyAtOcr && o.keyAtClassification
              && (exists i :: 0 <= i < |o.ocr.pages| && !Blank(o.ocr.pages[i]))
              && (|| o.cutAt == Some(DuringClassification)
                  || (o.cutAt == Some(AfterItems)
                      && (o.first.Results? || (o.first.Transient? && o.second.Results?))))
  {
    if o.ocr.Pages? { FullTextBlankIff(o.ocr.pages); }
  }

  /**
   Pages are stored once they are read under a key, and items once the provider answered with some,
   also when a timeout strikes right afterwards; the extraction status is set even without a key.
   */
  lemma StoredRowsIff(o: Outside)
    ensures o.StoredPages() != [] <==>
              && o.documentExists && !o.duplicate && o.ocr.Pages? && o.ocr.pages != [] && o.keyAtOcr
              && o.cutAt !in {Some(AfterHashCheck), Some(BeforeOcr)}
    ensures o.StoredPages() != [] ==> o.StoredPages() == o.ocr.pages
    ensures o.StoredItems() != [] <==>
              && o.StoredPages() != [] && (exists i :: 0 <= i < |o.ocr.pages| && !Blank(o.ocr.pages[i]))
              && o.keyAtClassification && o.cutAt !in {Some(AfterPages), Some(DuringClassification)}
              && ((o.first.Results? && o.first.results != [])
                  || (o.first.Transient? && o.second.Results? && o.second.results != []))
    ensures o.StoredItems() != [] ==>
              o.StoredItems() == ToItems(if o.first.Results? then o.first.results else o.second.results)
    ensures o.EndExtraction() != ExtractionPending <==>
              && o.documentExists && !o.duplicate && o.ocr.Pages?
              && o.cutAt !in {Some(AfterHashCheck), Some(BeforeOcr)}
    ensures o.EndExtraction() == Extracted ==> exists i :: 0 <= i < |o.ocr.pages| && !Blank(o.ocr.pages[i])
    ensures o.EndExtraction() == NoText ==> forall i :: 0 <= i < |o.ocr.pages| ==> Blank(o.ocr.pages[i])
  {
    if o.ocr.Pages? { FullTextBlankIff(o.ocr.pages); }
  }

  /** The three status columns of a document agree, however its job ends. */
  lemma StatusColumnsAgree(o: Outside)
    ensures o.EndStatus() == Classified <==> o.EndNote() == ItemsFound
    ensures o.EndStatus() == ClassificationFailed <==> o.EndNote() == ClassificationBroken
    ensures o.EndNote() in {NotConfigured, NothingFound} ==> o.EndStatus() == NeedsReview && o.StoredItems() == []
    ensures o.EndStatus() == NeedsReview && o.EndNote() == ClassificationPending ==> o.EndExtraction() == NoText
    ensures o.EndNote() != ClassificationPending ==> o.EndExtraction() == Extracted
    ensures o.EndNote() == NotConfigured ==>
              o.first.ConfigurationError? || (o.first.Transient? && o.second.ConfigurationError?)
    ensures o.EndNote() == NothingFound ==> o.first == Results([]) || (o.first.Transient? && o.second == Results([]))
    ensures o.StoredPages() != [] ==> o.EndExtraction() != ExtractionPending
    ensures o.EndNote() == ItemsFound ==> o.StoredItems() != []
  {
  }

  /** A succeeded job leaves one of three statuses, each for its own reason. */
  lemma SucceededOutcomes(o: Outside)
    requires o.Completes()
    ensures o.FinalStatus() in {DuplicateDetected, NeedsReview, Classified}
    ensures o.FinalStatus() == DuplicateDetected <==> o.duplicate
    ensures o.FinalStatus() == Classified <==>
              && !o.duplicate && !Blank(o.Text())
              && (o.first.Results? || (o.first.Transient? && o.second.Results?))
              && |ToItems(o.Answer().results)| >= 1
    ensures o.FinalStatus() == Classified ==> exists i :: 0 <= i < |o.ocr.pages| && !Blank(o.ocr.pages[i])
  {
    if !o.duplicate { FullTextBlankIff(o.ocr.pages); }
  }
}
