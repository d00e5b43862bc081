/**
 Uploads end to end: the verdict of the duplicate check decides what the ingestion job may store, and
 what the job leaves behind decides whether its document holds up the export.
 */
module Ingestion {
  import DuplicateGate
  import Pipeline
  import ReviewGate

  /** The job that runs the check at position `k` of the run is told the verdict of that check. */
  predicate JobOf(run: seq<DuplicateGate.Event>, k: nat, i: nat, o: Pipeline.Outside) {
    && DuplicateGate.Legal(DuplicateGate.EMPTY, run)
    && k < |run| && run[k] == DuplicateGate.CheckStep(i)
    && DuplicateGate.Legal(DuplicateGate.EMPTY, run[..k])
    && var s := DuplicateGate.Run(DuplicateGate.EMPTY, run[..k]);
       i < |s.rows| && o.duplicate == !DuplicateGate.Check(s, i).1
  }

  lemma ProcessedStaysMarked(run: seq<DuplicateGate.Event>, k: nat, i: nat, o: Pipeline.Outside)
    requires JobOf(run, k, i, o) && !o.duplicate
    ensures var rows := DuplicateGate.Run(DuplicateGate.EMPTY, run).rows; i < |rows| && rows[i].ocr
  {
    DuplicateGate.RunKeepsLater(DuplicateGate.EMPTY, run, k);
  }

  /**
   Under any interleaving of uploads and checks, and whatever happens to the jobs, at most one of two
   copies of a content ever gets pages or items.
   */
  lemma AtMostOneCopyIngested(run: seq<DuplicateGate.Event>, k: nat, i: nat, o: Pipeline.Outside,
                              m: nat, j: nat, p: Pipeline.Outside)
    requires JobOf(run, k, i, o) && JobOf(run, m, j, p) && i != j
    requires var rows := DuplicateGate.Run(DuplicateGate.EMPTY, run).rows;
             i < |rows| && j < |rows| && rows[i].content == rows[j].content
    ensures || (o.StoredPages() == [] && o.StoredItems() == [])
            || (p.StoredPages() == [] && p.StoredItems() == [])
  {
    if !o.duplicate && !p.duplicate {
      ProcessedStaysMarked(run, k, i, o);
      ProcessedStaysMarked(run, m, j, p);
      DuplicateGate.AtMostOneCopyPasses(run, i, j);
      assert false;
    }
  }

  // ---- The export gate after an upload --------------------------------------------------------

  /** The workspace after one more upload: its document, the items its job stored, and its final status. */
  function AfterUpload(s: ReviewGate.State, o: Pipeline.Outside): ReviewGate.State {
    var doc := |s.docs|;
    var added := ReviewGate.Step(s, ReviewGate.AddDocument).0;
    var classified := if o.StoredItems() == [] then added
                      else ReviewGate.Step(added, ReviewGate.Classify(doc, o.Answer().results)).0;
    ReviewGate.Step(classified, ReviewGate.PipelineStatus(doc, o.EndStatus())).0
  }

  lemma StatusWithoutItems(o: Pipeline.Outside)
    requires ReviewGate.AwaitsReview(o.EndStatus())
    ensures o.StoredItems() == []
  {
  }

  /** Only the uploaded document can become unresolved: it does exactly when its status awaits review. */
  lemma UploadUnresolvedIff(s: ReviewGate.State, o: Pipeline.Outside, d: nat)
    requires ReviewGate.WellLinked(s)
    ensures var s' := AfterUpload(s, o);
            ReviewGate.Unresolved(s', d) <==>
            if d == |s.docs| then ReviewGate.AwaitsReview(o.EndStatus()) else ReviewGate.Unresolved(s, d)
  {
    var s' := AfterUpload(s, o);
    if ReviewGate.AwaitsReview(o.EndStatus()) { StatusWithoutItems(o); }
    assert s.links <= s'.links;
    if d < |s.docs| {
      assert s'.docs[d] == s.docs[d];
      assert forall k :: |s.links| <= k < |s'.links| ==> s'.links[k].doc == |s.docs|;
      assert ReviewGate.Linked(s', d) <==> ReviewGate.Linked(s, d) by {
        if k :| 0 <= k < |s.links| && s.links[k].doc == d { assert s'.links[k].doc == d; }
      }
    }
  }

  /**
   In every reachable workspace, an upload leaves the gate open, or as closed as it was, if and only
   if its job stored no item and left the document in a status that does not await review.
   */
  lemma UploadKeepsGateIff(run: seq<ReviewGate.Event>, o: Pipeline.Outside)
    ensures var s := ReviewGate.Run(ReviewGate.EMPTY, run);
            ReviewGate.Ready(AfterUpload(s, o)) <==>
            o.StoredItems() == [] && !ReviewGate.AwaitsReview(o.EndStatus()) && ReviewGate.Ready(s)
  {
    var s := ReviewGate.Run(ReviewGate.EMPTY, run);
    var s' := AfterUpload(s, o);
    ReviewGate.RunKeepsLinks(run);
    forall d: nat
      ensures ReviewGate.Unresolved(s', d) <==>
              if d == |s.docs| then ReviewGate.AwaitsReview(o.EndStatus()) else ReviewGate.Unresolved(s, d)
    {
      UploadUnresolvedIff(s, o, d);
    }
    if o.StoredItems() == [] {
      assert s'.items == s.items && |s'.docs| == |s.docs| + 1;
      assert (forall d: nat :: d < |s'.docs| ==> !ReviewGate.Unresolved(s', d)) <==>
             (forall d: nat :: d < |s.docs| ==> !ReviewGate.Unresolved(s, d))
             && !ReviewGate.AwaitsReview(o.EndStatus())
      by {
        assert ReviewGate.Unresolved(s', |s.docs|) <==> ReviewGate.AwaitsReview(o.EndStatus());
        if d: nat :| d < |s.docs| && ReviewGate.Unresolved(s, d) { assert ReviewGate.Unresolved(s', d); }
      }
    } else {
      assert s'.items[|s.items|] == ReviewGate.ClassifiedItems(o.Answer().results)[0];
    }
  }

  /**
   The document of a failed job holds up the export if and only if classification failed outright - or
   a timeout struck after all the work on a document up for review. A job that failed earlier - no
   readable file, no key, a timeout - does not hold it up, although nothing of it was classified.
   */
  lemma FailedJobHoldsGateIff(run: seq<ReviewGate.Event>, o: Pipeline.Outside)
    requires !o.Completes()
    ensures var s := ReviewGate.Run(ReviewGate.EMPTY, run);
            && (ReviewGate.Unresolved(AfterUpload(s, o), |s.docs|) <==>
                  o.EndStatus().ClassificationFailed? || (o.EndStatus().NeedsReview? && o.Cut(Pipeline.BeforeReturn)))
            && (ReviewGate.Unresolved(AfterUpload(s, o), |s.docs|) ==> o.StoredItems() == [])
  {
    var s := ReviewGate.Run(ReviewGate.EMPTY, run);
    ReviewGate.RunKeepsLinks(run);
    UploadUnresolvedIff(s, o, |s.docs|);
    Pipeline.FailedOutcomes(o);
    if ReviewGate.AwaitsReview(o.EndStatus()) { StatusWithoutItems(o); }
  }

  /** One confirmed item, then an upload whose text extraction raises: the job fails and the gate stays open. */
  lemma GateOpensOverUnreadDocument(o: Pipeline.Outside)
    requires o.documentExists && !o.duplicate && o.ocr.OcrRaises? && o.cutAt.None?
    ensures var run := [ReviewGate.AddDocument, ReviewGate.ManualItem(0, ReviewGate.Confirmed, true)];
            var s := ReviewGate.Run(ReviewGate.EMPTY, run);
            && ReviewGate.Ready(s) && !o.Completes() && o.StoredPages() == []
            && ReviewGate.Ready(AfterUpload(s, o))
  {
    var run := [ReviewGate.AddDocument, ReviewGate.ManualItem(0, ReviewGate.Confirmed, true)];
    ReviewGate.OneConfirmed();
    UploadKeepsGateIff(run, o);
  }
}
