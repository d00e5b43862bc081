/**
 Review of one workspace's items and documents, and the gate in front of the review pack
 (app/routers/workspaces.py, app/services/export/encrypted_pack.py).
 */
module ReviewGate {
  import opened Wrappers
  import opened Documents
  import Pipeline

  // The review status column is free text; anything outside the five known values is `Other`.
  datatype Review = Draft | Pending | Confirmed | Excluded | TaxAgent | Other(text: string)

  datatype Item = Item(review: Review, needsReview: bool, byUser: bool)

  // A row linking a document to an item, both by position.
  datatype Link = Link(doc: nat, item: nat)

  datatype State = State(items: seq<Item>, docs: seq<Status>, links: seq<Link>)

  const EMPTY := State([], [], [])

  datatype Reply = Ok | BadRequest | NotFound | LockedOut

  datatype Action = ExcludeDocument | SendToTaxAgent | UnknownAction

  datatype Event =
    | AddDocument
    | PipelineStatus(doc: nat, status: Status)
    | Classify(doc: nat, results: seq<Pipeline.RawResult>)
    | SetStatus(item: nat, review: Review, key: bool)
    | ManualItem(doc: nat, review: Review, key: bool)
    | DocumentAction(doc: nat, action: Action)

  predicate Known(r: Review) { !r.Other? }

  /** A user may set these; "draft" can only be given to a new manual item. */
  predicate Settable(r: Review) { r.Pending? || r.Confirmed? || r.Excluded? || r.TaxAgent? }

  predicate StillOpen(r: Review) { r.Draft? || r.Pending? || r.TaxAgent? }

  predicate AwaitsReview(s: Status) {
    s.NeedsReview? || s.Failed? || s.ClassificationFailed? || s.ExtractionFailed?
  }

  /** Items a classification adds: the review status column keeps its default, whatever the model said. */
  function ClassifiedItems(results: seq<Pipeline.RawResult>): seq<Item> {
    var rows := Pipeline.ToItems(results);
    seq(|rows|, i requires 0 <= i < |rows| => Item(Pending, rows[i].needsReview, false))
  }

  function LinksFrom(doc: nat, first: nat, n: nat): seq<Link> { seq(n, i requires 0 <= i => Link(doc, first + i)) }

  function Step(s: State, ev: Event): (State, Reply) {
    match ev
    case AddDocument => (s.(docs := s.docs + [Uploaded]), Ok)
    case PipelineStatus(doc, status) =>
      if doc >= |s.docs| then (s, NotFound) else (s.(docs := s.docs[doc := status]), Ok)
    case Classify(doc, results) =>
      if doc >= |s.docs| then (s, NotFound)
      else (s.(items := s.items + ClassifiedItems(results),
               links := s.links + LinksFrom(doc, |s.items|, |results|)), Ok)
    case SetStatus(item, review, key) =>
      if !Settable(review) then (s, BadRequest)
      else if item >= |s.items| then (s, NotFound)
      else
        // The status is written before the key is looked up, and the key failure path commits.
        var row := s.items[item].(review := review, needsReview := StillOpen(review));
        if key then (s.(items := s.items[item := row.(byUser := true)]), Ok)
        else (s.(items := s.items[item := row]), LockedOut)
    case ManualItem(doc, review, key) =>
      if doc >= |s.docs| then (s, NotFound)
      else if !key then (s, LockedOut)
      else
        var r := if Known(review) then review else Pending;
        (State(s.items + [Item(r, StillOpen(r), true)],
               if AwaitsReview(s.docs[doc]) then s.docs[doc := Reviewed] else s.docs,
               s.links + [Link(doc, |s.items|)]), Ok)
    case DocumentAction(doc, action) =>
      if action.UnknownAction? then (s, BadRequest)
      else if doc >= |s.docs| then (s, NotFound)
      else (s.(docs := s.docs[doc := if action.ExcludeDocument? then Reviewed else NeedsReview]), Ok)
  }

  function Run(s: State, run: seq<Event>): State {
    if run == [] then s else Step(Run(s, run[..|run| - 1]), run[|run| - 1]).0
  }

  // ---- The gate -------------------------------------------------------------------------------

  /** How the summary counts an item: an unknown status falls back on the review flag. */
  function CountedAs(x: Item): Review {
    if Known(x.review) then x.review else if x.needsReview then Pending else Confirmed
  }

  predicate Linked(s: State, doc: nat) { exists k :: 0 <= k < |s.links| && s.links[k].doc == doc }

  predicate Unresolved(s: State, doc: nat) { doc < |s.docs| && AwaitsReview(s.docs[doc]) && !Linked(s, doc) }

  function UnresolvedBelow(s: State, n: nat): set<nat> { set d: nat | d < n && Unresolved(s, d) }

  lemma UnresolvedStep(s: State, n: nat)
    ensures |UnresolvedBelow(s, n + 1)| == |UnresolvedBelow(s, n)| + (if Unresolved(s, n) then 1 else 0)
  {
    assert UnresolvedBelow(s, n + 1) == UnresolvedBelow(s, n) + (if Unresolved(s, n) then {n} else {});
  }

  lemma NoneUnresolved(s: State)
    ensures |UnresolvedBelow(s, |s.docs|)| == 0 <==> forall d :: 0 <= d < |s.docs| ==> !Unresolved(s, d)
  {
    if |UnresolvedBelow(s, |s.docs|)| == 0 {
      forall d | 0 <= d < |s.docs| ensures !Unresolved(s, d) { assert d !in UnresolvedBelow(s, |s.docs|); }
    }
  }

  /** Ready for export. */
  predicate Ready(s: State) {
    && s.items != []
    && (forall i :: 0 <= i < |s.items| ==> CountedAs(s.items[i]).Confirmed? || CountedAs(s.items[i]).Excluded?)
    && (forall d :: 0 <= d < |s.docs| ==> !Unresolved(s, d))
  }

  /** Items with a given status, in order. */
  function Bucket(items: seq<Item>, r: Review): seq<Item> {
    if items == [] then [] else (if items[0].review == r then [items[0]] else []) + Bucket(items[1..], r)
  }

  /** A bucket holds every item of its status as often as the workspace does, and no other item. */
  lemma {:induction false} BucketCounts(items: seq<Item>, r: Review, x: Item)
    ensures multiset(Bucket(items, r))[x] == if x.review == r then multiset(items)[x] else 0
    decreases |items|
  {
    if items != [] {
      BucketCounts(items[1..], r, x);
      assert items == [items[0]] + items[1..];
      assert multiset(items) == multiset([items[0]]) + multiset(items[1..]);
    }
  }

  // ---- The routes as an object ----------------------------------------------------------------

  datatype Counts = Counts(draft: nat, pending: nat, confirmed: nat, excluded: nat, taxAgent: nat)

  datatype Reason =
    | NothingToReview
    | DraftItems(n: nat)
    | PendingItems(n: nat)
    | TaxAgentItems(n: nat)
    | OpenDocuments(n: nat)

  datatype Summary = Summary(total: nat, counts: Counts, manualDocuments: nat, reasons: seq<Reason>, ready: bool)

  datatype PackSummary = PackSummary(total: nat, confirmed: nat, excluded: nat, taxAgent: nat,
                                     confirmedItems: seq<Item>)

  function CountOf(items: seq<Item>, r: Review): nat {
    if items == [] then 0
    else CountOf(items[..|items| - 1], r) + (if CountedAs(items[|items| - 1]) == r then 1 else 0)
  }

  /** The reason holds of the workspace, with the right number in it. */
  predicate Applies(s: State, r: Reason) {
    match r
    case NothingToReview => s.items == []
    case DraftItems(n) => n > 0 && n == CountOf(s.items, Draft)
    case PendingItems(n) => n > 0 && n == CountOf(s.items, Pending)
    case TaxAgentItems(n) => n > 0 && n == CountOf(s.items, TaxAgent)
    case OpenDocuments(n) => n > 0 && n == |UnresolvedBelow(s, |s.docs|)|
  }

  lemma {:induction false} CountOfNone(items: seq<Item>, r: Review)
    ensures CountOf(items, r) == 0 <==> forall i :: 0 <= i < |items| ==> CountedAs(items[i]) != r
    decreases |items|
  {
    if items != [] { CountOfNone(items[..|items| - 1], r); }
  }

  /** The five counters that can block say, together, exactly that the workspace is ready. */
  lemma ReadyIffNoReason(s: State)
    ensures Ready(s) <==> forall r :: !Applies(s, r)
  {
    CountOfNone(s.items, Draft);
    CountOfNone(s.items, Pending);
    CountOfNone(s.items, TaxAgent);
    NoneUnresolved(s);
    assert Applies(s, NothingToReview) <==> s.items == [];
    assert Applies(s, DraftItems(CountOf(s.items, Draft))) <==> CountOf(s.items, Draft) > 0;
    assert Applies(s, PendingItems(CountOf(s.items, Pending))) <==> CountOf(s.items, Pending) > 0;
    assert Applies(s, TaxAgentItems(CountOf(s.items, TaxAgent))) <==> CountOf(s.items, TaxAgent) > 0;
    var n := |UnresolvedBelow(s, |s.docs|)|;
    assert Applies(s, OpenDocuments(n)) <==> n > 0;
  }

  class Workspace {
    var items: seq<Item>
    var docs: seq<Status>
    var links: seq<Link>

    function View(): State
      reads this
    {
      State(items, docs, links)
    }

    method SetItemReviewStatus(item: nat, review: Review, key: bool) returns (reply: Reply)
      modifies this
      ensures (View(), reply) == Step(old(View()), SetStatus(item, review, key))
    {
      if !Settable(review) { return BadRequest; }
      if item >= |items| { return NotFound; }
      items := items[item := items[item].(review := review)];
      items := items[item := items[item].(needsReview := review.Draft? || review.Pending? || review.TaxAgent?)];
      assert items == old(items)[item := old(items)[item].(review := review, needsReview := StillOpen(review))];
      if !key { return LockedOut; }
      items := items[item := items[item].(byUser := true)];
      assert items == old(items)[item := items[item]];
      return Ok;
    }

    method CreateManualItem(doc: nat, review: Review, key: bool) returns (reply: Reply)
      modifies this
      ensures (View(), reply) == Step(old(View()), ManualItem(doc, review, key))
    {
      if doc >= |docs| { return NotFound; }
      var r := if Known(review) then review else Pending;
      if !key { return LockedOut; }
      items := items + [Item(r, r.Draft? || r.Pending? || r.TaxAgent?, true)];
      links := links + [Link(doc, |items| - 1)];
      if AwaitsReview(docs[doc]) { docs := docs[doc := Reviewed]; }
      return Ok;
    }

    method ApplyManualReviewAction(doc: nat, action: Action) returns (reply: Reply)
      modifies this
      ensures (View(), reply) == Step(old(View()), DocumentAction(doc, action))
    {
      if action.UnknownAction? { return BadRequest; }
      if doc >= |docs| { return NotFound; }
      if action.ExcludeDocument? {
        docs := docs[doc := Reviewed];
      } else {
        docs := docs[doc := NeedsReview];
      }
      return Ok;
    }

    method CountLinks(doc: nat) returns (n: nat)
      ensures n == 0 <==> !Linked(View(), doc)
    {
      n := 0;
      for k := 0 to |links|
        invariant n == 0 <==> forall j :: 0 <= j < k ==> links[j].doc != doc
      {
        if links[k].doc == doc { n := n + 1; }
      }
    }

    method CountUnresolved() returns (n: nat)
      ensures n == |UnresolvedBelow(View(), |docs|)|
    {
      n := 0;
      for d := 0 to |docs|
        invariant n == |UnresolvedBelow(View(), d)|
      {
        var count := CountLinks(d);
        UnresolvedStep(View(), d);
        if AwaitsReview(docs[d]) && count == 0 { n := n + 1; }
      }
    }

    method CountStatuses() returns (c: Counts)
      ensures c.draft == CountOf(items, Draft) && c.pending == CountOf(items, Pending)
      ensures c.confirmed == CountOf(items, Confirmed) && c.excluded == CountOf(items, Excluded)
      ensures c.taxAgent == CountOf(items, TaxAgent)
      ensures c.draft + c.pending + c.confirmed + c.excluded + c.taxAgent == |items|
    {
      var dr, pe, co, ex, ta := 0, 0, 0, 0, 0;
      for i := 0 to |items|
        invariant dr + pe + co + ex + ta == i
        invariant dr == CountOf(items[..i], Draft) && pe == CountOf(items[..i], Pending)
        invariant co == CountOf(items[..i], Confirmed) && ex == CountOf(items[..i], Excluded)
        invariant ta == CountOf(items[..i], TaxAgent)
      {
        assert items[..i + 1][..i] == items[..i];
        var item := items[i];
        var status := if Known(item.review) then item.review else if item.needsReview then Pending else Confirmed;
        match status {
          case Draft => dr := dr + 1;
          case Pending => pe := pe + 1;
          case Confirmed => co := co + 1;
          case Excluded => ex := ex + 1;
          case TaxAgent => ta := ta + 1;
          case Other(_) => assert false;
        }
      }
      assert items[..|items|] == items;
      return Counts(dr, pe, co, ex, ta);
    }

    /** The summary: the counts, every reason that blocks the export, and the verdict. */
    method ReviewSummary() returns (sum: Summary)
      ensures sum.ready <==> Ready(View())
      ensures forall r :: r in sum.reasons <==> Applies(View(), r)
      ensures var c := sum.counts;
              sum.total == |items| == c.draft + c.pending + c.confirmed + c.excluded + c.taxAgent
      ensures sum.counts.confirmed == CountOf(items, Confirmed) && sum.counts.excluded == CountOf(items, Excluded)
      ensures sum.counts.draft == CountOf(items, Draft) && sum.counts.pending == CountOf(items, Pending)
      ensures sum.counts.taxAgent == CountOf(items, TaxAgent)
      ensures sum.manualDocuments == |UnresolvedBelow(View(), |docs|)|
    {
      var unresolved := CountUnresolved();
      var c := CountStatuses();
      var reasons: seq<Reason> := [];
      if |items| == 0 { reasons := reasons + [NothingToReview]; }
      if c.draft > 0 { reasons := reasons + [DraftItems(c.draft)]; }
      if c.pending > 0 { reasons := reasons + [PendingItems(c.pending)]; }
      if c.taxAgent > 0 { reasons := reasons + [TaxAgentItems(c.taxAgent)]; }
      if unresolved > 0 { reasons := reasons + [OpenDocuments(unresolved)]; }
      assert forall r :: r in reasons <==> Applies(View(), r);
      ReadyIffNoReason(View());
      assert reasons != [] ==> reasons[0] in reasons;
      return Summary(|items|, c, unresolved, reasons, |reasons| == 0);
    }

    /** The buckets and totals of the review pack. */
    method PackReport() returns (pack: PackSummary)
      ensures pack == PackSummary(|items|, |Bucket(items, Confirmed)|, |Bucket(items, Excluded)|,
                                  |Bucket(items, TaxAgent)|, Bucket(items, Confirmed))
      ensures forall x :: multiset(pack.confirmedItems)[x] == if x.review.Confirmed? then multiset(items)[x] else 0
    {
      forall x ensures multiset(Bucket(items, Confirmed))[x] == if x.review.Confirmed? then multiset(items)[x] else 0 {
        BucketCounts(items, Confirmed, x);
      }
      var confirmed, excluded, taxAgent := Bucket(items, Confirmed), Bucket(items, Excluded), Bucket(items, TaxAgent);
      return PackSummary(|items|, |confirmed|, |excluded|, |taxAgent|, confirmed);
    }
  }

  // ---- Over runs ------------------------------------------------------------------------------

  predicate AllKnown(items: seq<Item>) { forall i :: 0 <= i < |items| ==> Known(items[i].review) }

  lemma StepKeepsKnown(s: State, ev: Event)
    requires AllKnown(s.items)
    ensures AllKnown(Step(s, ev).0.items)
    ensures |s.items| <= |Step(s, ev).0.items|
  {
  }

  lemma {:induction false} RunKeepsKnown(run: seq<Event>)
    ensures AllKnown(Run(EMPTY, run).items)
    decreases |run|
  {
    if run != [] {
      RunKeepsKnown(run[..|run| - 1]);
      StepKeepsKnown(Run(EMPTY, run[..|run| - 1]), run[|run| - 1]);
    }
  }

  /** A user request that takes effect and gives item `i` the status `r`: a status change, or its creation by hand. */
  predicate UserSets(s: State, ev: Event, i: nat, r: Review) {
    match ev
    case SetStatus(item, review, _) => item == i && review == r && Settable(r) && i < |s.items|
    case ManualItem(doc, review, key) => |s.items| == i && review == r && Known(r) && doc < |s.docs| && key
    case _ => false
  }

  /** After the first `m` requests of the run, item `i` exists and has the status `r`. */
  predicate StatusAt(run: seq<Event>, m: nat, i: nat, r: Review) {
    && m <= |run|
    && i < |Run(EMPTY, run[..m]).items|
    && Run(EMPTY, run[..m]).items[i].review == r
  }

  /** The request at position `k` of the run gave item `i` its status, which it has kept from then on. */
  predicate DecidedAt(run: seq<Event>, k: nat, i: nat, r: Review) {
    && k < |run|
    && UserSets(Run(EMPTY, run[..k]), run[k], i, r)
    && forall m :: k < m <= |run| ==> StatusAt(run, m, i, r)
  }

  lemma {:induction false} DecidedLonger(run: seq<Event>, k: nat, i: nat, r: Review)
    requires run != [] && DecidedAt(run[..|run| - 1], k, i, r)
    requires StatusAt(run, |run|, i, r)
    ensures DecidedAt(run, k, i, r)
  {
    var n := |run| - 1;
    assert run[..n][..k] == run[..k];
    forall m | k < m <= |run| ensures StatusAt(run, m, i, r) {
      if m <= n {
        assert StatusAt(run[..n], m, i, r);
        assert run[..n][..m] == run[..m];
      }
    }
  }

  /**
   Provenance: in every run, an item whose status is anything but "needs review" got exactly that
   status from a user request of the run that took effect, and has had it ever since. Classification never
   produces one.
   */
  lemma {:induction false} StatusComesFromUser(run: seq<Event>, i: nat)
    requires i < |Run(EMPTY, run).items|
    ensures var r := Run(EMPTY, run).items[i].review; r.Pending? || exists k: nat :: DecidedAt(run, k, i, r)
    decreases |run|
  {
    if run != [] {
      var n := |run| - 1;
      var pre := run[..n];
      var s, s' := Run(EMPTY, pre), Run(EMPTY, run);
      var r := s'.items[i].review;
      assert run[..|run|] == run;
      if i < |s.items| && r == s.items[i].review {
        StatusComesFromUser(pre, i);
        if k: nat :| DecidedAt(pre, k, i, r) { DecidedLonger(run, k, i, r); }
      } else if !r.Pending? {
        ChangedByUser(s, run[n], i);
        assert StatusAt(run, |run|, i, r);
        assert DecidedAt(run, n, i, r);
      }
    }
  }

  lemma ChangedByUser(s: State, ev: Event, i: nat)
    requires i < |Step(s, ev).0.items| && !Step(s, ev).0.items[i].review.Pending?
    requires i < |s.items| ==> Step(s, ev).0.items[i].review != s.items[i].review
    ensures UserSets(s, ev, i, Step(s, ev).0.items[i].review)
  {
  }

  lemma {:induction false} BucketsOfSettled(items: seq<Item>)
    requires AllKnown(items)
    requires forall i :: 0 <= i < |items| ==> CountedAs(items[i]).Confirmed? || CountedAs(items[i]).Excluded?
    ensures |Bucket(items, Confirmed)| + |Bucket(items, Excluded)| == |items|
    ensures Bucket(items, TaxAgent) == []
    decreases |items|
  {
    if items != [] { BucketsOfSettled(items[1..]); }
  }

  /**
   The export gate over runs: in every reachable state the workspace is ready exactly when it has
   items, each of them confirmed or excluded by the status column itself, and no document that
   awaits review lacks items; the review pack then splits all items into confirmed and excluded, with none
   left for the tax agent.
   */
  lemma GateOverRuns(run: seq<Event>)
    ensures var s := Run(EMPTY, run);
            && (Ready(s) <==>
                  && s.items != []
                  && (forall i :: 0 <= i < |s.items| ==> s.items[i].review.Confirmed? || s.items[i].review.Excluded?)
                  && (forall d :: 0 <= d < |s.docs|
                                  && s.docs[d] in {NeedsReview, Failed, ClassificationFailed, ExtractionFailed} ==>
                                    exists k :: 0 <= k < |s.links| && s.links[k].doc == d))
            && (Ready(s) ==>
                  && |Bucket(s.items, Confirmed)| + |Bucket(s.items, Excluded)| == |s.items|
                  && Bucket(s.items, TaxAgent) == [])
  {
    RunKeepsKnown(run);
    var s := Run(EMPTY, run);
    assert forall i :: 0 <= i < |s.items| ==> CountedAs(s.items[i]) == s.items[i].review;
    assert forall d :: 0 <= d < |s.docs| && AwaitsReview(s.docs[d]) && !Linked(s, d) ==> Unresolved(s, d);
    assert forall d :: 0 <= d < |s.docs| ==> (AwaitsReview(s.docs[d]) <==>
             s.docs[d] in {NeedsReview, Failed, ClassificationFailed, ExtractionFailed});
    if Ready(s) { BucketsOfSettled(s.items); }
  }

  // ---- What each user action does to the gate -------------------------------------------------

  predicate CountsSettled(x: Item) { CountedAs(x).Confirmed? || CountedAs(x).Excluded? }

  /**
   Excluding a document takes it out of the gate's way: the workspace is then ready exactly when it has
   items, all settled, and no other document is unresolved. Sending it to the tax agent makes it
   unresolved exactly when it has no linked item. Neither touches another document or any item.
   */
  lemma DocumentActionEffect(s: State, doc: nat, action: Action)
    requires doc < |s.docs| && !action.UnknownAction?
    ensures var (s', reply) := Step(s, DocumentAction(doc, action));
            && reply == Ok && s'.items == s.items
            && (forall d :: d != doc ==> (Unresolved(s', d) <==> Unresolved(s, d)))
            && (action.ExcludeDocument? ==>
                  && !Unresolved(s', doc)
                  && (Ready(s') <==>
                        && s.items != [] && (forall i :: 0 <= i < |s.items| ==> CountsSettled(s.items[i]))
                        && forall d :: 0 <= d < |s.docs| && d != doc ==> !Unresolved(s, d)))
            && (action.SendToTaxAgent? ==> (Unresolved(s', doc) <==> !Linked(s, doc)))
  {
    var s' := Step(s, DocumentAction(doc, action)).0;
    assert forall d :: Linked(s', d) <==> Linked(s, d);
    assert forall d :: d != doc ==> (Unresolved(s', d) <==> Unresolved(s, d));
    if action.ExcludeDocument? { ReadyWithout(s, s', doc); }
  }

  /** Readiness when one document is known to be resolved and nothing else changed. */
  lemma ReadyWithout(s: State, s': State, doc: nat)
    requires |s'.docs| == |s.docs| && doc < |s.docs| && !Unresolved(s', doc)
    requires forall d: nat :: d != doc ==> (Unresolved(s', d) <==> Unresolved(s, d))
    ensures Ready(s') <==>
            && s'.items != [] && (forall i :: 0 <= i < |s'.items| ==> CountsSettled(s'.items[i]))
            && forall d :: 0 <= d < |s.docs| && d != doc ==> !Unresolved(s, d)
  {
    if forall d :: 0 <= d < |s.docs| && d != doc ==> !Unresolved(s, d) {
      forall d: nat | d < |s'.docs| ensures !Unresolved(s', d) {}
    } else {
      var d: nat :| d < |s.docs| && d != doc && Unresolved(s, d);
      assert Unresolved(s', d);
    }
  }

  /**
   An item entered by hand resolves its document: the workspace is then ready exactly when the new item
   and all others are settled and no other document is unresolved.
   */
  lemma ManualItemEffect(s: State, doc: nat, review: Review)
    requires doc < |s.docs|
    ensures var (s', reply) := Step(s, ManualItem(doc, review, true));
            && reply == Ok && |s'.items| == |s.items| + 1 && s'.items[..|s.items|] == s.items
            && s'.items[|s.items|].byUser
            && s'.items[|s.items|].review == (if review.Other? then Pending else review)
            && (s'.items[|s.items|].needsReview <==> !Settled(review))
            && Linked(s', doc) && !AwaitsReview(s'.docs[doc]) && !Unresolved(s', doc)
            && (Ready(s') <==>
                  && (review.Confirmed? || review.Excluded?)
                  && (forall i :: 0 <= i < |s.items| ==> CountsSettled(s.items[i]))
                  && forall d :: 0 <= d < |s.docs| && d != doc ==> !Unresolved(s, d))
  {
    var s' := Step(s, ManualItem(doc, review, true)).0;
    assert s'.links[|s.links|].doc == doc;
    forall d: nat | d != doc ensures Unresolved(s', d) <==> Unresolved(s, d) {
      if k :| 0 <= k < |s.links| && s.links[k].doc == d { assert s'.links[k].doc == d; }
    }
    ReadyWithout(s, s', doc);
    assert forall i :: 0 <= i < |s.items| ==> s'.items[i] == s.items[i];
    assert CountsSettled(s'.items[|s.items|]) <==> review.Confirmed? || review.Excluded?;
  }

  /** Which user requests are refused, and how; a refusal changes nothing but the status change that lost its key. */
  lemma RefusalsIff(s: State, n: nat, review: Review, action: Action, key: bool)
    ensures var (s', reply) := Step(s, SetStatus(n, review, key));
            && (reply == BadRequest <==> review.Draft? || review.Other?)
            && (reply == NotFound <==> !review.Draft? && !review.Other? && n >= |s.items|)
            && (reply in {BadRequest, NotFound} ==> s' == s)
    ensures var (s', reply) := Step(s, ManualItem(n, review, key));
            && (reply == NotFound <==> n >= |s.docs|)
            && (reply == LockedOut <==> n < |s.docs| && !key)
            && (reply != Ok ==> s' == s)
    ensures var (s', reply) := Step(s, DocumentAction(n, action));
            && (reply == BadRequest <==> action.UnknownAction?)
            && (reply == NotFound <==> !action.UnknownAction? && n >= |s.docs|)
            && (reply != Ok ==> s' == s)
  {
  }

  /**
   A status change that finds its key: the item is then marked as reviewed by the user and flagged
   exactly when its status is still open, and readiness depends on that status, the other items and the
   documents.
   */
  lemma SetStatusEffect(s: State, item: nat, review: Review)
    requires item < |s.items| && review in {Pending, Confirmed, Excluded, TaxAgent}
    ensures var (s', reply) := Step(s, SetStatus(item, review, true));
            && reply == Ok && s'.docs == s.docs && s'.links == s.links && |s'.items| == |s.items|
            && s'.items[item].review == review && s'.items[item].byUser
            && (s'.items[item].needsReview <==> !Settled(review))
            && (forall i :: 0 <= i < |s.items| && i != item ==> s'.items[i] == s.items[i])
            && (Ready(s') <==>
                  && Settled(review)
                  && (forall i :: 0 <= i < |s.items| && i != item ==> CountsSettled(s.items[i]))
                  && forall d :: 0 <= d < |s.docs| ==> !Unresolved(s, d))
  {
    var s' := Step(s, SetStatus(item, review, true)).0;
    assert forall d :: Unresolved(s', d) <==> Unresolved(s, d);
    assert CountsSettled(s'.items[item]) <==> Settled(review);
    if forall i :: 0 <= i < |s.items| && i != item ==> CountsSettled(s.items[i]) {
      assert Settled(review) ==> forall i :: 0 <= i < |s'.items| ==> CountsSettled(s'.items[i]);
    } else {
      var i :| 0 <= i < |s.items| && i != item && !CountsSettled(s.items[i]);
      assert !CountsSettled(s'.items[i]);
    }
  }

  /** Classification links what it adds: its document has items from then on, none of them reviewed by the user. */
  lemma ClassificationLinks(s: State, doc: nat, results: seq<Pipeline.RawResult>)
    requires doc < |s.docs| && results != []
    ensures var s' := Step(s, Classify(doc, results)).0;
            && Linked(s', doc) && !Unresolved(s', doc)
            && |s'.items| == |s.items| + |results| && s'.items[..|s.items|] == s.items
            && forall i :: |s.items| <= i < |s'.items| ==> s'.items[i].review.Pending? && !s'.items[i].byUser
  {
    var s' := Step(s, Classify(doc, results)).0;
    assert s'.links[|s.links|] == LinksFrom(doc, |s.items|, |results|)[0];
  }

  /** Every export of a reachable, ready workspace rests on a user request for each of its items. */
  lemma ReadyMeansUserDecided(run: seq<Event>, i: nat)
    requires Ready(Run(EMPTY, run)) && i < |Run(EMPTY, run).items|
    ensures exists k: nat :: DecidedAt(run, k, i, Run(EMPTY, run).items[i].review)
  {
    GateOverRuns(run);
    StatusComesFromUser(run, i);
  }

  /** New classification results always close the gate, whatever confidence the model reports. */
  lemma ClassificationClosesGate(s: State, doc: nat, results: seq<Pipeline.RawResult>)
    requires doc < |s.docs| && results != []
    ensures !Ready(Step(s, Classify(doc, results)).0)
  {
    var s' := Step(s, Classify(doc, results)).0;
    assert s'.items[|s.items|] == ClassifiedItems(results)[0];
  }

  /** Links point to documents that exist. */
  predicate WellLinked(s: State) { forall k :: 0 <= k < |s.links| ==> s.links[k].doc < |s.docs| }

  lemma {:induction false} RunKeepsLinks(run: seq<Event>)
    ensures WellLinked(Run(EMPTY, run))
    decreases |run|
  {
    if run != [] { RunKeepsLinks(run[..|run| - 1]); }
  }

  // ---- Between gate and pack ------------------------------------------------------------------

  /** The status an event gives to item `i` when it takes effect. */
  function Given(s: State, ev: Event, i: nat): Option<Review> {
    match ev
    case Classify(doc, results) =>
      if doc < |s.docs| && |s.items| <= i < |s.items| + |results| then Some(Pending) else None
    case SetStatus(item, review, _) =>
      if item == i < |s.items| && Settable(review) then Some(review) else None
    case ManualItem(doc, review, key) =>
      if doc < |s.docs| && key && i == |s.items| then Some(if Known(review) then review else Pending) else None
    case _ => None
  }

  function RunFrom(s: State, mid: seq<Event>): State {
    if mid == [] then s else Step(RunFrom(s, mid[..|mid| - 1]), mid[|mid| - 1]).0
  }

  /** The last status item `i` is given by the requests and classifications of `mid`. */
  function LastGiven(s: State, mid: seq<Event>, i: nat): Option<Review> {
    if mid == [] then None
    else
      var pre := mid[..|mid| - 1];
      var now := Given(RunFrom(s, pre), mid[|mid| - 1], i);
      if now.Some? then now else LastGiven(s, pre, i)
  }

  lemma StepGives(s: State, ev: Event, i: nat)
    requires i < |Step(s, ev).0.items|
    ensures match Given(s, ev, i)
            case Some(r) => Step(s, ev).0.items[i].review == r
            case None => i < |s.items| && Step(s, ev).0.items[i].review == s.items[i].review
  {
  }

  lemma {:induction false} StatusIsLastGiven(s: State, mid: seq<Event>, i: nat)
    requires i < |RunFrom(s, mid).items|
    ensures match LastGiven(s, mid, i)
            case Some(r) => RunFrom(s, mid).items[i].review == r
            case None => i < |s.items| && RunFrom(s, mid).items[i].review == s.items[i].review
    decreases |mid|
  {
    if mid != [] {
      var pre, ev := mid[..|mid| - 1], mid[|mid| - 1];
      StepGives(RunFrom(s, pre), ev, i);
      if Given(RunFrom(s, pre), ev, i).None? { StatusIsLastGiven(s, pre, i); }
    }
  }

  predicate Settled(r: Review) { r.Confirmed? || r.Excluded? }

  /**
   The export checks the gate and reads the rows for the pack later, with other work in between. For
   a workspace that was ready at the gate, the pack accounts for every item it reads if and only if
   no item was last given an open status in between - by a user, or by a classification, which gives
   each new item one.
   */
  lemma {:induction false} PackAfterGateIff(run: seq<Event>, mid: seq<Event>)
    requires Ready(Run(EMPTY, run))
    ensures var s := Run(EMPTY, run);
            var s' := RunFrom(s, mid);
            |Bucket(s'.items, Confirmed)| + |Bucket(s'.items, Excluded)| == |s'.items| <==>
            forall i :: 0 <= i < |s'.items| && LastGiven(s, mid, i).Some? ==> Settled(LastGiven(s, mid, i).value)
  {
    GateOverRuns(run);
    PackAccountsIff(Run(EMPTY, run), mid);
  }

  lemma {:induction false} PackAccountsIff(s: State, mid: seq<Event>)
    requires forall i :: 0 <= i < |s.items| ==> Settled(s.items[i].review)
    ensures var s' := RunFrom(s, mid);
            |Bucket(s'.items, Confirmed)| + |Bucket(s'.items, Excluded)| == |s'.items| <==>
            forall i :: 0 <= i < |s'.items| && LastGiven(s, mid, i).Some? ==> Settled(LastGiven(s, mid, i).value)
  {
    var s' := RunFrom(s, mid);
    BucketsFillIff(s'.items);
    if i :| 0 <= i < |s'.items| && LastGiven(s, mid, i).Some? && !Settled(LastGiven(s, mid, i).value) {
      StatusIsLastGiven(s, mid, i);
      assert !Settled(s'.items[i].review);
    } else {
      forall i | 0 <= i < |s'.items| ensures Settled(s'.items[i].review) {
        StatusIsLastGiven(s, mid, i);
        var given := LastGiven(s, mid, i);
        if given.None? { assert Settled(s.items[i].review); }
      }
    }
  }

  lemma {:induction false} BucketsFillIff(items: seq<Item>)
    ensures |Bucket(items, Confirmed)| + |Bucket(items, Excluded)| == |items| <==>
            forall i :: 0 <= i < |items| ==> Settled(items[i].review)
    decreases |items|
  {
    BucketsNeverExceed(items);
    if items != [] {
      BucketsFillIff(items[1..]);
      BucketsNeverExceed(items[1..]);
      assert forall i :: 0 < i < |items| ==> items[i] == items[1..][i - 1];
    }
  }

  lemma OneConfirmed()
    ensures var s := Run(EMPTY, [AddDocument, ManualItem(0, Confirmed, true)]);
            s == State([Item(Confirmed, false, true)], [Uploaded], [Link(0, 0)]) && Ready(s)
  {
    var run := [AddDocument, ManualItem(0, Confirmed, true)];
    assert run[..1] == [AddDocument] && run[..1][..0] == [];
    assert Run(EMPTY, run[..1]) == State([], [Uploaded], []);
  }

  /** Ready at the gate, one classification result before the pack: two items, one of them in no settled bucket. */
  lemma ClassificationSlipsIntoPack(result: Pipeline.RawResult)
    ensures var run, mid := [AddDocument, ManualItem(0, Confirmed, true)], [Classify(0, [result])];
            var s' := RunFrom(Run(EMPTY, run), mid);
            && Ready(Run(EMPTY, run))
            && |s'.items| == 2 && |Bucket(s'.items, Confirmed)| + |Bucket(s'.items, Excluded)| < 2
  {
    OneConfirmed();
    var run, mid := [AddDocument, ManualItem(0, Confirmed, true)], [Classify(0, [result])];
    var s := Run(EMPTY, run);
    assert mid[..0] == [] && RunFrom(s, mid) == Step(s, mid[0]).0;
    var s' := RunFrom(s, mid);
    assert s'.items[1] == ClassifiedItems([result])[0];
    BucketsNeverExceed(s'.items);
  }

  // ---- What the gate does not promise ---------------------------------------------------------

  lemma {:induction false} BucketsNeverExceed(items: seq<Item>)
    ensures |Bucket(items, Confirmed)| + |Bucket(items, Excluded)| <= |items|
    ensures (exists i :: 0 <= i < |items| && !items[i].review.Confirmed? && !items[i].review.Excluded?) ==>
              |Bucket(items, Confirmed)| + |Bucket(items, Excluded)| < |items|
    decreases |items|
  {
    if items != [] {
      BucketsNeverExceed(items[1..]);
      if i :| 0 <= i < |items| && !items[i].review.Confirmed? && !items[i].review.Excluded? {
        if i > 0 { assert items[1..][i - 1] == items[i]; }
      }
    }
  }

  /**
   For item rows of any origin, a ready workspace's pack accounts for every item exactly when no row
   carries an unknown status; a row with an unknown status and no review flag counts as confirmed in
   the summary but lands in no bucket of the review pack.
   */
  lemma PackAccountsForAllIff(s: State)
    requires Ready(s)
    ensures |Bucket(s.items, Confirmed)| + |Bucket(s.items, Excluded)| == |s.items| <==> AllKnown(s.items)
  {
    if AllKnown(s.items) {
      BucketsOfSettled(s.items);
    } else {
      BucketsNeverExceed(s.items);
    }
  }

  /** How the summary counts an item, status by status. */
  lemma CountedAsIs(x: Item)
    ensures x.review in {Draft, Pending, Confirmed, Excluded, TaxAgent} ==> CountedAs(x) == x.review
    ensures x.review.Other? ==> CountedAs(x) == if x.needsReview then Pending else Confirmed
  {
  }

  /** One row with an unknown status and no flag: ready, counted as confirmed, and in no bucket. */
  lemma UnknownStatusLeavesPack(text: string)
    ensures var s := State([Item(Other(text), false, false)], [], []);
            && Ready(s) && CountOf(s.items, Confirmed) == 1
            && Bucket(s.items, Confirmed) == [] && Bucket(s.items, Excluded) == [] && Bucket(s.items, TaxAgent) == []
  {
  }

  /**
   A status change refused for lack of a key is not undone: the reply says locked, yet the new
   status is stored, with the reviewed-by column untouched. It is without effect exactly when the item
   already had that status and flag.
   */
  lemma RefusedStatusChangeSticks(s: State, item: nat, review: Review)
    requires Settable(review) && item < |s.items|
    ensures var (s', reply) := Step(s, SetStatus(item, review, false));
            && reply == LockedOut
            && s'.items[item].review == review && s'.items[item].byUser == s.items[item].byUser
            && (s' == s <==> s.items[item].review == review && s.items[item].needsReview == StillOpen(review))
  {
  }
}
