/**
 The duplicate gate: the router looks a file up and later inserts its row, the background
 pipeline later checks for other rows of the same content. Each of these is one step, and the
 steps of different uploads interleave freely. Rows are never deleted.
 */
module DuplicateGate {
  import opened Wrappers
  import opened Documents

  type Id = nat

  // Copies are compared by session and file hash.
  datatype Content = Content(session: string, hash: string)

  // `ocr` records that the pipeline once let this row through to text extraction.
  datatype Row = Row(id: Id, content: Content, status: Status, replaced: bool, ocr: bool)

  // Rows in insertion order, and the uploads that passed the router's look-up but are not inserted yet.
  datatype State = State(rows: seq<Row>, cleared: map<Id, Content>)

  const EMPTY := State([], map[])

  predicate Recoverable(s: Status) { s.Failed? || s.ClassificationFailed? || s.ProcessingFailed? }

  /** Index of the first row of this content, other than `except`; `|rows|` when there is none. */
  function FirstCopy(rows: seq<Row>, c: Content, except: Option<Id>): (i: nat)
    ensures i <= |rows|
    ensures i < |rows| ==> rows[i].content == c && Some(rows[i].id) != except
    ensures forall k :: 0 <= k < i ==> !(rows[k].content == c && Some(rows[k].id) != except)
  {
    if rows == [] then 0
    else if rows[0].content == c && Some(rows[0].id) != except then 0
    else
      assert forall k :: 0 < k < |rows| ==> rows[k] == rows[1..][k - 1];
      1 + FirstCopy(rows[1..], c, except)
  }

  datatype LookUpResult = Cleared | DuplicateFile(existing: Id)

  function LookUp(s: State, id: Id, c: Content): (State, LookUpResult) {
    var i := FirstCopy(s.rows, c, None);
    if i == |s.rows| then (s.(cleared := s.cleared[id := c]), Cleared)
    else if Recoverable(s.rows[i].status) then
      (State(s.rows[i := s.rows[i].(replaced := true)], s.cleared[id := c]), Cleared)
    else (s, DuplicateFile(s.rows[i].id))
  }

  function NewRow(id: Id, c: Content): Row { Row(id, c, Uploaded, false, false) }

  /** The pipeline's check of one row; a row that passes goes on to text extraction. */
  function Check(s: State, i: nat): (State, bool)
    requires i < |s.rows|
  {
    var row := s.rows[i];
    if FirstCopy(s.rows, row.content, Some(row.id)) < |s.rows|
    then (s.(rows := s.rows[i := row.(status := DuplicateDetected)]), false)
    else (s.(rows := s.rows[i := row.(status := Stored, ocr := true)]), true)
  }

  datatype Event =
    | LookUpStep(id: Id, content: Content)
    | InsertStep(id: Id)
    | BatchStep(id: Id, content: Content)
    | CheckStep(index: nat)
    | StatusStep(index: nat, status: Status)

  predicate HasId(rows: seq<Row>, id: Id) { exists i :: 0 <= i < |rows| && rows[i].id == id }

  /** Row ids are fresh, inserts follow a look-up, and checks concern rows that exist. */
  predicate Enabled(s: State, ev: Event) {
    match ev
    case LookUpStep(id, _) => !HasId(s.rows, id)
    case InsertStep(id) => id in s.cleared && !HasId(s.rows, id)
    case BatchStep(id, _) => !HasId(s.rows, id)
    case CheckStep(i) => i < |s.rows|
    case StatusStep(i, _) => i < |s.rows|
  }

  function Step(s: State, ev: Event): State
    requires Enabled(s, ev)
  {
    match ev
    case LookUpStep(id, c) => LookUp(s, id, c).0
    case InsertStep(id) => State(s.rows + [NewRow(id, s.cleared[id])], s.cleared - {id})
    case BatchStep(id, c) => s.(rows := s.rows + [NewRow(id, c)])
    case CheckStep(i) => Check(s, i).0
    case StatusStep(i, status) => s.(rows := s.rows[i := s.rows[i].(status := status)])
  }

  predicate Legal(s: State, run: seq<Event>)
    decreases |run|
  {
    run == [] || (Enabled(s, run[0]) && Legal(Step(s, run[0]), run[1..]))
  }

  function Run(s: State, run: seq<Event>): State
    requires Legal(s, run)
    decreases |run|
  {
    if run == [] then s else Run(Step(s, run[0]), run[1..])
  }

  // ---- Exclusion ------------------------------------------------------------------------------

  /** Ids are unique, and only the oldest row of a content ever went through. */
  predicate Inv(s: State) {
    && (forall i, j :: 0 <= i < j < |s.rows| ==> s.rows[i].id != s.rows[j].id)
    && (forall i, j :: 0 <= i < j < |s.rows| && s.rows[i].content == s.rows[j].content ==> !s.rows[j].ocr)
  }

  lemma CheckPassesIffAlone(s: State, i: nat)
    requires Inv(s) && i < |s.rows|
    ensures Check(s, i).1 <==> forall j :: 0 <= j < |s.rows| && j != i ==> s.rows[j].content != s.rows[i].content
    ensures var row := Check(s, i).0.rows[i];
            if Check(s, i).1 then row.status == Stored && row.ocr
            else row.status == DuplicateDetected && row.ocr == s.rows[i].ocr
  {
  }

  /** The invariant holds again, no row went away, and each kept its id, its content and its ocr mark. */
  predicate Kept(s: State, s': State) {
    && Inv(s')
    && |s.rows| <= |s'.rows|
    && forall i :: 0 <= i < |s.rows| ==>
         && s'.rows[i].id == s.rows[i].id && s'.rows[i].content == s.rows[i].content
         && (s.rows[i].ocr ==> s'.rows[i].ocr)
  }

  lemma UpdateKeepsInv(s: State, i: nat, row: Row, cleared: map<Id, Content>)
    requires Inv(s) && i < |s.rows|
    requires row.id == s.rows[i].id && row.content == s.rows[i].content && (s.rows[i].ocr ==> row.ocr)
    requires row.ocr && !s.rows[i].ocr ==> forall j :: 0 <= j < i ==> s.rows[j].content != row.content
    ensures Kept(s, State(s.rows[i := row], cleared))
  {
  }

  lemma AppendKeepsInv(s: State, row: Row, cleared: map<Id, Content>)
    requires Inv(s) && !HasId(s.rows, row.id) && !row.ocr
    ensures Kept(s, State(s.rows + [row], cleared))
  {
  }

  lemma {:induction false} StepKeepsInv(s: State, ev: Event)
    requires Inv(s) && Enabled(s, ev)
    ensures Kept(s, Step(s, ev))
  {
    var s' := Step(s, ev);
    match ev {
      case LookUpStep(_, c) =>
        var i := FirstCopy(s.rows, c, None);
        if i < |s.rows| && Recoverable(s.rows[i].status) { UpdateKeepsInv(s, i, s'.rows[i], s'.cleared); }
      case InsertStep(id) => AppendKeepsInv(s, NewRow(id, s.cleared[id]), s'.cleared);
      case BatchStep(id, c) => AppendKeepsInv(s, NewRow(id, c), s'.cleared);
      case CheckStep(i) =>
        CheckPassesIffAlone(s, i);
        UpdateKeepsInv(s, i, s'.rows[i], s'.cleared);
      case StatusStep(i, _) => UpdateKeepsInv(s, i, s'.rows[i], s'.cleared);
    }
  }

  lemma {:induction false} RunKeepsInv(s: State, run: seq<Event>)
    requires Inv(s) && Legal(s, run)
    ensures Kept(s, Run(s, run))
    decreases |run|
  {
    if run != [] {
      StepKeepsInv(s, run[0]);
      RunKeepsInv(Step(s, run[0]), run[1..]);
    }
  }

  /**
   Insert-then-check exclusion: under any interleaving of look-ups, inserts, batch inserts, checks
   and status changes, at most one copy of a content reaches text extraction, and it is the oldest.
   */
  lemma AtMostOneCopyPasses(run: seq<Event>, i: nat, j: nat)
    requires Legal(EMPTY, run)
    requires i < |Run(EMPTY, run).rows| && j < |Run(EMPTY, run).rows|
    requires var rows := Run(EMPTY, run).rows; rows[i].content == rows[j].content && rows[i].ocr
    ensures Run(EMPTY, run).rows[j].ocr ==> i == j
    ensures i <= j
  {
    RunKeepsInv(EMPTY, run);
  }

  // ---- What the gate does not do --------------------------------------------------------------

  /**
   Once a copy exists, no copy inserted later ever passes. In particular an upload that the router
   lets in because the earlier copy failed is always flagged by the pipeline.
   */
  lemma LaterCopiesNeverPass(s: State, run: seq<Event>, old_: nat, new_: nat)
    requires Inv(s) && Legal(s, run)
    requires old_ < |s.rows| <= new_ < |Run(s, run).rows|
    requires Run(s, run).rows[new_].content == s.rows[old_].content
    ensures !Run(s, run).rows[new_].ocr
  {
    RunKeepsInv(s, run);
    assert Run(s, run).rows[old_].content == s.rows[old_].content;
  }

  /**
   The router turns a file away exactly when its session holds a copy whose oldest row did not fail; a
   recovery marks that oldest row as replaced and lets the upload go on.
   */
  lemma TurnedAwayIff(s: State, id: Id, c: Content)
    ensures var (s', result) := LookUp(s, id, c);
            && (result.DuplicateFile? <==>
                  exists i :: 0 <= i < |s.rows| && Oldest(s, i, c)
                              && s.rows[i].status !in {Failed, ClassificationFailed, ProcessingFailed})
            && (result.DuplicateFile? ==> s' == s && exists i :: 0 <= i < |s.rows| && Oldest(s, i, c)
                                                                 && s.rows[i].id == result.existing)
            && (result.Cleared? ==>
                  && s'.cleared == s.cleared[id := c] && |s'.rows| == |s.rows|
                  && forall i :: 0 <= i < |s.rows| ==>
                       s'.rows[i] == if Oldest(s, i, c) then s.rows[i].(replaced := true) else s.rows[i])
  {
    var i := FirstCopy(s.rows, c, None);
    if i < |s.rows| { assert Oldest(s, i, c); }
  }

  predicate Oldest(s: State, i: nat, c: Content) {
    i < |s.rows| && s.rows[i].content == c && forall k :: 0 <= k < i ==> s.rows[k].content != c
  }

  lemma {:induction false} LookUpOnEmpty(id: Id, c: Content, m: map<Id, Content>)
    ensures Step(State([], m), LookUpStep(id, c)) == State([], m[id := c])
  {
  }

  lemma {:induction false} InsertOnEmpty(id: Id, m: map<Id, Content>)
    requires id in m
    ensures Enabled(State([], m), InsertStep(id))
    ensures Step(State([], m), InsertStep(id)) == State([NewRow(id, m[id])], m - {id})
  {
  }

  lemma {:induction false} InsertSecond(a: Row, id: Id, m: map<Id, Content>)
    requires id in m && a.id != id
    ensures Enabled(State([a], m), InsertStep(id))
    ensures Step(State([a], m), InsertStep(id)) == State([a, NewRow(id, m[id])], m - {id})
  {
  }

  lemma {:induction false} TwoChecks(c: Content, m: map<Id, Content>)
    ensures var a, b := NewRow(0, c), NewRow(1, c);
            var a', b' := a.(status := DuplicateDetected), b.(status := DuplicateDetected);
            && Step(State([a, b], m), CheckStep(0)) == State([a', b], m)
            && Step(State([a', b], m), CheckStep(1)) == State([a', b'], m)
  {
  }

  /** Two copies inserted before either is checked flag each other: no copy is processed at all. */
  lemma BothCopiesCanBeFlagged(c: Content)
    ensures var run := [LookUpStep(0, c), LookUpStep(1, c), InsertStep(0), InsertStep(1), CheckStep(0), CheckStep(1)];
            && Legal(EMPTY, run)
            && Run(EMPTY, run).rows
                 == [Row(0, c, DuplicateDetected, false, false), Row(1, c, DuplicateDetected, false, false)]
  {
    var a, b := NewRow(0, c), NewRow(1, c);
    var a', b' := a.(status := DuplicateDetected), b.(status := DuplicateDetected);
    var m1: map<Id, Content> := map[][0 := c];
    var m2 := m1[1 := c];
    var m3, m4 := m2 - {0}, m2 - {0} - {1};
    LookUpOnEmpty(0, c, map[]);
    LookUpOnEmpty(1, c, m1);
    InsertOnEmpty(0, m2);
    InsertSecond(a, 1, m3);
    TwoChecks(c, m4);
    var run := [LookUpStep(0, c), LookUpStep(1, c), InsertStep(0), InsertStep(1), CheckStep(0), CheckStep(1)];
    Unfold(EMPTY, run, State([], m1), run[1..]);
    Unfold(State([], m1), run[1..], State([], m2), run[2..]);
    Unfold(State([], m2), run[2..], State([a], m3), run[3..]);
    Unfold(State([a], m3), run[3..], State([a, b], m4), run[4..]);
    Unfold(State([a, b], m4), run[4..], State([a', b], m4), run[5..]);
    Unfold(State([a', b], m4), run[5..], State([a', b'], m4), run[6..]);
  }

  /** A copy fails, the router lets a recovery upload in, and the pipeline flags it: it is never processed. */
  lemma RecoveryUploadIsFlagged(c: Content)
    ensures var run := [BatchStep(0, c), StatusStep(0, Failed), LookUpStep(1, c), InsertStep(1), CheckStep(1)];
            && Legal(EMPTY, run)
            && Run(EMPTY, run).rows == [Row(0, c, Failed, true, false), Row(1, c, DuplicateDetected, false, false)]
  {
    var a, b := NewRow(0, c), NewRow(1, c);
    var failed := a.(status := Failed);
    var old_ := failed.(replaced := true);
    var m: map<Id, Content> := map[][1 := c];
    var run := [BatchStep(0, c), StatusStep(0, Failed), LookUpStep(1, c), InsertStep(1), CheckStep(1)];
    assert FirstCopy([failed], c, None) == 0;
    assert FirstCopy([old_, b], c, Some(1)) == 0;
    InsertSecond(old_, 1, m);
    Unfold(EMPTY, run, State([a], map[]), run[1..]);
    Unfold(State([a], map[]), run[1..], State([failed], map[]), run[2..]);
    Unfold(State([failed], map[]), run[2..], State([old_], m), run[3..]);
    Unfold(State([old_], m), run[3..], State([old_, b], m - {1}), run[4..]);
    Unfold(State([old_, b], m - {1}), run[4..], State([old_, b.(status := DuplicateDetected)], m - {1}), run[5..]);
  }

  lemma Unfold(s: State, run: seq<Event>, s': State, rest: seq<Event>)
    requires run != [] && rest == run[1..] && Enabled(s, run[0]) && s' == Step(s, run[0])
    ensures Legal(s, run) <==> Legal(s', rest)
    ensures Legal(s', rest) ==> Run(s, run) == Run(s', rest)
  {
  }

  lemma {:induction false} RunLast(s: State, run: seq<Event>)
    requires run != []
    ensures Legal(s, run) <==> Legal(s, run[..|run| - 1]) && Enabled(Run(s, run[..|run| - 1]), run[|run| - 1])
    ensures Legal(s, run) ==> Run(s, run) == Step(Run(s, run[..|run| - 1]), run[|run| - 1])
    decreases |run|
  {
    var n := |run| - 1;
    if n > 0 && Enabled(s, run[0]) {
      var rest := run[1..];
      RunLast(Step(s, run[0]), rest);
      assert rest[..n - 1] == run[..n][1..] && rest[n - 1] == run[n];
    }
  }

  predicate Alone(s: State, i: nat) {
    i < |s.rows| && forall j :: 0 <= j < |s.rows| && j != i ==> s.rows[j].content != s.rows[i].content
  }

  /** The run checks row `i` at position `k`, at a moment when no other row has its content. */
  predicate CheckedAlone(run: seq<Event>, k: nat, i: nat) {
    k < |run| && run[k] == CheckStep(i) && Legal(EMPTY, run[..k]) && Alone(Run(EMPTY, run[..k]), i)
  }

  lemma StepProcesses(s: State, ev: Event, i: nat)
    requires Inv(s) && Enabled(s, ev) && i < |s.rows|
    ensures i < |Step(s, ev).rows|
    ensures Step(s, ev).rows[i].ocr <==> s.rows[i].ocr || (ev == CheckStep(i) && Alone(s, i))
  {
  }

  lemma {:induction false} CheckedAloneLast(run: seq<Event>, i: nat)
    requires run != [] && Legal(EMPTY, run)
    ensures var n := |run| - 1;
            (exists k: nat :: CheckedAlone(run, k, i)) <==>
            (exists k: nat :: CheckedAlone(run[..n], k, i)) || CheckedAlone(run, n, i)
  {
    var n := |run| - 1;
    if k: nat :| CheckedAlone(run, k, i) {
      if k < n { CheckedAlonePrefix(run, n, k, i); }
    }
    if k: nat :| CheckedAlone(run[..n], k, i) { CheckedAlonePrefix(run, n, k, i); }
  }

  lemma {:induction false} CheckedAlonePrefix(run: seq<Event>, n: nat, k: nat, i: nat)
    requires k < n <= |run|
    ensures CheckedAlone(run[..n], k, i) <==> CheckedAlone(run, k, i)
  {
    assert run[..n][..k] == run[..k];
  }

  /** A copy is processed in a run exactly when it was checked at some moment while it was the only copy. */
  lemma {:induction false} ProcessedIffCheckedAlone(run: seq<Event>, i: nat)
    requires Legal(EMPTY, run) && i < |Run(EMPTY, run).rows|
    ensures Run(EMPTY, run).rows[i].ocr <==> exists k: nat :: CheckedAlone(run, k, i)
    decreases |run|
  {
    if run != [] {
      RunLast(EMPTY, run);
      CheckedAloneLast(run, i);
      var n := |run| - 1;
      var pre := run[..n];
      var s := Run(EMPTY, pre);
      RunKeepsInv(EMPTY, pre);
      if i < |s.rows| {
        ProcessedIffCheckedAlone(pre, i);
        StepProcesses(s, run[n], i);
      } else {
        NeverCheckedBefore(pre, i);
      }
    }
  }

  lemma {:induction false} NeverCheckedBefore(run: seq<Event>, i: nat)
    requires Legal(EMPTY, run) && i >= |Run(EMPTY, run).rows|
    ensures !exists k: nat :: CheckedAlone(run, k, i)
    decreases |run|
  {
    if k: nat :| CheckedAlone(run, k, i) {
      RunKeepsLater(EMPTY, run, k);
    }
  }

  lemma KeptTwice(s: State, s1: State, s2: State)
    requires Kept(s, s1) && Kept(s1, s2)
    ensures Kept(s, s2)
  {
  }

  lemma {:induction false} RunKeepsLater(s: State, run: seq<Event>, k: nat)
    requires Inv(s) && Legal(s, run) && k <= |run|
    ensures Legal(s, run[..k]) && Kept(Run(s, run[..k]), Run(s, run))
    ensures k < |run| ==>
              Enabled(Run(s, run[..k]), run[k]) && Kept(Step(Run(s, run[..k]), run[k]), Run(s, run))
    decreases |run| - k
  {
    if k == |run| {
      assert run[..k] == run;
      RunKeepsInv(s, run);
    } else {
      RunKeepsLater(s, run, k + 1);
      RunLast(s, run[..k + 1]);
      assert run[..k + 1][..k] == run[..k];
      RunKeepsInv(s, run[..k]);
      StepKeepsInv(Run(s, run[..k]), run[k]);
      KeptTwice(Run(s, run[..k]), Run(s, run[..k + 1]), Run(s, run));
    }
  }

  // ---- The router's and the pipeline's steps as an object --------------------------------------

  datatype File = File(size: nat, extensionAllowed: bool, typeAllowed: bool, normalisedTypeAllowed: bool,
                       content: Content)

  datatype UploadError = EmptyFile | Unsupported | TooLarge | Duplicate(existing: Id) | NoFiles | TooManyFiles

  const MAX_BATCH := 20

  predicate BatchAccepts(f: File, maxSize: nat) {
    f.size > 0 && (f.extensionAllowed || f.typeAllowed) && f.size <= maxSize
  }

  /** Rows a batch inserts: one per acceptable file, in order, numbered from `next`. */
  function BatchRows(files: seq<File>, maxSize: nat, next: Id): seq<Row> {
    if files == [] then []
    else
      var pre, f := BatchRows(files[..|files| - 1], maxSize, next), files[|files| - 1];
      if BatchAccepts(f, maxSize) then pre + [NewRow(next + |pre|, f.content)] else pre
  }

  lemma {:induction false} BatchRowsBound(files: seq<File>, maxSize: nat, next: Id)
    ensures |BatchRows(files, maxSize, next)| <= |files|
    ensures forall i :: 0 <= i < |BatchRows(files, maxSize, next)| ==> BatchRows(files, maxSize, next)[i].id == next + i
    decreases |files|
  {
    if files != [] { BatchRowsBound(files[..|files| - 1], maxSize, next); }
  }

  /** A batch gives each file that is not empty, of an accepted kind and not too large its own row, in order. */
  lemma BatchRowsAre(files: seq<File>, f: File, maxSize: nat, next: Id)
    ensures BatchRows([], maxSize, next) == []
    ensures var before, after := BatchRows(files, maxSize, next), BatchRows(files + [f], maxSize, next);
            after == before + if 0 < f.size <= maxSize && (f.extensionAllowed || f.typeAllowed)
                              then [Row(next + |before|, f.content, Uploaded, false, false)] else []
  {
    assert (files + [f])[..|files|] == files;
  }

  class DocumentStore {
    var rows: seq<Row>
    var cleared: map<Id, Content>

    function View(): State
      reads this
    {
      State(rows, cleared)
    }

    method FindCopy(c: Content, except: Option<Id>) returns (i: nat)
      ensures i == FirstCopy(rows, c, except)
    {
      i := 0;
      while i < |rows|
        invariant i <= |rows|
        invariant forall k :: 0 <= k < i ==> !(rows[k].content == c && Some(rows[k].id) != except)
      {
        if rows[i].content == c && Some(rows[i].id) != except { return; }
        i := i + 1;
      }
    }

    /** First half of an upload: validation and the router's own look-up. */
    method PrepareUpload(id: Id, f: File, maxSize: nat) returns (error: Option<UploadError>)
      modifies this
      ensures f.size == 0 ==> error == Some(EmptyFile)
      ensures f.size > 0 && !f.extensionAllowed && !f.normalisedTypeAllowed ==> error == Some(Unsupported)
      ensures f.size > 0 && (f.extensionAllowed || f.normalisedTypeAllowed) && f.size > maxSize ==>
                error == Some(TooLarge)
      ensures f.size > 0 && (f.extensionAllowed || f.normalisedTypeAllowed) && f.size <= maxSize ==>
                && View() == LookUp(old(View()), id, f.content).0
                && match LookUp(old(View()), id, f.content).1
                   case Cleared => error == None
                   case DuplicateFile(existing) => error == Some(Duplicate(existing))
      ensures error.Some? ==> View() == old(View())
    {
      if f.size == 0 { return Some(EmptyFile); }
      if !f.extensionAllowed && !f.normalisedTypeAllowed { return Some(Unsupported); }
      if f.size > maxSize { return Some(TooLarge); }
      var i := FindCopy(f.content, None);
      if i < |rows| {
        if !Recoverable(rows[i].status) { return Some(Duplicate(rows[i].id)); }
        rows := rows[i := rows[i].(replaced := true)];
      }
      cleared := cleared[id := f.content];
      return None;
    }

    /** Second half: insert the row. */
    method InsertUpload(id: Id)
      requires id in cleared
      modifies this
      ensures rows == old(rows) + [NewRow(id, old(cleared)[id])] && cleared == old(cleared) - {id}
    {
      rows := rows + [NewRow(id, cleared[id])];
      cleared := cleared - {id};
    }

    /** Batch upload: no look-up; unacceptable files are skipped. */
    method UploadBatch(files: seq<File>, maxSize: nat, next: Id)
      returns (error: Option<UploadError>, total: nat, skipped: nat)
      modifies this
      ensures |files| == 0 ==> error == Some(NoFiles)
      ensures |files| > 20 ==> error == Some(TooManyFiles)
      ensures error.Some? <==> |files| == 0 || |files| > 20
      ensures error.Some? ==> View() == old(View()) && total == 0 && skipped == 0
      ensures error.None? ==> total + skipped == |files| && total == |BatchRows(files, maxSize, next)|
      ensures error.None? ==> View() == old(View()).(rows := old(rows) + BatchRows(files, maxSize, next))
    {
      total, skipped := 0, 0;
      if |files| == 0 { return Some(NoFiles), 0, 0; }
      if |files| > MAX_BATCH { return Some(TooManyFiles), 0, 0; }
      for i := 0 to |files|
        invariant cleared == old(cleared)
        invariant rows == old(rows) + BatchRows(files[..i], maxSize, next)
        invariant total == |BatchRows(files[..i], maxSize, next)|
      {
        var f := files[i];
        assert files[..i + 1][..i] == files[..i];
        if f.size == 0 { continue; }
        if !f.extensionAllowed && !f.typeAllowed { continue; }
        if f.size > maxSize { continue; }
        rows := rows + [NewRow(next + total, f.content)];
        total := total + 1;
      }
      assert files[..|files|] == files;
      BatchRowsBound(files, maxSize, next);
      skipped := |files| - total;
      return None, total, skipped;
    }

    /** The pipeline's check at the start of processing. */
    method CheckHashDuplicate(index: nat) returns (passes: bool)
      requires index < |rows|
      modifies this
      ensures (View(), passes) == Check(old(View()), index)
    {
      var row := rows[index];
      var i := FindCopy(row.content, Some(row.id));
      if i < |rows| {
        rows := rows[index := row.(status := DuplicateDetected)];
        return false;
      }
      rows := rows[index := row.(status := Stored, ocr := true)];
      return true;
    }
  }
}
