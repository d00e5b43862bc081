/**
 The migration of plaintext columns to encrypted ones (scripts/backfill_encrypt_sensitive_fields.py),
 the read paths that use either column, and the readiness report. Each sensitive value is a pair of
 columns; the two version columns of a row, always set together, are one mark.
 */
module Backfill {
  import opened Wrappers
  import opened Crypto
  import opened FieldEncryption

  datatype Field = Field(plain: Option<string>, enc: Option<string>)

  datatype Page = Page(text: Field, stamped: bool)
  datatype Item = Item(session: string, review: string, description: Field, notes: Field, reason: Field, stamped: bool)
  datatype Record = Record(session: string, input: Field, output: Field, stamped: bool)

  datatype Tables = Tables(pages: seq<Page>, items: seq<Item>, records: seq<Record>)

  datatype Counts = Counts(pages: nat, descriptions: nat, notes: nat, reasons: nat, inputs: nat, outputs: nat)

  datatype Column = PageText | Description | Notes | Reason | Input | Output

  // The key in use, and the nonce drawn for each value that gets encrypted.
  datatype Sealer = Sealer(aead: Aead, key: Key, nonce: (Column, nat) -> nat)

  /** Neither null nor empty. */
  predicate Truthy(v: Option<string>) { v.Some? && v.value != "" }

  predicate Needs(f: Field) { Truthy(f.plain) && !Truthy(f.enc) }

  function Fill(s: Sealer, f: Field, c: Column, i: nat): Field {
    if Needs(f) then f.(enc := EncryptText(s.aead, f.plain, s.key, s.nonce(c, i))) else f
  }

  function FillPage(s: Sealer, p: Page, i: nat): Page {
    Page(Fill(s, p.text, PageText, i), p.stamped || Needs(p.text))
  }

  function FillItem(s: Sealer, x: Item, i: nat): Item {
    Item(x.session, x.review,
         Fill(s, x.description, Description, i), Fill(s, x.notes, Notes, i), Fill(s, x.reason, Reason, i),
         x.stamped || Needs(x.description) || Needs(x.notes) || Needs(x.reason))
  }

  function FillRecord(s: Sealer, r: Record, i: nat): Record {
    Record(r.session, Fill(s, r.input, Input, i), Fill(s, r.output, Output, i),
           r.stamped || Needs(r.input) || Needs(r.output))
  }

  function FillTables(s: Sealer, t: Tables): Tables {
    Tables(seq(|t.pages|, i requires 0 <= i < |t.pages| => FillPage(s, t.pages[i], i)),
           seq(|t.items|, i requires 0 <= i < |t.items| => FillItem(s, t.items[i], i)),
           seq(|t.records|, i requires 0 <= i < |t.records| => FillRecord(s, t.records[i], i)))
  }

  /** Rows whose column would be filled. */
  function CountNeeds(fields: seq<Field>): nat {
    if fields == [] then 0
    else CountNeeds(fields[..|fields| - 1]) + (if Needs(fields[|fields| - 1]) then 1 else 0)
  }

  function TextOf(pages: seq<Page>): seq<Field> { seq(|pages|, i requires 0 <= i < |pages| => pages[i].text) }
  function DescriptionOf(xs: seq<Item>): seq<Field> { seq(|xs|, i requires 0 <= i < |xs| => xs[i].description) }
  function NotesOf(xs: seq<Item>): seq<Field> { seq(|xs|, i requires 0 <= i < |xs| => xs[i].notes) }
  function ReasonOf(xs: seq<Item>): seq<Field> { seq(|xs|, i requires 0 <= i < |xs| => xs[i].reason) }
  function InputOf(rs: seq<Record>): seq<Field> { seq(|rs|, i requires 0 <= i < |rs| => rs[i].input) }
  function OutputOf(rs: seq<Record>): seq<Field> { seq(|rs|, i requires 0 <= i < |rs| => rs[i].output) }

  function CountTables(t: Tables): Counts {
    Counts(CountNeeds(TextOf(t.pages)), CountNeeds(DescriptionOf(t.items)), CountNeeds(NotesOf(t.items)),
           CountNeeds(ReasonOf(t.items)), CountNeeds(InputOf(t.records)), CountNeeds(OutputOf(t.records)))
  }

  lemma CountStep(fields: seq<Field>, i: nat)
    requires i < |fields|
    ensures CountNeeds(fields[..i + 1]) == CountNeeds(fields[..i]) + (if Needs(fields[i]) then 1 else 0)
  {
    assert fields[..i + 1][..i] == fields[..i];
  }

  /** The three running counts of the item loop. */
  predicate ItemsCounted(xs: seq<Item>, d: nat, o: nat, r: nat) {
    d == CountNeeds(DescriptionOf(xs)) && o == CountNeeds(NotesOf(xs)) && r == CountNeeds(ReasonOf(xs))
  }

  lemma {:induction false} ItemsCountedStep(xs: seq<Item>, i: nat, d: nat, o: nat, r: nat)
    requires i < |xs| && ItemsCounted(xs[..i], d, o, r)
    ensures ItemsCounted(xs[..i + 1], d + (if Needs(xs[i].description) then 1 else 0),
                         o + (if Needs(xs[i].notes) then 1 else 0), r + (if Needs(xs[i].reason) then 1 else 0))
  {
    var upTo := xs[..i + 1];
    assert DescriptionOf(upTo)[..i] == DescriptionOf(xs[..i]);
    assert NotesOf(upTo)[..i] == NotesOf(xs[..i]);
    assert ReasonOf(upTo)[..i] == ReasonOf(xs[..i]);
  }

  class Database {
    var pages: seq<Page>
    var items: seq<Item>
    var records: seq<Record>

    function View(): Tables
      reads this
    {
      Tables(pages, items, records)
    }

    /** The migration; a dry run only counts. */
    method BackfillSensitiveFields(s: Sealer, dryRun: bool) returns (counts: Counts)
      modifies this
      ensures counts == CountTables(old(View()))
      ensures View() == if dryRun then old(View()) else FillTables(s, old(View()))
    {
      var n := BackfillPages(s, dryRun);
      var d, o, r := BackfillItems(s, dryRun);
      var i, u := BackfillRecords(s, dryRun);
      return Counts(n, d, o, r, i, u);
    }

    method BackfillPages(s: Sealer, dryRun: bool) returns (n: nat)
      modifies this`pages
      ensures n == CountNeeds(TextOf(old(pages)))
      ensures pages == if dryRun then old(pages) else FillTables(s, old(View())).pages
    {
      n := 0;
      ghost var texts := TextOf(pages);
      for i := 0 to |pages|
        invariant |pages| == |old(pages)|
        invariant n == CountNeeds(texts[..i])
        invariant forall k :: 0 <= k < |pages| ==>
          pages[k] == if !dryRun && k < i then FillPage(s, old(pages)[k], k) else old(pages)[k]
      {
        CountStep(texts, i);
        var page := pages[i];
        var text, n1 := FillOne(s, page.text, PageText, i, dryRun);
        n := n + n1;
        pages := pages[i := Page(text, page.stamped || (!dryRun && n1 > 0))];
      }
      assert texts[..|texts|] == texts;
    }

    /** One value: filled if it needs to be, and counted either way. */
    method FillOne(s: Sealer, f: Field, c: Column, i: nat, dryRun: bool) returns (f': Field, n: nat)
      ensures n == if Needs(f) then 1 else 0
      ensures f' == if dryRun then f else Fill(s, f, c, i)
    {
      f', n := f, 0;
      if Truthy(f.plain) && !Truthy(f.enc) {
        n := 1;
        if !dryRun { f' := f.(enc := EncryptText(s.aead, f.plain, s.key, s.nonce(c, i))); }
      }
    }

    method FillOneItem(s: Sealer, x: Item, i: nat, dryRun: bool) returns (x': Item, n1: nat, n2: nat, n3: nat)
      ensures n1 == if Needs(x.description) then 1 else 0
      ensures n2 == if Needs(x.notes) then 1 else 0
      ensures n3 == if Needs(x.reason) then 1 else 0
      ensures x' == if dryRun then x else FillItem(s, x, i)
    {
      var description, notes, reason;
      description, n1 := FillOne(s, x.description, Description, i, dryRun);
      notes, n2 := FillOne(s, x.notes, Notes, i, dryRun);
      reason, n3 := FillOne(s, x.reason, Reason, i, dryRun);
      var stamped := x.stamped || (!dryRun && n1 + n2 + n3 > 0);
      x' := Item(x.session, x.review, description, notes, reason, stamped);
    }

    method BackfillItems(s: Sealer, dryRun: bool) returns (d: nat, o: nat, r: nat)
      modifies this`items
      ensures d == CountNeeds(DescriptionOf(old(items)))
      ensures o == CountNeeds(NotesOf(old(items)))
      ensures r == CountNeeds(ReasonOf(old(items)))
      ensures items == if dryRun then old(items) else FillTables(s, old(View())).items
    {
      d, o, r := 0, 0, 0;
      ghost var was := items;
      for i := 0 to |items|
        invariant |items| == |was|
        invariant ItemsCounted(was[..i], d, o, r)
        invariant forall k :: 0 <= k < |items| ==>
          items[k] == if !dryRun && k < i then FillItem(s, was[k], k) else was[k]
      {
        var item, n1, n2, n3 := FillOneItem(s, items[i], i, dryRun);
        ItemsCountedStep(was, i, d, o, r);
        d, o, r := d + n1, o + n2, r + n3;
        items := items[i := item];
      }
      assert was[..|was|] == was;
    }

    method BackfillRecords(s: Sealer, dryRun: bool) returns (n: nat, o: nat)
      modifies this`records
      ensures n == CountNeeds(InputOf(old(records)))
      ensures o == CountNeeds(OutputOf(old(records)))
      ensures records == if dryRun then old(records) else FillTables(s, old(View())).records
    {
      n, o := 0, 0;
      ghost var ns, os := InputOf(records), OutputOf(records);
      for i := 0 to |records|
        invariant |records| == |old(records)|
        invariant n == CountNeeds(ns[..i]) && o == CountNeeds(os[..i])
        invariant forall k :: 0 <= k < |records| ==>
          records[k] == if !dryRun && k < i then FillRecord(s, old(records)[k], k) else old(records)[k]
      {
        CountStep(ns, i);
        CountStep(os, i);
        var rec := records[i];
        var input, n1 := FillOne(s, rec.input, Input, i, dryRun);
        var output, n2 := FillOne(s, rec.output, Output, i, dryRun);
        n, o := n + n1, o + n2;
        records := records[i := Record(rec.session, input, output, rec.stamped || (!dryRun && n1 + n2 > 0))];
      }
      assert ns[..|ns|] == ns && os[..|os|] == os;
    }
  }

  // ---- Reading --------------------------------------------------------------------------------

  /** Pages and item descriptions: encrypted column first, then a legacy envelope in the plain column. */
  function ReadWithLegacy(a: Aead, f: Field, key: Key): Reading {
    if Truthy(f.enc) then DecryptText(a, f.enc, key)
    else if Truthy(f.plain) && IsEncrypted(f.plain) then DecryptText(a, f.plain, key)
    else Readable(f.plain)
  }

  /** Notes and review reasons: only the encrypted column is ever decrypted. */
  function ReadPlain(a: Aead, f: Field, key: Key): Reading {
    if Truthy(f.enc) then DecryptText(a, f.enc, key) else Readable(f.plain)
  }

  /** The page list decrypts only if some page has something encrypted. */
  predicate AnyPageEncrypted(pages: seq<Page>) {
    exists i :: 0 <= i < |pages| && (Truthy(pages[i].text.enc) || IsEncrypted(pages[i].text.plain))
  }

  function ListPages(a: Aead, pages: seq<Page>, key: Key): seq<Reading> {
    if AnyPageEncrypted(pages)
    then seq(|pages|, i requires 0 <= i < |pages| => ReadWithLegacy(a, pages[i].text, key))
    else seq(|pages|, i requires 0 <= i < |pages| => Readable(pages[i].text.plain))
  }

  /** The item list decrypts only if some item has an encrypted column. */
  predicate AnyEncrypted(items: seq<Item>) {
    exists i :: 0 <= i < |items|
                && (Truthy(items[i].description.enc) || Truthy(items[i].reason.enc) || Truthy(items[i].notes.enc))
  }

  function ListDescriptions(a: Aead, items: seq<Item>, key: Key): seq<Reading> {
    if AnyEncrypted(items)
    then seq(|items|, i requires 0 <= i < |items| => ReadWithLegacy(a, items[i].description, key))
    else seq(|items|, i requires 0 <= i < |items| => Readable(items[i].description.plain))
  }

  /** Reading a filled column is what was read before, envelope-form legacy values included. */
  lemma FillKeepsReading(s: Sealer, f: Field, c: Column, i: nat)
    requires Lawful(s.aead)
    ensures ReadWithLegacy(s.aead, Fill(s, f, c, i), s.key) == ReadWithLegacy(s.aead, f, s.key)
  {
  }

  /** For notes and review reasons the reading is kept exactly when no envelope sits in the plain column alone. */
  lemma FillKeepsPlainReadingIff(s: Sealer, f: Field, c: Column, i: nat)
    requires Lawful(s.aead)
    ensures ReadPlain(s.aead, Fill(s, f, c, i), s.key) == ReadPlain(s.aead, f, s.key) <==>
            !(Needs(f) && IsEncrypted(f.plain))
  {
  }

  /** An envelope that stands alone in the plain column of a note or description. */
  function BareEnvelope(s: Sealer, text: string, nonce: nat): Field {
    Field(Some(PREFIX + s.aead.seal(s.key, nonce, text)), None)
  }

  /** Such a note was shown as the raw envelope before the migration and as its text after it. */
  lemma BareEnvelopeNoteChanges(s: Sealer, text: string, nonce: nat, c: Column, i: nat)
    requires Lawful(s.aead)
    ensures var note := BareEnvelope(s, text, nonce);
            && ReadPlain(s.aead, note, s.key) == Readable(note.plain) != Readable(Some(text))
            && ReadPlain(s.aead, Fill(s, note, c, i), s.key) == Readable(Some(text))
  {
  }

  /** The page list shows the same texts before and after the migration, for every set of rows. */
  lemma PagesReadTheSame(s: Sealer, t: Tables)
    requires Lawful(s.aead)
    ensures ListPages(s.aead, FillTables(s, t).pages, s.key) == ListPages(s.aead, t.pages, s.key)
  {
  }

  lemma PageListIsRowwise(a: Aead, pages: seq<Page>, key: Key)
    ensures |ListPages(a, pages, key)| == |pages|
    ensures forall i :: 0 <= i < |pages| ==> ListPages(a, pages, key)[i] == ReadWithLegacy(a, pages[i].text, key)
  {
  }

  /**
   The item list shows the same descriptions before and after exactly when some item already had
   an encrypted column, or no description sits in envelope form in the plain column. In the other
   case the list showed the raw envelope, because nothing made it decrypt.
   */
  lemma DescriptionsReadTheSameIff(s: Sealer, t: Tables)
    requires Lawful(s.aead)
    ensures ListDescriptions(s.aead, FillTables(s, t).items, s.key) == ListDescriptions(s.aead, t.items, s.key) <==>
            (AnyEncrypted(t.items) || forall i :: 0 <= i < |t.items| ==> !IsEncrypted(t.items[i].description.plain))
  {
    var before, after := t.items, FillTables(s, t).items;
    var b, a := ListDescriptions(s.aead, before, s.key), ListDescriptions(s.aead, after, s.key);
    forall i | 0 <= i < |before|
      ensures AnyEncrypted(before) || !IsEncrypted(before[i].description.plain) ==> a[i] == b[i]
      ensures !AnyEncrypted(before) && IsEncrypted(before[i].description.plain) ==> a[i] != b[i]
    {
      DescriptionRow(s, t, i);
    }
    if AnyEncrypted(before) || forall i :: 0 <= i < |before| ==> !IsEncrypted(before[i].description.plain) {
      assert a == b;
    } else {
      var i :| 0 <= i < |before| && IsEncrypted(before[i].description.plain);
      assert a[i] != b[i];
    }
  }

  /** The same for a list of one item whose description is a bare envelope. */
  lemma BareEnvelopeDescriptionChanges(s: Sealer, session: string, text: string, nonce: nat)
    requires Lawful(s.aead)
    ensures var none := Field(None, None);
            var t := Tables([], [Item(session, "needs_review", BareEnvelope(s, text, nonce), none, none, false)], []);
            && ListDescriptions(s.aead, t.items, s.key)[0] == Readable(BareEnvelope(s, text, nonce).plain)
            && ListDescriptions(s.aead, FillTables(s, t).items, s.key)[0] == Readable(Some(text))
            && Readable(BareEnvelope(s, text, nonce).plain) != Readable(Some(text))
  {
  }

  lemma DescriptionRow(s: Sealer, t: Tables, i: nat)
    requires Lawful(s.aead) && i < |t.items|
    ensures var b := ListDescriptions(s.aead, t.items, s.key);
            var a := ListDescriptions(s.aead, FillTables(s, t).items, s.key);
            && (AnyEncrypted(t.items) || !IsEncrypted(t.items[i].description.plain) ==> a[i] == b[i])
            && (!AnyEncrypted(t.items) && IsEncrypted(t.items[i].description.plain) ==> a[i] != b[i])
  {
  }

  // ---- Running it again -----------------------------------------------------------------------

  lemma {:induction false} NoneNeedsCountsZero(fields: seq<Field>)
    ensures CountNeeds(fields) == 0 <==> forall i :: 0 <= i < |fields| ==> !Needs(fields[i])
    decreases |fields|
  {
    if fields != [] { NoneNeedsCountsZero(fields[..|fields| - 1]); }
  }

  lemma {:induction false} ItemCountsZero(xs: seq<Item>)
    ensures CountNeeds(DescriptionOf(xs)) == 0 <==> forall i :: 0 <= i < |xs| ==> !Needs(xs[i].description)
    ensures CountNeeds(NotesOf(xs)) == 0 <==> forall i :: 0 <= i < |xs| ==> !Needs(xs[i].notes)
    ensures CountNeeds(ReasonOf(xs)) == 0 <==> forall i :: 0 <= i < |xs| ==> !Needs(xs[i].reason)
  {
    NoneNeedsCountsZero(DescriptionOf(xs));
    NoneNeedsCountsZero(NotesOf(xs));
    NoneNeedsCountsZero(ReasonOf(xs));
    forall i | 0 <= i < |xs|
      ensures DescriptionOf(xs)[i] == xs[i].description
      ensures NotesOf(xs)[i] == xs[i].notes && ReasonOf(xs)[i] == xs[i].reason
    {
    }
  }

  lemma {:induction false} RecordCountsZero(rs: seq<Record>)
    ensures CountNeeds(InputOf(rs)) == 0 <==> forall i :: 0 <= i < |rs| ==> !Needs(rs[i].input)
    ensures CountNeeds(OutputOf(rs)) == 0 <==> forall i :: 0 <= i < |rs| ==> !Needs(rs[i].output)
  {
    NoneNeedsCountsZero(InputOf(rs));
    NoneNeedsCountsZero(OutputOf(rs));
    forall i | 0 <= i < |rs| ensures InputOf(rs)[i] == rs[i].input && OutputOf(rs)[i] == rs[i].output {}
  }

  /** Each count is about its own column: it is zero exactly when no row of that table needs that column. */
  lemma {:induction false} CountsAreByColumn(t: Tables)
    ensures var c := CountTables(t);
            && (c.pages == 0 <==> forall i :: 0 <= i < |t.pages| ==> !Needs(t.pages[i].text))
            && (c.descriptions == 0 <==> forall i :: 0 <= i < |t.items| ==> !Needs(t.items[i].description))
            && (c.notes == 0 <==> forall i :: 0 <= i < |t.items| ==> !Needs(t.items[i].notes))
            && (c.reasons == 0 <==> forall i :: 0 <= i < |t.items| ==> !Needs(t.items[i].reason))
            && (c.inputs == 0 <==> forall i :: 0 <= i < |t.records| ==> !Needs(t.records[i].input))
            && (c.outputs == 0 <==> forall i :: 0 <= i < |t.records| ==> !Needs(t.records[i].output))
  {
    NoneNeedsCountsZero(TextOf(t.pages));
    forall i | 0 <= i < |t.pages| ensures TextOf(t.pages)[i] == t.pages[i].text {}
    ItemCountsZero(t.items);
    RecordCountsZero(t.records);
  }

  /**
   The migration fills a column in place from its own plaintext, keeps the plaintext, and stamps a row
   exactly when it was stamped before or one of its columns was filled.
   */
  lemma FilledRows(s: Sealer, t: Tables)
    ensures var u := FillTables(s, t);
            && |u.pages| == |t.pages| && |u.items| == |t.items| && |u.records| == |t.records|
            && (forall i :: 0 <= i < |t.pages| ==>
                  && Filled(s, t.pages[i].text, u.pages[i].text)
                  && (u.pages[i].stamped <==> t.pages[i].stamped || u.pages[i].text != t.pages[i].text))
            && (forall i :: 0 <= i < |t.items| ==>
                  && Filled(s, t.items[i].description, u.items[i].description)
                  && Filled(s, t.items[i].notes, u.items[i].notes)
                  && Filled(s, t.items[i].reason, u.items[i].reason)
                  && u.items[i].session == t.items[i].session && u.items[i].review == t.items[i].review
                  && (u.items[i].stamped <==>
                        || t.items[i].stamped || u.items[i].description != t.items[i].description
                        || u.items[i].notes != t.items[i].notes || u.items[i].reason != t.items[i].reason))
            && (forall i :: 0 <= i < |t.records| ==>
                  && Filled(s, t.records[i].input, u.records[i].input)
                  && Filled(s, t.records[i].output, u.records[i].output)
                  && u.records[i].session == t.records[i].session
                  && (u.records[i].stamped <==>
                        || t.records[i].stamped || u.records[i].input != t.records[i].input
                        || u.records[i].output != t.records[i].output))
  {
    forall f: Field, c: Column, i: nat ensures Filled(s, f, Fill(s, f, c, i)) && (Fill(s, f, c, i) != f <==> Needs(f)) {
      if Needs(f) { EncryptIsIdempotent(s.aead, f.plain, s.key, s.nonce(c, i), s.key, 0); }
    }
  }

  /** A column after the migration: unchanged, or its plaintext sealed under the key beside it. */
  ghost predicate Filled(s: Sealer, before: Field, after: Field) {
    && after.plain == before.plain
    && (if Needs(before)
        then exists nonce :: after.enc == EncryptText(s.aead, before.plain, s.key, nonce)
        else after.enc == before.enc)
  }

  predicate NothingNeeded(t: Tables) {
    && (forall i :: 0 <= i < |t.pages| ==> !Needs(t.pages[i].text))
    && (forall i :: 0 <= i < |t.items| ==>
          !Needs(t.items[i].description) && !Needs(t.items[i].notes) && !Needs(t.items[i].reason))
    && (forall i :: 0 <= i < |t.records| ==> !Needs(t.records[i].input) && !Needs(t.records[i].output))
  }

  lemma FillLeavesNothing(s: Sealer, t: Tables)
    ensures NothingNeeded(FillTables(s, t))
  {
  }

  /** A second run, under any key and nonces, changes nothing and counts nothing. */
  lemma SecondRunIsIdle(s: Sealer, s': Sealer, t: Tables)
    ensures FillTables(s', FillTables(s, t)) == FillTables(s, t)
    ensures CountTables(FillTables(s, t)) == Counts(0, 0, 0, 0, 0, 0)
  {
    var u := FillTables(s, t);
    FillLeavesNothing(s, t);
    assert FillTables(s', u).pages == u.pages;
    assert FillTables(s', u).items == u.items;
    assert FillTables(s', u).records == u.records;
    NoneNeedsCountsZero(TextOf(u.pages));
    NoneNeedsCountsZero(DescriptionOf(u.items));
    NoneNeedsCountsZero(NotesOf(u.items));
    NoneNeedsCountsZero(ReasonOf(u.items));
    NoneNeedsCountsZero(InputOf(u.records));
    NoneNeedsCountsZero(OutputOf(u.records));
  }

  // ---- Readiness ------------------------------------------------------------------------------

  datatype Stats = Stats(total: nat, plaintextOnly: nat, encryptedOnly: nat, mixed: nat, empty: nat)

  /** How many rows of a column hold, or lack, a plain and an encrypted value in this combination. */
  function CountKind(fields: seq<Field>, plain: bool, enc: bool): nat {
    if fields == [] then 0
    else
      var last := fields[|fields| - 1];
      CountKind(fields[..|fields| - 1], plain, enc)
      + (if Truthy(last.plain) == plain && Truthy(last.enc) == enc then 1 else 0)
  }

  lemma {:induction false} KindStep(fields: seq<Field>, i: nat, plain: bool, enc: bool)
    requires i < |fields|
    ensures CountKind(fields[..i + 1], plain, enc)
              == CountKind(fields[..i], plain, enc)
                 + (if Truthy(fields[i].plain) == plain && Truthy(fields[i].enc) == enc then 1 else 0)
  {
    assert fields[..i + 1][..i] == fields[..i];
  }

  /** Tally one column; every row falls into exactly one class. */
  method FieldPlaintextStats(fields: seq<Field>) returns (stats: Stats)
    ensures stats.total == |fields| == stats.plaintextOnly + stats.encryptedOnly + stats.mixed + stats.empty
    ensures stats.plaintextOnly == CountNeeds(fields)
    ensures stats.encryptedOnly == CountKind(fields, false, true) && stats.mixed == CountKind(fields, true, true)
    ensures stats.empty == CountKind(fields, false, false)
  {
    var p, e, m, z := 0, 0, 0, 0;
    for i := 0 to |fields|
      invariant p + e + m + z == i && p == CountNeeds(fields[..i])
      invariant e == CountKind(fields[..i], false, true) && m == CountKind(fields[..i], true, true)
      invariant z == CountKind(fields[..i], false, false)
    {
      CountStep(fields, i);
      KindStep(fields, i, false, true);
      KindStep(fields, i, true, true);
      KindStep(fields, i, false, false);
      var hasPlain, hasEnc := Truthy(fields[i].plain), Truthy(fields[i].enc);
      if hasPlain && hasEnc {
        m := m + 1;
      } else if hasPlain && !hasEnc {
        p := p + 1;
      } else if hasEnc && !hasPlain {
        e := e + 1;
      } else {
        z := z + 1;
      }
    }
    assert fields[..|fields|] == fields;
    return Stats(|fields|, p, e, m, z);
  }

  function ItemsOf(xs: seq<Item>, session: string): seq<Item> {
    if xs == [] then [] else (if xs[0].session == session then [xs[0]] else []) + ItemsOf(xs[1..], session)
  }

  function RecordsOf(rs: seq<Record>, session: string): seq<Record> {
    if rs == [] then [] else (if rs[0].session == session then [rs[0]] else []) + RecordsOf(rs[1..], session)
  }

  lemma {:induction false} ItemsOfMembers(xs: seq<Item>, session: string, x: Item)
    ensures x in ItemsOf(xs, session) <==> x in xs && x.session == session
    decreases |xs|
  {
    if xs != [] {
      ItemsOfMembers(xs[1..], session, x);
      assert xs == [xs[0]] + xs[1..];
    }
  }

  lemma {:induction false} RecordsOfMembers(rs: seq<Record>, session: string, r: Record)
    ensures r in RecordsOf(rs, session) <==> r in rs && r.session == session
    decreases |rs|
  {
    if rs != [] {
      RecordsOfMembers(rs[1..], session, r);
      assert rs == [rs[0]] + rs[1..];
    }
  }

  datatype Table = DocumentPages | TaxItems | ClassificationResults

  /** The table holds a value in plaintext only, as far as one workspace session can see. */
  predicate Blocks(t: Tables, session: string, table: Table) {
    match table
    case DocumentPages => exists i :: 0 <= i < |t.pages| && Needs(t.pages[i].text)
    case TaxItems => exists x :: x in t.items && x.session == session && Needs(x.description)
    case ClassificationResults =>
      exists r :: r in t.records && r.session == session && (Needs(r.input) || Needs(r.output))
  }

  /** The tables the security status page reports as blocking, for one workspace session. */
  method BlockingTables(t: Tables, session: string) returns (blocking: seq<Table>)
    ensures forall table :: table in blocking <==> Blocks(t, session, table)
  {
    var xs, rs := ItemsOf(t.items, session), RecordsOf(t.records, session);
    var docs := FieldPlaintextStats(TextOf(t.pages));
    var items := FieldPlaintextStats(DescriptionOf(xs));
    var inputs := FieldPlaintextStats(InputOf(rs));
    var outputs := FieldPlaintextStats(OutputOf(rs));
    blocking := [];
    if docs.plaintextOnly > 0 { blocking := blocking + [DocumentPages]; }
    if items.plaintextOnly > 0 { blocking := blocking + [TaxItems]; }
    if inputs.plaintextOnly + outputs.plaintextOnly > 0 { blocking := blocking + [ClassificationResults]; }
    assert DocumentPages in blocking <==> docs.plaintextOnly > 0;
    assert TaxItems in blocking <==> items.plaintextOnly > 0;
    assert ClassificationResults in blocking <==> inputs.plaintextOnly + outputs.plaintextOnly > 0;
    forall table ensures table in blocking <==> Blocks(t, session, table) {
      match table
      case DocumentPages => SomePageNeeds(t.pages);
      case TaxItems => SomeItemNeeds(t.items, session);
      case ClassificationResults => SomeRecordNeeds(t.records, session);
    }
  }

  lemma SomePageNeeds(pages: seq<Page>)
    ensures CountNeeds(TextOf(pages)) > 0 <==> exists i :: 0 <= i < |pages| && Needs(pages[i].text)
  {
    NoneNeedsCountsZero(TextOf(pages));
    assert forall i :: 0 <= i < |pages| ==> TextOf(pages)[i] == pages[i].text;
  }

  lemma SomeItemNeeds(xs: seq<Item>, session: string)
    ensures CountNeeds(DescriptionOf(ItemsOf(xs, session))) > 0 <==>
            exists x :: x in xs && x.session == session && Needs(x.description)
  {
    var own := ItemsOf(xs, session);
    NoneNeedsCountsZero(DescriptionOf(own));
    forall x ensures x in own <==> x in xs && x.session == session { ItemsOfMembers(xs, session, x); }
    assert forall i :: 0 <= i < |own| ==> own[i] in own && DescriptionOf(own)[i] == own[i].description;
  }

  lemma SomeRecordNeeds(rs: seq<Record>, session: string)
    ensures CountNeeds(InputOf(RecordsOf(rs, session))) + CountNeeds(OutputOf(RecordsOf(rs, session))) > 0 <==>
            exists r :: r in rs && r.session == session && (Needs(r.input) || Needs(r.output))
  {
    var own := RecordsOf(rs, session);
    InputNeeds(own);
    OutputNeeds(own);
    forall r ensures r in own <==> r in rs && r.session == session { RecordsOfMembers(rs, session, r); }
  }

  lemma InputNeeds(rs: seq<Record>)
    ensures CountNeeds(InputOf(rs)) > 0 <==> exists r :: r in rs && Needs(r.input)
  {
    NoneNeedsCountsZero(InputOf(rs));
    assert forall i :: 0 <= i < |rs| ==> rs[i] in rs && InputOf(rs)[i] == rs[i].input;
  }

  lemma OutputNeeds(rs: seq<Record>)
    ensures CountNeeds(OutputOf(rs)) > 0 <==> exists r :: r in rs && Needs(r.output)
  {
    NoneNeedsCountsZero(OutputOf(rs));
    assert forall i :: 0 <= i < |rs| ==> rs[i] in rs && OutputOf(rs)[i] == rs[i].output;
  }

  /** After the migration no table blocks, for any session: the plaintext fallback can be disabled. */
  lemma NothingBlocksAfterBackfill(s: Sealer, t: Tables, session: string, table: Table)
    ensures !Blocks(FillTables(s, t), session, table)
  {
  }

  /** A value still in plaintext that the report for this session does not look at. */
  predicate Overlooked(t: Tables, session: string) {
    || (exists x :: x in t.items && (Needs(x.notes) || Needs(x.reason)))
    || (exists x :: x in t.items && x.session != session && Needs(x.description))
    || (exists r :: r in t.records && r.session != session && (Needs(r.input) || Needs(r.output)))
  }

  /**
   When the report names no blocking table, plaintext can really be given up if and only if no note or
   review reason needs the migration, nor any description or record of another session.
   */
  lemma ReadinessIsTrueIff(t: Tables, session: string)
    requires forall table :: !Blocks(t, session, table)
    ensures NothingNeeded(t) <==> !Overlooked(t, session)
  {
    assert !Blocks(t, session, DocumentPages);
    assert !Blocks(t, session, TaxItems);
    assert !Blocks(t, session, ClassificationResults);
    assert forall i :: 0 <= i < |t.items| ==> t.items[i] in t.items;
    assert forall i :: 0 <= i < |t.records| ==> t.records[i] in t.records;
  }

  /** One item whose only content is a note in plaintext: the report calls every table ready. */
  lemma ReadinessOverlooksNotes(session: string, secret: string)
    requires secret != ""
    ensures var none := Field(None, None);
            var t := Tables([], [Item(session, "needs_review", none, Field(Some(secret), None), none, false)], []);
            Overlooked(t, session) && !NothingNeeded(t) && forall table :: !Blocks(t, session, table)
  {
  }
}
