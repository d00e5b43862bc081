/**
 The listing routes decrypt rows in place and then commit, so what a reader is shown is also what
 the plaintext column holds afterwards (app/routers/workspaces.py). A decryption failure raises
 before the commit and changes nothing.
 */
module Listings {
  import opened Wrappers
  import opened Crypto
  import opened FieldEncryption
  import opened Backfill

  datatype PageReply = PagesShown(texts: seq<Option<string>>) | PagesLocked | PagesBroken
  datatype ItemReply = ItemsShown(items: seq<Item>) | BadFilter | ItemsLocked | ItemsBroken

  /** The columns after decrypting in place, unless decryption fails; `legacy` also opens plain-column envelopes. */
  function Opened(a: Aead, f: Field, key: Key, legacy: bool): Option<Field> {
    var source := if Truthy(f.enc) then f.enc else if legacy && IsEncrypted(f.plain) then f.plain else None;
    if source.None? then Some(f)
    else
      match DecryptText(a, source, key)
      case Unreadable => None
      case Readable(x) => Some(f.(plain := x))
  }

  function OpenedItem(a: Aead, x: Item, key: Key): Option<Item> {
    match (Opened(a, x.description, key, true), Opened(a, x.notes, key, false), Opened(a, x.reason, key, false))
    case (Some(d), Some(n), Some(r)) => Some(x.(description := d, notes := n, reason := r))
    case _ => None
  }

  function PlainTexts(pages: seq<Page>): seq<Option<string>> {
    seq(|pages|, i requires 0 <= i < |pages| => pages[i].text.plain)
  }

  /** The pages of one document. */
  method ListWorkspacePages(db: Database, a: Aead, key: Option<Key>) returns (reply: PageReply)
    modifies db`pages
    ensures reply.PagesLocked? <==> AnyPageEncrypted(old(db.pages)) && key.None?
    ensures !AnyPageEncrypted(old(db.pages)) ==> reply.PagesShown? && db.pages == old(db.pages)
    ensures AnyPageEncrypted(old(db.pages)) && key.Some? ==>
              (reply.PagesShown? <==>
                forall i :: 0 <= i < |old(db.pages)| ==> Opened(a, old(db.pages)[i].text, key.value, true).Some?)
    ensures AnyPageEncrypted(old(db.pages)) && reply.PagesShown? ==>
              && |db.pages| == |old(db.pages)|
              && forall i :: 0 <= i < |db.pages| ==>
                   && Opened(a, old(db.pages)[i].text, key.value, true) == Some(db.pages[i].text)
                   && db.pages[i].stamped == old(db.pages)[i].stamped
    ensures reply.PagesShown? ==> reply.texts == PlainTexts(db.pages)
    ensures reply.PagesShown? && key.Some? ==>
              (db.pages == old(db.pages) <==>
                forall i :: 0 <= i < |old(db.pages)| ==>
                  ReadWithLegacy(a, old(db.pages)[i].text, key.value) == Readable(old(db.pages)[i].text.plain))
    ensures !reply.PagesShown? ==> db.pages == old(db.pages)
  {
    if AnyPageEncrypted(db.pages) {
      if key.None? { return PagesLocked; }
      var pages := db.pages;
      for i := 0 to |pages|
        invariant |pages| == |db.pages|
        invariant forall k :: 0 <= k < i ==> Opened(a, db.pages[k].text, key.value, true) == Some(pages[k].text)
                                             && pages[k].stamped == db.pages[k].stamped
        invariant forall k :: i <= k < |pages| ==> pages[k] == db.pages[k]
      {
        var field := Opened(a, pages[i].text, key.value, true);
        if field.None? {
          assert Opened(a, db.pages[i].text, key.value, true).None?;
          return PagesBroken;
        }
        pages := pages[i := pages[i].(text := field.value)];
      }
      assert pages == OpenedPages(a, db.pages, key.value);
      ListingLeavesPagesIff(a, db.pages, key.value);
      db.pages := pages;
    }
    return PagesShown(PlainTexts(db.pages));
  }

  const REVIEW_STATUSES := {"draft", "needs_review", "confirmed", "excluded", "tax_agent_review"}

  /** The rows a listing selects: those of the session, and of the given review status if there is one. */
  predicate Selects(session: string, filter: Option<string>, x: Item) {
    x.session == session && (Truthy(filter) ==> x.review == filter.value)
  }

  function SelectedOf(xs: seq<Item>, session: string, filter: Option<string>): seq<Item> {
    if xs == [] then []
    else (if Selects(session, filter, xs[0]) then [xs[0]] else []) + SelectedOf(xs[1..], session, filter)
  }

  /** A listing selects exactly the rows of its session and, if one is given, of its review status. */
  lemma {:induction false} SelectedIff(xs: seq<Item>, session: string, filter: Option<string>, x: Item)
    ensures x in SelectedOf(xs, session, filter) <==>
            x in xs && x.session == session && (filter.None? || filter.value in {"", x.review})
    decreases |xs|
  {
    if xs != [] {
      SelectedIff(xs[1..], session, filter, x);
      assert xs == [xs[0]] + xs[1..];
    }
  }

  /** The item reads the same through the decrypt path as its plain columns do. */
  predicate ReadsInPlain(a: Aead, x: Item, key: Key) {
    && ReadWithLegacy(a, x.description, key) == Readable(x.description.plain)
    && ReadPlain(a, x.notes, key) == Readable(x.notes.plain)
    && ReadPlain(a, x.reason, key) == Readable(x.reason.plain)
  }

  /** What a listing under a key does to the row at one position. */
  predicate ListedRow(a: Aead, session: string, filter: Option<string>, key: Key, before: Item, after: Item) {
    if Selects(session, filter, before) then OpenedItem(a, before, key) == Some(after) else after == before
  }

  /** Items of one workspace session, optionally of one review status; all other rows are left alone. */
  method ListWorkspaceItems(db: Database, session: string, filter: Option<string>, a: Aead, key: Option<Key>)
    returns (reply: ItemReply)
    modifies db`items
    ensures reply.BadFilter? <==>
              && filter.Some?
              && filter.value !in {"", "draft", "needs_review", "confirmed", "excluded", "tax_agent_review"}
    ensures var open := AnyEncrypted(SelectedOf(old(db.items), session, filter));
            && (reply.ItemsLocked? <==> !reply.BadFilter? && open && key.None?)
            && (!open ==> db.items == old(db.items) && !reply.ItemsBroken?)
            && (open && reply.ItemsShown? ==>
                  && key.Some? && |db.items| == |old(db.items)|
                  && forall i :: 0 <= i < |db.items| ==>
                       ListedRow(a, session, filter, key.value, old(db.items)[i], db.items[i]))
            && (open && reply.ItemsShown? ==>
                  (db.items == old(db.items) <==>
                    forall i :: 0 <= i < |old(db.items)| && Selects(session, filter, old(db.items)[i]) ==>
                                ReadsInPlain(a, old(db.items)[i], key.value)))
    ensures reply.ItemsShown? ==> reply.items == SelectedOf(db.items, session, filter)
    ensures reply.ItemsBroken? ==>
              && key.Some?
              && exists i :: 0 <= i < |old(db.items)| && Selects(session, filter, old(db.items)[i])
                             && OpenedItem(a, old(db.items)[i], key.value).None?
    ensures !reply.ItemsShown? ==> db.items == old(db.items)
  {
    if Truthy(filter) && filter.value !in REVIEW_STATUSES { return BadFilter; }
    if AnyEncrypted(SelectedOf(db.items, session, filter)) {
      if key.None? { return ItemsLocked; }
      var items := db.items;
      for i := 0 to |items|
        invariant |items| == |db.items|
        invariant forall k :: 0 <= k < i ==> ListedRow(a, session, filter, key.value, db.items[k], items[k])
        invariant forall k :: i <= k < |items| ==> items[k] == db.items[k]
      {
        if Selects(session, filter, items[i]) {
          var item := OpenedItem(a, items[i], key.value);
          if item.None? {
            assert Selects(session, filter, db.items[i]) && OpenedItem(a, db.items[i], key.value).None?;
            return ItemsBroken;
          }
          items := items[i := item.value];
        }
      }
      ListedSameIff(a, session, filter, key.value, db.items, items);
      db.items := items;
    }
    return ItemsShown(SelectedOf(db.items, session, filter));
  }

  /** A listing of items leaves the table alone exactly when every selected row already reads in plain. */
  lemma ListedSameIff(a: Aead, session: string, filter: Option<string>, key: Key, before: seq<Item>, after: seq<Item>)
    requires |after| == |before|
    requires forall i :: 0 <= i < |after| ==> ListedRow(a, session, filter, key, before[i], after[i])
    ensures after == before <==>
            forall i :: 0 <= i < |before| && Selects(session, filter, before[i]) ==> ReadsInPlain(a, before[i], key)
  {
  }

  // ---- What a listing leaves behind -----------------------------------------------------------

  /** What is stored is what the reader was shown. */
  lemma StoredIsShown(a: Aead, f: Field, key: Key)
    ensures Opened(a, f, key, true).Some? <==> ReadWithLegacy(a, f, key).Readable?
    ensures Opened(a, f, key, true).Some? ==> Readable(Opened(a, f, key, true).value.plain) == ReadWithLegacy(a, f, key)
  {
  }

  /** A value readable only through its plain-column envelope, whose content is an envelope once more. */
  predicate Nested(a: Aead, f: Field, key: Key) {
    && !Truthy(f.enc) && IsEncrypted(f.plain)
    && DecryptText(a, f.plain, key).Readable? && IsEncrypted(DecryptText(a, f.plain, key).text)
  }

  lemma OpenedReading(a: Aead, f: Field, key: Key)
    requires Lawful(a) && Opened(a, f, key, true).Some?
    ensures ReadWithLegacy(a, Opened(a, f, key, true).value, key) == ReadWithLegacy(a, f, key) <==> !Nested(a, f, key)
  {
  }

  /** Decrypt in place, row by row. */
  function OpenedPages(a: Aead, pages: seq<Page>, key: Key): seq<Page>
    requires forall i :: 0 <= i < |pages| ==> Opened(a, pages[i].text, key, true).Some?
  {
    seq(|pages|, i requires 0 <= i < |pages| => pages[i].(text := Opened(a, pages[i].text, key, true).value))
  }

  /** Listing the pages again shows the same texts exactly when no legacy envelope held another envelope. */
  lemma ListedAgainIff(a: Aead, pages: seq<Page>, key: Key)
    requires Lawful(a)
    requires forall i :: 0 <= i < |pages| ==> Opened(a, pages[i].text, key, true).Some?
    ensures ListPages(a, OpenedPages(a, pages, key), key) == ListPages(a, pages, key) <==>
            forall i :: 0 <= i < |pages| ==> !Nested(a, pages[i].text, key)
  {
    var after := OpenedPages(a, pages, key);
    PageListIsRowwise(a, pages, key);
    PageListIsRowwise(a, after, key);
    forall i | 0 <= i < |pages|
      ensures ListPages(a, after, key)[i] == ListPages(a, pages, key)[i] <==> !Nested(a, pages[i].text, key)
    {
      OpenedReading(a, pages[i].text, key);
    }
  }

  /** A listing never makes a column need the migration, so it never makes a table block. */
  lemma ListingNeverNeedsMore(a: Aead, f: Field, key: Key, legacy: bool)
    requires Opened(a, f, key, legacy).Some? && Needs(Opened(a, f, key, legacy).value)
    ensures Needs(f)
  {
  }

  /**
   A listing leaves the page rows as they were if and only if every page already reads the same from
   its plain column alone; otherwise it stores decrypted text there.
   */
  lemma ListingLeavesPagesIff(a: Aead, pages: seq<Page>, key: Key)
    requires forall i :: 0 <= i < |pages| ==> Opened(a, pages[i].text, key, true).Some?
    ensures OpenedPages(a, pages, key) == pages <==>
            forall i :: 0 <= i < |pages| ==> ReadWithLegacy(a, pages[i].text, key) == Readable(pages[i].text.plain)
  {
  }

  /** Page rows as the pipeline writes them: the text in the encrypted column alone. */
  function PipelinePages(a: Aead, texts: seq<string>, key: Key, nonce: nat -> nat): seq<Page> {
    seq(|texts|, i requires 0 <= i < |texts| =>
      Page(Field(None, EncryptText(a, Some(texts[i]), key, nonce(i))), texts[i] != ""))
  }

  /**
   Listing pages the pipeline wrote puts every text that is not empty into its plaintext column, so the
   rows stay as written only if there is no text at all; the readiness report still names no table.
   */
  lemma ListingStoresPlaintext(a: Aead, texts: seq<string>, key: Key, nonce: nat -> nat, session: string)
    requires Lawful(a) && forall i :: 0 <= i < |texts| ==> !IsEncrypted(Some(texts[i]))
    ensures var pages := PipelinePages(a, texts, key, nonce);
            && (forall i :: 0 <= i < |texts| ==> Opened(a, pages[i].text, key, true).Some?)
            && var after := OpenedPages(a, pages, key);
               && (forall i :: 0 <= i < |texts| ==>
                     after[i].text.plain == if texts[i] == "" then None else Some(texts[i]))
               && (after == pages <==> forall i :: 0 <= i < |texts| ==> texts[i] == "")
               && !Blocks(Tables(after, [], []), session, DocumentPages)
  {
    var pages := PipelinePages(a, texts, key, nonce);
    forall i | 0 <= i < |texts|
      ensures Opened(a, pages[i].text, key, true)
                == Some(Field(if texts[i] == "" then None else Some(texts[i]), pages[i].text.enc))
    {
      RoundTripIff(a, Some(texts[i]), key, nonce(i));
    }
    assert forall i :: 0 <= i < |texts| && texts[i] != "" ==> pages[i].text.plain == None;
    var after := OpenedPages(a, pages, key);
    if forall i :: 0 <= i < |texts| ==> texts[i] == "" { assert after == pages; }
  }
}
