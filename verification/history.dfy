/** The history page, `public/history.js`: shortening titles, the delete
    confirmation dialog, and the per-interview CSV export. The page reads the
    same stored list that auto-save writes. */
module History {
  import opened Wrappers
  import opened Seqs
  import opened Strings
  import opened Sessions
  import opened Storage
  import opened Csv

  // ---------------------------------------------------------------- titles

  /** A JavaScript string is a sequence of UTF-16 code units; `length` and
      `substring` count and cut code units, not characters. */
  type CodeUnit = x: int | 0 <= x < 0x1_0000

  /** A character outside the Basic Multilingual Plane, which UTF-16
      writes as a surrogate pair. */
  predicate Astral(c: char) {
    c as int >= 0x1_0000
  }

  predicate IsHighSurrogate(u: CodeUnit) {
    0xD800 <= u < 0xDC00
  }

  predicate IsLowSurrogate(u: CodeUnit) {
    0xDC00 <= u < 0xE000
  }

  /** The UTF-16 code units of one character. */
  function Units(c: char): (r: seq<CodeUnit>)
    ensures !Astral(c) ==> r == [c as int]
    ensures Astral(c) ==> |r| == 2 && IsHighSurrogate(r[0]) && IsLowSurrogate(r[1])
    ensures Astral(c) ==> c as int == 0x1_0000 + (r[0] as int - 0xD800) * 0x400 + (r[1] as int - 0xDC00)
  {
    if !Astral(c) then [c as int]
    else
      var v := c as int - 0x1_0000;
      [0xD800 + v / 0x400, 0xDC00 + v % 0x400]
  }

  /** The JavaScript string holding a text: each character's code units in turn. */
  function Utf16(s: string): (r: seq<CodeUnit>)
    ensures |r| >= |s|
    ensures (forall i :: 0 <= i < |s| ==> !Astral(s[i])) ==>
              |r| == |s| && forall i :: 0 <= i < |s| ==> r[i] == s[i] as int
  {
    if |s| == 0 then [] else Units(s[0]) + Utf16(s[1..])
  }

  /** A text of astral characters only takes two code units per character,
      and every even position holds the high half of a pair. */
  lemma {:induction false} AstralUtf16(s: string)
    requires forall i :: 0 <= i < |s| ==> Astral(s[i])
    ensures |Utf16(s)| == 2 * |s|
    ensures forall k :: 0 <= k < |s| ==> IsHighSurrogate(Utf16(s)[2 * k])
  {
    if |s| > 0 {
      AstralUtf16(s[1..]);
      var head := Units(s[0]);
      var tail := Utf16(s[1..]);
      assert Utf16(s) == head + tail;
      forall k | 0 <= k < |s|
        ensures IsHighSurrogate(Utf16(s)[2 * k])
      {
        if k > 0 {
          assert Utf16(s)[2 * k] == tail[2 * (k - 1)];
        }
      }
    }
  }

  /** The ellipsis appended to a cut title. */
  const Dots: seq<CodeUnit> := ['.' as int, '.' as int, '.' as int]

  /** Card titles are cut to this many code units. */
  const TitleLength: nat := 80

  /** `truncateText(text, maxLength)`: the text itself when it fits, else its
      first `maxLength` code units followed by an ellipsis of three dots. */
  function TruncateText(text: seq<CodeUnit>, maxLength: nat): (r: seq<CodeUnit>)
    ensures |text| <= maxLength ==> r == text
    ensures |text| > maxLength ==> |r| == maxLength + 3 && r[..maxLength] == text[..maxLength]
                                   && r[maxLength..] == Dots
  {
    if |text| > maxLength then text[..maxLength] + Dots else text
  }

  /** Shortening a shortened title changes nothing more: the cut keeps the
      same prefix and the same ellipsis. */
  lemma TruncateTextIdempotent(text: seq<CodeUnit>, maxLength: nat)
    ensures TruncateText(TruncateText(text, maxLength), maxLength) == TruncateText(text, maxLength)
  {
    var once := TruncateText(text, maxLength);
    if |text| > maxLength {
      assert once[..maxLength] + Dots == once;
    }
  }

  /** A shortened title starts with the start of the original and is never
      more than three code units longer than the limit. */
  lemma TruncateTextBounds(text: seq<CodeUnit>, maxLength: nat)
    ensures var r := TruncateText(text, maxLength);
            |r| <= maxLength + 3 && |r| <= |text| + 3
            && var n := if |text| < maxLength then |text| else maxLength;
               r[..n] == text[..n]
  {
  }

  /** The title of an interview card: the question cut to 80 code units. */
  function CardTitle(question: string): (r: seq<CodeUnit>)
    ensures |Utf16(question)| <= TitleLength ==> r == Utf16(question)
    ensures (forall i :: 0 <= i < |question| ==> !Astral(question[i])) && |question| > TitleLength ==>
              |r| == TitleLength + 3 && r[TitleLength..] == Dots
  {
    TruncateText(Utf16(question), TitleLength)
  }

  /** The smiling face, a character outside the Basic Multilingual Plane. */
  const Smile: char := '\U{1F600}'

  /** A question of 41 such characters is cut although it has fewer than 80
      characters: it has 82 code units. */
  lemma EmojiTitleIsCut()
    ensures var q := seq(41, _ => Smile);
            |q| <= TitleLength && CardTitle(q) != Utf16(q)
  {
    var q := seq(41, _ => Smile);
    AstralUtf16(q);
  }

  /** One letter and forty such characters make 81 code units: the cut falls
      inside the last character and leaves the high half of its pair alone
      in front of the dots. */
  lemma CutSplitsSurrogatePair()
    ensures var t := CardTitle("a" + seq(40, _ => Smile));
            |t| == TitleLength + 3 && IsHighSurrogate(t[TitleLength - 1]) && t[TitleLength..] == Dots
  {
    var smiles := seq(40, _ => Smile);
    var q := "a" + smiles;
    AstralUtf16(smiles);
    assert q[1..] == smiles;
    assert Utf16(q) == ['a' as int] + Utf16(smiles);
    assert Utf16(q)[TitleLength - 1] == Utf16(smiles)[2 * 39];
  }

  // ---------------------------------------------------------------- delete dialog

  /** The delete modal: whether it is shown, and `currentDeleteId`. */
  datatype DeleteDialog = DeleteDialog(visible: bool, pendingId: Option<string>)

  /** A JavaScript-truthy pending id: present and not empty. */
  predicate HasPendingId(d: DeleteDialog) {
    d.pendingId.Some? && d.pendingId.value != ""
  }

  /** `showDeleteConfirmation(id)`: the modal opens for `id`. */
  function ShowDeleteConfirmation(d: DeleteDialog, id: string): (r: DeleteDialog)
    ensures r.visible && r.pendingId == Some(id)
  {
    DeleteDialog(true, Some(id))
  }

  /** `hideDeleteModal()`: the modal closes and forgets the id, whatever its
      state was. */
  function HideDeleteModal(d: DeleteDialog): (r: DeleteDialog)
    ensures !r.visible && !HasPendingId(r) && r.pendingId.None?
  {
    DeleteDialog(false, None)
  }

  datatype Deleted = Deleted(dialog: DeleteDialog, store: seq<Record>)

  /** `confirmDelete()`: without a pending id nothing happens; otherwise
      exactly the records carrying that id are removed, the others keep their
      order, and the modal closes. */
  function ConfirmDelete(d: DeleteDialog, store: seq<Record>): (r: Deleted)
    ensures !HasPendingId(d) ==> r == Deleted(d, store)
    ensures HasPendingId(d) ==> r.dialog == HideDeleteModal(d)
    ensures HasPendingId(d) ==>
              && (forall j :: 0 <= j < |r.store| ==> r.store[j].id != d.pendingId.value)
              && (forall x :: multiset(r.store)[x] == if x.id == d.pendingId.value then 0 else multiset(store)[x])
  {
    if !HasPendingId(d) then Deleted(d, store)
    else Deleted(HideDeleteModal(d), Discard(store, d.pendingId.value))
  }

  /** Confirming after cancelling deletes nothing. */
  lemma CancelThenConfirmKeepsAll(d: DeleteDialog, store: seq<Record>)
    ensures ConfirmDelete(HideDeleteModal(d), store).store == store
  {
  }

  /** Opening the modal for an id and confirming removes exactly that id's
      records, keeps the rest in order, and leaves a list where deleting the
      same id again removes nothing more. */
  lemma ShowThenConfirmDeletes(d: DeleteDialog, store: seq<Record>, id: string)
    requires id != ""
    ensures var r := ConfirmDelete(ShowDeleteConfirmation(d, id), store);
            r.store == Discard(store, id) && !r.dialog.visible
            && ConfirmDelete(ShowDeleteConfirmation(r.dialog, id), r.store).store == r.store
  {
    DiscardIdempotent(store, id);
  }

  /** Deleting an id no record carries leaves the list as it was. */
  lemma {:induction false} ConfirmUnknownIdKeepsAll(store: seq<Record>, id: string)
    requires id != ""
    requires forall j :: 0 <= j < |store| ==> store[j].id != id
    ensures ConfirmDelete(DeleteDialog(true, Some(id)), store).store == store
  {
    FilterKeepsAll(store, (x: Record) => x.id != id);
  }

  // ---------------------------------------------------------------- export

  const HistoryHeader: string := "Speaker,Text,Timestamp"

  datatype HistoryError =
    | NotFound
      /** The record has no flat `transcription` list: the source's
          `interview.transcription.filter` throws before any file is made. */
    | NoTranscription

  /** `entry.text && entry.text.trim()`: any entry whose displayed text is
      not blank. Placeholders are not excluded, since their displayed text
      is `Transcribing...`. */
  predicate Listed(e: Entry) {
    !IsBlank(e.Shown())
  }

  /** Three cells of which only the middle one is escaped read back when the
      outer two carry no quote. */
  lemma ThreeCellsReadBack(a: string, b: string, c: string)
    requires QuoteFree(a) && QuoteFree(c)
    ensures ParseFields(Join([Quoted(a), Quoted(EscapeQuotes(b)), Quoted(c)], ',')) == Some([a, b, c])
  {
    var fields := [a, b, c];
    var cells := [Quoted(a), Quoted(EscapeQuotes(b)), Quoted(c)];
    assert EscapeQuotes(a) == a;
    assert EscapeQuotes(c) == c;
    var encoded := seq(|fields|, k requires 0 <= k < |fields| => Quoted(EscapeQuotes(fields[k])));
    assert encoded[0] == cells[0] && encoded[1] == cells[1] && encoded[2] == cells[2];
    assert encoded == cells;
    RowRoundTrip(fields);
  }

  /** One exported row: speaker and timestamp quoted as they are, the text
      quoted and escaped. It reads back as the entry's three cells when the
      speaker and timestamp carry no quote. */
  function HistoryRow(e: Entry): (row: string)
    ensures QuoteFree(e.speaker) && QuoteFree(e.timestamp) ==>
              ParseFields(row) == Some([e.speaker, e.Shown(), e.timestamp])
  {
    var row := Join([Quoted(e.speaker), Quoted(EscapeQuotes(e.Shown())), Quoted(e.timestamp)], ',');
    if QuoteFree(e.speaker) && QuoteFree(e.timestamp) then
      ThreeCellsReadBack(e.speaker, e.Shown(), e.timestamp);
      row
    else
      row
  }

  /** The first record carrying `id`, as `interviews.find(i => i.id === id)`. */
  function FindRecord(store: seq<Record>, id: string): (r: Option<Record>)
    ensures r.Some? ==> r.value.id == id && r.value in store
    ensures r.None? <==> forall j :: 0 <= j < |store| ==> store[j].id != id
  {
    match IndexOfId(store, id)
    case Some(k) => Some(store[k])
    case None => None
  }

  /** The body rows of a flat transcript: one per listed entry, in
      transcript order, each reading back as that entry's speaker, displayed
      text and timestamp. */
  function HistoryRows(t: seq<Entry>): (rows: seq<string>)
    ensures |rows| == |Filter(t, Listed)|
    ensures forall k :: 0 <= k < |rows| ==>
              var e := Filter(t, Listed)[k];
              e in t && Listed(e)
              && (QuoteFree(e.speaker) && QuoteFree(e.timestamp) ==>
                    ParseFields(rows[k]) == Some([e.speaker, e.Shown(), e.timestamp]))
  {
    var listed := Filter(t, Listed);
    assert forall k :: 0 <= k < |listed| ==> multiset(listed)[listed[k]] > 0;
    seq(|listed|, k requires 0 <= k < |listed| => HistoryRow(listed[k]))
  }

  /** `exportInterviewCSV(id)`: an error when no record has the id, or when
      the record carries no flat transcript; otherwise the header row and the
      rows of that transcript. */
  function ExportInterviewCSV(store: seq<Record>, id: string): (r: Result<seq<string>, HistoryError>)
    ensures r == Failure(NotFound) <==> forall j :: 0 <= j < |store| ==> store[j].id != id
    ensures r == Failure(NoTranscription) <==>
              FindRecord(store, id).Some? && FindRecord(store, id).value.transcription.None?
    ensures r.Success? ==>
              && FindRecord(store, id).Some? && FindRecord(store, id).value.transcription.Some?
              && r.value == [HistoryHeader] + HistoryRows(FindRecord(store, id).value.transcription.value)
  {
    match FindRecord(store, id)
    case None => Failure(NotFound)
    case Some(rec) =>
      match rec.transcription
      case None => Failure(NoTranscription)
      case Some(t) => Success([HistoryHeader] + HistoryRows(t))
  }

  /** Unlike the session export, the history export lists a placeholder, as
      a row whose text is `Transcribing...`. */
  lemma HistoryExportListsPlaceholders(store: seq<Record>, id: string, who: string, ts: string)
    requires QuoteFree(who) && QuoteFree(ts)
    requires FindRecord(store, id).Some?
    requires FindRecord(store, id).value.transcription == Some([Pending(who, ts)])
    ensures var r := ExportInterviewCSV(store, id);
            r.Success? && |r.value| == 2 && ParseFields(r.value[1]) == Some([who, TranscribingText, ts])
  {
    var t := [Pending(who, ts)];
    assert !IsWhitespace(TranscribingText[0]);
    assert Listed(Pending(who, ts));
    assert Filter(t, Listed) == t;
  }

  /** A record written by auto-save has no flat transcript, so the history
      export of any auto-saved session fails. */
  lemma AutoSavedRecordCannotBeExported(s: Session, store: seq<Record>, now: int)
    requires s.autoSaveEnabled && HasSessionId(s)
    ensures ExportInterviewCSV(AutoSave(s, store, now, false).store, s.sessionId.value) == Failure(NoTranscription)
  {
    var rec := SnapshotOf(Prepare(s), now);
    UpsertThenFind(store, rec);
  }
}
