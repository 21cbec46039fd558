/** Comma-separated export of a session, `exportToCSV()` in `public/app.js`.
    Every cell is wrapped in double quotes; only the question and text cells
    have embedded quotes doubled, the escape of rule 7 in section 2 of
    RFC 4180. A reader for quoted rows serves as the partner that shows what
    the escaping achieves. */
module Csv {
  import opened Wrappers
  import opened Seqs
  import opened Strings
  import opened Sessions
  import opened Storage

  // ---------------------------------------------------------------- rows

  /** `cells.join(sep)`. */
  function Join(cells: seq<string>, sep: char): (r: string)
    ensures |cells| == 1 ==> r == cells[0]
  {
    if |cells| == 0 then ""
    else if |cells| == 1 then cells[0]
    else cells[0] + [sep] + Join(cells[1..], sep)
  }

  predicate QuoteFree(s: string) {
    forall i :: 0 <= i < |s| ==> s[i] != '"'
  }

  /** A row in which every cell is quoted and escaped. */
  function EncodeRow(fields: seq<string>): string {
    Join(seq(|fields|, k requires 0 <= k < |fields| => Quoted(EscapeQuotes(fields[k]))), ',')
  }

  // ---------------------------------------------------------------- reading back

  /** Reads the inside of a quoted cell: up to the first quote that is not
      doubled, with each doubled quote standing for one. Returns the cell and
      what follows its closing quote. */
  function ReadQuoted(s: string): (r: Option<(string, string)>)
    ensures r.Some? ==> |r.value.1| < |s|
  {
    if |s| == 0 then None
    else if s[0] == '"' then
      if |s| >= 2 && s[1] == '"' then
        match ReadQuoted(s[2..])
        case None => None
        case Some(p) => Some(("\"" + p.0, p.1))
      else Some(("", s[1..]))
    else
      match ReadQuoted(s[1..])
      case None => None
      case Some(p) => Some(([s[0]] + p.0, p.1))
  }

  /** Reads a row of quoted cells separated by commas. */
  function ParseFields(s: string): Option<seq<string>>
    decreases |s|
  {
    if |s| == 0 || s[0] != '"' then None
    else
      match ReadQuoted(s[1..])
      case None => None
      case Some(p) =>
        if |p.1| == 0 then Some([p.0])
        else if p.1[0] != ',' then None
        else
          match ParseFields(p.1[1..])
          case None => None
          case Some(fs) => Some([p.0] + fs)
  }

  /** An escaped cell reads back as itself, stopping at its closing quote. */
  lemma {:induction false} ReadEscaped(x: string, rest: string)
    requires |rest| == 0 || rest[0] != '"'
    ensures ReadQuoted(EscapeQuotes(x) + "\"" + rest) == Some((x, rest))
  {
    var s := EscapeQuotes(x) + "\"" + rest;
    if |x| == 0 {
      assert s == "\"" + rest;
      assert s[1..] == rest;
    } else {
      ReadEscaped(x[1..], rest);
      if x[0] == '"' {
        assert s == "\"\"" + (EscapeQuotes(x[1..]) + "\"" + rest);
        assert s[2..] == EscapeQuotes(x[1..]) + "\"" + rest;
        assert x == "\"" + x[1..];
      } else {
        assert s == [x[0]] + (EscapeQuotes(x[1..]) + "\"" + rest);
        assert s[1..] == EscapeQuotes(x[1..]) + "\"" + rest;
        assert x == [x[0]] + x[1..];
      }
    }
  }

  /** Any non-empty list of cells, quoted and escaped, reads back unchanged. */
  lemma {:induction false} RowRoundTrip(fields: seq<string>)
    requires |fields| >= 1
    ensures ParseFields(EncodeRow(fields)) == Some(fields)
  {
    var cells := seq(|fields|, k requires 0 <= k < |fields| => Quoted(EscapeQuotes(fields[k])));
    var first := EscapeQuotes(fields[0]);
    if |fields| == 1 {
      var row := EncodeRow(fields);
      assert |cells| == 1;
      assert row == "\"" + (first + "\"" + "");
      assert row[1..] == first + "\"" + "";
      ReadEscaped(fields[0], "");
      assert row[0] == '"';
      assert ParseFields(row) == Some([fields[0]]);
      assert fields == [fields[0]];
    } else {
      var more := EncodeRow(fields[1..]);
      assert cells[1..] == seq(|fields[1..]|, k requires 0 <= k < |fields[1..]| => Quoted(EscapeQuotes(fields[1..][k])));
      assert EncodeRow(fields) == cells[0] + [','] + more;
      var tail := "," + more;
      assert EncodeRow(fields) == "\"" + (first + "\"" + tail);
      ReadEscaped(fields[0], tail);
      assert tail[1..] == more;
      RowRoundTrip(fields[1..]);
      assert fields == [fields[0]] + fields[1..];
    }
  }

  // ---------------------------------------------------------------- export

  const Header: string := "Question_Number,Question,Speaker,Text,Timestamp"

  datatype ExportError = NoSessionData

  /** The row filter: `entry.text && entry.text.trim() && !entry.isTranscribing`. */
  predicate Exportable(e: Entry) {
    e.Resolved? && !IsBlank(e.text)
  }

  /** The cells an exported entry stands for: question number (from one),
      question text, speaker, text and timestamp. */
  function Fields(qIndex: nat, question: string, e: Entry): seq<string>
    requires e.Resolved?
  {
    [ShowNat(qIndex + 1), question, e.speaker, e.text, e.timestamp]
  }

  lemma DigitsAreQuoteFree(s: string)
    requires AllDigits(s)
    ensures QuoteFree(s) && EscapeQuotes(s) == s
  {
  }

  lemma JoinCons(c: string, cells: seq<string>, sep: char)
    requires |cells| >= 1
    ensures Join([c] + cells, sep) == c + [sep] + Join(cells, sep)
  {
    assert ([c] + cells)[1..] == cells;
  }

  /** A five-cell row spelled out. */
  lemma JoinFive(cells: seq<string>)
    requires |cells| == 5
    ensures Join(cells, ',') == cells[0] + "," + cells[1] + "," + cells[2] + "," + cells[3] + "," + cells[4]
  {
    JoinCons(cells[3], [cells[4]], ',');
    JoinCons(cells[2], cells[3..], ',');
    JoinCons(cells[1], cells[2..], ',');
    JoinCons(cells[0], cells[1..], ',');
    assert cells == [cells[0]] + cells[1..];
    assert cells[1..] == [cells[1]] + cells[2..];
    assert cells[2..] == [cells[2]] + cells[3..];
    assert cells[3..] == [cells[3]] + [cells[4]];
  }

  /** One exported row as the source writes it: every cell quoted, but only
      the question and the text escaped. It reads back as the entry's cells
      whenever the speaker and timestamp carry no quote of their own. */
  function EntryRow(qIndex: nat, question: string, e: Entry): (row: string)
    requires e.Resolved?
    ensures QuoteFree(e.speaker) && QuoteFree(e.timestamp) ==>
              ParseFields(row) == Some(Fields(qIndex, question, e))
  {
    var number := ShowNat(qIndex + 1);
    var cells := [Quoted(number), Quoted(EscapeQuotes(question)), Quoted(e.speaker),
                  Quoted(EscapeQuotes(e.text)), Quoted(e.timestamp)];
    DigitsAreQuoteFree(number);
    if QuoteFree(e.speaker) && QuoteFree(e.timestamp) then
      var fields := Fields(qIndex, question, e);
      assert cells == seq(|fields|, k requires 0 <= k < |fields| => Quoted(EscapeQuotes(fields[k])));
      RowRoundTrip(fields);
      Join(cells, ',')
    else
      Join(cells, ',')
  }

  /** A cell that was quoted and escaped, followed by a comma, reads as that
      cell in front of whatever the rest of the row reads as. */
  lemma ParseEscapedThen(f: string, more: string)
    ensures ParseFields(Quoted(EscapeQuotes(f)) + "," + more)
              == match ParseFields(more) case None => None case Some(fs) => Some([f] + fs)
  {
    var s := Quoted(EscapeQuotes(f)) + "," + more;
    assert s == "\"" + (EscapeQuotes(f) + "\"" + ("," + more));
    ReadEscaped(f, "," + more);
    assert ("," + more)[1..] == more;
  }

  /** The speaker cell `"""` of a speaker named by a lone quote: the doubled
      quote is read as a quote, and the next quote, opening the text cell,
      closes the speaker cell with the text still to come. */
  lemma LoneQuoteCellFails(t: string, more: string)
    requires |t| > 0 && t[0] != '"' && t[0] != ','
    ensures ParseFields(Quoted("\"") + "," + Quoted(t) + more) == None
  {
    var s := Quoted("\"") + "," + Quoted(t) + more;
    var rest := t + ("\"" + more);
    assert EscapeQuotes(",") == ",";
    assert EscapeQuotes("\",") == "\"\"" + ",";
    assert s == "\"" + (EscapeQuotes("\",") + "\"" + rest);
    ReadEscaped("\",", rest);
    assert rest[0] == t[0];
  }

  /** A speaker whose name holds a double quote yields a row that does not
      read back at all. */
  lemma QuotedSpeakerBreaksRow()
    ensures var e := Resolved("\"", "t", "s");
            Exportable(e) && ParseFields(EntryRow(0, "q", e)) == None
  {
    var e := Resolved("\"", "t", "s");
    assert !IsWhitespace('t');
    assert ShowNat(1) == "1";
    assert EscapeQuotes("t") == "t";
    var cells := [Quoted(EscapeQuotes("1")), Quoted(EscapeQuotes("q")), Quoted("\""), Quoted("t"), Quoted("s")];
    assert EntryRow(0, "q", e) == Join(cells, ',');
    JoinFive(cells);
    var tail := Quoted("\"") + "," + Quoted("t") + ("," + Quoted("s"));
    var middle := Quoted(EscapeQuotes("q")) + "," + tail;
    assert Join(cells, ',') == Quoted(EscapeQuotes("1")) + "," + middle;
    LoneQuoteCellFails("t", "," + Quoted("s"));
    assert ParseFields(tail) == None;
    ParseEscapedThen("q", tail);
    ParseEscapedThen("1", middle);
  }

  /** The rows of one question: one per exportable entry, in order. */
  function QuestionRows(qIndex: nat, q: Question): (rows: seq<string>)
    ensures |rows| == |Filter(q.transcript, Exportable)|
    ensures forall k :: 0 <= k < |rows| ==>
              var e := Filter(q.transcript, Exportable)[k];
              Exportable(e) && e in q.transcript
              && (QuoteFree(e.speaker) && QuoteFree(e.timestamp) ==>
                    ParseFields(rows[k]) == Some(Fields(qIndex, q.text, e)))
  {
    var kept := Filter(q.transcript, Exportable);
    assert forall k :: 0 <= k < |kept| ==> multiset(kept)[kept[k]] > 0;
    seq(|kept|, k requires 0 <= k < |kept| => EntryRow(qIndex, q.text, kept[k]))
  }

  /** The rows of questions numbered from `base`, question by question. */
  function BodyRows(qs: seq<Question>, base: nat): seq<string> {
    if |qs| == 0 then [] else QuestionRows(base, qs[0]) + BodyRows(qs[1..], base + 1)
  }

  /** No resolved entry of the questions has a quote in its speaker or
      timestamp. */
  predicate ReadableSpeakers(qs: seq<Question>) {
    forall i, e :: 0 <= i < |qs| && e in qs[i].transcript && e.Resolved? ==>
      QuoteFree(e.speaker) && QuoteFree(e.timestamp)
  }

  lemma ReadableSpeakersTail(qs: seq<Question>)
    requires |qs| > 0 && ReadableSpeakers(qs)
    ensures ReadableSpeakers(qs[1..])
  {
    forall i, e | 0 <= i < |qs[1..]| && e in qs[1..][i].transcript && e.Resolved?
      ensures QuoteFree(e.speaker) && QuoteFree(e.timestamp)
    {
      assert qs[1..][i] == qs[i + 1];
    }
  }

  /** What `BodyRowsReadBack` promises of row `k`. */
  predicate RowReadsBack(qs: seq<Question>, base: nat, rows: seq<string>, k: nat)
    requires k < |rows|
  {
    exists i, e :: 0 <= i < |qs| && e in qs[i].transcript && Exportable(e)
                   && ParseFields(rows[k]) == Some(Fields(base + i, qs[i].text, e))
  }

  /** A row of the first question reads back as one of its exportable entries. */
  lemma HeadRowReadsBack(qs: seq<Question>, base: nat, k: nat)
    requires ReadableSpeakers(qs)
    requires |qs| > 0 && k < |QuestionRows(base, qs[0])|
    ensures k < |BodyRows(qs, base)| && RowReadsBack(qs, base, BodyRows(qs, base), k)
  {
    var head := QuestionRows(base, qs[0]);
    var rows := BodyRows(qs, base);
    assert rows == head + BodyRows(qs[1..], base + 1);
    var e := Filter(qs[0].transcript, Exportable)[k];
    assert e in qs[0].transcript && Exportable(e);
    assert QuoteFree(e.speaker) && QuoteFree(e.timestamp);
    assert rows[k] == head[k];
    assert base + 0 == base;
    assert ParseFields(rows[k]) == Some(Fields(base + 0, qs[0].text, e));
  }

  /** A row of the later questions keeps reading back, one question further
      on, once any rows are put in front of it. */
  lemma TailRowReadsBack(qs: seq<Question>, base: nat, head: seq<string>, tail: seq<string>, j: nat)
    requires |qs| > 0 && j < |tail|
    requires RowReadsBack(qs[1..], base + 1, tail, j)
    ensures RowReadsBack(qs, base, head + tail, |head| + j)
  {
    var rows := head + tail;
    assert rows[|head| + j] == tail[j];
    var i, e :| 0 <= i < |qs[1..]| && e in qs[1..][i].transcript && Exportable(e)
                && ParseFields(tail[j]) == Some(Fields(base + 1 + i, qs[1..][i].text, e));
    assert qs[1..][i] == qs[i + 1];
    assert base + 1 + i == base + (i + 1);
    assert ParseFields(rows[|head| + j]) == Some(Fields(base + (i + 1), qs[i + 1].text, e));
  }

  /** Every body row reads back as an exportable entry of some question,
      numbered by that question's position. */
  lemma {:induction false} BodyRowsReadBack(qs: seq<Question>, base: nat, k: nat)
    requires ReadableSpeakers(qs)
    requires k < |BodyRows(qs, base)|
    ensures RowReadsBack(qs, base, BodyRows(qs, base), k)
  {
    assert |qs| > 0;
    var head := QuestionRows(base, qs[0]);
    assert BodyRows(qs, base) == head + BodyRows(qs[1..], base + 1);
    if k < |head| {
      HeadRowReadsBack(qs, base, k);
    } else {
      ReadableSpeakersTail(qs);
      BodyRowsReadBack(qs[1..], base + 1, k - |head|);
      TailRowReadsBack(qs, base, head, BodyRows(qs[1..], base + 1), k - |head|);
    }
  }

  /** What a successful export leaves behind: the session, whose current
      question now stores a copy of the live transcript, and the rows. */
  datatype Exported = Exported(session: Session, rows: seq<string>)

  /** `exportToCSV()`: an error without a session id or without questions,
      which changes nothing; otherwise the current question first stores a
      copy of the live transcript (a write that stays in the session), and
      the rows are the header and the body rows of that session. */
  function ExportRows(s: Session): (r: Result<Exported, ExportError>)
    ensures r.Failure? <==> !HasSessionId(s) || |s.questions| == 0
    ensures r.Success? ==> r.value.session == Prepare(s)
    ensures r.Success? ==> |r.value.rows| >= 1 && r.value.rows[0] == Header
    ensures r.Success? ==> r.value.rows[1..] == BodyRows(r.value.session.questions, 0)
  {
    if !HasSessionId(s) || |s.questions| == 0 then Failure(NoSessionData)
    else
      var prepared := Prepare(s);
      Success(Exported(prepared, [Header] + BodyRows(prepared.questions, 0)))
  }

  /** The session after the export and the downloaded file. */
  datatype CsvFile = CsvFile(session: Session, content: string)

  /** The downloaded file: the rows joined by newlines. */
  function ExportToCSV(s: Session): (r: Result<CsvFile, ExportError>)
    ensures r.Failure? <==> !HasSessionId(s) || |s.questions| == 0
    ensures r.Success? ==> r.value.session == Prepare(s)
  {
    match ExportRows(s)
    case Failure(err) => Failure(err)
    case Success(e) => Success(CsvFile(e.session, Join(e.rows, '\n')))
  }

  /** Placeholders never reach the export: dropping them from a transcript
      first changes no row. */
  lemma ExportIgnoresPending(qIndex: nat, q: Question)
    ensures QuestionRows(qIndex, q.(transcript := Settled(q.transcript))) == QuestionRows(qIndex, q)
  {
    FilterOfFilter(q.transcript, (e: Entry) => e.Resolved?, Exportable);
  }
}
