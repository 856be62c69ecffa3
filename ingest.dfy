/**
 * Ingestion of the UniProt TSV export into the document store: the `;`-field
 * tokenizer, the row-to-document mapping and the two loaders (the buffered one
 * of the application and the single bulk insert of the backend).
 */
module Ingest {
  import opened Common

  /** A TSV cell as the data-frame reader yields it. */
  datatype Cell = Null | NaN | Text(s: string)

  /** The columns of one TSV row that the loaders read. A missing column is given as Text(""). */
  datatype Row = Row(entry: Cell, entryName: Cell, sequence: Cell, organism: Cell,
                     interPro: Cell, ecNumber: Cell, proteinNames: Cell)

  /** A protein document as inserted into the collection. */
  datatype Document = Document(
    id: string,
    uniprotId: string,
    entryName: Cell,
    organism: Cell,
    proteinNames: seq<string>,
    sequenceLength: nat,
    sequenceAa: string,
    interproIds: seq<string>,
    ecNumbers: seq<string>,
    isLabelled: bool)

  /** The two copies of the loader differ in how a NaN sequence is rendered. */
  datatype Loader = AppLoader | BackendLoader

  const BatchSize: nat := 5000

  // ---------------------------------------------------------------------------
  // The `;`-field tokenizer
  // ---------------------------------------------------------------------------

  /** The characters Python's str.strip() removes. */
  predicate IsSpace(c: char)
  {
    ('\t' <= c <= '\r') || ('\U{1c}' <= c <= ' ') || c == '\U{85}' || c == '\U{a0}' || c == '\U{1680}'
    || ('\U{2000}' <= c <= '\U{200a}') || c == '\U{2028}' || c == '\U{2029}' || c == '\U{202f}'
    || c == '\U{205f}' || c == '\U{3000}'
  }

  /** Python's str.split(";"): the segments between separators, at least one. */
  function Split(s: string): (r: seq<string>)
    ensures |r| >= 1
  {
    if s == [] then [""]
    else
      var rest := Split(s[1..]);
      if s[0] == ';' then [""] + rest else [[s[0]] + rest[0]] + rest[1..]
  }

  /** Python's ";".join(t). */
  function Join(t: seq<string>): string
  {
    if t == [] then "" else if |t| == 1 then t[0] else t[0] + ";" + Join(t[1..])
  }

  function StripLeft(s: string): string
  {
    if s != [] && IsSpace(s[0]) then StripLeft(s[1..]) else s
  }

  function StripRight(s: string): string
  {
    if s != [] && IsSpace(s[|s| - 1]) then StripRight(s[..|s| - 1]) else s
  }

  /** str.lstrip() drops a prefix and stops at a non-blank character. */
  lemma {:induction false} StripLeftShape(s: string)
    ensures |StripLeft(s)| <= |s| && StripLeft(s) == s[|s| - |StripLeft(s)|..]
    ensures StripLeft(s) == [] || !IsSpace(StripLeft(s)[0])
  {
    if s != [] && IsSpace(s[0]) {
      StripLeftShape(s[1..]);
    }
  }

  lemma {:induction false} StripLeftBlank(s: string)
    requires forall c :: c in s ==> IsSpace(c)
    ensures StripLeft(s) == []
  {
    if s != [] {
      assert s[0] in s;
      assert forall c :: c in s[1..] ==> c in s;
      StripLeftBlank(s[1..]);
    }
  }

  /** str.rstrip() drops a suffix and stops at a non-blank character. */
  lemma {:induction false} StripRightShape(s: string)
    ensures |StripRight(s)| <= |s| && StripRight(s) == s[..|StripRight(s)|]
    ensures StripRight(s) == [] || !IsSpace(StripRight(s)[|StripRight(s)| - 1])
  {
    if s != [] && IsSpace(s[|s| - 1]) {
      StripRightShape(s[..|s| - 1]);
    }
  }

  /** Python's str.strip(). */
  function Strip(s: string): string
  {
    StripRight(StripLeft(s))
  }

  /** The stripped, non-empty segments, in order. */
  function Tokens(segments: seq<string>): seq<string>
  {
    if segments == [] then []
    else
      var t := Strip(segments[0]);
      (if t != "" then [t] else []) + Tokens(segments[1..])
  }

  /** split_semicolon_field: `[]` for None and NaN, else the non-blank stripped segments. */
  function SplitSemicolonField(c: Cell): seq<string>
  {
    match c
    case Null => []
    case NaN => []
    case Text(s) => Tokens(Split(s))
  }

  /** A token as the tokenizer produces it: non-empty, no surrounding blanks, no separator. */
  predicate WellFormedToken(t: string)
  {
    t != "" && !IsSpace(t[0]) && !IsSpace(t[|t| - 1]) && ';' !in t
  }

  lemma {:induction false} SplitJoin(s: string)
    ensures Join(Split(s)) == s
    ensures forall seg :: seg in Split(s) ==> ';' !in seg
  {
    if s != [] {
      SplitJoin(s[1..]);
      var rest := Split(s[1..]);
      if s[0] != ';' {
        var r := Split(s);
        assert r[0] == [s[0]] + rest[0];
        assert r[1..] == rest[1..];
        if |rest| > 1 {
          assert Join(r) == r[0] + ";" + Join(r[1..]);
          assert Join(rest) == rest[0] + ";" + Join(rest[1..]);
        }
        assert s == [s[0]] + s[1..];
        forall seg | seg in r ensures ';' !in seg {
          if seg != r[0] { assert seg in rest; }
        }
      } else {
        assert s == ";" + s[1..];
      }
    }
  }

  lemma {:induction false} StripShape(s: string)
    ensures Strip(s) == [] || (!IsSpace(Strip(s)[0]) && !IsSpace(Strip(s)[|Strip(s)| - 1]))
    ensures forall c :: c in Strip(s) ==> c in s
  {
    var l := StripLeft(s);
    var r := StripRight(l);
    StripLeftShape(s);
    StripRightShape(l);
    if r != [] {
      assert r[0] == l[0];
    }
    forall c | c in r ensures c in s {
      assert c in l;
    }
  }

  lemma {:induction false} StripWellFormed(t: string)
    requires t != "" && !IsSpace(t[0]) && !IsSpace(t[|t| - 1])
    ensures Strip(t) == t
  {
  }

  lemma {:induction false} TokensWellFormed(segments: seq<string>)
    requires forall seg :: seg in segments ==> ';' !in seg
    ensures forall t :: t in Tokens(segments) ==> WellFormedToken(t)
  {
    if segments != [] {
      StripShape(segments[0]);
      TokensWellFormed(segments[1..]);
    }
  }

  lemma {:induction false} TokensAppend(a: seq<string>, b: seq<string>)
    ensures Tokens(a + b) == Tokens(a) + Tokens(b)
  {
    if a != [] {
      assert (a + b)[1..] == a[1..] + b;
      TokensAppend(a[1..], b);
    } else {
      assert a + b == b;
    }
  }

  lemma {:induction false} SplitAppend(a: string, b: string)
    ensures Split(a + ";" + b) == Split(a) + Split(b)
  {
    if a == [] {
      assert a + ";" + b == ";" + b;
      assert (";" + b)[1..] == b;
    } else {
      assert (a + ";" + b)[1..] == a[1..] + ";" + b;
      SplitAppend(a[1..], b);
    }
  }

  /** Splitting the join of well-formed tokens gives the tokens back. */
  lemma {:induction false} SplitOfJoin(t: seq<string>)
    requires |t| >= 1
    requires forall x :: x in t ==> ';' !in x
    ensures Split(Join(t)) == t
  {
    if |t| == 1 {
      NoSeparatorSplit(t[0]);
    } else {
      SplitOfJoin(t[1..]);
      SplitAppend(t[0], Join(t[1..]));
      NoSeparatorSplit(t[0]);
    }
  }

  lemma {:induction false} NoSeparatorSplit(s: string)
    requires ';' !in s
    ensures Split(s) == [s]
  {
    if s != [] {
      NoSeparatorSplit(s[1..]);
      assert s == [s[0]] + s[1..];
    }
  }

  lemma {:induction false} TokensOfWellFormed(t: seq<string>)
    requires forall x :: x in t ==> WellFormedToken(x)
    ensures Tokens(t) == t
  {
    if t != [] {
      assert t[0] in t;
      StripWellFormed(t[0]);
      TokensOfWellFormed(t[1..]);
    }
  }

  /**
   * What split_semicolon_field promises: None and NaN give no token; every
   * token is non-empty, unpadded and free of `;`.
   */
  lemma {:induction false} SplitFieldTokens(c: Cell)
    ensures c.Null? || c.NaN? ==> SplitSemicolonField(c) == []
    ensures forall t :: t in SplitSemicolonField(c) ==> WellFormedToken(t)
  {
    if c.Text? {
      SplitJoin(c.s);
      TokensWellFormed(Split(c.s));
    }
  }

  /**
   * Tokens come out in input order and segment by segment: the tokens of
   * `a;b` are those of `a` followed by those of `b`.
   */
  lemma {:induction false} SplitFieldConcat(a: string, b: string)
    ensures SplitSemicolonField(Text(a + ";" + b)) == SplitSemicolonField(Text(a)) + SplitSemicolonField(Text(b))
  {
    SplitAppend(a, b);
    TokensAppend(Split(a), Split(b));
  }

  /** A segment that is empty or blank yields no token. */
  lemma {:induction false} BlankSegmentNoToken(s: string)
    requires forall c :: c in s ==> IsSpace(c)
    requires ';' !in s
    ensures SplitSemicolonField(Text(s)) == []
  {
    NoSeparatorSplit(s);
    StripLeftBlank(s);
  }

  /** Splitting the `;`-join of a result gives the same result. */
  lemma {:induction false} SplitFieldIdempotent(c: Cell)
    ensures SplitSemicolonField(Text(Join(SplitSemicolonField(c)))) == SplitSemicolonField(c)
  {
    var t := SplitSemicolonField(c);
    SplitFieldTokens(c);
    if t == [] {
      assert Split(Join(t)) == [""];
      assert Tokens([""]) == [];
    } else {
      assert forall x :: x in t ==> ';' !in x;
      SplitOfJoin(t);
      TokensOfWellFormed(t);
      assert SplitSemicolonField(Text(Join(t))) == Tokens(Split(Join(t)));
    }
  }

  // ---------------------------------------------------------------------------
  // Row to document
  // ---------------------------------------------------------------------------

  /** str(seq): the application renders a NaN cell as "nan", the backend maps it to "" first. */
  function SequenceText(c: Cell, loader: Loader): string
  {
    match c
    case Text(s) => s
    case NaN => if loader == BackendLoader then "" else "nan"
    case Null => "None"
  }

  /** The document built from a row, or None when its Entry is not a string. */
  function MakeDocument(row: Row, loader: Loader): Option<Document>
  {
    if !row.entry.Text? then None
    else
      var aa := SequenceText(row.sequence, loader);
      var ec := SplitSemicolonField(row.ecNumber);
      Some(Document(row.entry.s, row.entry.s, row.entryName, row.organism,
                    SplitSemicolonField(row.proteinNames), |aa|, aa,
                    SplitSemicolonField(row.interPro), ec, |ec| > 0))
  }

  /** The documents of the rows that are kept, in row order. */
  function Documents(rows: seq<Row>, loader: Loader): seq<Document>
  {
    if rows == [] then []
    else
      var init := Documents(rows[..|rows| - 1], loader);
      match MakeDocument(rows[|rows| - 1], loader)
      case None => init
      case Some(d) => init + [d]
  }

  /** Per-document facts: identity, labelling, sequence length, skipped rows. */
  lemma {:induction false} MakeDocumentFacts(row: Row, loader: Loader)
    ensures MakeDocument(row, loader).None? <==> !row.entry.Text?
    ensures MakeDocument(row, loader).Some? ==>
      var d := MakeDocument(row, loader).value;
      && d.id == d.uniprotId == row.entry.s
      && (d.isLabelled <==> d.ecNumbers != [])
      && d.ecNumbers == SplitSemicolonField(row.ecNumber)
      && d.interproIds == SplitSemicolonField(row.interPro)
      && d.sequenceLength == |d.sequenceAa|
    ensures loader == BackendLoader && row.entry.Text? && row.sequence.NaN? ==>
      MakeDocument(row, loader).value.sequenceLength == 0
  {
  }

  lemma {:induction false} DocumentsAppend(rows: seq<Row>, row: Row, loader: Loader)
    ensures row.entry.Text? ==> Documents(rows + [row], loader) == Documents(rows, loader) + [MakeDocument(row, loader).value]
    ensures !row.entry.Text? ==> Documents(rows + [row], loader) == Documents(rows, loader)
  {
    assert (rows + [row])[..|rows|] == rows;
  }

  /** Every loaded document is labelled exactly when it carries EC numbers. */
  lemma {:induction false} DocumentsLabelled(rows: seq<Row>, loader: Loader)
    ensures forall k :: 0 <= k < |Documents(rows, loader)| ==>
      (Documents(rows, loader)[k].isLabelled <==> Documents(rows, loader)[k].ecNumbers != [])
  {
    if rows != [] {
      var init := rows[..|rows| - 1];
      var row := rows[|rows| - 1];
      DocumentsLabelled(init, loader);
      assert rows == init + [row];
      DocumentsAppend(init, row, loader);
      MakeDocumentFacts(row, loader);
    }
  }

  /** The positions of the rows whose Entry is a string. */
  function KeptRows(rows: seq<Row>): set<nat>
  {
    set i: nat | i < |rows| && rows[i].entry.Text?
  }

  lemma {:induction false} KeptRowsAppend(rows: seq<Row>, row: Row)
    ensures row.entry.Text? ==> KeptRows(rows + [row]) == KeptRows(rows) + {|rows|}
    ensures !row.entry.Text? ==> KeptRows(rows + [row]) == KeptRows(rows)
  {
    var s := rows + [row];
    assert forall i: nat :: i < |rows| ==> s[i] == rows[i];
  }

  /** Every kept document comes from a row whose Entry is a string, and no such row is dropped. */
  lemma {:induction false} DocumentsCount(rows: seq<Row>, loader: Loader)
    ensures |Documents(rows, loader)| == |KeptRows(rows)|
  {
    if rows != [] {
      var init := rows[..|rows| - 1];
      DocumentsCount(init, loader);
      assert rows == init + [rows[|rows| - 1]];
      KeptRowsAppend(init, rows[|rows| - 1]);
      DocumentsAppend(init, rows[|rows| - 1], loader);
      assert |rows| - 1 !in KeptRows(init);
    }
  }

  // ---------------------------------------------------------------------------
  // The application loader: a buffer flushed every 5000 documents
  // ---------------------------------------------------------------------------

  /** One insert_many call: the documents sent, whether it succeeded, whether it was the final flush. */
  datatype Attempt = Attempt(docs: seq<Document>, ok: bool, final: bool)

  /** Whether the k-th insert_many call returns, `failures` being the calls that raise. */
  predicate Succeeds(k: nat, failures: set<nat>)
  {
    k !in failures
  }

  /** The document lists of the successful attempts, in call order. */
  function Inserted(attempts: seq<Attempt>): seq<seq<Document>>
  {
    if attempts == [] then []
    else
      var a := attempts[|attempts| - 1];
      Inserted(attempts[..|attempts| - 1]) + (if a.ok then [a.docs] else [])
  }

  lemma {:induction false} InsertedAppend(attempts: seq<Attempt>, a: Attempt)
    ensures a.ok ==> Inserted(attempts + [a]) == Inserted(attempts) + [a.docs]
    ensures !a.ok ==> Inserted(attempts + [a]) == Inserted(attempts)
  {
    assert (attempts + [a])[..|attempts|] == attempts;
    assert Inserted(attempts) + [] == Inserted(attempts);
  }

  /**
   * The calls made while rows are still being read: each is a flush of at
   * least BatchSize documents, its outcome is the oracle's, and a failed
   * flush's documents are all sent again by the next one.
   */
  ghost predicate FlushLog(attempts: seq<Attempt>, failures: set<nat>)
  {
    && (forall k :: 0 <= k < |attempts| ==>
          attempts[k].ok == Succeeds(k, failures) && !attempts[k].final && |attempts[k].docs| >= BatchSize)
    && (forall j, k :: 0 <= j < k < |attempts| && k == j + 1 && !attempts[j].ok ==> attempts[j].docs <= attempts[k].docs)
  }

  /** A flush of at least BatchSize documents keeps the log well formed. */
  lemma {:induction false} FlushLogStep(attempts: seq<Attempt>, docs: seq<Document>, failures: set<nat>)
    requires FlushLog(attempts, failures)
    requires |docs| >= BatchSize
    requires |attempts| > 0 && !attempts[|attempts| - 1].ok ==> attempts[|attempts| - 1].docs <= docs
    ensures FlushLog(attempts + [Attempt(docs, Succeeds(|attempts|, failures), false)], failures)
  {
    var log := attempts + [Attempt(docs, Succeeds(|attempts|, failures), false)];
    assert forall k :: 0 <= k < |log| ==>
          log[k].ok == Succeeds(k, failures) && !log[k].final && |log[k].docs| >= BatchSize;
    forall j, k | 0 <= j < k < |log| && k == j + 1 && !log[j].ok ensures log[j].docs <= log[k].docs {
      if k < |attempts| { assert log[j] == attempts[j] && log[k] == attempts[k]; }
    }
  }

  /** A flush loses no document: what it inserts, or else the kept buffer, accounts for `docs`. */
  lemma {:induction false} FlushAccounts(attempts: seq<Attempt>, a: Attempt)
    ensures Flatten(Inserted(attempts + [a])) + (if a.ok then [] else a.docs) == Flatten(Inserted(attempts)) + a.docs
  {
    InsertedAppend(attempts, a);
    if a.ok {
      FlattenAppend(Inserted(attempts), a.docs);
    }
  }

  /**
   * The part of the loop state that does not depend on the rows: the running
   * total counts the inserted documents, the calls so far are well-formed
   * flushes, and a failed last flush left its documents at the head of the buffer.
   */
  ghost predicate Pending(attempts: seq<Attempt>, docs: seq<Document>, total: nat, failures: set<nat>)
  {
    && total == |Flatten(Inserted(attempts))|
    && FlushLog(attempts, failures)
    && (|attempts| > 0 && !attempts[|attempts| - 1].ok ==> attempts[|attempts| - 1].docs <= docs && docs != [])
  }

  /**
   * What holds after `i` rows have been read: the documents inserted so far
   * followed by the buffer are exactly the documents of those rows.
   */
  ghost predicate Buffered(rows: seq<Row>, i: nat, attempts: seq<Attempt>, docs: seq<Document>, total: nat, failures: set<nat>)
  {
    && i <= |rows|
    && Flatten(Inserted(attempts)) + docs == Documents(rows[..i], AppLoader)
    && Pending(attempts, docs, total, failures)
  }

  /** Reading one more row appends its document to the buffer, if it has one. */
  lemma {:induction false} BufferedRow(rows: seq<Row>, i: nat, attempts: seq<Attempt>, docs: seq<Document>, total: nat, failures: set<nat>)
    requires Buffered(rows, i, attempts, docs, total, failures)
    requires i < |rows|
    ensures MakeDocument(rows[i], AppLoader).Some? ==>
      Buffered(rows, i + 1, attempts, docs + [MakeDocument(rows[i], AppLoader).value], total, failures)
    ensures MakeDocument(rows[i], AppLoader).None? ==> Buffered(rows, i + 1, attempts, docs, total, failures)
  {
    DocumentsAppend(rows[..i], rows[i], AppLoader);
    assert rows[..i + 1] == rows[..i] + [rows[i]];
    var sent := Flatten(Inserted(attempts));
    var d := MakeDocument(rows[i], AppLoader);
    if d.Some? {
      assert sent + (docs + [d.value]) == (sent + docs) + [d.value];
    }
  }

  /** A flush of a full buffer keeps the pending state and loses no document, whatever the call's outcome. */
  lemma {:induction false} PendingFlush(attempts: seq<Attempt>, docs: seq<Document>, total: nat, failures: set<nat>)
    requires Pending(attempts, docs, total, failures)
    requires |docs| >= BatchSize
    ensures Succeeds(|attempts|, failures) ==>
      var log := attempts + [Attempt(docs, true, false)];
      && Pending(log, [], total + |docs|, failures)
      && Flatten(Inserted(log)) + [] == Flatten(Inserted(attempts)) + docs
    ensures !Succeeds(|attempts|, failures) ==>
      var log := attempts + [Attempt(docs, false, false)];
      && Pending(log, docs, total, failures)
      && Flatten(Inserted(log)) + docs == Flatten(Inserted(attempts)) + docs
  {
    var a := Attempt(docs, Succeeds(|attempts|, failures), false);
    FlushLogStep(attempts, docs, failures);
    FlushAccounts(attempts, a);
    InsertedAppend(attempts, a);
    if a.ok {
      FlattenAppend(Inserted(attempts), a.docs);
    }
  }

  /** A flush of a full buffer after `i` rows keeps the buffered state, whatever the call's outcome. */
  lemma {:induction false} BufferedFlush(rows: seq<Row>, i: nat, attempts: seq<Attempt>, docs: seq<Document>, total: nat, failures: set<nat>)
    requires Buffered(rows, i, attempts, docs, total, failures)
    requires |docs| >= BatchSize
    ensures Succeeds(|attempts|, failures) ==>
      Buffered(rows, i, attempts + [Attempt(docs, true, false)], [], total + |docs|, failures)
    ensures !Succeeds(|attempts|, failures) ==>
      Buffered(rows, i, attempts + [Attempt(docs, false, false)], docs, total, failures)
  {
    PendingFlush(attempts, docs, total, failures);
  }

  /**
   * The calls of a whole load: each call's outcome is the oracle's, every
   * call but a final one flushed at least BatchSize documents, a final call
   * is the last and is not empty, and a failed call's documents are all sent
   * again by the next.
   */
  ghost predicate CallLog(attempts: seq<Attempt>, failures: set<nat>)
  {
    && (forall k :: 0 <= k < |attempts| ==> attempts[k].ok == Succeeds(k, failures))
    && (forall k :: 0 <= k < |attempts| && !attempts[k].final ==> |attempts[k].docs| >= BatchSize)
    && (forall k :: 0 <= k < |attempts| && attempts[k].final ==> k == |attempts| - 1 && attempts[k].docs != [])
    && (forall j, k :: 0 <= j < k < |attempts| && k == j + 1 && !attempts[j].ok ==> attempts[j].docs <= attempts[k].docs)
  }

  /**
   * The outcome of a whole load: a well-formed call log whose inserted
   * documents are a prefix of the file's documents, and all of them exactly
   * when the last call succeeded (or no call was made).
   */
  ghost predicate Loaded(rows: seq<Row>, attempts: seq<Attempt>, failures: set<nat>)
  {
    && CallLog(attempts, failures)
    && Flatten(Inserted(attempts)) <= Documents(rows, AppLoader)
    && (Flatten(Inserted(attempts)) == Documents(rows, AppLoader) <==> (|attempts| == 0 || attempts[|attempts| - 1].ok))
  }

  /** With every row read and an empty buffer, the load is complete. */
  lemma {:induction false} LoadedEmptyBuffer(rows: seq<Row>, attempts: seq<Attempt>, total: nat, failures: set<nat>)
    requires Buffered(rows, |rows|, attempts, [], total, failures)
    ensures Loaded(rows, attempts, failures)
  {
    assert rows[..|rows|] == rows;
    assert Flatten(Inserted(attempts)) + [] == Flatten(Inserted(attempts));
  }

  /** The final flush of a non-empty buffer closes a well-formed call log. */
  lemma {:induction false} FinalFlushLog(attempts: seq<Attempt>, docs: seq<Document>, failures: set<nat>)
    requires FlushLog(attempts, failures)
    requires |attempts| > 0 && !attempts[|attempts| - 1].ok ==> attempts[|attempts| - 1].docs <= docs
    requires docs != []
    ensures CallLog(attempts + [Attempt(docs, Succeeds(|attempts|, failures), true)], failures)
  {
    var log := attempts + [Attempt(docs, Succeeds(|attempts|, failures), true)];
    forall j, k | 0 <= j < k < |log| && k == j + 1 && !log[j].ok ensures log[j].docs <= log[k].docs {
      if k < |attempts| { assert log[j] == attempts[j] && log[k] == attempts[k]; }
    }
    assert forall k :: 0 <= k < |log| ==> log[k].ok == Succeeds(k, failures);
  }

  /** With every row read, the final flush of a non-empty buffer completes the load. */
  lemma {:induction false} LoadedFinalFlush(rows: seq<Row>, attempts: seq<Attempt>, docs: seq<Document>, total: nat, failures: set<nat>)
    requires Buffered(rows, |rows|, attempts, docs, total, failures)
    requires docs != []
    ensures var a := Attempt(docs, Succeeds(|attempts|, failures), true);
      && Loaded(rows, attempts + [a], failures)
      && (if a.ok then total + |docs| else total) == |Flatten(Inserted(attempts + [a]))|
  {
    assert rows[..|rows|] == rows;
    var a := Attempt(docs, Succeeds(|attempts|, failures), true);
    FinalFlushLog(attempts, docs, failures);
    InsertedAppend(attempts, a);
    var sent := Flatten(Inserted(attempts));
    if a.ok {
      FlattenAppend(Inserted(attempts), a.docs);
    } else {
      assert |sent| < |sent + docs|;
    }
  }

  /**
   * The reference schedule of the application loader: the calls made and the
   * buffer left after the documents `ds` were appended one by one, each
   * append followed by a flush once the buffer holds BatchSize documents.
   */
  function Feed(ds: seq<Document>, failures: set<nat>): (seq<Attempt>, seq<Document>)
  {
    if ds == [] then ([], [])
    else
      var prev := Feed(ds[..|ds| - 1], failures);
      var buf := prev.1 + [ds[|ds| - 1]];
      if |buf| < BatchSize then (prev.0, buf)
      else if Succeeds(|prev.0|, failures) then (prev.0 + [Attempt(buf, true, false)], [])
      else (prev.0 + [Attempt(buf, false, false)], buf)
  }

  /** Every insert_many call of a whole load: the in-loop flushes, then the final flush of a non-empty buffer. */
  function Schedule(ds: seq<Document>, failures: set<nat>): seq<Attempt>
  {
    var (log, buf) := Feed(ds, failures);
    if buf == [] then log else log + [Attempt(buf, Succeeds(|log|, failures), true)]
  }

  /**
   * When a call is made, given the calls before it: a flush that starts from
   * an empty buffer sends exactly BatchSize documents, one right after a
   * failed flush sends that flush's documents and exactly one more; the final
   * flush sends fewer than BatchSize documents, or exactly the documents of a
   * failed flush just before it.
   */
  ghost predicate OnTimeAfter(before: seq<Attempt>, a: Attempt)
  {
    if before == [] || before[|before| - 1].ok then
      if a.final then 0 < |a.docs| < BatchSize else |a.docs| == BatchSize
    else
      var failed := before[|before| - 1].docs;
      if a.final then a.docs == failed else failed <= a.docs && |a.docs| == |failed| + 1
  }

  /** Every call of the log is made on time. */
  ghost predicate FlushesOnTime(attempts: seq<Attempt>)
  {
    forall k :: 0 <= k < |attempts| ==> OnTimeAfter(attempts[..k], attempts[k])
  }

  /** The state Feed reaches: in-loop flushes on time, and a buffer below BatchSize or holding the failed flush. */
  ghost predicate FeedState(log: seq<Attempt>, buf: seq<Document>, failures: set<nat>)
  {
    && FlushesOnTime(log)
    && (forall k :: 0 <= k < |log| ==> !log[k].final && log[k].ok == Succeeds(k, failures) && |log[k].docs| >= BatchSize)
    && (log == [] || log[|log| - 1].ok ==> |buf| < BatchSize)
    && (log != [] && !log[|log| - 1].ok ==> buf == log[|log| - 1].docs)
  }

  /** Appending a call that is on time, given the calls before it, keeps the log on time. */
  lemma {:induction false} OnTimeAppend(log: seq<Attempt>, a: Attempt)
    requires FlushesOnTime(log)
    requires OnTimeAfter(log, a)
    ensures FlushesOnTime(log + [a])
  {
    var s := log + [a];
    forall k | 0 <= k < |s| ensures OnTimeAfter(s[..k], s[k]) {
      if k < |log| {
        assert s[..k] == log[..k] && s[k] == log[k];
      } else {
        assert s[..k] == log;
      }
    }
  }

  /** One more document keeps the state Feed reaches. */
  lemma {:induction false} FeedStep(log: seq<Attempt>, buf: seq<Document>, d: Document, failures: set<nat>)
    requires FeedState(log, buf, failures)
    ensures var b := buf + [d];
      if |b| < BatchSize then FeedState(log, b, failures)
      else if Succeeds(|log|, failures) then FeedState(log + [Attempt(b, true, false)], [], failures)
      else FeedState(log + [Attempt(b, false, false)], b, failures)
  {
    var b := buf + [d];
    if |b| >= BatchSize {
      var a := Attempt(b, Succeeds(|log|, failures), false);
      assert buf <= b;
      OnTimeAppend(log, a);
      var s := log + [a];
      assert forall k :: 0 <= k < |log| ==> s[k] == log[k];
    }
  }

  lemma {:induction false} FeedOnTime(ds: seq<Document>, failures: set<nat>)
    ensures FeedState(Feed(ds, failures).0, Feed(ds, failures).1, failures)
  {
    if ds != [] {
      var prev := Feed(ds[..|ds| - 1], failures);
      FeedOnTime(ds[..|ds| - 1], failures);
      FeedStep(prev.0, prev.1, ds[|ds| - 1], failures);
    }
  }

  /** Feed after one more row: its document, if it has one, is appended to the buffer and flushed when full. */
  lemma {:induction false} FeedRow(rows: seq<Row>, i: nat, failures: set<nat>)
    requires i < |rows|
    ensures var prev := Feed(Documents(rows[..i], AppLoader), failures);
      var next := Feed(Documents(rows[..i + 1], AppLoader), failures);
      match MakeDocument(rows[i], AppLoader)
      case None => next == prev
      case Some(d) =>
        var b := prev.1 + [d];
        next == (if |b| < BatchSize then (prev.0, b)
                 else if Succeeds(|prev.0|, failures) then (prev.0 + [Attempt(b, true, false)], [])
                 else (prev.0 + [Attempt(b, false, false)], b))
  {
    DocumentsAppend(rows[..i], rows[i], AppLoader);
    assert rows[..i + 1] == rows[..i] + [rows[i]];
    var ds := Documents(rows[..i], AppLoader);
    if rows[i].entry.Text? {
      var d := MakeDocument(rows[i], AppLoader).value;
      assert (ds + [d])[..|ds|] == ds;
    }
  }

  /** The schedule flushes on time, each call's outcome is the oracle's, and only the last call is final. */
  lemma {:induction false} ScheduleOnTime(ds: seq<Document>, failures: set<nat>)
    ensures FlushesOnTime(Schedule(ds, failures))
    ensures forall k :: 0 <= k < |Schedule(ds, failures)| ==>
      Schedule(ds, failures)[k].ok == Succeeds(k, failures) &&
      (Schedule(ds, failures)[k].final <==> k == |Schedule(ds, failures)| - 1 && Feed(ds, failures).1 != [])
  {
    FeedOnTime(ds, failures);
    var log, buf := Feed(ds, failures).0, Feed(ds, failures).1;
    if buf != [] {
      var a := Attempt(buf, Succeeds(|log|, failures), true);
      assert OnTimeAfter(log, a);
      OnTimeAppend(log, a);
      var s := log + [a];
      assert Schedule(ds, failures) == s;
      assert forall k :: 0 <= k < |log| ==> s[k] == log[k];
    } else {
      assert Schedule(ds, failures) == log;
    }
  }

  /**
   * load_tsv_to_mongo of the application. `failures` holds the indices of
   * the insert_many calls that raise (the store is not modelled). A failed flush keeps
   * the buffer, so its documents are sent again with the next flush.
   */
  method LoadTsvToMongo(rows: seq<Row>, failures: set<nat>) returns (attempts: seq<Attempt>, totalInserted: nat)
    ensures attempts == Schedule(Documents(rows, AppLoader), failures)
    ensures Loaded(rows, attempts, failures)
    ensures totalInserted == |Flatten(Inserted(attempts))|
  {
    var docs: seq<Document> := [];
    attempts := [];
    totalInserted := 0;
    var i := 0;
    assert rows[..0] == [];
    while i < |rows|
      invariant Buffered(rows, i, attempts, docs, totalInserted, failures)
      invariant (attempts, docs) == Feed(Documents(rows[..i], AppLoader), failures)
    {
      BufferedRow(rows, i, attempts, docs, totalInserted, failures);
      FeedRow(rows, i, failures);
      var d := MakeDocument(rows[i], AppLoader);
      i := i + 1;
      if d.Some? {
        docs := docs + [d.value];
        if |docs| >= BatchSize {
          BufferedFlush(rows, i, attempts, docs, totalInserted, failures);
          attempts, docs, totalInserted := FlushBatch(attempts, docs, totalInserted, failures);
        }
      }
    }
    assert rows[..|rows|] == rows;
    if docs == [] {
      LoadedEmptyBuffer(rows, attempts, totalInserted, failures);
    } else {
      LoadedFinalFlush(rows, attempts, docs, totalInserted, failures);
      var ok := Succeeds(|attempts|, failures);
      if ok {
        totalInserted := totalInserted + |docs|;
      }
      attempts := attempts + [Attempt(docs, ok, true)];
    }
  }

  /** The in-loop flush: one insert_many call; only a successful call empties the buffer. */
  method FlushBatch(attempts: seq<Attempt>, docs: seq<Document>, total: nat, failures: set<nat>)
    returns (attempts': seq<Attempt>, docs': seq<Document>, total': nat)
    ensures attempts' == attempts + [Attempt(docs, Succeeds(|attempts|, failures), false)]
    ensures Succeeds(|attempts|, failures) ==> docs' == [] && total' == total + |docs|
    ensures !Succeeds(|attempts|, failures) ==> docs' == docs && total' == total
  {
    var ok := Succeeds(|attempts|, failures);
    attempts' := attempts + [Attempt(docs, ok, false)];
    docs', total' := docs, total;
    if ok {
      total' := total + |docs|;
      docs' := [];
    }
  }

  // ---------------------------------------------------------------------------
  // The backend loader: one bulk insert, or nothing when no row was kept
  // ---------------------------------------------------------------------------

  datatype BackendLoad = NothingToInsert | InsertAll(docs: seq<Document>)

  /** load_tsv_to_mongo of the backend, up to the bulk insert (the store is not modelled). */
  method LoadBackend(rows: seq<Row>) returns (load: BackendLoad)
    ensures load.NothingToInsert? <==> (forall i :: 0 <= i < |rows| ==> !rows[i].entry.Text?)
    ensures load.InsertAll? ==> load.docs == Documents(rows, BackendLoader) && load.docs != []
  {
    var docs: seq<Document> := [];
    var i := 0;
    while i < |rows|
      invariant 0 <= i <= |rows|
      invariant docs == Documents(rows[..i], BackendLoader)
      invariant docs == [] <==> (forall j :: 0 <= j < i ==> !rows[j].entry.Text?)
    {
      DocumentsAppend(rows[..i], rows[i], BackendLoader);
      assert rows[..i + 1] == rows[..i] + [rows[i]];
      var d := MakeDocument(rows[i], BackendLoader);
      if d.Some? {
        docs := docs + [d.value];
      }
      i := i + 1;
    }
    assert rows[..i] == rows;
    if docs == [] {
      load := NothingToInsert;
    } else {
      load := InsertAll(docs);
    }
  }
}
