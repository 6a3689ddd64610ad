/**
 * `enhanceDynamoDBTable` (content.js): every table cell that does not yet
 * carry the `data-timestamp-processed` marker and whose trimmed text is a
 * timestamp gets the marker, its tooltip markup cached in
 * `data-timestamp-content`, a dotted underline, a help cursor and one
 * mouseenter/mouseleave listener pair.
 *
 * The document's `td` elements are an array of cell records in document
 * order; `convertTimestampToDate` (host locale formatting) is the
 * parameter `convert`.
 */
module TableScanner {
  import opened Wrappers
  import opened Classifier

  /** A `td` element, as far as the scanner reads and writes it. */
  datatype Cell = Cell(
    text: string,            // textContent
    processed: bool,         // the data-timestamp-processed attribute is present
    content: Option<string>, // the data-timestamp-content attribute
    textDecoration: string,  // style.textDecoration
    cursor: string,          // style.cursor
    hoverListeners: nat      // mouseenter/mouseleave pairs added by the scanner
  )

  const DottedUnderline: string := "underline dotted"
  const HelpCursor: string := "help"

  /** The forEach body for one selected cell. */
  function Enhance(c: Cell, convert: nat -> string): Cell {
    match Classify(c.text)
    case None => c
    case Some(timestamp) =>
      c.(processed := true, content := Some(convert(timestamp)),
         textDecoration := DottedUnderline, cursor := HelpCursor,
         hoverListeners := c.hoverListeners + 1)
  }

  /** What one scan does to a cell: only cells without the marker are selected. */
  function ScanCell(c: Cell, convert: nat -> string): Cell {
    if c.processed then c else Enhance(c, convert)
  }

  /** One scan of the whole table, cell by cell in document order. */
  function Scan(cells: seq<Cell>, convert: nat -> string): (r: seq<Cell>)
    ensures |r| == |cells|
    ensures forall i :: 0 <= i < |cells| ==> r[i] == ScanCell(cells[i], convert)
  {
    if cells == [] then [] else [ScanCell(cells[0], convert)] + Scan(cells[1..], convert)
  }

  /** The forEach body: the selector skips a marked cell, the timestamp test skips any other text. */
  method VisitCell(cell: Cell, convert: nat -> string) returns (updated: Cell)
    ensures updated == ScanCell(cell, convert)
  {
    updated := cell;
    if !cell.processed {
      match Classify(cell.text)
      case None =>
      case Some(timestamp) =>
        var date := convert(timestamp);
        updated := cell.(processed := true, content := Some(date),
                         textDecoration := DottedUnderline, cursor := HelpCursor,
                         hoverListeners := cell.hoverListeners + 1);
    }
  }

  /** Scanning one more cell extends the scan of the cells before it by that cell's outcome. */
  lemma {:induction false} ScanSnoc(cells: seq<Cell>, c: Cell, convert: nat -> string)
    ensures Scan(cells + [c], convert) == Scan(cells, convert) + [ScanCell(c, convert)]
  {
    if cells == [] {
      assert cells + [c] == [c];
    } else {
      assert (cells + [c])[1..] == cells[1..] + [c];
      ScanSnoc(cells[1..], c, convert);
    }
  }

  /** One step of the pass: the scanned prefix grows by the outcome of the next cell. */
  lemma ScanStep(before: seq<Cell>, i: nat, done: seq<Cell>, updated: Cell, convert: nat -> string)
    requires i < |before| && done == Scan(before[..i], convert) && updated == ScanCell(before[i], convert)
    ensures done + [updated] == Scan(before[..i + 1], convert)
  {
    assert before[..i + 1] == before[..i] + [before[i]];
    ScanSnoc(before[..i], before[i], convert);
  }

  /** The scan as the content script runs it: an in-place pass over the cells. */
  method EnhanceDynamoDBTable(cells: array<Cell>, convert: nat -> string)
    modifies cells
    ensures cells[..] == Scan(old(cells[..]), convert)
  {
    ghost var before := cells[..];
    for i := 0 to cells.Length
      invariant cells[..i] == Scan(before[..i], convert)
      invariant cells[i..] == before[i..]
    {
      ghost var done := cells[..i];
      var updated := VisitCell(cells[i], convert);
      ScanStep(before, i, done, updated, convert);
      cells[i] := updated;
      assert cells[..i + 1] == done + [updated];
    }
    assert before == before[..cells.Length];
  }

  /**
   * A cell without the marker whose text is a timestamp comes out annotated
   * with the formatted date of that timestamp, its text untouched.
   */
  lemma ScanAnnotatesTimestamps(cells: seq<Cell>, convert: nat -> string, i: nat, timestamp: nat)
    requires i < |cells| && !cells[i].processed && Classify(cells[i].text) == Some(timestamp)
    ensures Scan(cells, convert)[i].processed
    ensures Scan(cells, convert)[i].content == Some(convert(timestamp))
    ensures Scan(cells, convert)[i].textDecoration == DottedUnderline
    ensures Scan(cells, convert)[i].cursor == HelpCursor
    ensures Scan(cells, convert)[i].text == cells[i].text
    ensures Scan(cells, convert)[i].hoverListeners == cells[i].hoverListeners + 1
  {
  }

  /** A cell whose text is not a timestamp, or that already has the marker, is left exactly as it was. */
  lemma ScanLeavesOthersAlone(cells: seq<Cell>, convert: nat -> string, i: nat)
    requires i < |cells| && (cells[i].processed || Classify(cells[i].text) == None)
    ensures Scan(cells, convert)[i] == cells[i]
  {
  }

  /** A second scan over the unchanged table changes nothing. */
  lemma ScanIdempotent(cells: seq<Cell>, convert: nat -> string)
    ensures Scan(Scan(cells, convert), convert) == Scan(cells, convert)
  {
  }

  /** The table after n scans (each run of the debounced observer callback) with nothing else touching it. */
  function ScanTimes(cells: seq<Cell>, convert: nat -> string, n: nat): seq<Cell> {
    if n == 0 then cells else Scan(ScanTimes(cells, convert, n - 1), convert)
  }

  /** Any number of scans, at least one, leaves the table as one scan does. */
  lemma {:induction false} RepeatedScansAreOneScan(cells: seq<Cell>, convert: nat -> string, n: nat)
    requires n >= 1
    ensures ScanTimes(cells, convert, n) == Scan(cells, convert)
  {
    if n > 1 {
      RepeatedScansAreOneScan(cells, convert, n - 1);
      ScanIdempotent(cells, convert);
    }
  }

  /** A cell carries the scanner's listener pair exactly when it carries the marker. */
  predicate ListenersMatchMarker(c: Cell) {
    c.hoverListeners == if c.processed then 1 else 0
  }

  /** The cells of a page the scanner has not yet visited: no marker and no listeners. */
  predicate Untouched(cells: seq<Cell>) {
    forall i :: 0 <= i < |cells| ==> !cells[i].processed && cells[i].hoverListeners == 0
  }

  /**
   * However many times the table is scanned, starting from untouched cells,
   * each cell ends with at most one mouseenter/mouseleave pair, and with
   * one exactly when it is marked processed.
   */
  lemma {:induction false} AtMostOneListenerPair(cells: seq<Cell>, convert: nat -> string, n: nat)
    requires Untouched(cells)
    ensures |ScanTimes(cells, convert, n)| == |cells|
    ensures forall i :: 0 <= i < |cells| ==> ListenersMatchMarker(ScanTimes(cells, convert, n)[i])
    ensures forall i :: 0 <= i < |cells| ==> ScanTimes(cells, convert, n)[i].hoverListeners <= 1
  {
    if n >= 1 {
      RepeatedScansAreOneScan(cells, convert, n);
    }
  }

  /**
   * One observer callback keeps the promise: when every cell carries the
   * listener pair exactly when it carries the marker, so does every cell
   * after the scan, and none has more than one pair.
   */
  lemma ScanKeepsOneListenerPair(cells: seq<Cell>, convert: nat -> string)
    requires forall i :: 0 <= i < |cells| ==> ListenersMatchMarker(cells[i])
    ensures forall i :: 0 <= i < |cells| ==>
              ListenersMatchMarker(Scan(cells, convert)[i]) && Scan(cells, convert)[i].hoverListeners <= 1
  {
  }

  /**
   * What the page may do between two callbacks: remove or reorder cells and
   * insert new ones, which have neither the marker nor listeners.
   */
  predicate EditOf(before: seq<Cell>, after: seq<Cell>) {
    forall c :: c in after ==> c in before || (!c.processed && c.hoverListeners == 0)
  }

  /**
   * Over the life of the page: pages[0] is the table of the first scan, and
   * each later pages[r] is what the page made of the previous scan's result
   * before the r-th observer callback. After every scan each cell carries a
   * listener pair exactly when it is marked, and never more than one.
   */
  lemma {:induction false} PageLifetime(pages: seq<seq<Cell>>, convert: nat -> string)
    requires |pages| >= 1 && Untouched(pages[0])
    requires forall r :: 1 <= r < |pages| ==> EditOf(Scan(pages[r - 1], convert), pages[r])
    ensures forall c :: c in Scan(pages[|pages| - 1], convert) ==> ListenersMatchMarker(c) && c.hoverListeners <= 1
  {
    var last := pages[|pages| - 1];
    if |pages| == 1 {
      assert forall i :: 0 <= i < |last| ==> ListenersMatchMarker(last[i]);
    } else {
      PageLifetime(pages[..|pages| - 1], convert);
      var prev := Scan(pages[|pages| - 2], convert);
      assert EditOf(prev, last);
      forall i | 0 <= i < |last|
        ensures ListenersMatchMarker(last[i])
      {
        assert last[i] in last;
      }
    }
    ScanKeepsOneListenerPair(last, convert);
    var done := Scan(last, convert);
    forall c | c in done
      ensures ListenersMatchMarker(c) && c.hoverListeners <= 1
    {
      var i :| 0 <= i < |done| && done[i] == c;
    }
  }
}
