/**
 * `MyDocumentLoader` (my_document_loader.ts): turns the string its load
 * function resolves to into one document per line, empty lines included,
 * each carrying its 1-based line number as its only metadata.
 */
module DocumentLoader {
  import opened Wrappers
  import opened JsStrings

  /** A document: its content and its metadata (here only `lineNumber`). */
  datatype Document = Document(pageContent: String, metadata: map<String, int>)

  /** `{ lineNumber: i + 1 }` for the line at index `i`. */
  function LineMetadata(i: nat): map<String, int> {
    map["lineNumber" := i + 1]
  }

  /** `.map((line, i) => new Document({ pageContent: line, metadata: { lineNumber: i + 1 } }))` */
  function Numbered(lines: seq<String>): (docs: seq<Document>)
    ensures |docs| == |lines|
    ensures forall i :: 0 <= i < |docs| ==> docs[i] == Document(lines[i], map["lineNumber" := i + 1])
  {
    seq(|lines|, i requires 0 <= i < |lines| => Document(lines[i], LineMetadata(i)))
  }

  /** `text.split("\n")`, each line numbered from 1. */
  function Load(text: String): (docs: seq<Document>)
    ensures |docs| == multiset(text)['\n'] + 1
    ensures forall i :: 0 <= i < |docs| ==> docs[i].metadata == map["lineNumber" := i + 1]
    ensures forall i :: 0 <= i < |docs| ==> '\n' !in docs[i].pageContent
  {
    SplitOnCharFields(text, '\n');
    Numbered(Split(text, "\n"))
  }

  /** `load()`: a rejected source is passed on unchanged; a resolved one is split into lines. */
  function LoadFrom<E>(source: Result<String, E>): (docs: Result<seq<Document>, E>)
    ensures source.Failure? ==> docs == Failure(source.error)
    ensures source.Success? ==> docs == Success(Load(source.value))
    ensures source.Success? ==> docs.Success? && |docs.value| == multiset(source.value)['\n'] + 1
  {
    match source
    case Failure(e) => Failure(e)
    case Success(text) => Success(Load(text))
  }

  /** The contents of the documents, in order. */
  function Contents(docs: seq<Document>): seq<String> {
    seq(|docs|, i requires 0 <= i < |docs| => docs[i].pageContent)
  }

  /** Joining the contents with "\n" gives back the loaded text. */
  lemma LoadRoundTrip(text: String)
    ensures Join(Contents(Load(text)), "\n") == text
  {
    assert Contents(Load(text)) == Split(text, "\n");
  }

  /**
   * The documents are exactly the given lines, empty ones included, whenever
   * the text is those lines joined with "\n": no line is dropped, merged or altered.
   */
  lemma LoadKeepsEveryLine(lines: seq<String>)
    requires |lines| >= 1
    requires forall k :: 0 <= k < |lines| ==> '\n' !in lines[k]
    ensures Contents(Load(Join(lines, "\n"))) == lines
  {
    SplitOnCharUnique(lines, '\n');
    assert Split(Join(lines, "\n"), "\n") == lines;
  }

  /** Line numbers start at 1 and go up by one from each document to the next. */
  lemma LoadLineNumbersConsecutive(text: String)
    ensures Load(text)[0].metadata["lineNumber"] == 1
    ensures forall i :: 0 < i < |Load(text)| ==>
      Load(text)[i].metadata["lineNumber"] == Load(text)[i - 1].metadata["lineNumber"] + 1
  {
  }

  /** The empty text is one empty line. */
  lemma LoadEmptyText()
    ensures Load("") == [Document("", map["lineNumber" := 1])]
  {
    SplitOnCharNone([], '\n');
  }

  /** The six-line example text, written line by line. */
  const SixLines: String :=
    "今日は" + "\n" + ("朝から" + "\n" + ("とても" + "\n" + ("いい天気なので" + "\n" + ("散歩に" + "\n" + "行ったよ"))))

  /** Joining a first part onto at least one more. */
  lemma JoinCons(first: String, rest: seq<String>, sep: String)
    requires |rest| >= 1
    ensures Join([first] + rest, sep) == first + sep + Join(rest, sep)
  {
    assert ([first] + rest)[1..] == rest;
  }

  /** The six-line example's lines. */
  lemma SixLinesFields()
    ensures Split(SixLines, "\n") == ["今日は", "朝から", "とても", "いい天気なので", "散歩に", "行ったよ"]
  {
    var l1, l2, l3, l4, l5, l6 := "今日は", "朝から", "とても", "いい天気なので", "散歩に", "行ったよ";
    var sep := "\n";
    JoinCons(l5, [l6], sep);
    JoinCons(l4, [l5, l6], sep);
    JoinCons(l3, [l4, l5, l6], sep);
    JoinCons(l2, [l3, l4, l5, l6], sep);
    JoinCons(l1, [l2, l3, l4, l5, l6], sep);
    var lines := [l1, l2, l3, l4, l5, l6];
    assert SixLines == Join(lines, sep);
    assert forall k :: 0 <= k < |lines| ==> '\n' !in lines[k];
    SplitOnCharUnique(lines, '\n');
  }

  /** The six-line example gives six documents numbered 1 to 6. */
  lemma LoadSixLines()
    ensures var docs := Load(SixLines);
      && |docs| == 6
      && docs[0] == Document("今日は", map["lineNumber" := 1])
      && docs[5] == Document("行ったよ", map["lineNumber" := 6])
  {
    SixLinesFields();
  }
}
