/**
 * `clean_pdf_document`: extraction, font profiling and body-text filtering,
 * then the text stages in their fixed order: e-mail scrub, numeral scrub,
 * the header pattern when one is given, punctuation scrub, lower-casing and
 * stripping, stopword removal, and entity redaction. An empty filtered text
 * ends the run with the empty string before any later stage.
 *
 * The pieces the pipeline calls out to are parameters: `removePattern`
 * stands for `re.sub(pattern, '', text)` with the caller's header pattern,
 * `stopwords` for the stopword list, and `ner` for the named-entity
 * recogniser.
 */
module Pipeline {
  import opened Wrappers
  import opened Seqs
  import opened Text
  import opened Layout
  import opened Extraction
  import opened FontProfile
  import opened Normalization
  import opened Redaction

  /** The body text of the document: the blocks whose size is within the tolerance of the average, joined. */
  function FilteredText(doc: Document): string
  {
    var blocks := LineBlocks(TextLines(doc));
    FilterByAverageFontSize(blocks, CalculateAverageFontSize(SizesOf(blocks)))
  }

  /** A header pattern is applied when it is given and non-empty (Python's truthiness of `header_pattern`). */
  predicate HasHeader(headerPattern: Option<string>)
  {
    headerPattern.Some? && headerPattern.value != ""
  }

  /** The text stages between the font filter and the recogniser, in the source's order. */
  function Normalized(text: string, headerPattern: Option<string>, removePattern: (string, string) -> string,
                      stopwords: set<string>): string
  {
    var noEmails := RemoveEmails(text);
    var noNumbers := RemoveNumbers(noEmails);
    var noHeader := if HasHeader(headerPattern) then removePattern(noNumbers, headerPattern.value) else noNumbers;
    var noPunct := CleanPunctuation(noHeader);
    var lowered := NormalizeText(noPunct);
    RemoveStopwords(lowered, stopwords)
  }

  /** What `clean_pdf_document` returns, with the entities of groups in `labels` redacted. */
  function CleanedText(doc: Document, headerPattern: Option<string>, removePattern: (string, string) -> string,
                       stopwords: set<string>, ner: string -> seq<Entity>, labels: seq<string>): string
  {
    var filtered := FilteredText(doc);
    if filtered == "" then ""
    else
      var normalized := Normalized(filtered, headerPattern, removePattern, stopwords);
      Redact(normalized, ner(normalized), labels)
  }

  /**
   * The orchestration, one stage after the other on a reassigned working
   * text; the recogniser is consulted once, on the normalized text, and the
   * entities whose group is one of the tag labels the source lists are
   * redacted.
   */
  method CleanPdfDocument(doc: Document, headerPattern: Option<string>, removePattern: (string, string) -> string,
                          stopwords: set<string>, ner: string -> seq<Entity>) returns (text: string)
    ensures text == CleanedText(doc, headerPattern, removePattern, stopwords, ner, SourceLabels)
    ensures FilteredText(doc) == "" ==> text == ""
  {
    var blocks, sizes := ExtractTextWithFontSize(doc);
    assert sizes == SizesOf(blocks);
    var average := CalculateAverageFontSize(sizes);
    text := FilterByAverageFontSize(blocks, average);
    if text == "" {
      return "";
    }
    text := RemoveEmails(text);
    text := RemoveNumbers(text);
    if headerPattern.Some? && headerPattern.value != "" {
      text := removePattern(text, headerPattern.value);
    }
    text := CleanPunctuation(text);
    text := NormalizeText(text);
    text := RemoveStopwords(text, stopwords);
    var entities := ner(text);
    text := RemoveNamedEntities(text, entities, SourceLabels);
  }

  /** With no header pattern, or an empty one, the header stage does nothing, whatever the pattern function is. */
  lemma UnsetHeaderIsNoOp(text: string, p1: (string, string) -> string, p2: (string, string) -> string,
                          stopwords: set<string>)
    ensures Normalized(text, None, p1, stopwords) == Normalized(text, Some(""), p2, stopwords)
  {
  }

  /** A document none of whose text lines has a character glyph yields no text, whatever the later stages are. */
  lemma {:induction false} NoSizedLinesNoText(doc: Document, headerPattern: Option<string>,
                                              removePattern: (string, string) -> string, stopwords: set<string>,
                                              ner: string -> seq<Entity>, labels: seq<string>)
    requires forall i :: 0 <= i < |TextLines(doc)| ==> !HasFontSize(TextLines(doc)[i])
    ensures FilteredText(doc) == ""
    ensures CleanedText(doc, headerPattern, removePattern, stopwords, ner, labels) == ""
  {
    var lines := TextLines(doc);
    LineBlocksAreSizedLines(lines);
    FilterLength(lines, HasFontSize);
    assert Filter(lines, HasFontSize) == [] by {
      FilterNoneKept(lines, HasFontSize);
    }
  }

  /** A document without text containers (say, only images) yields no text. */
  lemma NoContainersNoText(doc: Document, headerPattern: Option<string>, removePattern: (string, string) -> string,
                           stopwords: set<string>, ner: string -> seq<Entity>, labels: seq<string>)
    requires forall p, e :: 0 <= p < |doc| && 0 <= e < |doc[p]| ==> doc[p][e].OtherElement?
    ensures CleanedText(doc, headerPattern, removePattern, stopwords, ner, labels) == ""
  {
    NoContainersNoLines(doc);
    NoSizedLinesNoText(doc, headerPattern, removePattern, stopwords, ner, labels);
  }

  /** The early exit happens before any cleaning or recogniser stage: none of them can change the outcome. */
  lemma EarlyExitIgnoresLaterStages(doc: Document,
                                    h1: Option<string>, p1: (string, string) -> string, s1: set<string>,
                                    n1: string -> seq<Entity>, l1: seq<string>,
                                    h2: Option<string>, p2: (string, string) -> string, s2: set<string>,
                                    n2: string -> seq<Entity>, l2: seq<string>)
    requires FilteredText(doc) == ""
    ensures CleanedText(doc, h1, p1, s1, n1, l1) == CleanedText(doc, h2, p2, s2, n2, l2) == ""
  {
  }

  /** Redaction only deletes: the result is no longer than the normalized text and uses only its characters. */
  lemma RedactionOnlyDeletes(doc: Document, headerPattern: Option<string>, removePattern: (string, string) -> string,
                             stopwords: set<string>, ner: string -> seq<Entity>, labels: seq<string>)
    requires FilteredText(doc) != ""
    ensures var normalized := Normalized(FilteredText(doc), headerPattern, removePattern, stopwords);
            var r := CleanedText(doc, headerPattern, removePattern, stopwords, ner, labels);
            && |r| <= |normalized|
            && forall i :: 0 <= i < |r| ==> r[i] in normalized
  {
  }

  /** When the recogniser reports no entity of a suppressed group, the result is the normalized text. */
  lemma NothingSuppressedKeepsNormalized(doc: Document, headerPattern: Option<string>,
                                         removePattern: (string, string) -> string, stopwords: set<string>,
                                         ner: string -> seq<Entity>, labels: seq<string>)
    requires FilteredText(doc) != ""
    requires var normalized := Normalized(FilteredText(doc), headerPattern, removePattern, stopwords);
             forall i :: 0 <= i < |ner(normalized)| ==> ner(normalized)[i].group !in labels
    ensures CleanedText(doc, headerPattern, removePattern, stopwords, ner, labels)
            == Normalized(FilteredText(doc), headerPattern, removePattern, stopwords)
  {
    var normalized := Normalized(FilteredText(doc), headerPattern, removePattern, stopwords);
    RedactNothingSuppressed(normalized, ner(normalized), labels);
  }

  /**
   * As written, `clean_pdf_document` passes the tag labels to the redactor,
   * and a recogniser reporting aggregated person, organisation and location
   * groups then leaves the normalized text untouched.
   */
  lemma AsWrittenPipelineRedactsNothing(doc: Document, headerPattern: Option<string>,
                                        removePattern: (string, string) -> string, stopwords: set<string>,
                                        ner: string -> seq<Entity>)
    requires FilteredText(doc) != ""
    requires var normalized := Normalized(FilteredText(doc), headerPattern, removePattern, stopwords);
             forall i :: 0 <= i < |ner(normalized)| ==> ner(normalized)[i].group in AggregatedGroups
    ensures CleanedText(doc, headerPattern, removePattern, stopwords, ner, SourceLabels)
            == Normalized(FilteredText(doc), headerPattern, removePattern, stopwords)
  {
    var normalized := Normalized(FilteredText(doc), headerPattern, removePattern, stopwords);
    AsWrittenRedactsNothing(normalized, ner(normalized));
  }

  /**
   * The same run with the corrected labels: a person, organisation or
   * location the recogniser reports in the normalized text is deleted from
   * it (with the labels as written, `AsWrittenPipelineRedactsNothing`, the
   * text stays as it is).
   */
  lemma CorrectedPipelineRedactsEntity(doc: Document, headerPattern: Option<string>,
                                       removePattern: (string, string) -> string, stopwords: set<string>,
                                       ner: string -> seq<Entity>, e: Entity)
    requires e.group in AggregatedGroups && e.word != []
    ensures var normalized := Normalized(FilteredText(doc), headerPattern, removePattern, stopwords);
            var corrected := CleanedText(doc, headerPattern, removePattern, stopwords, ner, SuppressedGroups);
            FilteredText(doc) != "" && ner(normalized) == [e] && Occurs(e.word, normalized) ==>
              && corrected == DeleteAll(normalized, e.word)
              && |corrected| < |normalized|
  {
    var normalized := Normalized(FilteredText(doc), headerPattern, removePattern, stopwords);
    if FilteredText(doc) != "" && ner(normalized) == [e] && Occurs(e.word, normalized) {
      CleanedTextIsRedaction(doc, headerPattern, removePattern, stopwords, ner, SuppressedGroups);
      CorrectedRedactsEntity(normalized, e);
    }
  }

  /** Past the early exit, the cleaned text is the redaction of the normalized text. */
  lemma CleanedTextIsRedaction(doc: Document, headerPattern: Option<string>,
                               removePattern: (string, string) -> string, stopwords: set<string>,
                               ner: string -> seq<Entity>, labels: seq<string>)
    requires FilteredText(doc) != ""
    ensures var normalized := Normalized(FilteredText(doc), headerPattern, removePattern, stopwords);
            CleanedText(doc, headerPattern, removePattern, stopwords, ner, labels)
            == Redact(normalized, ner(normalized), labels)
  {
  }

  /** No punctuation, no upper-case letter and no digit. */
  predicate Scrubbed(s: string)
  {
    forall i :: 0 <= i < |s| ==> !IsPunct(s[i]) && !IsUpper(s[i]) && !IsDigit(s[i])
  }

  /** `re.sub(pattern, '', text)` only deletes: every character of its result comes from the text. */
  ghost predicate OnlyDeletes(removePattern: (string, string) -> string)
  {
    forall text, pattern :: forall i :: 0 <= i < |removePattern(text, pattern)| ==>
      removePattern(text, pattern)[i] in text
  }

  /** The header stage, when it runs, only deletes, so it keeps out the digits the numeral scrub removed. */
  lemma HeaderStageChars(noNumbers: string, headerPattern: Option<string>, removePattern: (string, string) -> string)
    requires HasHeader(headerPattern) ==> OnlyDeletes(removePattern)
    requires forall i :: 0 <= i < |noNumbers| ==> !IsDigit(noNumbers[i])
    ensures var noHeader := if HasHeader(headerPattern) then removePattern(noNumbers, headerPattern.value) else noNumbers;
            forall i :: 0 <= i < |noHeader| ==> !IsDigit(noHeader[i])
  {
    if HasHeader(headerPattern) {
      var noHeader := removePattern(noNumbers, headerPattern.value);
      forall i | 0 <= i < |noHeader|
        ensures !IsDigit(noHeader[i])
      {
        assert noHeader[i] in noNumbers;
        var j :| 0 <= j < |noNumbers| && noNumbers[j] == noHeader[i];
      }
    }
  }

  /** The punctuation scrub leaves no punctuation, and keeps out the digits the earlier stages removed. */
  lemma PunctuationStageChars(noHeader: string)
    requires forall i :: 0 <= i < |noHeader| ==> !IsDigit(noHeader[i])
    ensures var r := CleanPunctuation(noHeader);
            forall i :: 0 <= i < |r| ==> !IsPunct(r[i]) && !IsDigit(r[i])
  {
  }

  /** Lower-casing and stripping a text with no punctuation and no digit leaves it scrubbed. */
  lemma LowerStageChars(noPunct: string)
    requires forall i :: 0 <= i < |noPunct| ==> !IsPunct(noPunct[i]) && !IsDigit(noPunct[i])
    ensures Scrubbed(NormalizeText(noPunct))
  {
    var low := Lower(noPunct);
    assert forall i :: 0 <= i < |low| ==> !IsPunct(low[i]) && !IsDigit(low[i]);
  }

  /** Stopword removal keeps a scrubbed text scrubbed, and its only whitespace is the single space. */
  lemma StopwordStageChars(lowered: string, stopwords: set<string>)
    requires Scrubbed(lowered)
    ensures var r := RemoveStopwords(lowered, stopwords);
            Scrubbed(r) && SingleSpaced(r)
  {
    var r := RemoveStopwords(lowered, stopwords);
    RemoveStopwordsChars(lowered, stopwords);
    forall i | 0 <= i < |r|
      ensures !IsPunct(r[i]) && !IsUpper(r[i]) && !IsDigit(r[i])
    {
      if r[i] != ' ' {
        var j :| 0 <= j < |lowered| && lowered[j] == r[i];
      }
    }
    assert SingleSpaced(r) by {
      RemoveStopwordsTokens(lowered, stopwords);
    }
  }

  /**
   * A normalized text is single-spaced and has no punctuation, no
   * upper-case letter and no digit, whether or not a header pattern is
   * applied, since that stage only deletes.
   */
  lemma NormalizedChars(text: string, headerPattern: Option<string>,
                        removePattern: (string, string) -> string, stopwords: set<string>)
    requires HasHeader(headerPattern) ==> OnlyDeletes(removePattern)
    ensures var n := Normalized(text, headerPattern, removePattern, stopwords);
            Scrubbed(n) && SingleSpaced(n)
  {
    var noNumbers := RemoveNumbers(RemoveEmails(text));
    var noHeader := if HasHeader(headerPattern) then removePattern(noNumbers, headerPattern.value) else noNumbers;
    HeaderStageChars(noNumbers, headerPattern, removePattern);
    PunctuationStageChars(noHeader);
    var noPunct := CleanPunctuation(noHeader);
    LowerStageChars(noPunct);
    StopwordStageChars(NormalizeText(noPunct), stopwords);
  }

  /** The cleaned text has no punctuation, no upper-case letter and no digit. */
  lemma CleanedTextChars(doc: Document, headerPattern: Option<string>, removePattern: (string, string) -> string,
                         stopwords: set<string>, ner: string -> seq<Entity>, labels: seq<string>)
    requires HasHeader(headerPattern) ==> OnlyDeletes(removePattern)
    ensures Scrubbed(CleanedText(doc, headerPattern, removePattern, stopwords, ner, labels))
  {
    var filtered := FilteredText(doc);
    if filtered != "" {
      var n := Normalized(filtered, headerPattern, removePattern, stopwords);
      assert Scrubbed(n) by {
        NormalizedChars(filtered, headerPattern, removePattern, stopwords);
      }
      RedactKeepsScrubbed(n, ner(n), labels);
    }
  }

  /** Redaction only deletes, so it keeps a scrubbed text scrubbed. */
  lemma RedactKeepsScrubbed(n: string, entities: seq<Entity>, labels: seq<string>)
    requires Scrubbed(n)
    ensures Scrubbed(Redact(n, entities, labels))
  {
    var r := Redact(n, entities, labels);
    forall i | 0 <= i < |r|
      ensures !IsPunct(r[i]) && !IsUpper(r[i]) && !IsDigit(r[i])
    {
      var j :| 0 <= j < |n| && n[j] == r[i];
    }
  }

  /** Without a header pattern, running the text stages again on their own output changes nothing. */
  lemma NormalizedIdempotent(text: string, removePattern: (string, string) -> string, stopwords: set<string>)
    ensures var n := Normalized(text, None, removePattern, stopwords);
            Normalized(n, None, removePattern, stopwords) == n
  {
    var lowered := NormalizeText(CleanPunctuation(RemoveNumbers(RemoveEmails(text))));
    var n := RemoveStopwords(lowered, stopwords);
    assert n == Normalized(text, None, removePattern, stopwords);
    assert Scrubbed(n) && SingleSpaced(n) by {
      NormalizedChars(text, None, removePattern, stopwords);
    }
    assert NormalizeText(CleanPunctuation(RemoveNumbers(RemoveEmails(n)))) == n by {
      ScrubbedTextIsStable(n);
    }
    assert RemoveStopwords(n, stopwords) == n by {
      RemoveStopwordsIdempotent(lowered, stopwords);
    }
    assert Normalized(n, None, removePattern, stopwords)
        == RemoveStopwords(NormalizeText(CleanPunctuation(RemoveNumbers(RemoveEmails(n)))), stopwords);
  }

  /** A scrubbed, single-spaced text passes the scrubs and the case normalization unchanged. */
  lemma ScrubbedTextIsStable(n: string)
    requires Scrubbed(n) && SingleSpaced(n)
    ensures NormalizeText(CleanPunctuation(RemoveNumbers(RemoveEmails(n)))) == n
  {
    assert forall i :: 0 <= i < |n| ==> n[i] != '@';
    RemoveEmailsWithoutAt(n);
    FilterAllKept(n, IsNonDigit);
    FilterAllKept(n, IsNonPunct);
    LowerUnchanged(n);
    StripUnchanged(n);
  }
}
