/**
 * The text scrubs of the main pipeline, each a total string-to-string
 * function: e-mail tokens (`\S+@\S+`), digit runs (`\d+`), ASCII
 * punctuation, lower-casing with stripping, and stopword removal.
 */
module Normalization {
  import opened Seqs
  import opened Text

  /**
   * A whitespace-delimited token that `\S+@\S+` matches: it has an '@' with at
   * least one character before it and one after it inside the token. (The
   * first `\S+` can start no later than the token does, and both runs stop at
   * whitespace, so a match always spans a whole token.)
   */
  predicate IsEmailToken(w: string)
  {
    exists j :: 0 < j < |w| - 1 && w[j] == '@'
  }

  predicate IsNotEmailToken(w: string)
  {
    !IsEmailToken(w)
  }

  /** `remove_emails`: each whitespace-delimited token that is an e-mail shape is deleted whole; whitespace stays. */
  function RemoveEmails(s: string): string
    decreases |s|
  {
    if s == [] then []
    else if IsSpace(s[0]) then [s[0]] + RemoveEmails(s[1..])
    else
      var n := TokenLen(s);
      KeepToken(s[..n]) + RemoveEmails(s[n..])
  }

  /** What the scrub leaves of one token: nothing for an e-mail shape, the token otherwise. */
  function KeepToken(w: string): string
  {
    if IsEmailToken(w) then [] else w
  }

  predicate IsNonDigit(c: char)
  {
    !IsDigit(c)
  }

  /** `remove_numbers`: deleting every maximal digit run deletes every digit. */
  function RemoveNumbers(s: string): (r: string)
    ensures forall i :: 0 <= i < |r| ==> !IsDigit(r[i])
  {
    Filter(s, IsNonDigit)
  }

  predicate IsNonPunct(c: char)
  {
    !IsPunct(c)
  }

  /** `clean_punctuation`: `str.translate` with every `string.punctuation` character mapped to deletion. */
  function CleanPunctuation(s: string): (r: string)
    ensures forall i :: 0 <= i < |r| ==> !IsPunct(r[i])
  {
    Filter(s, IsNonPunct)
  }

  /** `normalize_text`: lower-case, then strip. */
  function NormalizeText(s: string): (r: string)
    ensures forall i :: 0 <= i < |r| ==> !IsUpper(r[i])
    ensures r != [] ==> !IsSpace(r[0]) && !IsSpace(r[|r| - 1])
  {
    Strip(Lower(s))
  }

  function IsNotStopword(stopwords: set<string>): string -> bool
  {
    (w: string) => Lower(w) !in stopwords
  }

  /** `remove_stopwords`: split on whitespace, drop the words whose lower-case form is a stopword, join by single spaces. */
  function RemoveStopwords(s: string, stopwords: set<string>): string
  {
    Join(Filter(Split(s), IsNotStopword(stopwords)), " ")
  }

  // ---------------------------------------------------------------- e-mails

  /** The scrub works token by token: a string cut at a token boundary is scrubbed piecewise. */
  lemma {:induction false} RemoveEmailsAppend(a: string, b: string)
    requires b == [] || IsSpace(b[0])
    ensures RemoveEmails(a + b) == RemoveEmails(a) + RemoveEmails(b)
    decreases |a|
  {
    if a == [] {
      assert a + b == b;
    } else if IsSpace(a[0]) {
      RemoveEmailsAppend(a[1..], b);
      RemoveEmailsAppendSpace(a, b);
    } else if TokenLen(a) < |a| {
      RemoveEmailsAppend(a[TokenLen(a)..], b);
      RemoveEmailsAppendToken(a, b);
    } else {
      RemoveEmailsAppendLast(a, b);
    }
  }

  /** Inductive step of `RemoveEmailsAppend` for a leading whitespace character. */
  lemma RemoveEmailsAppendSpace(a: string, b: string)
    requires a != [] && IsSpace(a[0])
    requires RemoveEmails(a[1..] + b) == RemoveEmails(a[1..]) + RemoveEmails(b)
    ensures RemoveEmails(a + b) == RemoveEmails(a) + RemoveEmails(b)
  {
    RemoveEmailsSpaceThen(a, b);
    ConcatAssoc([a[0]], RemoveEmails(a[1..]), RemoveEmails(b));
  }

  /** Appending after a leading whitespace character keeps that character first. */
  lemma RemoveEmailsSpaceThen(a: string, b: string)
    requires a != [] && IsSpace(a[0])
    ensures RemoveEmails(a + b) == [a[0]] + RemoveEmails(a[1..] + b)
  {
    assert (a + b)[0] == a[0];
    assert (a + b)[1..] == a[1..] + b;
  }

  /** Inductive step of `RemoveEmailsAppend` for a leading token that ends inside `a`. */
  lemma RemoveEmailsAppendToken(a: string, b: string)
    requires a != [] && !IsSpace(a[0]) && TokenLen(a) < |a|
    requires RemoveEmails(a[TokenLen(a)..] + b) == RemoveEmails(a[TokenLen(a)..]) + RemoveEmails(b)
    ensures RemoveEmails(a + b) == RemoveEmails(a) + RemoveEmails(b)
  {
    var n := TokenLen(a);
    RemoveEmailsTokenThen(a, b);
    ConcatAssoc(KeepToken(a[..n]), RemoveEmails(a[n..]), RemoveEmails(b));
  }

  /** Appending after a token that ends inside `a` leaves that token as the first one scrubbed. */
  lemma RemoveEmailsTokenThen(a: string, b: string)
    requires a != [] && !IsSpace(a[0]) && TokenLen(a) < |a|
    ensures RemoveEmails(a + b) == KeepToken(a[..TokenLen(a)]) + RemoveEmails(a[TokenLen(a)..] + b)
  {
    var n := TokenLen(a);
    var t, r := a[..n], a[n..];
    assert a + b == t + (r + b);
    assert (r + b)[0] == r[0];
    RemoveEmailsWordThen(t, r + b);
  }

  /** A token followed by nothing or by whitespace is scrubbed on its own, then the rest. */
  lemma RemoveEmailsWordThen(w: string, rest: string)
    requires IsWord(w)
    requires rest == [] || IsSpace(rest[0])
    ensures RemoveEmails(w + rest) == KeepToken(w) + RemoveEmails(rest)
  {
    TokenLenOfWord(w, rest);
    assert (w + rest)[0] == w[0];
    assert (w + rest)[..|w|] == w;
    assert (w + rest)[|w|..] == rest;
  }

  /** Base step of `RemoveEmailsAppend`: `a` is a single token followed by the cut. */
  lemma RemoveEmailsAppendLast(a: string, b: string)
    requires a != [] && !IsSpace(a[0]) && TokenLen(a) == |a|
    requires b == [] || IsSpace(b[0])
    ensures RemoveEmails(a + b) == RemoveEmails(a) + RemoveEmails(b)
  {
    var kept := KeepToken(a);
    TokenLenOfWord(a, b);
    assert (a + b)[0] == a[0];
    assert (a + b)[..|a|] == a;
    assert (a + b)[|a|..] == b;
    assert a[..|a|] == a && a[|a|..] == [];
    assert RemoveEmails(a) == kept;
  }

  /** Scrubbing a single token deletes it when it is an e-mail shape and keeps it otherwise. */
  lemma RemoveEmailsWord(w: string)
    requires IsWord(w)
    ensures RemoveEmails(w) == if IsEmailToken(w) then [] else w
  {
    TokenLenOfWord(w, []);
    assert w + [] == w;
    assert w[..|w|] == w;
    assert w[|w|..] == [];
  }

  lemma RemoveEmailsSpace(s: string)
    requires s != [] && IsSpace(s[0])
    ensures RemoveEmails(s) != [] && RemoveEmails(s)[0] == s[0]
  {
  }

  /** The tokens of the scrubbed text are exactly the input's tokens that are not e-mail shapes, in order. */
  lemma {:induction false} RemoveEmailsTokens(s: string)
    ensures Split(RemoveEmails(s)) == Filter(Split(s), IsNotEmailToken)
    decreases |s|
  {
    if s == [] {
    } else if IsSpace(s[0]) {
      var rest := RemoveEmails(s[1..]);
      assert ([s[0]] + rest)[1..] == rest;
      RemoveEmailsTokens(s[1..]);
    } else {
      var n := TokenLen(s);
      var t, rest := s[..n], s[n..];
      var tail := RemoveEmails(rest);
      assert Split(s) == [t] + Split(rest);
      RemoveEmailsTokens(rest);
      FilterCons(t, Split(rest), IsNotEmailToken);
      if IsEmailToken(t) {
        assert RemoveEmails(s) == [] + tail == tail;
      } else {
        assert RemoveEmails(s) == t + tail;
        assert IsWord(t);
        if rest != [] {
          RemoveEmailsSpace(rest);
        }
        SplitWordThen(t, tail);
      }
    }
  }

  /** The scrub never adds, removes or moves whitespace. */
  lemma {:induction false} RemoveEmailsKeepsWhitespace(s: string)
    ensures Filter(RemoveEmails(s), IsSpace) == Filter(s, IsSpace)
    decreases |s|
  {
    if s == [] {
    } else if IsSpace(s[0]) {
      RemoveEmailsKeepsWhitespace(s[1..]);
      KeepsWhitespaceSpaceStep(s);
    } else {
      RemoveEmailsKeepsWhitespace(s[TokenLen(s)..]);
      KeepsWhitespaceTokenStep(s);
    }
  }

  /** Inductive step of `RemoveEmailsKeepsWhitespace` for a leading whitespace character. */
  lemma KeepsWhitespaceSpaceStep(s: string)
    requires s != [] && IsSpace(s[0])
    requires Filter(RemoveEmails(s[1..]), IsSpace) == Filter(s[1..], IsSpace)
    ensures Filter(RemoveEmails(s), IsSpace) == Filter(s, IsSpace)
  {
    assert RemoveEmails(s) == [s[0]] + RemoveEmails(s[1..]);
    FilterCons(s[0], RemoveEmails(s[1..]), IsSpace);
    FilterCons(s[0], s[1..], IsSpace);
    assert s == [s[0]] + s[1..];
  }

  /** Inductive step of `RemoveEmailsKeepsWhitespace` for a leading token. */
  lemma KeepsWhitespaceTokenStep(s: string)
    requires s != [] && !IsSpace(s[0])
    requires Filter(RemoveEmails(s[TokenLen(s)..]), IsSpace) == Filter(s[TokenLen(s)..], IsSpace)
    ensures Filter(RemoveEmails(s), IsSpace) == Filter(s, IsSpace)
  {
    var n := TokenLen(s);
    var t, rest := s[..n], s[n..];
    assert RemoveEmails(s) == KeepToken(t) + RemoveEmails(rest);
    FilterAppend(KeepToken(t), RemoveEmails(rest), IsSpace);
    FilterSplit(s, n, IsSpace);
    FilterNoneKept(t, IsSpace);
    FilterNoneKept(KeepToken(t), IsSpace);
    assert [] + Filter(rest, IsSpace) == Filter(rest, IsSpace);
  }

  /** Scrubbing e-mail tokens twice is scrubbing them once. */
  lemma {:induction false} RemoveEmailsIdempotent(s: string)
    ensures RemoveEmails(RemoveEmails(s)) == RemoveEmails(s)
    decreases |s|
  {
    if s == [] {
    } else if IsSpace(s[0]) {
      var rest := RemoveEmails(s[1..]);
      assert ([s[0]] + rest)[1..] == rest;
      RemoveEmailsIdempotent(s[1..]);
    } else {
      var n := TokenLen(s);
      var t, rest := s[..n], s[n..];
      var tail := RemoveEmails(rest);
      RemoveEmailsIdempotent(rest);
      if IsEmailToken(t) {
        assert RemoveEmails(s) == [] + tail == tail;
      } else {
        assert RemoveEmails(s) == t + tail;
        assert IsWord(t);
        if rest != [] {
          RemoveEmailsSpace(rest);
        }
        RemoveEmailsAppend(t, tail);
        RemoveEmailsWord(t);
      }
    }
  }

  /** A text with no '@' has no e-mail token and passes unchanged. */
  lemma {:induction false} RemoveEmailsWithoutAt(s: string)
    requires forall i :: 0 <= i < |s| ==> s[i] != '@'
    ensures RemoveEmails(s) == s
    decreases |s|
  {
    if s == [] {
    } else if IsSpace(s[0]) {
      RemoveEmailsWithoutAt(s[1..]);
      assert s == [s[0]] + s[1..];
    } else {
      var n := TokenLen(s);
      RemoveEmailsWithoutAt(s[n..]);
      assert !IsEmailToken(s[..n]);
      assert s == s[..n] + s[n..];
    }
  }

  /** A whole whitespace token with an interior '@' is deleted, together with any punctuation glued to it. */
  lemma EmailTokenDropped(mail: string, rest: string)
    requires IsWord(mail) && IsEmailToken(mail)
    requires rest == [] || IsSpace(rest[0])
    ensures RemoveEmails(mail + rest) == RemoveEmails(rest)
  {
    RemoveEmailsWord(mail);
    RemoveEmailsAppend(mail, rest);
    assert [] + RemoveEmails(rest) == RemoveEmails(rest);
  }

  /** Text without an '@' in front of a whitespace boundary passes the e-mail scrub untouched. */
  lemma AtFreePrefixKept(head: string, x: string)
    requires forall i :: 0 <= i < |head| ==> head[i] != '@'
    requires x != [] && IsSpace(x[0])
    ensures RemoveEmails(head + x) == head + RemoveEmails(x)
  {
    RemoveEmailsWithoutAt(head);
    RemoveEmailsAppend(head, x);
  }

  /**
   * The contact-line scenario, for any parts shaped like
   * "Contact me at" + " " + "a@b.com," + " call " + "2024": the e-mail scrub
   * removes the whole token "a@b.com," (its comma included) and keeps both
   * spaces around it; the numeral scrub then removes the year and keeps the
   * space before it, leaving "Contact me at  call ".
   */
  lemma ContactScenario(head: string, mail: string, tail: string, year: string)
    requires forall i :: 0 <= i < |head| ==> head[i] != '@' && !IsDigit(head[i])
    requires IsWord(mail) && IsEmailToken(mail)
    requires tail != [] && IsSpace(tail[0])
    requires forall i :: 0 <= i < |tail| ==> tail[i] != '@' && !IsDigit(tail[i])
    requires forall i :: 0 <= i < |year| ==> IsDigit(year[i])
    ensures RemoveEmails(head + (" " + (mail + (tail + year)))) == head + (" " + (tail + year))
    ensures RemoveNumbers(head + (" " + (tail + year))) == head + (" " + tail)
  {
    var rest := tail + year;
    RemoveEmailsWithoutAt(rest);
    EmailTokenDropped(mail, rest);
    RemoveEmailsSpacePrefix(mail + rest);
    AtFreePrefixKept(head, " " + (mail + rest));
    FilterAllKept(head, IsNonDigit);
    FilterAllKept(" ", IsNonDigit);
    FilterAllKept(tail, IsNonDigit);
    FilterNoneKept(year, IsNonDigit);
    FilterAppend(tail, year, IsNonDigit);
    FilterAppend(" ", rest, IsNonDigit);
    FilterAppend(head, " " + rest, IsNonDigit);
    assert tail + [] == tail;
  }

  lemma RemoveEmailsSpacePrefix(s: string)
    ensures RemoveEmails(" " + s) == " " + RemoveEmails(s)
  {
    assert (" " + s)[1..] == s;
  }

  // ---------------------------------------------------------- digits, punctuation

  /** The digit scrub keeps every other character, in order, and nothing else. */
  lemma RemoveNumbersCharacterization(s: string)
    ensures IsSubsequence(RemoveNumbers(s), s)
    ensures |RemoveNumbers(s)| == |s| - Count(s, IsDigit)
  {
    var _ := FilterIsSubsequence(s, IsNonDigit);
    FilterDropsExactly(s, IsNonDigit, IsDigit);
  }

  lemma RemoveNumbersIdempotent(s: string)
    ensures RemoveNumbers(RemoveNumbers(s)) == RemoveNumbers(s)
  {
    FilterIdempotent(s, IsNonDigit);
  }

  /** The punctuation scrub keeps every other character, in order, and nothing else. */
  lemma CleanPunctuationCharacterization(s: string)
    ensures IsSubsequence(CleanPunctuation(s), s)
    ensures |CleanPunctuation(s)| == |s| - Count(s, IsPunct)
  {
    var _ := FilterIsSubsequence(s, IsNonPunct);
    FilterDropsExactly(s, IsNonPunct, IsPunct);
  }

  lemma CleanPunctuationIdempotent(s: string)
    ensures CleanPunctuation(CleanPunctuation(s)) == CleanPunctuation(s)
  {
    FilterIdempotent(s, IsNonPunct);
  }

  // ---------------------------------------------------------- case, stopwords

  /** Lower-casing and stripping twice is doing it once. */
  lemma NormalizeTextIdempotent(s: string)
    ensures NormalizeText(NormalizeText(s)) == NormalizeText(s)
  {
    var t := NormalizeText(s);
    LowerUnchanged(t);
    StripUnchanged(t);
  }

  /**
   * The kept words are exactly the input's words whose lower-case form is not
   * a stopword, in order, and they are joined with single spaces: no leading,
   * trailing or doubled whitespace.
   */
  lemma RemoveStopwordsTokens(s: string, stopwords: set<string>)
    ensures Split(RemoveStopwords(s, stopwords)) == Filter(Split(s), IsNotStopword(stopwords))
    ensures forall k :: 0 <= k < |Split(RemoveStopwords(s, stopwords))| ==>
              Lower(Split(RemoveStopwords(s, stopwords))[k]) !in stopwords
    ensures IsSubsequence(Split(RemoveStopwords(s, stopwords)), Split(s))
    ensures SingleSpaced(RemoveStopwords(s, stopwords))
  {
    var kept := Filter(Split(s), IsNotStopword(stopwords));
    SplitJoin(kept);
    JoinSingleSpaced(kept);
    var _ := FilterIsSubsequence(Split(s), IsNotStopword(stopwords));
  }

  /** Removing stopwords twice is removing them once. */
  lemma RemoveStopwordsIdempotent(s: string, stopwords: set<string>)
    ensures RemoveStopwords(RemoveStopwords(s, stopwords), stopwords) == RemoveStopwords(s, stopwords)
  {
    RemoveStopwordsTokens(s, stopwords);
    FilterIdempotent(Split(s), IsNotStopword(stopwords));
  }

  /** Stopword removal introduces no character other than the space. */
  lemma RemoveStopwordsChars(s: string, stopwords: set<string>)
    ensures forall i :: 0 <= i < |RemoveStopwords(s, stopwords)| ==>
              RemoveStopwords(s, stopwords)[i] == ' ' || RemoveStopwords(s, stopwords)[i] in s
  {
    var ws := Split(s);
    var kept := Filter(ws, IsNotStopword(stopwords));
    forall k, i | 0 <= k < |kept| && 0 <= i < |kept[k]|
      ensures kept[k][i] in s
    {
      var k' :| 0 <= k' < |ws| && ws[k'] == kept[k];
    }
    JoinChars(kept, s);
  }
}
