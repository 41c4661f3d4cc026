/**
 * The string primitives the cleaning pipeline is built from, with Python's
 * meaning: the whitespace set of `str.isspace` (which `str.split()`,
 * `str.strip()` and the regular-expression classes `\s` and `\S` all use),
 * ASCII digits, the 32 characters of `string.punctuation`, `str.lower()` on
 * the letters of the Turkish and Latin-1 alphabets, `str.strip()`,
 * `str.split()` and `str.join`.
 */
module Text {
  import opened Seqs

  /** Python's whitespace: the characters for which `str.isspace()` holds. */
  predicate IsSpace(c: char)
  {
    || '\t' <= c <= '\r'
    || '\U{1C}' <= c <= ' '
    || c == '\U{85}' || c == '\U{A0}' || c == '\U{1680}'
    || '\U{2000}' <= c <= '\U{200A}'
    || c == '\U{2028}' || c == '\U{2029}' || c == '\U{202F}' || c == '\U{205F}' || c == '\U{3000}'
  }

  /** An ASCII decimal digit. */
  predicate IsDigit(c: char)
  {
    '0' <= c <= '9'
  }

  /** Python's `string.punctuation`. */
  const Punctuation: string := "!\"#$%&'()*+,-./:;<=>?@[\\]^_`{|}~"

  /** The printable ASCII characters that are neither letters, digits nor the space. */
  predicate IsPunct(c: char)
  {
    '!' <= c <= '/' || ':' <= c <= '@' || '[' <= c <= '`' || '{' <= c <= '~'
  }

  /** `IsPunct` is exactly membership in the 32 characters of `string.punctuation`. */
  lemma PunctuationSet(c: char)
    ensures |Punctuation| == 32
    ensures IsPunct(c) <==> c in Punctuation
  {
  }

  /** Neither a digit nor a punctuation character: what survives the numeral and punctuation scrubs. */
  predicate IsPlain(c: char)
  {
    !IsDigit(c) && !IsPunct(c)
  }

  /** The upper-case letters whose lower-case form `LowerChar` knows: ASCII, Latin-1 and the Turkish Ğ, İ, Ş. */
  predicate IsUpper(c: char)
  {
    || 'A' <= c <= 'Z'
    || ('\U{C0}' <= c <= '\U{DE}' && c != '\U{D7}')
    || c == '\U{11E}' || c == '\U{130}' || c == '\U{15E}'
  }

  /** Python's `c.lower()`; the dotted capital İ becomes two characters, i and a combining dot. */
  function LowerChar(c: char): (r: string)
    ensures |r| >= 1
    ensures forall i :: 0 <= i < |r| ==> !IsUpper(r[i])
    ensures forall i :: 0 <= i < |r| ==> r[i] == c || (!IsSpace(r[i]) && IsPlain(r[i]))
    ensures !IsUpper(c) ==> r == [c]
  {
    if 'A' <= c <= 'Z' || ('\U{C0}' <= c <= '\U{DE}' && c != '\U{D7}') then [(c as int + 32) as char]
    else if c == '\U{11E}' then ['\U{11F}']
    else if c == '\U{15E}' then ['\U{15F}']
    else if c == '\U{130}' then ['i', '\U{307}']
    else [c]
  }

  /** Python's `str.lower()`. */
  function Lower(s: string): (r: string)
    ensures forall i :: 0 <= i < |r| ==> !IsUpper(r[i])
    ensures forall i :: 0 <= i < |r| ==> r[i] in s || (!IsSpace(r[i]) && IsPlain(r[i]))
  {
    if s == [] then [] else LowerChar(s[0]) + Lower(s[1..])
  }

  /** Lower-casing a string that has no upper-case letter leaves it as it is. */
  lemma {:induction false} LowerUnchanged(s: string)
    requires forall i :: 0 <= i < |s| ==> !IsUpper(s[i])
    ensures Lower(s) == s
  {
    if s != [] {
      LowerUnchanged(s[1..]);
    }
  }

  /** Python's `str.lstrip()`: drops the leading whitespace and nothing else. */
  function TrimStart(s: string): (r: string)
    ensures |r| <= |s| && r == s[|s| - |r|..]
    ensures forall k :: 0 <= k < |s| - |r| ==> IsSpace(s[k])
    ensures r != [] ==> !IsSpace(r[0])
  {
    if s != [] && IsSpace(s[0]) then TrimStart(s[1..]) else s
  }

  /** Python's `str.rstrip()`: drops the trailing whitespace and nothing else. */
  function TrimEnd(s: string): (r: string)
    ensures |r| <= |s| && r == s[..|r|]
    ensures forall k :: |r| <= k < |s| ==> IsSpace(s[k])
    ensures r != [] ==> !IsSpace(r[|r| - 1])
  {
    if s != [] && IsSpace(s[|s| - 1]) then TrimEnd(s[..|s| - 1]) else s
  }

  /** Python's `str.strip()`: the slice of `s` left once its whitespace margins are cut off. */
  function Strip(s: string): (r: string)
    ensures r != [] ==> !IsSpace(r[0]) && !IsSpace(r[|r| - 1])
    ensures exists i, j :: && 0 <= i <= j <= |s| && r == s[i..j]
                           && (forall k :: 0 <= k < i ==> IsSpace(s[k]))
                           && (forall k :: j <= k < |s| ==> IsSpace(s[k]))
    ensures forall k :: 0 <= k < |r| ==> r[k] in s
  {
    var t := TrimStart(s);
    var r := TrimEnd(t);
    assert r == s[|s| - |t|..|s| - |t| + |r|];
    r
  }

  /** A string with no whitespace margin is its own strip. */
  lemma StripUnchanged(s: string)
    requires s != [] ==> !IsSpace(s[0]) && !IsSpace(s[|s| - 1])
    ensures Strip(s) == s
  {
  }

  /** A whitespace-free, non-empty token, as `str.split()` produces them. */
  predicate IsWord(w: string)
  {
    w != [] && forall i :: 0 <= i < |w| ==> !IsSpace(w[i])
  }

  /** The length of the run of non-whitespace characters `s` starts with. */
  function TokenLen(s: string): (n: nat)
    ensures n <= |s|
    ensures forall i :: 0 <= i < n ==> !IsSpace(s[i])
    ensures n < |s| ==> IsSpace(s[n])
    ensures s != [] && !IsSpace(s[0]) ==> n > 0
  {
    if s == [] || IsSpace(s[0]) then 0 else 1 + TokenLen(s[1..])
  }

  /** Python's `str.split()` without arguments: the maximal whitespace-free runs, in order. */
  function Split(s: string): (ws: seq<string>)
    ensures forall k :: 0 <= k < |ws| ==> IsWord(ws[k])
    ensures forall k, i :: 0 <= k < |ws| && 0 <= i < |ws[k]| ==> ws[k][i] in s
    decreases |s|
  {
    if s == [] then []
    else if IsSpace(s[0]) then Split(s[1..])
    else
      var n := TokenLen(s);
      [s[..n]] + Split(s[n..])
  }

  /** Python's `sep.join(ws)`. */
  function Join(ws: seq<string>, sep: string): string
  {
    if ws == [] then ""
    else if |ws| == 1 then ws[0]
    else ws[0] + sep + Join(ws[1..], sep)
  }

  /** No whitespace margin, and every whitespace character is a single space followed by a non-space. */
  predicate SingleSpaced(s: string)
  {
    && (s != [] ==> !IsSpace(s[0]) && !IsSpace(s[|s| - 1]))
    && forall i :: 0 <= i < |s| && IsSpace(s[i]) ==> s[i] == ' ' && i + 1 < |s| && !IsSpace(s[i + 1])
  }

  lemma {:induction false} TokenLenOfWord(w: string, rest: string)
    requires IsWord(w)
    requires rest == [] || IsSpace(rest[0])
    ensures TokenLen(w + rest) == |w|
    decreases |w|
  {
    assert (w + rest)[1..] == w[1..] + rest;
    if |w| > 1 {
      TokenLenOfWord(w[1..], rest);
    }
  }

  /** A word followed by nothing or by whitespace splits off as the first token. */
  lemma SplitWordThen(w: string, rest: string)
    requires IsWord(w)
    requires rest == [] || IsSpace(rest[0])
    ensures Split(w + rest) == [w] + Split(rest)
  {
    TokenLenOfWord(w, rest);
    assert (w + rest)[..|w|] == w;
    assert (w + rest)[|w|..] == rest;
  }

  lemma JoinNonEmpty(ws: seq<string>)
    requires |ws| > 0 && forall k :: 0 <= k < |ws| ==> IsWord(ws[k])
    ensures |Join(ws, " ")| > 0
  {
  }

  /** `str.split()` undoes a single-space join of words: the round trip of the stopword filter. */
  lemma {:induction false} SplitJoin(ws: seq<string>)
    requires forall k :: 0 <= k < |ws| ==> IsWord(ws[k])
    ensures Split(Join(ws, " ")) == ws
  {
    if |ws| == 1 {
      SplitWordThen(ws[0], []);
      assert ws[0] + [] == ws[0];
    } else if |ws| > 1 {
      var j := Join(ws[1..], " ");
      assert Join(ws, " ") == ws[0] + (" " + j);
      SplitWordThen(ws[0], " " + j);
      assert (" " + j)[1..] == j;
      SplitJoin(ws[1..]);
      assert ws == [ws[0]] + ws[1..];
    }
  }

  /** A single-space join of words has no leading, trailing or doubled whitespace. */
  lemma {:induction false} JoinSingleSpaced(ws: seq<string>)
    requires forall k :: 0 <= k < |ws| ==> IsWord(ws[k])
    ensures SingleSpaced(Join(ws, " "))
  {
    if |ws| > 1 {
      var w := ws[0];
      var j := Join(ws[1..], " ");
      var s := Join(ws, " ");
      assert s == w + " " + j;
      JoinSingleSpaced(ws[1..]);
      JoinNonEmpty(ws[1..]);
      forall i | 0 <= i < |s| && IsSpace(s[i])
        ensures s[i] == ' ' && i + 1 < |s| && !IsSpace(s[i + 1])
      {
        if i > |w| {
          assert s[i] == j[i - |w| - 1];
          assert i + 1 < |s| ==> s[i + 1] == j[i - |w|];
        }
      }
    }
  }

  /** A single-space join uses no character beyond the words' own and the space. */
  lemma {:induction false} JoinChars(ws: seq<string>, s: string)
    requires forall k, i :: 0 <= k < |ws| && 0 <= i < |ws[k]| ==> ws[k][i] in s
    ensures forall i :: 0 <= i < |Join(ws, " ")| ==> Join(ws, " ")[i] == ' ' || Join(ws, " ")[i] in s
  {
    if |ws| > 1 {
      var w := ws[0];
      var j := Join(ws[1..], " ");
      JoinChars(ws[1..], s);
      assert Join(ws, " ") == w + " " + j;
      forall i | 0 <= i < |Join(ws, " ")|
        ensures Join(ws, " ")[i] == ' ' || Join(ws, " ")[i] in s
      {
        if i < |w| {
          assert Join(ws, " ")[i] == ws[0][i];
        } else if i > |w| {
          assert Join(ws, " ")[i] == j[i - |w| - 1];
        }
      }
    }
  }

  /** Leading whitespace does not change the words. */
  lemma {:induction false} SplitLeadingSpace(sp: string, s: string)
    requires forall i :: 0 <= i < |sp| ==> IsSpace(sp[i])
    ensures Split(sp + s) == Split(s)
  {
    if sp == [] {
      assert sp + s == s;
    } else {
      assert (sp + s)[0] == sp[0];
      assert (sp + s)[1..] == sp[1..] + s;
      SplitLeadingSpace(sp[1..], s);
    }
  }

  /** Trailing whitespace does not change the words. */
  lemma {:induction false} SplitTrailingSpace(s: string, sp: string)
    requires forall i :: 0 <= i < |sp| ==> IsSpace(sp[i])
    ensures Split(s + sp) == Split(s)
    decreases |s|
  {
    if s == [] {
      assert s + sp == sp + [];
      SplitLeadingSpace(sp, []);
    } else if IsSpace(s[0]) {
      assert (s + sp)[1..] == s[1..] + sp;
      SplitTrailingSpace(s[1..], sp);
    } else {
      var n := TokenLen(s);
      if n < |s| {
        TokenLenAppend(s, sp);
      } else {
        assert s[..n] == s;
        TokenLenOfWord(s, sp);
      }
      assert (s + sp)[..n] == s[..n];
      assert (s + sp)[n..] == s[n..] + sp;
      SplitTrailingSpace(s[n..], sp);
    }
  }

  /** Appending after a token that ends before the end of `a` leaves the token as it is. */
  lemma {:induction false} TokenLenAppend(a: string, b: string)
    requires TokenLen(a) < |a|
    ensures TokenLen(a + b) == TokenLen(a)
  {
    assert (a + b)[1..] == a[1..] + b;
    if !IsSpace(a[0]) {
      TokenLenAppend(a[1..], b);
    }
  }

  /** Splitting ignores the whitespace `str.lstrip()` removes. */
  lemma {:induction false} SplitTrimStart(s: string)
    ensures Split(TrimStart(s)) == Split(s)
  {
    if s != [] && IsSpace(s[0]) {
      SplitTrimStart(s[1..]);
    }
  }

  /** Splitting ignores the whitespace `str.rstrip()` removes. */
  lemma {:induction false} SplitTrimEnd(s: string)
    ensures Split(TrimEnd(s)) == Split(s)
  {
    if s != [] && IsSpace(s[|s| - 1]) {
      var init := s[..|s| - 1];
      SplitTrimEnd(init);
      SplitTrailingSpace(init, [s[|s| - 1]]);
      assert init + [s[|s| - 1]] == s;
    }
  }

  /** `str.split()` ignores the whitespace `str.strip()` removes. */
  lemma SplitStrip(s: string)
    ensures Split(Strip(s)) == Split(s)
  {
    var t := TrimStart(s);
    assert Strip(s) == TrimEnd(t);
    SplitTrimEnd(t);
    SplitTrimStart(s);
  }
}
