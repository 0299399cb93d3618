/**
 * The Python `str` operations the answer extractor and the prompt builder rely on,
 * over ASCII: whitespace, letters, digits and case are those of the ASCII range only.
 */
module Text {

  /** The ASCII characters that Python's `str.isspace()`, `str.strip()` and the regex
      class `\s` treat as whitespace: tab, line feed, vertical tab, form feed, carriage
      return, the separators 0x1C to 0x1F, and space. */
  predicate IsSpace(c: char)
    ensures IsSpace(c) <==> c in {'\t', '\n', '\U{0B}', '\U{0C}', '\r', '\U{1C}', '\U{1D}', '\U{1E}', '\U{1F}', ' '}
  {
    c == ' ' || '\t' <= c <= '\r' || '\U{1C}' <= c <= '\U{1F}'
  }

  predicate IsAsciiLetter(c: char) {
    'a' <= c <= 'z' || 'A' <= c <= 'Z'
  }

  predicate IsDigit(c: char) {
    '0' <= c <= '9'
  }

  /** The regex class `\w`: letters, digits and the underscore. */
  predicate IsWordChar(c: char) {
    IsAsciiLetter(c) || IsDigit(c) || c == '_'
  }

  /** Concatenation is associative; stated on its own so that a proof can use it without
      comparing long strings element by element. */
  lemma ConcatAssoc<T>(a: seq<T>, b: seq<T>, c: seq<T>)
    ensures a + (b + c) == (a + b) + c
  {
  }

  function Lower(c: char): char {
    if 'A' <= c <= 'Z' then (c as int + 32) as char else c
  }

  function Upper(c: char): char {
    if 'a' <= c <= 'z' then (c as int - 32) as char else c
  }

  /** `s.lower()` */
  function LowerStr(s: string): (r: string)
    ensures |r| == |s| && forall i :: 0 <= i < |s| ==> r[i] == Lower(s[i])
  {
    if s == [] then [] else [Lower(s[0])] + LowerStr(s[1..])
  }

  /** A string with no upper-case letter is its own lower case. */
  lemma LowerStrNoUpper(s: string)
    requires forall i :: 0 <= i < |s| ==> !('A' <= s[i] <= 'Z')
    ensures LowerStr(s) == s
  {
  }

  /** `s.upper()` */
  function UpperStr(s: string): (r: string)
    ensures |r| == |s| && forall i :: 0 <= i < |s| ==> r[i] == Upper(s[i])
  {
    if s == [] then [] else [Upper(s[0])] + UpperStr(s[1..])
  }

  /** `s.capitalize()`: the first character in upper case, the others in lower case. */
  function Capitalize(s: string): string {
    if s == [] then [] else [Upper(s[0])] + LowerStr(s[1..])
  }

  /** A word that lower-cases to a lower-case word `lit` capitalises to `lit` with its first
      letter in upper case. */
  lemma CapitalizeLowered(w: string, lit: string)
    requires |w| == |lit| >= 1
    requires forall k :: 0 <= k < |w| ==> Lower(w[k]) == lit[k]
    requires 'a' <= lit[0] <= 'z'
    ensures Capitalize(w) == [Upper(lit[0])] + lit[1..]
  {
    assert Lower(w[0]) == lit[0];
    assert LowerStr(w[1..]) == lit[1..] by {
      forall i | 0 <= i < |w| - 1 ensures LowerStr(w[1..])[i] == lit[1..][i] {
        assert w[1..][i] == w[i + 1];
      }
    }
  }

  /** Every character is an ASCII letter (the empty string qualifies). */
  predicate AllLetters(s: string) {
    s == [] || (IsAsciiLetter(s[0]) && AllLetters(s[1..]))
  }

  /** `s.isalpha()`: non-empty and made of letters only. */
  predicate IsAlpha(s: string) {
    s != [] && AllLetters(s)
  }

  lemma {:induction false} AllLettersMeaning(s: string)
    ensures AllLetters(s) <==> forall i :: 0 <= i < |s| ==> IsAsciiLetter(s[i])
    decreases |s|
  {
    if s != [] {
      AllLettersMeaning(s[1..]);
      assert forall i :: 1 <= i < |s| ==> s[i] == s[1..][i - 1];
    }
  }

  /** The regex character classes the patterns use. */
  datatype CharClass =
    | Space            // \s
    | NonSpace         // what str.split() keeps
    | Digit            // \d
    | Letter           // [a-zA-Z]
    | Word             // \w
    | CommaOrSpace     // [,\s]
    | ColonOrSpace     // [:\s]
    | WordSpaceOrComma // [\w\s,]
    | StarOrParen      // what .strip('*()') removes
    | Comma            // what .strip(',') removes

  predicate InClass(c: char, k: CharClass) {
    match k
    case Space => IsSpace(c)
    case NonSpace => !IsSpace(c)
    case Digit => IsDigit(c)
    case Letter => IsAsciiLetter(c)
    case Word => IsWordChar(c)
    case CommaOrSpace => c == ',' || IsSpace(c)
    case ColonOrSpace => c == ':' || IsSpace(c)
    case WordSpaceOrComma => IsWordChar(c) || IsSpace(c) || c == ','
    case StarOrParen => c == '*' || c == '(' || c == ')'
    case Comma => c == ','
  }

  /** A greedy `[k]*` from `from`: the end of the longest run of class-`k` characters. */
  function Skip(s: string, from: nat, k: CharClass): (j: nat)
    requires from <= |s|
    ensures from <= j <= |s|
    ensures j == |s| || !InClass(s[j], k)
    decreases |s| - from
  {
    if from == |s| || !InClass(s[from], k) then from else Skip(s, from + 1, k)
  }

  /** Every character `Skip` passes over is in the class. */
  lemma {:induction false} SkipMeaning(s: string, from: nat, k: CharClass)
    requires from <= |s|
    ensures forall i :: from <= i < Skip(s, from, k) ==> InClass(s[i], k)
    decreases |s| - from
  {
    if from < |s| && InClass(s[from], k) {
      SkipMeaning(s, from + 1, k);
    }
  }

  /** `Skip` stops at once on a character outside the class. */
  lemma SkipStop(s: string, from: nat, k: CharClass)
    requires from < |s| && !InClass(s[from], k)
    ensures Skip(s, from, k) == from
  {
  }

  /** `Skip` passes one character in the class and stops at the next, outside it. */
  lemma SkipOne(s: string, from: nat, k: CharClass)
    requires from + 1 < |s| && InClass(s[from], k) && !InClass(s[from + 1], k)
    ensures Skip(s, from, k) == from + 1
  {
    SkipStop(s, from + 1, k);
  }

  /** Over a stretch that runs to the end in class `k`, `Skip` reaches the end. */
  lemma {:induction false} SkipToEnd(s: string, from: nat, k: CharClass)
    requires from <= |s|
    requires forall i :: from <= i < |s| ==> InClass(s[i], k)
    ensures Skip(s, from, k) == |s|
    decreases |s| - from
  {
    if from < |s| {
      SkipToEnd(s, from + 1, k);
    }
  }

  /** The start of the longest suffix of `s[..upto]` made of class-`k` characters. */
  function SkipBack(s: string, upto: nat, k: CharClass): (j: nat)
    requires upto <= |s|
    ensures j <= upto
    ensures forall i :: j <= i < upto ==> InClass(s[i], k)
    ensures j == 0 || !InClass(s[j - 1], k)
    decreases upto
  {
    if upto == 0 || !InClass(s[upto - 1], k) then upto else SkipBack(s, upto - 1, k)
  }

  /** `s.strip(chars)` for the characters of class `k`: the text between the longest
      prefix and the longest suffix made of them; `Strip(s, Space)` is `s.strip()`. */
  function Strip(s: string, k: CharClass): (r: string)
    ensures |r| <= |s|
    ensures r == [] || (!InClass(r[0], k) && !InClass(r[|r| - 1], k))
  {
    var i := Skip(s, 0, k);
    if i == |s| then []
    else
      var j := SkipBack(s, |s|, k);
      assert i < j;
      s[i..j]
  }

  /** `s.rstrip()`: `s` less its longest whitespace suffix. */
  function RStrip(s: string): (r: string)
    ensures |r| <= |s| && r == s[..|r|]
    ensures r == [] || !IsSpace(r[|r| - 1])
    ensures forall i :: |r| <= i < |s| ==> IsSpace(s[i])
  {
    s[..SkipBack(s, |s|, Space)]
  }

  /** Where `s.strip(chars)` cuts `s`: every character before `i` and from `j` on is in the
      class, and what lies between starts and ends outside it. */
  predicate StripCut(s: string, k: CharClass, i: nat, j: nat) {
    i <= j <= |s| &&
    (forall m :: 0 <= m < i ==> InClass(s[m], k)) &&
    (forall m :: j <= m < |s| ==> InClass(s[m], k)) &&
    (i < j ==> !InClass(s[i], k) && !InClass(s[j - 1], k))
  }

  /** `Strip` is the text less its longest class prefix and its longest class suffix. */
  lemma StripSlice(s: string, k: CharClass)
    ensures exists i: nat, j: nat :: StripCut(s, k, i, j) && Strip(s, k) == s[i..j]
  {
    var i := Skip(s, 0, k);
    SkipMeaning(s, 0, k);
    if i == |s| {
      assert StripCut(s, k, i, i) && Strip(s, k) == s[i..i];
    } else {
      var j := SkipBack(s, |s|, k);
      assert StripCut(s, k, i, j) && Strip(s, k) == s[i..j];
    }
  }

  /** Stripping leaves nothing exactly when every character is in the class. */
  lemma StripEmpty(s: string, k: CharClass)
    ensures Strip(s, k) == [] <==> forall i :: 0 <= i < |s| ==> InClass(s[i], k)
  {
    SkipMeaning(s, 0, k);
  }

  /** Stripping only removes characters. */
  lemma StripKeeps(s: string, k: CharClass)
    ensures forall c :: c in Strip(s, k) ==> c in s
  {
  }

  /** Stripping a string that already starts and ends outside the class changes nothing. */
  lemma StripUnchanged(s: string, k: CharClass)
    requires s == [] || (!InClass(s[0], k) && !InClass(s[|s| - 1], k))
    ensures Strip(s, k) == s
  {
  }

  /** The first index at or after `from` that holds `c`, or `|s|` when there is none. */
  function IndexFrom(s: string, c: char, from: nat): (i: nat)
    requires from <= |s|
    ensures from <= i <= |s|
    ensures i < |s| ==> s[i] == c
    ensures forall k :: from <= k < i ==> s[k] != c
    decreases |s| - from
  {
    if from == |s| || s[from] == c then from else IndexFrom(s, c, from + 1)
  }

  /** `sep.join(parts)` */
  function Join(parts: seq<string>, sep: string): string {
    if |parts| == 0 then ""
    else if |parts| == 1 then parts[0]
    else parts[0] + sep + Join(parts[1..], sep)
  }

  /** The pieces of `s[from..]` between occurrences of `sep`. */
  function SplitFrom(s: string, sep: char, from: nat): (r: seq<string>)
    requires from <= |s|
    ensures |r| >= 1
    ensures forall k :: 0 <= k < |r| ==> sep !in r[k]
    decreases |s| - from
  {
    var i := IndexFrom(s, sep, from);
    if i == |s| then [s[from..]] else [s[from..i]] + SplitFrom(s, sep, i + 1)
  }

  /** `s.split(sep)` for a one-character separator: never empty, and no piece holds `sep`. */
  function Split(s: string, sep: char): (r: seq<string>)
    ensures |r| >= 1
    ensures forall k :: 0 <= k < |r| ==> sep !in r[k]
  {
    SplitFrom(s, sep, 0)
  }

  lemma {:induction false} SplitFromJoin(s: string, sep: char, from: nat)
    requires from <= |s|
    ensures Join(SplitFrom(s, sep, from), [sep]) == s[from..]
    decreases |s| - from
  {
    var i := IndexFrom(s, sep, from);
    if i < |s| {
      var rest := SplitFrom(s, sep, i + 1);
      SplitFromJoin(s, sep, i + 1);
      JoinAround(s, from, i, rest);
      assert SplitFrom(s, sep, from) == [s[from..i]] + rest;
    }
  }

  /** Joining the field before a separator at `i` with the fields that join to the text
      after it gives back the text from `from`. */
  lemma JoinAround(s: string, from: nat, i: nat, rest: seq<string>)
    requires from <= i < |s| && |rest| >= 1 && Join(rest, [s[i]]) == s[i + 1..]
    ensures Join([s[from..i]] + rest, [s[i]]) == s[from..]
  {
    JoinCons(s[from..i], rest, [s[i]]);
    SliceAround(s, from, i);
  }

  lemma SliceAround(s: string, from: nat, i: nat)
    requires from <= i < |s|
    ensures s[from..] == s[from..i] + [s[i]] + s[i + 1..]
  {
  }

  lemma JoinCons(first: string, rest: seq<string>, sep: string)
    requires |rest| >= 1
    ensures Join([first] + rest, sep) == first + sep + Join(rest, sep)
  {
    assert ([first] + rest)[1..] == rest;
  }

  /** Joining the pieces of a split with the separator gives the string back. */
  lemma SplitJoin(s: string, sep: char)
    ensures Join(Split(s, sep), [sep]) == s
  {
    SplitFromJoin(s, sep, 0);
  }

  /** Splitting parts joined by a separator they do not contain gives the parts back. */
  lemma JoinSplit(parts: seq<string>, sep: char)
    requires parts != []
    requires forall k :: 0 <= k < |parts| ==> sep !in parts[k]
    ensures Split(Join(parts, [sep]), sep) == parts
  {
    SplitFromJoined("", parts, sep);
    assert "" + Join(parts, [sep]) == Join(parts, [sep]);
  }

  lemma {:induction false} SplitFromJoined(pre: string, parts: seq<string>, sep: char)
    requires parts != []
    requires forall k :: 0 <= k < |parts| ==> sep !in parts[k]
    ensures SplitFrom(pre + Join(parts, [sep]), sep, |pre|) == parts
    decreases |parts|
  {
    var p := parts[0];
    if |parts| == 1 {
      SplitFromLast(pre, p, sep);
    } else {
      var rest := parts[1..];
      assert parts == [p] + rest;
      JoinCons(p, rest, [sep]);
      ConcatAssoc(pre, p + [sep], Join(rest, [sep]));
      ConcatAssoc(pre, p, [sep]);
      SplitFromFirst(pre, p, sep, Join(rest, [sep]));
      assert forall k :: 0 <= k < |rest| ==> sep !in rest[k] by {
        forall k | 0 <= k < |rest| ensures sep !in rest[k] {
          assert rest[k] == parts[k + 1];
        }
      }
      assert |pre + p + [sep]| == |pre| + |p| + 1;
      SplitFromJoined(pre + p + [sep], rest, sep);
    }
  }

  /** The last field: no separator after `pre`. */
  lemma SplitFromLast(pre: string, p: string, sep: char)
    requires sep !in p
    ensures SplitFrom(pre + p, sep, |pre|) == [p]
  {
    var s := pre + p;
    forall k | |pre| <= k < |s| ensures s[k] != sep {
      assert s[k] == p[k - |pre|];
    }
    assert s[|pre|..] == p;
  }

  /** A field followed by the separator, and the fields after it. */
  lemma SplitFromFirst(pre: string, p: string, sep: char, t: string)
    requires sep !in p
    ensures SplitFrom(pre + p + [sep] + t, sep, |pre|) == [p] + SplitFrom(pre + p + [sep] + t, sep, |pre| + |p| + 1)
  {
    var s := pre + p + [sep] + t;
    forall k | |pre| <= k < |pre| + |p| ensures s[k] != sep {
      assert s[k] == p[k - |pre|];
    }
    assert s[|pre| + |p|] == sep;
    assert IndexFrom(s, sep, |pre|) == |pre| + |p|;
    assert s[|pre|..|pre| + |p|] == p;
  }

  /** No whitespace character in `w`. */
  predicate NoSpace(w: string) {
    forall i :: 0 <= i < |w| ==> !IsSpace(w[i])
  }

  /** The maximal runs of non-whitespace characters in `s[from..]`, in order. */
  function SplitWsFrom(s: string, from: nat): (r: seq<string>)
    requires from <= |s|
    ensures forall k :: 0 <= k < |r| ==> r[k] != [] && NoSpace(r[k])
    decreases |s| - from
  {
    var i := Skip(s, from, Space);
    if i == |s| then []
    else
      var j := Skip(s, i, NonSpace);
      SkipMeaning(s, i, NonSpace);
      [s[i..j]] + SplitWsFrom(s, j)
  }

  /** `s.split()`: the maximal runs of non-whitespace characters, in order. */
  function SplitWs(s: string): (r: seq<string>)
    ensures forall k :: 0 <= k < |r| ==> r[k] != [] && NoSpace(r[k])
  {
    SplitWsFrom(s, 0)
  }

  /** The maximal runs of class-`k` characters in `s`, in order, built one character at a
      time: a class character joins the run of the character after it when that one is in
      the class too, and starts a run of its own otherwise; other characters separate runs. */
  function Runs(s: string, k: CharClass): (r: seq<string>)
    ensures s != [] && InClass(s[0], k) ==> r != []
    decreases |s|
  {
    if s == [] then []
    else
      var rest := Runs(s[1..], k);
      if !InClass(s[0], k) then rest
      else if |s| > 1 && InClass(s[1], k) then [[s[0]] + rest[0]] + rest[1..]
      else [[s[0]]] + rest
  }

  /** A character outside the class belongs to no run. */
  lemma RunsSkip(s: string, from: nat, k: CharClass)
    requires from < |s| && !InClass(s[from], k)
    ensures Runs(s[from..], k) == Runs(s[from + 1..], k)
  {
    assert s[from..][1..] == s[from + 1..];
  }

  /** A greedy `[k]*` over a stretch of class characters stops where the stretch does. */
  lemma {:induction false} SkipRunTo(s: string, from: nat, e: nat, k: CharClass)
    requires from <= e <= |s|
    requires forall m :: from <= m < e ==> InClass(s[m], k)
    requires e == |s| || !InClass(s[e], k)
    ensures Skip(s, from, k) == e
    decreases e - from
  {
    if from < e {
      SkipRunTo(s, from + 1, e, k);
    }
  }

  /** The run that starts at `from` comes first among the runs of `s[from..]`, and it ends
      where a greedy `[k]*` stops. */
  lemma {:induction false} RunsAt(s: string, from: nat, k: CharClass)
    requires from < |s| && InClass(s[from], k)
    ensures Runs(s[from..], k) == [s[from..Skip(s, from, k)]] + Runs(s[Skip(s, from, k)..], k)
    decreases |s| - from
  {
    var e := Skip(s, from, k);
    assert s[from..][1..] == s[from + 1..];
    if from + 1 < |s| && InClass(s[from + 1], k) {
      RunsAt(s, from + 1, k);
      assert Skip(s, from + 1, k) == e;
      assert [s[from]] + s[from + 1..e] == s[from..e];
    } else {
      assert e == from + 1;
      assert s[from..e] == [s[from]];
    }
  }

  lemma {:induction false} SplitWsFromRuns(s: string, from: nat)
    requires from <= |s|
    ensures SplitWsFrom(s, from) == Runs(s[from..], NonSpace)
    decreases |s| - from
  {
    if from < |s| {
      if IsSpace(s[from]) {
        SplitWsFromSpace(s, from);
        assert s[from..][1..] == s[from + 1..];
        SplitWsFromRuns(s, from + 1);
      } else {
        RunsAt(s, from, NonSpace);
        SplitWsFromRuns(s, Skip(s, from, NonSpace));
      }
    }
  }

  /** `s.split()` gives exactly the maximal runs of non-whitespace characters, in order. */
  lemma SplitWsRuns(s: string)
    ensures SplitWs(s) == Runs(s, NonSpace)
  {
    SplitWsFromRuns(s, 0);
    assert s[0..] == s;
  }

  /** A word-sorting token: at least two characters, all of them word characters. */
  predicate IsToken(w: string) {
    |w| >= 2 && forall i :: 0 <= i < |w| ==> IsWordChar(w[i])
  }

  /** Every word is a token. */
  predicate AllTokens(words: seq<string>) {
    |words| == 0 || (IsToken(words[0]) && AllTokens(words[1..]))
  }

  lemma {:induction false} AllTokensMeaning(words: seq<string>)
    requires forall k :: 0 <= k < |words| ==> IsToken(words[k])
    ensures AllTokens(words)
  {
    if |words| > 0 {
      var tail := words[1..];
      assert forall k :: 0 <= k < |tail| ==> IsToken(tail[k]) by {
        forall k | 0 <= k < |tail| ensures IsToken(tail[k]) {
          assert tail[k] == words[k + 1];
        }
      }
      AllTokensMeaning(tail);
    }
  }

  /** Splitting on whitespace undoes joining tokens with single spaces. */
  lemma {:induction false} SplitWsFromJoin(s: string, from: nat, words: seq<string>)
    requires from <= |s| && s[from..] == Join(words, " ") && AllTokens(words)
    ensures SplitWsFrom(s, from) == words
    decreases |words|
  {
    if |words| == 0 {
      assert |s[from..]| == 0;
    } else if |words| == 1 {
      assert s[from..from + |words[0]|] == words[0];
      TokenRun(s, from, words[0]);
    } else {
      var w, tail := words[0], words[1..];
      JoinSlices(s, from, w, tail);
      SplitWsFromJoin(s, from + |w| + 1, tail);
      SplitWsFromToken(s, from, w, tail);
      assert words == [w] + tail;
    }
  }

  /** Where `s[from..]` is `w`, a space and the rest joined. */
  lemma JoinSlices(s: string, from: nat, w: string, tail: seq<string>)
    requires from <= |s| && |tail| >= 1 && s[from..] == Join([w] + tail, " ")
    ensures from + |w| < |s| && s[from..from + |w|] == w && s[from + |w|] == ' '
    ensures s[from + |w| + 1..] == Join(tail, " ")
  {
    JoinCons(w, tail, " ");
    SliceParts(s, from, w, " ", Join(tail, " "));
  }

  /** Where `s[from..]` is `a + b + c` with `b` one character: `a`, `b` and `c` are slices of
      `s`. */
  lemma SliceParts(s: string, from: nat, a: string, b: string, c: string)
    requires from <= |s| && |b| == 1 && s[from..] == a + b + c
    ensures from + |a| < |s| && s[from..from + |a|] == a && s[from + |a|] == b[0]
    ensures s[from + |a| + 1..] == c
  {
    var t := s[from..];
    assert t[..|a|] == a;
    assert t[|a|] == b[0];
    assert t[|a| + 1..] == c;
  }

  lemma SplitWsFromToken(s: string, from: nat, w: string, tail: seq<string>)
    requires IsToken(w) && from + |w| < |s| && s[from..from + |w|] == w && s[from + |w|] == ' '
    requires SplitWsFrom(s, from + |w| + 1) == tail
    ensures SplitWsFrom(s, from) == [w] + tail
  {
    TokenRun(s, from, w);
    SplitWsFromSpace(s, from + |w|);
    assert SplitWsFrom(s, from) == [s[from..from + |w|]] + SplitWsFrom(s, from + |w|);
  }

  /** A whitespace character at `i` does not change what follows it splits into. */
  lemma SplitWsFromSpace(s: string, i: nat)
    requires i < |s| && IsSpace(s[i])
    ensures SplitWsFrom(s, i) == SplitWsFrom(s, i + 1)
  {
    assert Skip(s, i, Space) == Skip(s, i + 1, Space);
  }

  /** A token followed by whitespace or the end of the text is one whole run. */
  lemma TokenRun(s: string, from: nat, w: string)
    requires IsToken(w) && from + |w| <= |s| && s[from..from + |w|] == w
    requires from + |w| == |s| || IsSpace(s[from + |w|])
    ensures Skip(s, from, Space) == from
    ensures Skip(s, from, NonSpace) == from + |w|
  {
    assert s[from] == w[0];
    SkipMeaning(s, from, NonSpace);
  }

  /** Joining tokens with single spaces and splitting on whitespace gives the tokens back. */
  lemma SplitWsJoin(words: seq<string>)
    requires forall k :: 0 <= k < |words| ==> IsToken(words[k])
    ensures SplitWs(Join(words, " ")) == words
  {
    var s := Join(words, " ");
    assert s[0..] == s;
    AllTokensMeaning(words);
    SplitWsFromJoin(s, 0, words);
  }

  /** `s.replace(a, b)` for single characters. */
  function Replace(s: string, a: char, b: char): (r: string)
    ensures |r| == |s|
    ensures forall i :: 0 <= i < |s| ==> r[i] == (if s[i] == a then b else s[i])
  {
    if s == [] then [] else [if s[0] == a then b else s[0]] + Replace(s[1..], a, b)
  }

  function Min(a: int, b: int): int {
    if a <= b then a else b
  }
}
