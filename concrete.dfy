/**
 * Facts that let a concrete response be evaluated piece by piece: where no pattern can
 * start, which letter words a run of words and separators holds, and how a text made of
 * lines splits. The self-test lemmas use them on the source's own examples.
 */
module Concrete {
  import opened Wrappers
  import opened Text
  import opened Patterns

  /** The literals a match of each pattern (other than the lone-letter line) starts with. */
  function Leads(pat: Pattern): seq<string> {
    match pat
    case BoolCuePhrase => BoolCues
    case BoolEvaluatesTo => BoolVerbs
    case BoolSoTheAnswer => BoolSo
    case ChoiceAnswerIs => ChoiceCues
    case ChoiceSoTheAnswer => ChoiceSo
    case ChoiceParenthesized => ["("]
    case ChoiceBoldParenthesized => ["**("]
    case ChoiceBoxed => ["final answer"]
    case ChoiceLoneLetter => []
    case LabeledList => ListLabels
    case AnswerColon => ["answer:"]
  }

  /** Every match starts with one of its pattern's leads. */
  lemma MatchAtLeads(pat: Pattern, s: string, q: nat)
    requires pat != ChoiceLoneLetter && MatchAt(pat, s, q).Some?
    ensures exists k :: 0 <= k < |Leads(pat)| && LitAt(s, q, Leads(pat)[k])
  {
    match pat
    case ChoiceParenthesized =>
      LitAtMeaning(s, q, "(");
      assert LitAt(s, q, Leads(pat)[0]);
    case ChoiceBoldParenthesized =>
      assert LitAt(s, q, Leads(pat)[0]);
    case ChoiceBoxed =>
      assert LitAt(s, q, Leads(pat)[0]);
    case AnswerColon =>
      assert LitAt(s, q, Leads(pat)[0]);
    case _ =>
      FirstLitMeaning(s, q, Leads(pat));
  }

  /** Characters `k..` of `lead` agree with `c` from `i + k` on, as far as `c` goes: a
      lead that runs past the end of a chunk is not ruled out by it. */
  predicate CompatFrom(c: string, i: nat, lead: string, k: nat)
    decreases |lead| - k
  {
    k >= |lead| || i + k >= |c| || (Lower(c[i + k]) == lead[k] && CompatFrom(c, i, lead, k + 1))
  }

  /** No lead can start at `i` in chunk `c`. */
  predicate NoLeadAt(c: string, i: nat, leads: seq<string>)
  {
    leads == [] || (!CompatFrom(c, i, leads[0], 0) && NoLeadAt(c, i, leads[1..]))
  }

  /** No lead can start anywhere in `c[lo..hi]`, checked by halves. */
  predicate NoLeadIn(c: string, lo: nat, hi: nat, leads: seq<string>)
    decreases hi - lo
  {
    if hi <= lo then true
    else if hi == lo + 1 then NoLeadAt(c, lo, leads)
    else NoLeadIn(c, lo, (lo + hi) / 2, leads) && NoLeadIn(c, (lo + hi) / 2, hi, leads)
  }

  lemma {:induction false} CompatFromMeaning(c: string, i: nat, lead: string, k: nat)
    requires forall j :: k <= j < |lead| && i + j < |c| ==> Lower(c[i + j]) == lead[j]
    ensures CompatFrom(c, i, lead, k)
    decreases |lead| - k
  {
    if k < |lead| && i + k < |c| {
      CompatFromMeaning(c, i, lead, k + 1);
    }
  }

  lemma {:induction false} NoLeadAtMeaning(c: string, i: nat, leads: seq<string>, j: nat)
    requires NoLeadAt(c, i, leads) && j < |leads|
    ensures !CompatFrom(c, i, leads[j], 0)
    decreases |leads|
  {
    if j > 0 {
      NoLeadAtMeaning(c, i, leads[1..], j - 1);
    }
  }

  lemma {:induction false} NoLeadInMeaning(c: string, lo: nat, hi: nat, leads: seq<string>, q: nat)
    requires NoLeadIn(c, lo, hi, leads) && lo <= q < hi
    ensures NoLeadAt(c, q, leads)
    decreases hi - lo
  {
    if hi > lo + 1 {
      var mid := (lo + hi) / 2;
      if q < mid {
        NoLeadInMeaning(c, lo, mid, leads, q);
      } else {
        NoLeadInMeaning(c, mid, hi, leads, q);
      }
    }
  }

  /** No match of `pat` starts inside a chunk in which no lead of `pat` can begin. */
  lemma NoMatchInChunk(pat: Pattern, s: string, pre: string, c: string, post: string, lo: nat, hi: nat, q: nat)
    requires s == pre + c + post
    requires pat != ChoiceLoneLetter && hi <= |c| && NoLeadIn(c, lo, hi, Leads(pat))
    requires |pre| + lo <= q < |pre| + hi
    ensures MatchAt(pat, s, q).None?
  {
    var leads := Leads(pat);
    NoLeadInMeaning(c, lo, hi, leads, q - |pre|);
    forall k | 0 <= k < |leads| ensures !LitAt(s, q, leads[k]) {
      NoLeadAtMeaning(c, q - |pre|, leads, k);
      if LitAt(s, q, leads[k]) {
        LeadInChunk(pre, c, post, q, leads[k]);
      }
    }
    if MatchAt(pat, s, q).Some? {
      MatchAtLeads(pat, s, q);
    }
  }

  /** The same for the first chunk of a text. */
  lemma NoMatchInHead(pat: Pattern, s: string, c: string, post: string, lo: nat, hi: nat, q: nat)
    requires s == c + post
    requires pat != ChoiceLoneLetter && hi <= |c| && NoLeadIn(c, lo, hi, Leads(pat))
    requires lo <= q < hi
    ensures MatchAt(pat, s, q).None?
  {
    assert [] + c == c;
    NoMatchInChunk(pat, s, [], c, post, lo, hi, q);
  }

  /** An occurrence of `lead` that starts inside chunk `c` agrees with `c` as far as `c` goes. */
  lemma LeadInChunk(pre: string, c: string, post: string, q: nat, lead: string)
    requires |pre| <= q < |pre| + |c| && LitAt(pre + c + post, q, lead)
    ensures CompatFrom(c, q - |pre|, lead, 0)
  {
    var s := pre + c + post;
    var i := q - |pre|;
    LitAtMeaning(s, q, lead);
    forall j | 0 <= j < |lead| && i + j < |c| ensures Lower(c[i + j]) == lead[j] {
      assert s[q + j] == c[i + j];
    }
    CompatFromMeaning(c, i, lead, 0);
  }

  /** A piece `w` of a text whose lower case is `lit` is an occurrence of `lit`. */
  lemma LitAtIn(pre: string, w: string, post: string, lit: string)
    requires LowerStr(w) == lit
    ensures LitAt(pre + w + post, |pre|, lit)
  {
    var s := pre + w + post;
    assert |lit| == |w|;
    forall k | 0 <= k < |lit| ensures Lower(s[|pre| + k]) == lit[k] {
      assert s[|pre| + k] == w[k];
      assert lit[k] == Lower(w[k]);
    }
    LitAtMeaning(s, |pre|, lit);
  }

  /** Two literals one after the other are an occurrence of their concatenation. */
  lemma LitAtConcat(s: string, p: nat, a: string, b: string)
    requires LitAt(s, p, a) && LitAt(s, p + |a|, b)
    ensures LitAt(s, p, a + b)
  {
    LitAtMeaning(s, p, a);
    LitAtMeaning(s, p + |a|, b);
    LitAtMeaning(s, p, a + b);
    forall k | 0 <= k < |a + b| ensures Lower(s[p + k]) == (a + b)[k] {
      if k >= |a| {
        assert s[p + k] == s[p + |a| + (k - |a|)];
      }
    }
  }

  /** An occurrence of a literal is an occurrence of its every prefix. */
  lemma LitAtPrefix(s: string, p: nat, a: string, b: string)
    requires LitAt(s, p, a + b)
    ensures LitAt(s, p, a)
  {
    LitAtMeaning(s, p, a + b);
    LitAtMeaning(s, p, a);
    forall k | 0 <= k < |a| ensures Lower(s[p + k]) == a[k] {
      assert (a + b)[k] == a[k];
    }
  }

  /** One character that differs rules a literal out. */
  lemma NotLitAt(s: string, p: nat, lit: string, k: nat)
    requires k < |lit| && p + k < |s| && Lower(s[p + k]) != lit[k]
    ensures !LitAt(s, p, lit)
  {
    LitAtMeaning(s, p, lit);
  }

  /** No lead is empty. */
  lemma LeadsNonEmpty(pat: Pattern, k: nat)
    requires k < |Leads(pat)|
    ensures Leads(pat)[k] != []
  {
  }

  /** Except for the lone-letter line, no pattern matches at the very end of a text. */
  lemma NoMatchAtEnd(pat: Pattern, s: string)
    requires pat != ChoiceLoneLetter
    ensures MatchAt(pat, s, |s|).None?
  {
    if MatchAt(pat, s, |s|).Some? {
      MatchAtLeads(pat, s, |s|);
      var k :| 0 <= k < |Leads(pat)| && LitAt(s, |s|, Leads(pat)[k]);
      LeadsNonEmpty(pat, k);
      assert false;
    }
  }

  // ---------------------------------------------------------------------------------
  // Letter words

  /** Words each followed by its separator: `ws[0] + seps[0] + ws[1] + seps[1] + ...`. */
  function Spaced(ws: seq<string>, seps: seq<string>): (s: string)
    requires |ws| == |seps|
  {
    if ws == [] then "" else ws[0] + seps[0] + Spaced(ws[1..], seps[1..])
  }

  /** The run from word `k` on is word `k`, its separator, and the run from word `k + 1`. */
  lemma SpacedFrom(ws: seq<string>, seps: seq<string>, k: nat)
    requires |ws| == |seps| && k < |ws|
    ensures Spaced(ws[k..], seps[k..]) == ws[k] + seps[k] + Spaced(ws[k + 1..], seps[k + 1..])
  {
    assert ws[k..][1..] == ws[k + 1..];
    assert seps[k..][1..] == seps[k + 1..];
  }

  /** Two runs one after the other are the run of both word lists. */
  lemma {:induction false} SpacedAppend(ws1: seq<string>, seps1: seq<string>, ws2: seq<string>, seps2: seq<string>)
    requires |ws1| == |seps1| && |ws2| == |seps2|
    ensures Spaced(ws1 + ws2, seps1 + seps2) == Spaced(ws1, seps1) + Spaced(ws2, seps2)
    decreases |ws1|
  {
    if ws1 == [] {
      assert ws1 + ws2 == ws2 && seps1 + seps2 == seps2;
    } else {
      assert (ws1 + ws2)[1..] == ws1[1..] + ws2;
      assert (seps1 + seps2)[1..] == seps1[1..] + seps2;
      SpacedAppend(ws1[1..], seps1[1..], ws2, seps2);
    }
  }

  /** A letter word followed by non-word characters. */
  predicate WordThenSep(w: string, sep: string) {
    IsAlpha(w) && |w| >= 2 && forall i :: 0 <= i < |sep| ==> !IsWordChar(sep[i])
  }

  /** A run of letter words, each followed by a separator of non-word characters (only the
      last may be empty), holds exactly those words. */
  lemma SpacedWords(ws: seq<string>, seps: seq<string>)
    requires |ws| == |seps|
    requires forall k :: 0 <= k < |ws| ==> WordThenSep(ws[k], seps[k])
    requires forall k :: 0 <= k < |seps| - 1 ==> seps[k] != []
    ensures LetterWords(Spaced(ws, seps)) == ws
  {
    var s := Spaced(ws, seps);
    assert s[0..] == s;
    SpacedWordsFrom(s, 0, ws, seps);
  }

  lemma {:induction false} SpacedWordsFrom(s: string, off: nat, ws: seq<string>, seps: seq<string>)
    requires |ws| == |seps| && off <= |s| && s[off..] == Spaced(ws, seps)
    requires forall k :: 0 <= k < |ws| ==> WordThenSep(ws[k], seps[k])
    requires forall k :: 0 <= k < |seps| - 1 ==> seps[k] != []
    requires off == 0 || off == |s| || !IsWordChar(s[off - 1])
    ensures LetterWordsFrom(s, off) == ws
    decreases |ws|
  {
    if ws != [] {
      var w, sep := ws[0], seps[0];
      var rest := Spaced(ws[1..], seps[1..]);
      var mid := off + |w|;
      var next := mid + |sep|;
      assert WordThenSep(w, sep);
      assert |ws| > 1 ==> sep != [];
      SpacedRest(ws, seps);
      SpacedSlices(s, off, w, sep, rest);
      WordAt(s, off, w, sep);
      LetterWordsStep(s, off, mid);
      PassNonWords(s, mid, next);
      if |ws| > 1 {
        assert !IsWordChar(sep[|sep| - 1]);
      }
      SpacedWordsFrom(s, next, ws[1..], seps[1..]);
      assert ws == [w] + ws[1..];
    } else {
      assert s[off..] == [];
    }
  }

  /** The words and separators after the first keep the conditions of a run. */
  lemma SpacedRest(ws: seq<string>, seps: seq<string>)
    requires |ws| == |seps| && ws != []
    requires forall k :: 0 <= k < |ws| ==> WordThenSep(ws[k], seps[k])
    requires forall k :: 0 <= k < |seps| - 1 ==> seps[k] != []
    ensures forall k :: 0 <= k < |ws| - 1 ==> WordThenSep(ws[1..][k], seps[1..][k])
    ensures forall k :: 0 <= k < |seps| - 2 ==> seps[1..][k] != []
    ensures |ws| == 1 ==> Spaced(ws[1..], seps[1..]) == []
  {
    forall k | 0 <= k < |ws| - 1 ensures WordThenSep(ws[1..][k], seps[1..][k]) {
      assert ws[1..][k] == ws[k + 1] && seps[1..][k] == seps[k + 1];
    }
    forall k | 0 <= k < |seps| - 2 ensures seps[1..][k] != [] {
      assert seps[1..][k] == seps[k + 1];
    }
  }

  /** Where the word, its separator and the rest of a run sit in the text. */
  lemma SpacedSlices(s: string, off: nat, w: string, sep: string, rest: string)
    requires off <= |s| && s[off..] == w + sep + rest
    ensures off + |w| + |sep| <= |s|
    ensures s[off..off + |w|] == w && s[off + |w|..off + |w| + |sep|] == sep && s[off + |w| + |sep|..] == rest
    ensures forall i :: off + |w| <= i < off + |w| + |sep| ==> s[i] == sep[i - off - |w|]
    ensures sep != [] ==> s[off + |w| + |sep| - 1] == sep[|sep| - 1]
  {
    var mid := off + |w|;
    var next := mid + |sep|;
    assert s[off..mid] == w;
    assert s[mid..next] == sep;
    assert s[next..] == rest;
    forall i | mid <= i < next ensures s[i] == sep[i - mid] {
      assert s[i] == s[mid..next][i - mid];
    }
  }

  /** A letter word `w` at `off`, followed by the non-word characters `sep`, is found
      whole. */
  lemma WordAt(s: string, off: nat, w: string, sep: string)
    requires WordThenSep(w, sep) && off + |w| + |sep| <= |s|
    requires s[off..off + |w|] == w && s[off + |w|..off + |w| + |sep|] == sep
    requires off == 0 || !IsWordChar(s[off - 1])
    requires sep != [] || off + |w| == |s|
    ensures LetterWordAt(s, off) == Some(off + |w|)
  {
    var mid := off + |w|;
    AllLettersMeaning(w);
    forall i | off <= i < mid ensures InClass(s[i], Letter) {
      assert s[i] == w[i - off];
    }
    if sep != [] {
      assert s[mid] == sep[0];
    }
    SkipRunTo(s, off, mid, Letter);
    assert s[off] == w[0];
    assert s[mid - 1] == w[|w| - 1];
  }

  /** `findall` passes over non-word characters. */
  lemma {:induction false} PassNonWords(s: string, from: nat, to: nat)
    requires from <= to <= |s|
    requires forall i :: from <= i < to ==> !IsWordChar(s[i])
    ensures LetterWordsFrom(s, from) == LetterWordsFrom(s, to)
    decreases |s| - from
  {
    if from < to {
      PassNonWord(s, from);
      PassNonWords(s, from + 1, to);
    }
  }

  /** `findall` passes over one non-word character. */
  lemma PassNonWord(s: string, from: nat)
    requires from < |s| && !IsWordChar(s[from])
    ensures LetterWordsFrom(s, from) == LetterWordsFrom(s, from + 1)
  {
    assert Skip(s, from, Letter) == from;
    assert LetterWordAt(s, from).None?;
  }

  /** A character in no word and no separator is not in the run. */
  lemma {:induction false} NotInSpaced(ws: seq<string>, seps: seq<string>, x: char)
    requires |ws| == |seps|
    requires forall k :: 0 <= k < |ws| ==> x !in ws[k] && x !in seps[k]
    ensures x !in Spaced(ws, seps)
    decreases |ws|
  {
    if ws != [] {
      NotInSpaced(ws[1..], seps[1..], x);
    }
  }

  // ---------------------------------------------------------------------------------
  // Joins

  /** A join from part `k` on is part `k`, the separator, and the join from part `k + 1`. */
  lemma JoinFrom(parts: seq<string>, k: nat, sep: string)
    requires k + 1 < |parts|
    ensures Join(parts[k..], sep) == parts[k] + sep + Join(parts[k + 1..], sep)
  {
    assert parts[k..][1..] == parts[k + 1..];
  }

  /** The join of the last part alone is that part. */
  lemma JoinLastOne(parts: seq<string>, sep: string)
    requires parts != []
    ensures Join(parts[|parts| - 1..], sep) == parts[|parts| - 1]
  {
    assert parts[|parts| - 1..] == [parts[|parts| - 1]];
  }
}
