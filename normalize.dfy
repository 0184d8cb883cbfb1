/**
 * The query normaliser `preprocess` of search.py: lower-case, drop every
 * character outside `[a-z0-9\s]`, turn each whitespace run into one space,
 * strip both ends.
 */
module Normalize {
  import opened Text

  /** The characters the class `[a-z0-9\s]` lets through. */
  predicate InClass(c: char) {
    IsLowerLetter(c) || IsDigit(c) || IsSpace(c)
  }

  /** `re.sub(r'[^a-z0-9\s]', '', s)` */
  function KeepAlnumSpace(s: string): (r: string)
    ensures forall i :: 0 <= i < |r| ==> InClass(r[i])
  {
    if s == [] then [] else (if InClass(s[0]) then [s[0]] else []) + KeepAlnumSpace(s[1..])
  }

  /** A single character survives exactly when it is in the class. */
  lemma KeepAlnumSpaceOne(c: char)
    ensures KeepAlnumSpace([c]) == if InClass(c) then [c] else []
  {
    assert [c][1..] == [];
  }

  /** The substitution works character by character: it distributes over
      concatenation, so with the one-character case it is exactly a filter. */
  lemma {:induction false} KeepAlnumSpaceAppend(a: string, b: string)
    ensures KeepAlnumSpace(a + b) == KeepAlnumSpace(a) + KeepAlnumSpace(b)
    decreases |a|
  {
    if a == [] {
      assert a + b == b;
    } else {
      assert (a + b)[0] == a[0];
      assert (a + b)[1..] == a[1..] + b;
      KeepAlnumSpaceAppend(a[1..], b);
    }
  }

  /** `re.sub(r'\s+', ' ', s)`: each maximal whitespace run becomes one space. */
  function Collapse(s: string): string
    decreases |s|
  {
    if s == [] then []
    else if IsSpace(s[0]) then " " + Collapse(DropSpaces(s[1..]))
    else [s[0]] + Collapse(s[1..])
  }

  /** `s.rstrip()` */
  function StripRight(s: string): string {
    if s != [] && IsSpace(s[|s| - 1]) then StripRight(s[..|s| - 1]) else s
  }

  /** `s.strip()` */
  function Strip(s: string): string {
    StripRight(DropSpaces(s))
  }

  /** The shape of every normalised query: lower-case ASCII letters, digits and
      single spaces, with no space at either end. */
  ghost predicate Canonical(s: string) {
    && (forall i :: 0 <= i < |s| ==> IsLowerLetter(s[i]) || IsDigit(s[i]) || s[i] == ' ')
    && (s != [] ==> s[0] != ' ' && s[|s| - 1] != ' ')
    && (forall i :: 0 <= i < |s| - 1 ==> !(s[i] == ' ' && s[i + 1] == ' '))
  }

  /** `preprocess(text)`. Its result is canonical, and it is the words of the
      cleaned text joined by single spaces, i.e. `" ".join(cleaned.split())`. */
  function Preprocess(text: string): (r: string)
    ensures Canonical(r)
    ensures r == JoinWords(Words(KeepAlnumSpace(Lower(text))))
  {
    var cleaned := KeepAlnumSpace(Lower(text));
    CollapseStripIsSplitJoin(cleaned);
    WordsAreRuns(cleaned);
    WordsOfCleaned(cleaned);
    JoinCanonical(Words(cleaned));
    Strip(Collapse(cleaned))
  }

  /** `preprocess` is idempotent. */
  lemma PreprocessIdempotent(text: string)
    ensures Preprocess(Preprocess(text)) == Preprocess(text)
  {
    var r := Preprocess(text);
    var ws := Words(KeepAlnumSpace(Lower(text)));
    LowerFixed(r);
    KeepFixed(r);
    WordsAreRuns(KeepAlnumSpace(Lower(text)));
    WordsJoinRoundTrip(ws);
  }

  lemma {:induction false} KeepFixed(s: string)
    requires forall i :: 0 <= i < |s| ==> InClass(s[i])
    ensures KeepAlnumSpace(s) == s
  {
    if s != [] {
      KeepFixed(s[1..]);
      assert [s[0]] + s[1..] == s;
    }
  }

  predicate LettersAndDigits(w: string) {
    forall j :: 0 <= j < |w| ==> IsLowerLetter(w[j]) || IsDigit(w[j])
  }

  /** Only characters `[a-z0-9\s]` keeps. */
  predicate Cleaned(s: string) {
    forall i :: 0 <= i < |s| ==> InClass(s[i])
  }

  /** The words of a string made of `[a-z0-9\s]` are made of letters and digits. */
  lemma {:induction false} WordsOfCleaned(s: string)
    requires Cleaned(s)
    ensures forall k :: 0 <= k < |Words(s)| ==> LettersAndDigits(Words(s)[k])
    decreases |s|
  {
    var t := DropSpaces(s);
    if t != [] {
      var w := TakeWord(t);
      var rest := t[|w|..];
      CleanedSuffix(s, |s| - |t|);
      CleanedPrefix(t, |w|);
      CleanedWord(w);
      CleanedSuffix(t, |w|);
      WordsOfCleaned(rest);
      assert Words(s) == [w] + Words(rest);
      forall k | 0 <= k < |Words(s)|
        ensures LettersAndDigits(Words(s)[k])
      {
        if k > 0 {
          assert Words(s)[k] == Words(rest)[k - 1];
        }
      }
    }
  }

  lemma CleanedSuffix(s: string, n: nat)
    requires Cleaned(s) && n <= |s|
    ensures Cleaned(s[n..])
  {
    assert forall i :: 0 <= i < |s| - n ==> s[n..][i] == s[n + i];
  }

  lemma CleanedPrefix(s: string, n: nat)
    requires Cleaned(s) && n <= |s|
    ensures Cleaned(s[..n])
  {
    assert forall i :: 0 <= i < n ==> s[..n][i] == s[i];
  }

  lemma CleanedWord(w: string)
    requires Cleaned(w) && NoSpace(w)
    ensures LettersAndDigits(w)
  {
  }

  /** Joining non-empty words of letters and digits gives a canonical string. */
  lemma {:induction false} JoinCanonical(ws: seq<string>)
    requires forall k :: 0 <= k < |ws| ==> ws[k] != []
    requires forall k :: 0 <= k < |ws| ==> LettersAndDigits(ws[k])
    ensures Canonical(JoinWords(ws))
    ensures ws != [] ==> JoinWords(ws) != []
  {
    if |ws| == 1 {
      assert LettersAndDigits(ws[0]);
    } else if |ws| > 1 {
      JoinCanonical(ws[1..]);
      var w, tail := ws[0], JoinWords(ws[1..]);
      var s := w + " " + tail;
      assert LettersAndDigits(w);
      assert forall i :: 0 <= i < |w| ==> s[i] == w[i];
      assert s[|w|] == ' ';
      assert forall i :: |w| < i < |s| ==> s[i] == tail[i - |w| - 1];
      assert forall i :: 0 <= i < |s| - 1 ==> !(s[i] == ' ' && s[i + 1] == ' ') by {
        forall i | 0 <= i < |s| - 1 ensures !(s[i] == ' ' && s[i + 1] == ' ') {
          if i > |w| {
            assert s[i] == tail[i - |w| - 1] && s[i + 1] == tail[i - |w|];
          }
        }
      }
    }
  }

  // ---- the rewrite chain equals split-then-join ----

  /** `re.sub(r'\s+', ' ', s).strip() == " ".join(s.split())` */
  lemma CollapseStripIsSplitJoin(s: string)
    ensures Strip(Collapse(s)) == JoinWords(Words(s))
  {
    var d := DropSpaces(s);
    LeadingSpaceOfCollapse(s);
    StripRightCollapse(d);
    assert Words(d) == Words(s);
  }

  /** Collapsing commutes with dropping the leading whitespace. */
  lemma {:induction false} LeadingSpaceOfCollapse(s: string)
    ensures DropSpaces(Collapse(s)) == Collapse(DropSpaces(s))
  {
    var d := DropSpaces(s);
    CollapseKeepsFirst(d);
    if s != [] && IsSpace(s[0]) {
      var c := " " + Collapse(d);
      SpaceRunOfCollapse(s, d, c);
      SpaceThen(Collapse(d));
      assert c == [' '] + Collapse(d);
      DropSpacesAfterSpace(c);
    }
  }

  lemma SpaceRunOfCollapse(s: string, d: string, c: string)
    requires s != [] && IsSpace(s[0]) && d == DropSpaces(s) && c == " " + Collapse(d)
    ensures Collapse(s) == c
  {
    assert DropSpaces(s[1..]) == d;
  }

  lemma DropSpacesAfterSpace(c: string)
    requires c != [] && IsSpace(c[0])
    ensures DropSpaces(c) == DropSpaces(c[1..])
  {
  }

  /** Collapsing a string that does not start with whitespace leaves its start alone. */
  lemma CollapseKeepsFirst(d: string)
    requires d == [] || !IsSpace(d[0])
    ensures DropSpaces(Collapse(d)) == Collapse(d)
  {
    if d != [] {
      assert Collapse(d) == [d[0]] + Collapse(d[1..]);
    }
  }

  lemma {:induction false} CollapseWordThen(w: string, rest: string)
    requires NoSpace(w)
    ensures Collapse(w + rest) == w + Collapse(rest)
  {
    if w == [] {
      assert w + rest == rest;
    } else {
      assert (w + rest)[1..] == w[1..] + rest;
      CollapseWordThen(w[1..], rest);
      assert [w[0]] + (w[1..] + Collapse(rest)) == w + Collapse(rest);
    }
  }

  lemma {:induction false} StripRightAppendSpaces(x: string, y: string)
    requires x == [] || !IsSpace(x[|x| - 1])
    requires forall i :: 0 <= i < |y| ==> IsSpace(y[i])
    ensures StripRight(x + y) == x
    decreases |y|
  {
    if y == [] {
      assert x + y == x;
    } else {
      assert (x + y)[..|x + y| - 1] == x + y[..|y| - 1];
      StripRightAppendSpaces(x, y[..|y| - 1]);
    }
  }

  lemma {:induction false} StripRightKeeps(x: string, y: string)
    requires y != [] && !IsSpace(y[0])
    ensures StripRight(x + y) == x + StripRight(y)
    decreases |y|
  {
    if IsSpace(y[|y| - 1]) {
      assert (x + y)[..|x + y| - 1] == x + y[..|y| - 1];
      StripRightKeeps(x, y[..|y| - 1]);
    }
  }

  /** A whitespace run collapses to one space in front of the rest. */
  lemma CollapseOfSpaceRun(s: string)
    requires s != [] && IsSpace(s[0])
    ensures Collapse(s) == " " + Collapse(DropSpaces(s))
  {
    assert DropSpaces(s[1..]) == DropSpaces(s);
  }

  /** Leading whitespace changes nothing for `split()`. */
  lemma WordsSkipSpaces(s: string)
    ensures Words(DropSpaces(s)) == Words(s)
  {
  }

  /** From a non-space start: the right-stripped collapse is split-then-join. */
  lemma {:induction false} StripRightCollapse(u: string)
    requires u == [] || !IsSpace(u[0])
    ensures StripRight(Collapse(u)) == JoinWords(Words(u))
    decreases |u|
  {
    if u != [] {
      var w := TakeWord(u);
      var rest := u[|w|..];
      assert u == w + rest;
      WordsOfWordThen(w, rest);
      CollapseWordThen(w, rest);
      var v := DropSpaces(rest);
      WordsSkipSpaces(rest);
      if v == [] {
        StripRightWordThenSpaces(w, rest);
      } else {
        CollapseOfSpaceRun(rest);
        StripRightCollapse(v);
        StripRightWordThenMore(w, Collapse(v), JoinWords(Words(v)), Words(v));
      }
    }
  }

  lemma {:induction false} StripRightWordThenSpaces(w: string, rest: string)
    requires w != [] && NoSpace(w)
    requires rest == [] || IsSpace(rest[0])
    requires DropSpaces(rest) == []
    ensures StripRight(w + Collapse(rest)) == w
  {
    if rest == [] {
      StripRightAppendSpaces(w, []);
      assert w + [] == w;
    } else {
      CollapseOfSpaceRun(rest);
      assert Collapse(rest) == " ";
      StripRightAppendSpaces(w, " ");
    }
  }

  lemma {:induction false} StripRightWordThenMore(w: string, c: string, j: string, ws: seq<string>)
    requires w != [] && c != [] && !IsSpace(c[0])
    requires StripRight(c) == j && JoinWords(ws) == j && ws != []
    ensures StripRight(w + (" " + c)) == JoinWords([w] + ws)
  {
    StripRightKeeps(w + " ", c);
    assert w + (" " + c) == (w + " ") + c;
    assert ([w] + ws)[1..] == ws;
  }
}
