/** Character classes and the two Python string methods the core applies to
    whole strings, `str.lower()` and `str.title()`, over ASCII: a character is
    cased exactly when it is an ASCII letter, and every other character is left
    as it is. */
module Ascii {

  predicate IsUpper(c: char) { 'A' <= c <= 'Z' }

  predicate IsLower(c: char) { 'a' <= c <= 'z' }

  /** Python's "cased" character class, restricted to ASCII. */
  predicate IsLetter(c: char) { IsUpper(c) || IsLower(c) }

  function ToUpper(c: char): char
  {
    if IsLower(c) then (c as int - 32) as char else c
  }

  function ToLower(c: char): char
  {
    if IsUpper(c) then (c as int + 32) as char else c
  }

  /** `str.lower()`: every letter lower-cased, every other character kept. */
  function Lower(s: string): (r: string)
    ensures |r| == |s|
    ensures forall i :: 0 <= i < |s| ==> !IsUpper(r[i])
    ensures forall i :: 0 <= i < |s| ==> (IsLetter(r[i]) <==> IsLetter(s[i]))
    ensures forall i :: 0 <= i < |s| && !IsLetter(s[i]) ==> r[i] == s[i]
    ensures forall i :: 0 <= i < |s| && IsLetter(s[i]) ==> ToUpper(r[i]) == ToUpper(s[i])
  {
    seq(|s|, i requires 0 <= i < |s| => ToLower(s[i]))
  }

  /** Position `i` of `s` begins a word for `str.title()`: it is the first
      character or follows a character that is not cased. */
  predicate StartsWord(s: string, i: nat)
    requires i < |s|
  {
    i == 0 || !IsLetter(s[i - 1])
  }

  /** `str.title()` as CPython computes it, one pass from the left. The
      pass agrees, position by position, with the word rule: a letter is
      upper-cased at the start of a word and lower-cased elsewhere. */
  function Title(s: string): (r: string)
    ensures |r| == |s|
    ensures forall i :: 0 <= i < |s| ==>
              r[i] == if StartsWord(s, i) then ToUpper(s[i]) else ToLower(s[i])
  {
    TitleAfterEach(s, false);
    TitleAfter(s, false)
  }

  /** The rest of that pass, given whether the character before `s` was
      cased. */
  function TitleAfter(s: string, previousIsCased: bool): (r: string)
    ensures |r| == |s|
    decreases s
  {
    if s == [] then []
    else
      [if previousIsCased then ToLower(s[0]) else ToUpper(s[0])]
      + TitleAfter(s[1..], IsLetter(s[0]))
  }

  /** Each character of the pass is lower-cased exactly when the character
      before it (or, for the first, the carried state) was cased, and mapped
      to title case otherwise. */
  lemma {:induction false} TitleAfterAt(s: string, previousIsCased: bool, i: nat)
    requires i < |s|
    ensures TitleAfter(s, previousIsCased)[i]
         == if (if i == 0 then previousIsCased else IsLetter(s[i - 1]))
            then ToLower(s[i]) else ToUpper(s[i])
    decreases i
  {
    if i > 0 {
      TitleAfterAt(s[1..], IsLetter(s[0]), i - 1);
      if i > 1 {
        assert s[1..][i - 2] == s[i - 1];
      }
    }
  }

  lemma TitleAfterEach(s: string, previousIsCased: bool)
    ensures forall i :: 0 <= i < |s| ==>
              TitleAfter(s, previousIsCased)[i]
              == if (if i == 0 then previousIsCased else IsLetter(s[i - 1]))
                 then ToLower(s[i]) else ToUpper(s[i])
  {
    forall i | 0 <= i < |s|
      ensures TitleAfter(s, previousIsCased)[i]
              == if (if i == 0 then previousIsCased else IsLetter(s[i - 1]))
                 then ToLower(s[i]) else ToUpper(s[i])
    {
      TitleAfterAt(s, previousIsCased, i);
    }
  }

  /** A string `str.title()` leaves alone: each letter that begins a word is
      upper case and every other letter is lower case. This is the
      fixed-point predicate of `str.title()`, not `str.istitle()`: it also
      holds of strings with no cased character, such as `""` or `"123"`. */
  predicate IsTitled(t: string)
  {
    forall i :: 0 <= i < |t| && IsLetter(t[i]) ==>
      (StartsWord(t, i) ==> IsUpper(t[i])) && (!StartsWord(t, i) ==> IsLower(t[i]))
  }

  /** Title case changes only the case of letters: it keeps every non-letter
      where it was and every letter a letter. */
  lemma TitleKeepsShape(s: string)
    ensures |Title(s)| == |s|
    ensures forall i :: 0 <= i < |s| ==> (IsLetter(Title(s)[i]) <==> IsLetter(s[i]))
    ensures forall i :: 0 <= i < |s| && !IsLetter(s[i]) ==> Title(s)[i] == s[i]
    ensures forall c :: c in Title(s) && !IsLetter(c) ==> c in s
  {
  }

  lemma TitleIsTitled(s: string)
    ensures IsTitled(Title(s))
  {
    var t := Title(s);
    TitleKeepsShape(s);
  }

  /** `str.title()` leaves a string unchanged exactly when it is already titled. */
  lemma TitleFixedIff(t: string)
    ensures Title(t) == t <==> IsTitled(t)
  {
    if IsTitled(t) {
      TitleKeepsShape(t);
      assert forall i :: 0 <= i < |t| ==> Title(t)[i] == t[i];
    } else {
      TitleIsTitled(t);
    }
  }

  lemma TitleIdempotent(s: string)
    ensures Title(Title(s)) == Title(s)
  {
    TitleIsTitled(s);
    TitleFixedIff(Title(s));
  }

  lemma TitleAfterAppend(a: string, b: string, previousIsCased: bool)
    ensures TitleAfter(a + b, previousIsCased)
         == TitleAfter(a, previousIsCased)
            + TitleAfter(b, if a == [] then previousIsCased else IsLetter(a[|a| - 1]))
  {
    var s := a + b;
    var carried := if a == [] then previousIsCased else IsLetter(a[|a| - 1]);
    var r := TitleAfter(a, previousIsCased) + TitleAfter(b, carried);
    forall i | 0 <= i < |s|
      ensures TitleAfter(s, previousIsCased)[i] == r[i]
    {
      TitleAfterAt(s, previousIsCased, i);
      if i < |a| {
        TitleAfterAt(a, previousIsCased, i);
        assert s[i] == a[i] && (i > 0 ==> s[i - 1] == a[i - 1]);
      } else {
        var j := i - |a|;
        TitleAfterAt(b, carried, j);
        assert r[i] == TitleAfter(b, carried)[j];
        assert s[i] == b[j] && (j > 0 ==> s[i - 1] == b[j - 1]);
        assert j == 0 && a != [] ==> s[i - 1] == a[|a| - 1];
      }
    }
  }

  /** Title case works word by word: a space ends a word, so the two sides of
      it are title-cased independently. */
  lemma TitleBySpace(a: string, b: string)
    ensures Title(a + " " + b) == Title(a) + " " + Title(b)
  {
    var s := a + " " + b;
    var r := Title(a) + " " + Title(b);
    forall i | 0 <= i < |s|
      ensures Title(s)[i] == r[i]
    {
      if i < |a| {
        assert s[i] == a[i] && (i > 0 ==> s[i - 1] == a[i - 1]);
        assert StartsWord(s, i) == StartsWord(a, i);
      } else if i > |a| {
        var j := i - |a| - 1;
        assert s[i] == b[j] && (j > 0 ==> s[i - 1] == b[j - 1]);
        assert StartsWord(s, i) == StartsWord(b, j);
      }
    }
  }

  /** A word of lower-case letters is title-cased by capitalising its first
      letter. */
  lemma TitleLowerWord(w: string)
    requires w != []
    requires forall i :: 0 <= i < |w| ==> IsLower(w[i])
    ensures Title(w) == [ToUpper(w[0])] + w[1..]
  {
    assert forall i :: 0 < i < |w| ==> Title(w)[i] == w[i];
  }
}
