/** The label rewriting of `clean_predicted_data`, applied to each predicted
    label: remove every `__label__`, turn every underscore into a space, then
    title-case the result. */
module LabelCleaning {
  import opened Ascii

  /** The prefix the fastText model puts on every label it returns. */
  const LabelPrefix := "__label__"

  predicate StartsWith(s: string, p: string)
  {
    |p| <= |s| && s[..|p|] == p
  }

  /** `p` occurs in `s` starting at position `i`. */
  predicate OccursAt(s: string, p: string, i: nat)
  {
    i + |p| <= |s| && s[i..i + |p|] == p
  }

  /** `re.sub(p, '', s)` for a pattern with no special characters: scan left
      to right and drop each match, resuming after it, so that matches do not
      overlap. */
  function RemoveAll(s: string, p: string): (r: string)
    requires p != []
    ensures |r| <= |s|
    ensures forall c :: c in r ==> c in s
    decreases |s|
  {
    if s == [] then []
    else if StartsWith(s, p) then RemoveAll(s[|p|..], p)
    else [s[0]] + RemoveAll(s[1..], p)
  }

  /** With no occurrence to remove, the removal changes nothing. */
  lemma {:induction false} RemoveAllUnchanged(s: string, p: string)
    requires p != []
    requires forall i :: 0 <= i <= |s| ==> !OccursAt(s, p, i)
    ensures RemoveAll(s, p) == s
    decreases |s|
  {
    if s != [] {
      assert !OccursAt(s, p, 0);
      forall i | 0 <= i <= |s[1..]|
        ensures !OccursAt(s[1..], p, i)
      {
        assert !OccursAt(s, p, i + 1);
        assert i + 1 + |p| <= |s| ==> s[1..][i..i + |p|] == s[i + 1..i + 1 + |p|];
      }
      RemoveAllUnchanged(s[1..], p);
    }
  }

  /** `__label__` opens with two underscores, so a string with no two
      adjacent underscores holds no occurrence of it. */
  lemma NoPrefixWithoutDoubleUnderscore(t: string)
    requires forall i :: 0 <= i < |t| - 1 ==> t[i] != '_' || t[i + 1] != '_'
    ensures forall i :: 0 <= i <= |t| ==> !OccursAt(t, LabelPrefix, i)
  {
    forall i | 0 <= i <= |t|
      ensures !OccursAt(t, LabelPrefix, i)
    {
      if i + |LabelPrefix| <= |t| {
        assert t[i..i + |LabelPrefix|][0] == t[i];
        assert t[i..i + |LabelPrefix|][1] == t[i + 1];
      }
    }
  }

  /** An occurrence is never skipped: when `p` occurs in `s`, the scan
      removes at least one match, so the result is strictly shorter. */
  lemma {:induction false} RemoveAllShortens(s: string, p: string, i: nat)
    requires p != []
    requires OccursAt(s, p, i)
    ensures |RemoveAll(s, p)| < |s|
    decreases |s|
  {
    if !StartsWith(s, p) {
      assert i > 0;
      assert s[1..][i - 1..i - 1 + |p|] == s[i..i + |p|];
      RemoveAllShortens(s[1..], p, i - 1);
    }
  }

  /** The removal leaves a string unchanged exactly when `p` does not occur
      in it. */
  lemma RemoveAllFixedIff(s: string, p: string)
    requires p != []
    ensures RemoveAll(s, p) == s <==> forall i :: 0 <= i <= |s| ==> !OccursAt(s, p, i)
  {
    if forall i :: 0 <= i <= |s| ==> !OccursAt(s, p, i) {
      RemoveAllUnchanged(s, p);
    } else {
      var i :| 0 <= i <= |s| && OccursAt(s, p, i);
      RemoveAllShortens(s, p, i);
    }
  }

  /** `str.replace('_', ' ')` (the regular expression `_` matches only itself). */
  function ReplaceUnderscores(s: string): (r: string)
    ensures |r| == |s|
    ensures '_' !in r
    ensures forall i :: 0 <= i < |s| ==> r[i] == if s[i] == '_' then ' ' else s[i]
  {
    seq(|s|, i requires 0 <= i < |s| => if s[i] == '_' then ' ' else s[i])
  }

  /** The three rewrites of the `label` column, in the order the code runs
      them. A canonical label has no underscore and hence no `__label__`, and
      every letter that begins a word is upper case and every other letter
      lower case. */
  function Canonical(predicted: string): (r: string)
    ensures '_' !in r
    ensures forall i :: 0 <= i <= |r| ==> !OccursAt(r, LabelPrefix, i)
    ensures IsTitled(r)
  {
    var t := Title(ReplaceUnderscores(RemoveAll(predicted, LabelPrefix)));
    NoPrefixWithoutDoubleUnderscore(t);
    t
  }

  /** The labels canonicalisation leaves unchanged are exactly the titled
      strings without an underscore. */
  lemma CanonicalFixedIff(t: string)
    ensures Canonical(t) == t <==> '_' !in t && IsTitled(t)
  {
    if '_' !in t && IsTitled(t) {
      NoPrefixWithoutDoubleUnderscore(t);
      RemoveAllUnchanged(t, LabelPrefix);
      assert ReplaceUnderscores(t) == t;
      TitleFixedIff(t);
    }
  }

  /** Canonicalising a canonical label changes nothing. */
  lemma CanonicalIdempotent(predicted: string)
    ensures Canonical(Canonical(predicted)) == Canonical(predicted)
  {
    CanonicalFixedIff(Canonical(predicted));
  }

  /** For a fastText label `__label__<name>` whose name holds no further
      `__label__`, canonicalisation is title case of the name with its
      underscores read as spaces. */
  lemma CanonicalOfPrefixed(name: string)
    requires forall i :: 0 <= i <= |name| ==> !OccursAt(name, LabelPrefix, i)
    ensures Canonical(LabelPrefix + name) == Title(ReplaceUnderscores(name))
  {
    var s := LabelPrefix + name;
    assert StartsWith(s, LabelPrefix);
    assert s[|LabelPrefix|..] == name;
    RemoveAllUnchanged(name, LabelPrefix);
  }

  /** A fastText label naming two lower-case words, `__label__<a>_<b>`,
      becomes the two words capitalised and separated by a space. */
  lemma CanonicalOfTwoWords(a: string, b: string)
    requires a != [] && forall i :: 0 <= i < |a| ==> IsLower(a[i])
    requires b != [] && forall i :: 0 <= i < |b| ==> IsLower(b[i])
    ensures Canonical(LabelPrefix + a + "_" + b)
         == [ToUpper(a[0])] + a[1..] + " " + [ToUpper(b[0])] + b[1..]
  {
    var name := a + "_" + b;
    assert LabelPrefix + a + "_" + b == LabelPrefix + name;
    NoPrefixWithoutDoubleUnderscore(name);
    CanonicalOfPrefixed(name);
    assert ReplaceUnderscores(name) == a + " " + b;
    TitleBySpace(a, b);
    TitleLowerWord(a);
    TitleLowerWord(b);
  }
}
