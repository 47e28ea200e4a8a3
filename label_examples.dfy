/** The two worked examples of label canonicalisation, proved from the
    general lemmas of `LabelCleaning` as a client of that module. */
module LabelExamples {
  import opened Ascii
  import opened LabelCleaning

  // The strings below are parameters fixed by preconditions rather than
  // literals: on a literal argument Dafny unfolds the functions along the
  // whole string. Each step is its own small lemma for the same reason.

  /** `office_supplies` holds no `__label__`. */
  lemma OfficeSuppliesHasNoPrefix(name: string)
    requires name == "office_supplies"
    ensures forall i :: 0 <= i <= |name| ==> !OccursAt(name, LabelPrefix, i)
  {
    NoPrefixWithoutDoubleUnderscore(name);
  }

  /** Its underscore becomes the space between the two words. */
  lemma OfficeSuppliesSpaced(name: string, first: string, second: string)
    requires name == "office_supplies" && first == "office" && second == "supplies"
    ensures ReplaceUnderscores(name) == first + " " + second
  {
  }

  lemma TitleOffice(w: string)
    requires w == "office"
    ensures Title(w) == "Office"
  {
    TitleLowerWord(w);
  }

  lemma TitleSupplies(w: string)
    requires w == "supplies"
    ensures Title(w) == "Supplies"
  {
    TitleLowerWord(w);
  }

  /** The two words of `office_supplies`, either side of its underscore. */
  lemma OfficeSuppliesWords(name: string)
    requires name == "office_supplies"
    ensures name[..6] == "office" && name[7..] == "supplies"
  {
  }

  /** The two title-cased words, joined by the space. */
  lemma OfficeSuppliesJoined(first: string, second: string)
    requires first == "Office" && second == "Supplies"
    ensures first + " " + second == "Office Supplies"
  {
  }

  /** `__label__office_supplies` becomes `Office Supplies`. */
  lemma CanonicalOfficeSupplies(name: string)
    requires name == "office_supplies"
    ensures Canonical(LabelPrefix + name) == "Office Supplies"
  {
    var first, second := name[..6], name[7..];
    OfficeSuppliesWords(name);
    OfficeSuppliesHasNoPrefix(name);
    CanonicalOfPrefixed(name);
    OfficeSuppliesSpaced(name, first, second);
    TitleBySpace(first, second);
    TitleOffice(first);
    TitleSupplies(second);
    OfficeSuppliesJoined(Title(first), Title(second));
  }

  /** `a_b_c` holds no `__label__`, and its underscores become spaces. */
  lemma AbcSpaced(name: string)
    requires name == "a_b_c"
    ensures forall i :: 0 <= i <= |name| ==> !OccursAt(name, LabelPrefix, i)
    ensures ReplaceUnderscores(name) == "a b c"
  {
    NoPrefixWithoutDoubleUnderscore(name);
  }

  /** `__label__a_b_c` becomes `A B C`. */
  lemma CanonicalAbc(name: string)
    requires name == "a_b_c"
    ensures Canonical(LabelPrefix + name) == "A B C"
  {
    AbcSpaced(name);
    CanonicalOfPrefixed(name);
  }
}
