/** The text normaliser of `spacy_text_cleaning`: each description is
    lower-cased and tokenised, tokens that carry little signal are dropped,
    and the survivors are joined by single spaces. The spaCy pipeline itself
    (tokeniser, lemmatiser, stop-word list, number classifier) is the
    parameter `nlp`; its output is a sequence of tokens with the attributes
    the filter reads. */
module TextCleaning {
  import opened Ascii
  import opened Records

  /** A spaCy token, reduced to the attributes the filter reads (`lemmaForm`
      is spaCy's `lemma_`). */
  datatype Token = Token(text: string, isSpace: bool, likeNum: bool, isStop: bool, lemmaForm: string)

  /** The lemma spaCy 2 gives every pronoun. */
  const PronounLemma := "-PRON-"

  /** A token survives when none of the five discard rules fires: it is not
      whitespace, not number-like, at least two characters long, not a stop
      word, and not a pronoun. */
  predicate Keep(t: Token)
  {
    !t.isSpace && !t.likeNum && |t.text| >= 2 && !t.isStop && t.lemmaForm != PronounLemma
  }

  /** The texts of the surviving tokens of `doc`, in document order: never
      more texts than tokens, and none shorter than two characters.
      `KeptTextsSelect` says which tokens they are. */
  function KeptTexts(doc: seq<Token>): (r: seq<string>)
    ensures |r| <= |doc|
    ensures forall k :: 0 <= k < |r| ==> |r[k]| >= 2
  {
    if doc == [] then []
    else
      var last := doc[|doc| - 1];
      KeptTexts(doc[..|doc| - 1]) + (if Keep(last) then [last.text] else [])
  }

  /** The positions of the surviving tokens of `doc`: strictly increasing,
      each one a surviving token, and every surviving token among them. */
  function KeptIndices(doc: seq<Token>): (idx: seq<nat>)
    ensures forall k :: 0 <= k < |idx| ==> idx[k] < |doc| && Keep(doc[idx[k]])
    ensures forall k, l :: 0 <= k < l < |idx| ==> idx[k] < idx[l]
    ensures forall i :: 0 <= i < |doc| && Keep(doc[i]) ==> i in idx
  {
    if doc == [] then []
    else
      var n := |doc| - 1;
      KeptIndices(doc[..n]) + (if Keep(doc[n]) then [n] else [])
  }

  /** The surviving texts are the texts of the tokens at `KeptIndices(doc)`:
      an order-preserving selection of the document, with no token moved,
      repeated or invented, that keeps exactly the tokens `Keep` admits. */
  lemma {:induction false} KeptTextsSelect(doc: seq<Token>)
    ensures |KeptTexts(doc)| == |KeptIndices(doc)|
    ensures forall k :: 0 <= k < |KeptIndices(doc)| ==>
              KeptTexts(doc)[k] == doc[KeptIndices(doc)[k]].text
  {
    if doc != [] {
      var n := |doc| - 1;
      KeptTextsSelect(doc[..n]);
      assert KeptTexts(doc) == KeptTexts(doc[..n]) + (if Keep(doc[n]) then [doc[n].text] else []);
      assert KeptIndices(doc) == KeptIndices(doc[..n]) + (if Keep(doc[n]) then [n] else []);
      forall k | 0 <= k < |KeptIndices(doc[..n])|
        ensures doc[..n][KeptIndices(doc[..n])[k]] == doc[KeptIndices(doc[..n])[k]]
      {
      }
    }
  }

  /** Every surviving text comes from a token that passes all five rules, so
      in particular it is at least two characters long. */
  lemma KeptTextsSurvive(doc: seq<Token>)
    ensures forall w :: w in KeptTexts(doc) ==>
              |w| >= 2 && exists i :: 0 <= i < |doc| && Keep(doc[i]) && doc[i].text == w
  {
    KeptTextsSelect(doc);
  }

  /** Python's `" ".join(words)`. Joining non-empty words gives the empty
      string exactly when there are no words; `SplitJoin` shows that nothing
      is lost when no word holds a space. */
  function Join(words: seq<string>): (r: string)
    ensures (forall k :: 0 <= k < |words| ==> words[k] != "") ==> (r == "" <==> words == [])
  {
    if words == [] then ""
    else if |words| == 1 then words[0]
    else words[0] + " " + Join(words[1..])
  }

  /** One description's cleaned text, given its tokens. It is empty exactly
      when no token of the description survives; such a description still
      gets its (empty) text. */
  function CleanDoc(doc: seq<Token>): (r: string)
    ensures r == "" <==> forall i :: 0 <= i < |doc| ==> !Keep(doc[i])
  {
    KeptTextsSelect(doc);
    Join(KeptTexts(doc))
  }

  /** Position of the first space in `s`, or `|s|` when there is none. */
  function FirstSpace(s: string): (k: nat)
    ensures k <= |s|
    ensures forall j :: 0 <= j < k ==> s[j] != ' '
    ensures k < |s| ==> s[k] == ' '
  {
    if s == [] || s[0] == ' ' then 0 else 1 + FirstSpace(s[1..])
  }

  /** Splitting on single spaces, the reading a whitespace-tokenising
      consumer of the cleaned text applies; the empty string has no fields. */
  function Split(s: string): seq<string>
  {
    if s == [] then [] else Fields(s)
  }

  function Fields(s: string): seq<string>
    decreases |s|
  {
    var k := FirstSpace(s);
    if k == |s| then [s] else [s[..k]] + Fields(s[k + 1..])
  }

  /** Joining words that are non-empty and contain no space loses nothing:
      splitting the joined text gives the words back. */
  lemma {:induction false} SplitJoin(words: seq<string>)
    requires forall k :: 0 <= k < |words| ==> words[k] != "" && ' ' !in words[k]
    ensures Split(Join(words)) == words
  {
    if |words| == 1 {
      var w := words[0];
      assert FirstSpace(w) == |w|;
    } else if |words| > 1 {
      var w, rest := words[0], Join(words[1..]);
      var s := w + " " + rest;
      assert s[|w|] == ' ';
      assert FirstSpace(s) == |w|;
      assert s[..|w|] == w;
      assert s[|w| + 1..] == rest;
      SplitJoin(words[1..]);
    }
  }

  /** When no surviving token text contains a space, the cleaned text splits
      back into exactly the surviving token texts. */
  lemma CleanDocSplits(doc: seq<Token>)
    requires forall i :: 0 <= i < |doc| && Keep(doc[i]) ==> ' ' !in doc[i].text
    ensures Split(CleanDoc(doc)) == KeptTexts(doc)
  {
    KeptTextsSelect(doc);
    KeptTextsSurvive(doc);
    var kept := KeptTexts(doc);
    forall k | 0 <= k < |kept|
      ensures kept[k] != "" && ' ' !in kept[k]
    {
      assert kept[k] in kept;
      assert kept[k] == doc[KeptIndices(doc)[k]].text;
    }
    SplitJoin(kept);
  }

  /** What the cleaning stage promises about the frame it returns: one row per
      input row, in input order, each the input row with the cleaned text of
      its lower-cased, tokenised description. */
  predicate CleanedFrom(processed: seq<ProcessedRecord>, data: seq<Record>, nlp: string -> seq<Token>)
  {
    |processed| == |data| &&
    forall i :: 0 <= i < |data| ==>
      processed[i].record == data[i] &&
      processed[i].processedDesc == CleanDoc(nlp(Lower(data[i].description)))
  }

  /** `spacy_text_cleaning`: tokenise every lower-cased description, filter
      each document's tokens, join the survivors, and append the cleaned
      texts to the records as the `processed_desc` column. */
  method SpacyTextCleaning(data: seq<Record>, nlp: string -> seq<Token>)
    returns (processed: seq<ProcessedRecord>)
    ensures CleanedFrom(processed, data, nlp)
  {
    var tokenized := seq(|data|, i requires 0 <= i < |data| => nlp(Lower(data[i].description)));
    var cleanedDocs: seq<string> := [];
    for d := 0 to |tokenized|
      invariant |cleanedDocs| == d
      invariant forall i :: 0 <= i < d ==> cleanedDocs[i] == CleanDoc(tokenized[i])
    {
      var spacyDoc := tokenized[d];
      var cleanedSpacyDoc: seq<string> := [];
      for j := 0 to |spacyDoc|
        invariant cleanedSpacyDoc == KeptTexts(spacyDoc[..j])
      {
        var token := spacyDoc[j];
        assert spacyDoc[..j + 1][..j] == spacyDoc[..j];
        if token.isSpace { continue; }
        if token.likeNum { continue; }
        if |token.text| < 2 { continue; }
        if token.isStop { continue; }
        if token.lemmaForm == PronounLemma { continue; }
        cleanedSpacyDoc := cleanedSpacyDoc + [token.text];
      }
      assert spacyDoc[..|spacyDoc|] == spacyDoc;
      cleanedDocs := cleanedDocs + [Join(cleanedSpacyDoc)];
    }
    processed := seq(|data|, i requires 0 <= i < |data| => ProcessedRecord(data[i], cleanedDocs[i]));
  }
}
