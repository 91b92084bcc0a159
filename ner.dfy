/**
 * The assembly of an annotated text from a recognizer's output: the tokens
 * joined with their trailing whitespace, where the first token of every
 * organisation entity becomes a `<ner type='ORG'>...</ner> ` marker and its
 * other tokens become empty. The recognizer itself is a parameter `nlp`.
 */
module Ner {

  /** The only entity label that is marked. */
  const OrgLabel := "ORG"

  /** A token: its text and the whitespace that follows it in the input. */
  datatype Token = Token(text: string, whitespace: string)

  /** An entity over tokens `start .. stop - 1` (spaCy's `start` and `end`), with its label `kind` and covered text. */
  datatype Entity = Entity(start: nat, stop: nat, kind: string, text: string)

  datatype Doc = Doc(tokens: seq<Token>, ents: seq<Entity>)

  /** The marker that replaces the first token of an entity. */
  function Marker(e: Entity): string {
    "<ner type='" + e.kind + "'>" + e.text + "</ner> "
  }

  /**
   * The indexing the assembly does for an organisation is in range: the
   * first token exists, and so does every token of a longer span.
   */
  predicate SpanFits(e: Entity, n: nat) {
    e.kind == OrgLabel ==> e.start < n && (e.stop <= e.start + 1 || e.stop <= n)
  }

  predicate SpansFit(ents: seq<Entity>, n: nat) {
    forall k :: 0 <= k < |ents| ==> SpanFits(ents[k], n)
  }

  /** The word list before any entity: each token with its whitespace. */
  function BaseWords(tokens: seq<Token>): seq<string> {
    seq(|tokens|, (i: int) requires 0 <= i < |tokens| => tokens[i].text + tokens[i].whitespace)
  }

  /** `w` with the positions in `lo .. hi - 1` emptied. */
  function BlankRange(w: seq<string>, lo: nat, hi: nat): seq<string> {
    seq(|w|, (p: int) requires 0 <= p < |w| => if lo <= p < hi then "" else w[p])
  }

  /** One entity applied to the word list: only organisations change it. */
  function ApplyEntity(words: seq<string>, e: Entity): (r: seq<string>)
    requires SpanFits(e, |words|)
    ensures |r| == |words|
  {
    if e.kind != OrgLabel then words
    else BlankRange(words[e.start := Marker(e)], e.start + 1, e.stop)
  }

  /** The entities applied one after the other, in the recognizer's order. */
  function ApplyEntities(words: seq<string>, ents: seq<Entity>): (r: seq<string>)
    requires SpansFit(ents, |words|)
    ensures |r| == |words|
  {
    if ents == [] then words
    else
      var pre := ents[..|ents| - 1];
      assert forall k :: 0 <= k < |pre| ==> pre[k] == ents[k];
      ApplyEntity(ApplyEntities(words, pre), ents[|ents| - 1])
  }

  /** `"".join(ws)` */
  function Concat(ws: seq<string>): string {
    if ws == [] then "" else Concat(ws[..|ws| - 1]) + ws[|ws| - 1]
  }

  /** The annotated text of one recognized document. */
  function NerText(doc: Doc): string
    requires SpansFit(doc.ents, |doc.tokens|)
  {
    Concat(ApplyEntities(BaseWords(doc.tokens), doc.ents))
  }

  /** The annotated texts of a list of inputs, one per input, in order. */
  function NerResults(nlp: string -> Doc, texts: seq<string>): (r: seq<string>)
    requires forall j :: 0 <= j < |texts| ==> SpansFit(nlp(texts[j]).ents, |nlp(texts[j]).tokens|)
    ensures |r| == |texts|
  {
    seq(|texts|, (j: int) requires 0 <= j < |texts| => NerText(nlp(texts[j])))
  }

  /** Each text's result depends on that text alone: a stretch of the inputs gives the same stretch of the results. */
  lemma NerResultsSlice(nlp: string -> Doc, texts: seq<string>, a: nat, b: nat)
    requires forall j :: 0 <= j < |texts| ==> SpansFit(nlp(texts[j]).ents, |nlp(texts[j]).tokens|)
    requires a <= b <= |texts|
    ensures NerResults(nlp, texts)[a..b] == NerResults(nlp, texts[a..b])
  {
    var r, q := NerResults(nlp, texts)[a..b], NerResults(nlp, texts[a..b]);
    forall j | 0 <= j < b - a ensures r[j] == q[j] {
      assert texts[a..b][j] == texts[a + j];
    }
  }

  /** The body of the loop over recognized documents in `nerProcessPipeLine`. */
  method NerDocument(doc: Doc) returns (resultText: string)
    requires SpansFit(doc.ents, |doc.tokens|)
    ensures resultText == NerText(doc)
  {
    var tokens := doc.tokens;
    var wordList: seq<string> := [];
    for i := 0 to |tokens|
      invariant wordList == BaseWords(tokens[..i])
    {
      var tokenText := tokens[i].text;
      if tokens[i].whitespace != "" {
        tokenText := tokenText + tokens[i].whitespace;
      } else {
        assert tokenText + tokens[i].whitespace == tokenText;
      }
      assert BaseWords(tokens[..i + 1]) == BaseWords(tokens[..i]) + [tokens[i].text + tokens[i].whitespace];
      wordList := wordList + [tokenText];
    }
    assert tokens[..|tokens|] == tokens;
    ghost var base := wordList;
    for k := 0 to |doc.ents|
      invariant SpansFit(doc.ents[..k], |base|)
      invariant wordList == ApplyEntities(base, doc.ents[..k])
    {
      assert doc.ents[..k + 1][..k] == doc.ents[..k];
      var ent := doc.ents[k];
      if ent.kind != OrgLabel {
        continue;
      }
      wordList := MarkEntity(wordList, ent);
    }
    assert doc.ents[..|doc.ents|] == doc.ents;
    resultText := "";
    for j := 0 to |wordList|
      invariant resultText == Concat(wordList[..j])
    {
      assert wordList[..j + 1][..j] == wordList[..j];
      resultText := resultText + wordList[j];
    }
    assert wordList[..|wordList|] == wordList;
  }

  /** The marker on the first token of an organisation, and the loop that empties the rest of its span. */
  method MarkEntity(words: seq<string>, ent: Entity) returns (wordList: seq<string>)
    requires ent.kind == OrgLabel && SpanFits(ent, |words|)
    ensures wordList == ApplyEntity(words, ent)
  {
    wordList := words[ent.start := Marker(ent)];
    ghost var marked := wordList;
    var i := ent.start + 1;
    while i < ent.stop
      invariant ent.start + 1 <= i && (i <= ent.stop || i == ent.start + 1)
      invariant wordList == BlankRange(marked, ent.start + 1, i)
    {
      wordList := wordList[i := ""];
      i := i + 1;
    }
  }

  /** `nerProcessPipeLine`: one annotated text per input text. */
  method NerPipeline(nlp: string -> Doc, textList: seq<string>) returns (nerResults: seq<string>)
    requires forall j :: 0 <= j < |textList| ==> SpansFit(nlp(textList[j]).ents, |nlp(textList[j]).tokens|)
    ensures nerResults == NerResults(nlp, textList)
  {
    nerResults := [];
    for j := 0 to |textList|
      invariant nerResults == NerResults(nlp, textList[..j])
    {
      var resultText := NerDocument(nlp(textList[j]));
      nerResults := nerResults + [resultText];
    }
    assert textList[..|textList|] == textList;
  }

  /** A document without organisations comes back as its tokens and whitespace, untouched. */
  lemma {:induction false} NoOrgIsPlain(words: seq<string>, ents: seq<Entity>)
    requires forall k :: 0 <= k < |ents| ==> ents[k].kind != OrgLabel
    ensures ApplyEntities(words, ents) == words
    decreases |ents|
  {
    if ents != [] {
      var pre := ents[..|ents| - 1];
      assert forall k :: 0 <= k < |pre| ==> pre[k] == ents[k];
      NoOrgIsPlain(words, pre);
    }
  }

  /**
   * A text whose tokens and whitespace spell it again and in which no
   * organisation is recognized comes back unchanged.
   */
  lemma NerTextPlain(doc: Doc, text: string)
    requires SpansFit(doc.ents, |doc.tokens|)
    requires forall k :: 0 <= k < |doc.ents| ==> doc.ents[k].kind != OrgLabel
    requires Concat(BaseWords(doc.tokens)) == text
    ensures NerText(doc) == text
  {
    NoOrgIsPlain(BaseWords(doc.tokens), doc.ents);
  }

  /** The positions an organisation's marking writes: its first token and the rest of its span. */
  predicate Covers(e: Entity, i: nat) {
    e.kind == OrgLabel && e.start <= i && (i == e.start || i < e.stop)
  }

  /** No two organisations write the same position. */
  ghost predicate OrgsDisjoint(ents: seq<Entity>) {
    forall a, b, i :: 0 <= a < b < |ents| && Covers(ents[a], i) ==> !Covers(ents[b], i)
  }

  /**
   * With disjoint organisations, each position of the result is the marker
   * (first token of an organisation), empty (rest of its span) or the
   * original word (no organisation covers it).
   */
  lemma {:induction false} EntityEffects(words: seq<string>, ents: seq<Entity>)
    requires SpansFit(ents, |words|) && OrgsDisjoint(ents)
    ensures forall k, i :: 0 <= k < |ents| && 0 <= i < |words| && Covers(ents[k], i) ==>
              ApplyEntities(words, ents)[i] == if i == ents[k].start then Marker(ents[k]) else ""
    ensures forall i :: 0 <= i < |words| && (forall k :: 0 <= k < |ents| ==> !Covers(ents[k], i)) ==>
              ApplyEntities(words, ents)[i] == words[i]
    decreases |ents|
  {
    if ents != [] {
      var pre, e := ents[..|ents| - 1], ents[|ents| - 1];
      assert forall k :: 0 <= k < |pre| ==> pre[k] == ents[k];
      EntityEffects(words, pre);
      var r0, r := ApplyEntities(words, pre), ApplyEntities(words, ents);
      assert r == ApplyEntity(r0, e);
      forall i | 0 <= i < |words| && !Covers(e, i) ensures r[i] == r0[i] {
      }
      forall k, i | 0 <= k < |pre| && 0 <= i < |words| && Covers(ents[k], i)
        ensures r[i] == if i == ents[k].start then Marker(ents[k]) else ""
      {
        assert !Covers(ents[|ents| - 1], i);
        assert pre[k] == ents[k] && Covers(pre[k], i);
        assert r[i] == r0[i];
      }
      forall i | 0 <= i < |words| && (forall k :: 0 <= k < |ents| ==> !Covers(ents[k], i)) ensures r[i] == words[i] {
        assert !Covers(ents[|ents| - 1], i);
        assert forall k :: 0 <= k < |pre| ==> !Covers(pre[k], i);
      }
    }
  }
}
